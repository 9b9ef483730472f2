/** Processes that send and receive over first-in first-out channels with
    unbounded buffers, each running a fixed list of actions.  If the sends and
    receives of every channel match one by one, and each send comes before its
    receive in some order that all processes follow, then no schedule can get
    stuck, and what is received does not depend on the schedule. */
module Channels {

  datatype Msg = Msg(tag: int, data: seq<real>)

  /** An action, with a moment in the common order.  The message of a send is the
      one it is meant to send. */
  datatype Act = Send(to: nat, msg: Msg, t: int) | Recv(src: nat, tag: int, t: int)

  type Program = nat -> seq<Act>

  /** How a process makes the message of its k-th action from what it received. */
  type Payload = (nat, nat, seq<Msg>) -> Msg

  /** The sends of a process to another, and its receives from another. */
  ghost function Sends(acts: seq<Act>, to: nat): seq<Act> {
    if acts == [] then [] else
      var rest, a := Sends(acts[..|acts| - 1], to), acts[|acts| - 1];
      if a.Send? && a.to == to then rest + [a] else rest
  }

  ghost function Recvs(acts: seq<Act>, src: nat): seq<Act> {
    if acts == [] then [] else
      var rest, a := Recvs(acts[..|acts| - 1], src), acts[|acts| - 1];
      if a.Recv? && a.src == src then rest + [a] else rest
  }

  lemma SendsNext(acts: seq<Act>, a: Act, to: nat)
    ensures Sends(acts + [a], to) == if a.Send? && a.to == to then Sends(acts, to) + [a] else Sends(acts, to)
  {
    assert (acts + [a])[..|acts|] == acts;
  }

  lemma RecvsNext(acts: seq<Act>, a: Act, src: nat)
    ensures Recvs(acts + [a], src) == if a.Recv? && a.src == src then Recvs(acts, src) + [a] else Recvs(acts, src)
  {
    assert (acts + [a])[..|acts|] == acts;
  }

  lemma {:induction false} SendsAppend(a: seq<Act>, b: seq<Act>, to: nat)
    ensures Sends(a + b, to) == Sends(a, to) + Sends(b, to)
  {
    if b == [] {
      assert a + b == a;
    } else {
      var k := |b| - 1;
      SendsAppend(a, b[..k], to);
      assert a + b == a + b[..k] + [b[k]];
      SendsNext(a + b[..k], b[k], to);
    }
  }

  lemma {:induction false} RecvsAppend(a: seq<Act>, b: seq<Act>, src: nat)
    ensures Recvs(a + b, src) == Recvs(a, src) + Recvs(b, src)
  {
    if b == [] {
      assert a + b == a;
    } else {
      var k := |b| - 1;
      RecvsAppend(a, b[..k], src);
      assert a + b == a + b[..k] + [b[k]];
      RecvsNext(a + b[..k], b[k], src);
    }
  }

  /** Every send of one process to another has its receive. */
  ghost predicate Match(prog: Program, p: nat, src: nat, dst: nat) {
    var s, r := Sends(prog(src), dst), Recvs(prog(dst), src);
    && |s| == |r|
    && forall k :: 0 <= k < |s| ==> s[k].Send? && r[k].Recv? && s[k].msg.tag == r[k].tag && s[k].t < r[k].t
  }

  ghost predicate Ordered(acts: seq<Act>) {
    forall j, k :: 0 <= j < k < |acts| ==> acts[j].t < acts[k].t
  }

  ghost predicate Legal(prog: Program, p: nat) {
    && (forall s, d :: 0 <= s < p && 0 <= d < p ==> Match(prog, p, s, d))
    && (forall r :: 0 <= r < p ==> Ordered(prog(r)))
    && (forall r, k :: 0 <= r < p && 0 <= k < |prog(r)| ==> if prog(r)[k].Send? then prog(r)[k].to < p else prog(r)[k].src < p)
  }

  /** What process `r` receives in its first `k` actions, if all goes as meant. */
  ghost function Expected(prog: Program, r: nat, k: nat): seq<Msg>
    requires k <= |prog(r)|
  {
    if k == 0 then []
    else
      var rest, a := Expected(prog, r, k - 1), prog(r)[k - 1];
      if a.Send? then rest
      else
        var s, n := Sends(prog(a.src), r), |Recvs(prog(r)[..k - 1], a.src)|;
        if n < |s| && s[n].Send? then rest + [s[n].msg] else rest
  }

  /** A process that has received as expected sends what it is meant to. */
  ghost predicate Faithful(prog: Program, p: nat, pay: Payload) {
    forall r, k :: 0 <= r < p && 0 <= k < |prog(r)| && prog(r)[k].Send? ==> pay(r, k, Expected(prog, r, k)) == prog(r)[k].msg
  }

  lemma ExpectedFrom(prog: Program, r: nat, k: nat, src: nat, n: nat, send: Act)
    requires k < |prog(r)| && prog(r)[k].Recv? && prog(r)[k].src == src && send.Send?
    requires |Recvs(prog(r)[..k], src)| == n < |Sends(prog(src), r)| && Sends(prog(src), r)[n] == send
    ensures Expected(prog, r, k + 1) == Expected(prog, r, k) + [send.msg]
  {
  }

  lemma ExpectedSend(prog: Program, r: nat, k: nat)
    requires k < |prog(r)| && prog(r)[k].Send?
    ensures Expected(prog, r, k + 1) == Expected(prog, r, k)
  {
  }

  /** A process sends and then receives the first message on a channel. */
  lemma ExpectedExchange(prog: Program, r: nat, k: nat, src: nat, send: Act)
    requires k + 2 <= |prog(r)| && prog(r)[k].Send? && prog(r)[k + 1].Recv? && prog(r)[k + 1].src == src
    requires Recvs(prog(r)[..k], src) == [] && Sends(prog(src), r) != [] && Sends(prog(src), r)[0] == send && send.Send?
    ensures Expected(prog, r, k + 2) == Expected(prog, r, k) + [send.msg]
  {
    ExpectedSend(prog, r, k);
    assert prog(r)[..k + 1] == prog(r)[..k] + [prog(r)[k]];
    RecvsNext(prog(r)[..k], prog(r)[k], src);
    ExpectedFrom(prog, r, k + 1, src, 0, send);
  }

  ghost predicate ReceivesNext(prog: Program, r: nat, at: nat, m: Msg) {
    at < |prog(r)| && Expected(prog, r, at + 1) == Expected(prog, r, at) + [m]
  }

  ghost predicate ReceivesAll(prog: Program, r: nat, base: nat, parts: seq<Msg>) {
    forall k: nat :: k < |parts| ==> ReceivesNext(prog, r, base + k, parts[k])
  }

  /** Receives one after the other. */
  lemma {:induction false} ExpectedAll(prog: Program, r: nat, base: nat, before: seq<Msg>, parts: seq<Msg>, at: nat)
    requires base <= |prog(r)| && at == base + |parts| && ReceivesAll(prog, r, base, parts) && Expected(prog, r, base) == before
    ensures at <= |prog(r)| && Expected(prog, r, at) == before + parts
  {
    if parts != [] {
      var n: nat := |parts| - 1;
      var front, last := parts[..n], parts[n];
      assert ReceivesNext(prog, r, base + n, parts[n]);
      FrontReceived(prog, r, base, parts);
      ExpectedAll(prog, r, base, before, front, base + n);
      OneMoreReceived(prog, r, base + n, before, front, last);
      assert parts == front + [last];
    }
  }

  lemma FrontReceived(prog: Program, r: nat, base: nat, parts: seq<Msg>)
    requires ReceivesAll(prog, r, base, parts) && parts != []
    ensures ReceivesAll(prog, r, base, parts[..|parts| - 1])
  {
    var front := parts[..|parts| - 1];
    forall k: nat | k < |front| ensures ReceivesNext(prog, r, base + k, front[k]) {
      assert front[k] == parts[k];
    }
  }

  lemma OneMoreReceived(prog: Program, r: nat, at: nat, before: seq<Msg>, front: seq<Msg>, last: Msg)
    requires ReceivesNext(prog, r, at, last) && Expected(prog, r, at) == before + front
    ensures Expected(prog, r, at + 1) == before + (front + [last])
  {
  }

  // ----- runs -----

  /** Where each process is, what it has received, what was ever sent on each
      channel, and how many messages of that were received. */
  datatype State = State(pcs: nat -> nat, got: nat -> seq<Msg>, sent: (nat, nat) -> seq<Msg>, taken: (nat, nat) -> nat)

  ghost function Init(): State {
    State(r => 0, r => [], (a, b) => [], (a, b) => 0)
  }

  /** A send never waits; a receive takes the oldest message, which must be there
      and carry the tag. */
  ghost predicate Enabled(s: State, prog: Program, r: nat) {
    s.pcs(r) < |prog(r)| &&
    var a := prog(r)[s.pcs(r)];
    a.Recv? ==> s.taken(a.src, r) < |s.sent(a.src, r)| && s.sent(a.src, r)[s.taken(a.src, r)].tag == a.tag
  }

  ghost function Step(s: State, prog: Program, pay: Payload, r: nat): (t: State)
    requires Enabled(s, prog, r)
  {
    var k, a := s.pcs(r), prog(r)[s.pcs(r)];
    var pcs := (q: nat) => if q == r then k + 1 else s.pcs(q);
    if a.Send? then
      var m := pay(r, k, s.got(r));
      State(pcs, s.got, (x: nat, y: nat) => if x == r && y == a.to then s.sent(x, y) + [m] else s.sent(x, y), s.taken)
    else
      var m := s.sent(a.src, r)[s.taken(a.src, r)];
      State(pcs, (q: nat) => if q == r then s.got(q) + [m] else s.got(q), s.sent,
            (x: nat, y: nat) => if x == a.src && y == r then s.taken(x, y) + 1 else s.taken(x, y))
  }

  ghost function Messages(sends: seq<Act>): (m: seq<Msg>)
    ensures |m| == |sends| && forall k :: 0 <= k < |sends| && sends[k].Send? ==> m[k] == sends[k].msg
  {
    seq(|sends|, k requires 0 <= k < |sends| => if sends[k].Send? then sends[k].msg else Msg(0, []))
  }

  /** What was sent from `a` to `b` and how much of it was taken, where `a` is at
      its action `i` and `b` at its action `j`. */
  ghost predicate Carried(sent: seq<Msg>, taken: nat, acts: seq<Act>, i: nat, b: nat, others: seq<Act>, j: nat, a: nat)
    requires i <= |acts| && j <= |others|
  {
    sent == Messages(Sends(acts[..i], b)) && taken == |Recvs(others[..j], a)|
  }

  ghost predicate Within(s: State, prog: Program, p: nat) {
    forall r: nat :: r < p ==> s.pcs(r) <= |prog(r)|
  }

  ghost predicate ChannelOk(s: State, prog: Program, a: nat, b: nat)
    requires s.pcs(a) <= |prog(a)| && s.pcs(b) <= |prog(b)|
  {
    Carried(s.sent(a, b), s.taken(a, b), prog(a), s.pcs(a), b, prog(b), s.pcs(b), a)
  }

  ghost predicate Received(s: State, prog: Program, r: nat) 
    requires s.pcs(r) <= |prog(r)|
  {
    s.got(r) == Expected(prog, r, s.pcs(r))
  }

  ghost predicate Inv(s: State, prog: Program, p: nat) {
    && Within(s, prog, p)
    && (forall a: nat, b: nat :: a < p && b < p ==> ChannelOk(s, prog, a, b))
    && (forall r: nat :: r < p ==> Received(s, prog, r))
  }

  /** The sends so far are the first ones. */
  lemma {:induction false} SendsPrefix(acts: seq<Act>, k: nat, to: nat)
    requires k <= |acts|
    ensures Sends(acts[..k], to) <= Sends(acts, to)
  {
    assert acts == acts[..k] + acts[k..];
    SendsAppend(acts[..k], acts[k..], to);
  }

  /** The next receive of a process from another is the one whose turn it is. */
  lemma NextRecv(acts: seq<Act>, k: nat, src: nat)
    requires k < |acts| && acts[k].Recv? && acts[k].src == src
    ensures |Recvs(acts[..k], src)| < |Recvs(acts, src)| && Recvs(acts, src)[|Recvs(acts[..k], src)|] == acts[k]
  {
    assert acts[..k + 1] == acts[..k] + [acts[k]];
    RecvsNext(acts[..k], acts[k], src);
    assert acts == acts[..k + 1] + acts[k + 1..];
    RecvsAppend(acts[..k + 1], acts[k + 1..], src);
  }

  /** The send that comes next on a channel is not before the place where the
      process is. */
  lemma {:induction false} NextSend(acts: seq<Act>, k: nat, to: nat)
    requires k <= |acts| && |Sends(acts[..k], to)| < |Sends(acts, to)|
    ensures exists j :: k <= j < |acts| && acts[j] == Sends(acts, to)[|Sends(acts[..k], to)|]
    decreases |acts| - k
  {
    assert acts[..|acts|] == acts;
    if k < |acts| {
      assert acts[..k + 1] == acts[..k] + [acts[k]];
      SendsNext(acts[..k], acts[k], to);
      if acts[k].Send? && acts[k].to == to {
        SendsPrefix(acts, k + 1, to);
        assert Sends(acts, to)[|Sends(acts[..k], to)|] == acts[k];
      } else {
        NextSend(acts, k + 1, to);
      }
    }
  }

  lemma {:induction false} SendsAre(acts: seq<Act>, to: nat, k: nat)
    requires k < |Sends(acts, to)|
    ensures Sends(acts, to)[k].Send?
  {
    var last := |acts| - 1;
    if k < |Sends(acts[..last], to)| { SendsAre(acts[..last], to, k); }
  }

  lemma {:induction false} RecvsAmong(acts: seq<Act>, src: nat, k: nat)
    requires k < |Recvs(acts, src)|
    ensures Recvs(acts, src)[k] in acts
  {
    var last := |acts| - 1;
    assert acts == acts[..last] + [acts[last]];
    if k < |Recvs(acts[..last], src)| { RecvsAmong(acts[..last], src, k); }
  }

  lemma {:induction false} RecvsOrdered(acts: seq<Act>, src: nat)
    requires Ordered(acts)
    ensures Ordered(Recvs(acts, src))
  {
    if acts != [] {
      var last := |acts| - 1;
      RecvsOrdered(acts[..last], src);
      forall k | 0 <= k < |Recvs(acts[..last], src)| ensures Recvs(acts[..last], src)[k].t < acts[last].t {
        RecvsAmong(acts[..last], src, k);
      }
    }
  }

  // ----- steps keep the invariants -----

  lemma InitInv(prog: Program, p: nat)
    ensures Inv(Init(), prog, p)
  {
  }

  lemma AfterAct(acts: seq<Act>, k: nat, q: nat)
    requires k < |acts|
    ensures Sends(acts[..k + 1], q) == if acts[k].Send? && acts[k].to == q then Sends(acts[..k], q) + [acts[k]] else Sends(acts[..k], q)
    ensures Recvs(acts[..k + 1], q) == if acts[k].Recv? && acts[k].src == q then Recvs(acts[..k], q) + [acts[k]] else Recvs(acts[..k], q)
  {
    assert acts[..k + 1] == acts[..k] + [acts[k]];
    SendsNext(acts[..k], acts[k], q);
    RecvsNext(acts[..k], acts[k], q);
  }

  lemma OneMore(sends: seq<Act>, a: Act)
    requires a.Send?
    ensures Messages(sends + [a]) == Messages(sends) + [a.msg]
  {
  }

  /** The sender takes its next action. */
  lemma CarriedSender(sent: seq<Msg>, taken: nat, acts: seq<Act>, i: nat, b: nat, others: seq<Act>, j: nat, a: nat)
    requires i < |acts| && j <= |others| && Carried(sent, taken, acts, i, b, others, j, a)
    ensures Carried(if acts[i].Send? && acts[i].to == b then sent + [acts[i].msg] else sent, taken, acts, i + 1, b, others, j, a)
  {
    AfterAct(acts, i, b);
    if acts[i].Send? { OneMore(Sends(acts[..i], b), acts[i]); }
  }

  /** The receiver takes its next action. */
  lemma CarriedReceiver(sent: seq<Msg>, taken: nat, acts: seq<Act>, i: nat, b: nat, others: seq<Act>, j: nat, a: nat)
    requires i <= |acts| && j < |others| && Carried(sent, taken, acts, i, b, others, j, a)
    ensures Carried(sent, if others[j].Recv? && others[j].src == a then taken + 1 else taken, acts, i, b, others, j + 1, a)
  {
    AfterAct(others, j, a);
  }

  lemma ChannelAfter(s: State, prog: Program, pay: Payload, r: nat, x: nat, y: nat)
    requires s.pcs(x) <= |prog(x)| && s.pcs(y) <= |prog(y)| && ChannelOk(s, prog, x, y)
    requires Enabled(s, prog, r) && (prog(r)[s.pcs(r)].Send? ==> pay(r, s.pcs(r), s.got(r)) == prog(r)[s.pcs(r)].msg)
    ensures ChannelOk(Step(s, prog, pay, r), prog, x, y)
  {
    var k, a := s.pcs(r), prog(r)[s.pcs(r)];
    var sent, taken := s.sent(x, y), s.taken(x, y);
    if x == r {
      CarriedSender(sent, taken, prog(x), k, y, prog(y), s.pcs(y), x);
    }
    if y == r {
      var i := if x == r then k + 1 else s.pcs(x);
      CarriedReceiver(if x == r && a.Send? && a.to == y then sent + [a.msg] else sent, taken, prog(x), i, y, prog(y), k, x);
    }
  }

  /** The message that a process takes is the one meant for this receive. */
  lemma TakenIsMeant(s: State, prog: Program, p: nat, r: nat, src: nat)
    requires Within(s, prog, p) && r < p && src < p && Enabled(s, prog, r) && prog(r)[s.pcs(r)].Recv? && prog(r)[s.pcs(r)].src == src
    requires ChannelOk(s, prog, src, r)
    ensures Expected(prog, r, s.pcs(r) + 1) == Expected(prog, r, s.pcs(r)) + [s.sent(src, r)[s.taken(src, r)]]
  {
    var n := s.taken(src, r);
    SendsPrefix(prog(src), s.pcs(src), r);
    SendsAre(prog(src), r, n);
    assert Sends(prog(src)[..s.pcs(src)], r)[n] == Sends(prog(src), r)[n];
  }

  lemma StepKeeps(s: State, prog: Program, pay: Payload, p: nat, r: nat)
    requires Inv(s, prog, p) && Legal(prog, p) && Faithful(prog, p, pay) && r < p && Enabled(s, prog, r)
    ensures Inv(Step(s, prog, pay, r), prog, p)
  {
    var t := Step(s, prog, pay, r);
    assert Received(s, prog, r);
    if prog(r)[s.pcs(r)].Recv? { TakenIsMeant(s, prog, p, r, prog(r)[s.pcs(r)].src); }
    forall x: nat, y: nat | x < p && y < p ensures ChannelOk(t, prog, x, y) {
      ChannelAfter(s, prog, pay, r, x, y);
    }
    forall q: nat | q < p ensures Received(t, prog, q) {
      assert Received(s, prog, q);
    }
  }

  // ----- no schedule gets stuck -----

  ghost predicate Unfinished(s: State, prog: Program, r: nat) {
    s.pcs(r) < |prog(r)|
  }

  /** The moment of the next action. */
  ghost function NextAt(s: State, prog: Program, r: nat): int
    requires Unfinished(s, prog, r)
  {
    prog(r)[s.pcs(r)].t
  }

  /** The unfinished process whose next action comes first in the common order. */
  lemma {:induction false} Foremost(s: State, prog: Program, n: nat) returns (r: nat)
    requires exists q: nat :: q < n && Unfinished(s, prog, q)
    ensures r < n && Unfinished(s, prog, r)
    ensures forall q: nat :: q < n && Unfinished(s, prog, q) ==> NextAt(s, prog, r) <= NextAt(s, prog, q)
  {
    if exists q: nat :: q < n - 1 && Unfinished(s, prog, q) {
      r := Foremost(s, prog, n - 1);
      if Unfinished(s, prog, n - 1) && NextAt(s, prog, n - 1) < NextAt(s, prog, r) {
        r := n - 1;
      }
    } else {
      r := n - 1;
    }
  }

  /** A process that has not sent enough for a receive elsewhere is at an earlier
      moment. */
  lemma StillToSend(prog: Program, p: nat, src: nat, k: nat, r: nat, n: nat)
    requires Legal(prog, p) && src < p && r < p && k <= |prog(src)| && n < |Recvs(prog(r), src)| && |Sends(prog(src)[..k], r)| <= n
    ensures k < |prog(src)| && prog(src)[k].t < Recvs(prog(r), src)[n].t
  {
    assert Match(prog, p, src, r);
    var m := |Sends(prog(src)[..k], r)|;
    NextSend(prog(src), k, r);
    var j :| k <= j < |prog(src)| && prog(src)[j] == Sends(prog(src), r)[m];
    RecvsOrdered(prog(r), src);
  }

  lemma SourceAhead(s: State, prog: Program, p: nat, r: nat, src: nat)
    requires Legal(prog, p) && Within(s, prog, p) && r < p && src < p && ChannelOk(s, prog, src, r)
    requires Unfinished(s, prog, r) && prog(r)[s.pcs(r)].Recv? && prog(r)[s.pcs(r)].src == src
    requires Unfinished(s, prog, src) ==> NextAt(s, prog, r) <= NextAt(s, prog, src)
    ensures Enabled(s, prog, r)
  {
    assert Match(prog, p, src, r);
    NextRecv(prog(r), s.pcs(r), src);
    var n := s.taken(src, r);
    SendsPrefix(prog(src), s.pcs(src), r);
    if |Sends(prog(src)[..s.pcs(src)], r)| <= n {
      StillToSend(prog, p, src, s.pcs(src), r, n);
    } else {
      assert Sends(prog(src)[..s.pcs(src)], r)[n] == Sends(prog(src), r)[n];
      SendsAre(prog(src), r, n);
    }
  }

  /** As long as some process is unfinished, some process can take a step. */
  lemma NeverStuck(s: State, prog: Program, p: nat) returns (r: nat)
    requires Inv(s, prog, p) && Legal(prog, p) && exists q: nat :: q < p && Unfinished(s, prog, q)
    ensures r < p && Enabled(s, prog, r)
  {
    r := Foremost(s, prog, p);
    var a := prog(r)[s.pcs(r)];
    if a.Recv? {
      SourceAhead(s, prog, p, r, a.src);
    }
  }

  // ----- whole runs -----

  /** The state after a schedule; a process whose turn it is but which has to wait
      does nothing. */
  ghost function After(prog: Program, pay: Payload, p: nat, sched: seq<nat>): State {
    if sched == [] then Init()
    else
      var s, r := After(prog, pay, p, sched[..|sched| - 1]), sched[|sched| - 1];
      if r < p && Enabled(s, prog, r) then Step(s, prog, pay, r) else s
  }

  lemma {:induction false} AfterInv(prog: Program, pay: Payload, p: nat, sched: seq<nat>)
    requires Legal(prog, p) && Faithful(prog, p, pay)
    ensures Inv(After(prog, pay, p, sched), prog, p)
  {
    if sched == [] {
      InitInv(prog, p);
    } else {
      var s, r := After(prog, pay, p, sched[..|sched| - 1]), sched[|sched| - 1];
      AfterInv(prog, pay, p, sched[..|sched| - 1]);
      if r < p && Enabled(s, prog, r) { StepKeeps(s, prog, pay, p, r); }
    }
  }

  ghost predicate Finished(s: State, prog: Program, p: nat) {
    forall r: nat :: r < p ==> !Unfinished(s, prog, r)
  }

  /** Under every schedule, as long as not all processes are finished some one can
      go on; and when all are, each has received what it was meant to. */
  lemma AnySchedule(prog: Program, pay: Payload, p: nat, sched: seq<nat>)
    requires Legal(prog, p) && Faithful(prog, p, pay)
    ensures var s := After(prog, pay, p, sched);
            if Finished(s, prog, p) then forall r: nat :: r < p ==> s.got(r) == Expected(prog, r, |prog(r)|)
            else exists r: nat :: r < p && Enabled(s, prog, r)
  {
    var s := After(prog, pay, p, sched);
    AfterInv(prog, pay, p, sched);
    if !Finished(s, prog, p) {
      var r := NeverStuck(s, prog, p);
    } else {
      forall r: nat | r < p ensures s.got(r) == Expected(prog, r, |prog(r)|) {
        assert Received(s, prog, r) && !Unfinished(s, prog, r);
      }
    }
  }

  /** How many actions are left. */
  ghost function Left(prog: Program, pcs: nat -> nat, n: nat): int {
    if n == 0 then 0 else Left(prog, pcs, n - 1) + |prog(n - 1)| - pcs(n - 1)
  }

  lemma {:induction false} LeftSame(prog: Program, pcs: nat -> nat, after: nat -> nat, n: nat)
    requires forall q: nat :: q < n ==> after(q) == pcs(q)
    ensures Left(prog, after, n) == Left(prog, pcs, n)
  {
    if n > 0 { LeftSame(prog, pcs, after, n - 1); }
  }

  lemma {:induction false} LeftLess(prog: Program, pcs: nat -> nat, after: nat -> nat, r: nat, n: nat)
    requires r < n && forall q: nat :: q < n ==> after(q) == if q == r then pcs(q) + 1 else pcs(q)
    ensures Left(prog, after, n) == Left(prog, pcs, n) - 1
  {
    if r < n - 1 {
      LeftLess(prog, pcs, after, r, n - 1);
    } else {
      LeftSame(prog, pcs, after, n - 1);
    }
  }

  lemma {:induction false} LeftNat(s: State, prog: Program, p: nat, n: nat)
    requires Within(s, prog, p) && n <= p
    ensures Left(prog, s.pcs, n) >= 0
  {
    if n > 0 { LeftNat(s, prog, p, n - 1); }
  }

  ghost function Remaining(prog: Program, pay: Payload, p: nat, sched: seq<nat>): nat
    requires Legal(prog, p) && Faithful(prog, p, pay)
  {
    var s := After(prog, pay, p, sched);
    AfterInv(prog, pay, p, sched);
    LeftNat(s, prog, p, p);
    Left(prog, s.pcs, p)
  }

  /** Unless all are finished, some process can take one of the remaining actions. */
  lemma Progress(prog: Program, pay: Payload, p: nat, sched: seq<nat>) returns (r: nat)
    requires Legal(prog, p) && Faithful(prog, p, pay) && !Finished(After(prog, pay, p, sched), prog, p)
    ensures Remaining(prog, pay, p, sched + [r]) == Remaining(prog, pay, p, sched) - 1
  {
    var s := After(prog, pay, p, sched);
    AfterInv(prog, pay, p, sched);
    r := NeverStuck(s, prog, p);
    assert (sched + [r])[..|sched|] == sched;
    LeftLess(prog, s.pcs, Step(s, prog, pay, r).pcs, r, p);
  }

  ghost predicate CanEnd(prog: Program, pay: Payload, p: nat, sched: seq<nat>) {
    exists more :: Finished(After(prog, pay, p, sched + more), prog, p)
  }

  lemma EndsLater(prog: Program, pay: Payload, p: nat, sched: seq<nat>, r: nat)
    requires CanEnd(prog, pay, p, sched + [r])
    ensures CanEnd(prog, pay, p, sched)
  {
    var more :| Finished(After(prog, pay, p, sched + [r] + more), prog, p);
    assert sched + [r] + more == sched + ([r] + more);
  }

  lemma EndsNow(prog: Program, pay: Payload, p: nat, sched: seq<nat>)
    requires Finished(After(prog, pay, p, sched), prog, p)
    ensures CanEnd(prog, pay, p, sched)
  {
    assert sched + [] == sched;
  }

  /** From wherever a schedule has led, all processes can be led to their ends. */
  lemma {:induction false} CanFinish(prog: Program, pay: Payload, p: nat, sched: seq<nat>)
    requires Legal(prog, p) && Faithful(prog, p, pay)
    ensures CanEnd(prog, pay, p, sched)
    decreases Remaining(prog, pay, p, sched)
  {
    if Finished(After(prog, pay, p, sched), prog, p) {
      EndsNow(prog, pay, p, sched);
    } else {
      var r := Progress(prog, pay, p, sched);
      CanFinish(prog, pay, p, sched + [r]);
      EndsLater(prog, pay, p, sched, r);
    }
  }
}
