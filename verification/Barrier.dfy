/** The barrier of the hand-written message passing library (my_mpi.c), as the
    steps of its threads.  Every rank but 0 sends a message to rank 0 and waits
    for an answer; rank 0 waits for all messages and then answers.  Server
    threads accept connections, wait for the local flag, and write the number
    they read into a slot that the main thread polls. */
module Barrier {

  /** Where the main thread of a rank is in MPI_Barrier. */
  datatype Pc = Outside | Raise | Send | Check(i: nat) | Ack(i: nat) | Wait | Reset(i: nat) | Lower

  /** `entered` and `returned` count the calls of MPI_Barrier. */
  datatype Rank = Rank(pc: Pc, flag: bool, buff: seq<int>, entered: nat, returned: nat)

  /** A server thread: waiting for a connection, for the flag, about to look at
      the flag again, about to write. */
  datatype Server = Accepting | Spinning(msg: int) | Deciding(msg: int) | Writing(msg: int)

  /** Connections to one port, and the thread that serves them; how many messages
      were sent, and how often the slot was written. */
  datatype Link = Link(queue: seq<int>, server: Server, sent: nat, written: nat)

  /** up[i] leads from rank i to rank 0 (port 30014 + i), down[i] back (port
      30014).  `strayed`: a barrier message was taken for data. */
  datatype State = State(ranks: seq<Rank>, up: seq<Link>, down: seq<Link>, strayed: bool)

  datatype Move = Main(r: nat) | Up(i: nat) | Down(i: nat)

  // ----- the program -----

  function Init(n: nat): State {
    State(seq(n, _ => Rank(Outside, false, seq(n, _ => -1), 0, 0)),
          seq(n, _ => Link([], Accepting, 0, 0)), seq(n, _ => Link([], Accepting, 0, 0)), false)
  }

  function Sent(l: Link, msg: int): Link {
    l.(queue := l.queue + [msg], sent := l.sent + 1)
  }

  /** A step of the main thread of rank `r`; none if it has to wait. */
  function RankStep(m: Rank, r: nat): Rank
    requires m.pc.Wait? ==> m.buff != []
  {
    var n := |m.buff|;
    match m.pc
    case Outside => m.(pc := Raise, entered := m.entered + 1)
    case Raise => m.(flag := true, pc := if r == 0 then Check(1) else Send)
    case Send => m.(pc := Wait)
    case Check(i) => if i >= n then m.(pc := Ack(1)) else if m.buff[i] == i then m.(pc := Check(i + 1)) else m
    case Ack(i) => if i >= n then m.(pc := Reset(0)) else m.(pc := Ack(i + 1))
    case Wait => if m.buff[0] == 0 then m.(pc := Reset(0)) else m
    case Reset(i) => if i >= n then m.(pc := Lower) else m.(buff := m.buff[i := -1], pc := Reset(i + 1))
    case Lower => m.(flag := false, pc := Outside, returned := m.returned + 1)
  }

  /** The same with the messages it sends: to rank 0, or from rank 0. */
  function MainStep(s: State, r: nat): State
    requires r < |s.ranks| && Shaped(s)
  {
    var m := s.ranks[r];
    var t := Put(s, r, RankStep(m, r));
    if m.pc.Send? then t.(up := s.up[r := Sent(s.up[r], r)])
    else if m.pc.Ack? && m.pc.i < |s.ranks| then t.(down := s.down[m.pc.i := Sent(s.down[m.pc.i], r)])
    else t
  }

  function Put(s: State, r: nat, m: Rank): State
    requires r < |s.ranks|
  {
    s.(ranks := s.ranks[r := m])
  }

  /** A step of a server thread, given the flag of its rank.  When the flag is
      down at the second look the message is dropped. */
  function ServerStep(l: Link, flag: bool): Link {
    match l.server
    case Accepting => if l.queue == [] then l else l.(server := Spinning(l.queue[0]), queue := l.queue[1..])
    case Spinning(msg) => if flag then l.(server := Deciding(msg)) else l
    case Deciding(msg) => if flag then l.(server := Writing(msg)) else l.(server := Accepting)
    case Writing(msg) => l.(server := Accepting, written := l.written + 1)
  }

  function Step(s: State, move: Move): State
    requires Shaped(s)
  {
    var n := |s.ranks|;
    match move
    case Main(r) => if r < n then MainStep(s, r) else s
    case Up(i) =>
      if 1 <= i < n then
        var l, m := s.up[i], s.ranks[0];
        var t := s.(up := s.up[i := ServerStep(l, m.flag)]);
        if l.server.Writing? then Put(t, 0, m.(buff := m.buff[i := l.server.msg])) else t
      else s
    case Down(i) =>
      if 1 <= i < n then
        var l, m := s.down[i], s.ranks[i];
        var t := s.(down := s.down[i := ServerStep(l, m.flag)], strayed := s.strayed || (l.server.Deciding? && !m.flag));
        if l.server.Writing? then Put(t, i, m.(buff := m.buff[0 := l.server.msg])) else t
      else s
  }

  ghost predicate Shaped(s: State) {
    var n := |s.ranks|;
    && |s.up| == |s.down| == n
    && (forall r :: 0 <= r < n ==> |s.ranks[r].buff| == n)
    && (forall r :: 0 <= r < n ==> (s.ranks[r].pc.Ack? ==> 1 <= s.ranks[r].pc.i))
  }

  lemma ShapedStep(s: State, move: Move)
    requires Shaped(s)
    ensures Shaped(Step(s, move)) && |Step(s, move).ranks| == |s.ranks|
  {
  }

  /** The state after any interleaving of steps. */
  ghost function Run(n: nat, moves: seq<Move>): (s: State)
    ensures Shaped(s) && |s.ranks| == n
  {
    if moves == [] then Init(n)
    else
      var s := Run(n, moves[..|moves| - 1]);
      ShapedStep(s, moves[|moves| - 1]);
      Step(s, moves[|moves| - 1])
  }

  // ----- invariants -----

  function Bit(b: bool): nat {
    if b then 1 else 0
  }

  /** Rounds whose messages rank 0 has all seen. */
  function Passed(m: Rank): nat {
    m.returned + Bit(m.pc.Ack? || m.pc.Reset? || m.pc.Lower?)
  }

  /** How often a rank has reset slot `i`. */
  function Resets(m: Rank, i: nat): nat {
    m.returned + Bit((m.pc.Reset? && m.pc.i > i) || m.pc.Lower?)
  }

  /** Rank 0 has seen slot `i` filled in this round and not reset it yet. */
  predicate Seen(m: Rank, i: nat) {
    || (m.pc.Check? && m.pc.i > i) || m.pc.Ack? || (m.pc.Reset? && m.pc.i <= i)
  }

  ghost predicate Counting(m: Rank) {
    && m.entered == m.returned + Bit(m.pc != Outside)
    && (m.flag <==> m.pc != Outside && m.pc != Raise)
  }

  /** Only the number `v` travels on a link, and no message is used twice. */
  ghost predicate LinkOk(l: Link, v: int) {
    && (forall k :: 0 <= k < |l.queue| ==> l.queue[k] == v)
    && (!l.server.Accepting? ==> l.server.msg == v)
    && l.written + |l.queue| + Bit(!l.server.Accepting?) <= l.sent
  }

  /** Messages from rank `i`, with state `m`, to rank 0, with state `z`. */
  ghost predicate UpOk(z: Rank, m: Rank, l: Link, i: nat)
    requires 1 <= i < |z.buff|
  {
    && LinkOk(l, i) && l.sent == m.entered - Bit(m.pc == Raise || m.pc == Send)
    && (z.buff[i] == -1 || z.buff[i] == i) && (Seen(z, i) ==> z.buff[i] == i)
    && l.written >= Resets(z, i) + Bit(z.buff[i] == i)
  }

  /** Answers of rank 0 to rank `i`. */
  ghost predicate DownOk(z: Rank, m: Rank, l: Link, i: nat)
    requires 1 <= i < |m.buff|
  {
    && LinkOk(l, 0) && l.sent == z.returned + Bit((z.pc.Ack? && z.pc.i > i) || z.pc.Reset? || z.pc.Lower?)
    && (m.buff[0] == -1 || m.buff[0] == 0) && (m.pc == Reset(0) ==> m.buff[0] == 0)
    && l.written >= Resets(m, 0) + Bit(m.buff[0] == 0)
  }

  ghost predicate RankOk(m: Rank, r: nat) {
    && Counting(m)
    && (if r == 0 then !m.pc.Send? && !m.pc.Wait? else !m.pc.Check? && !m.pc.Ack?)
  }

  ghost predicate LinksOk(s: State, i: nat)
    requires Shaped(s) && 1 <= i < |s.ranks|
  {
    UpOk(s.ranks[0], s.ranks[i], s.up[i], i) && DownOk(s.ranks[0], s.ranks[i], s.down[i], i)
  }

  ghost predicate Inv(s: State) {
    && Shaped(s) && !s.strayed
    && (forall r :: 0 <= r < |s.ranks| ==> RankOk(s.ranks[r], r))
    && (forall i :: 1 <= i < |s.ranks| ==> LinksOk(s, i))
  }

  /** Whatever rank 0 has passed, every rank has sent its message for. */
  lemma PassedSent(s: State, i: nat)
    requires Inv(s) && 1 <= i < |s.ranks|
    ensures Passed(s.ranks[0]) <= s.up[i].sent <= s.ranks[i].entered
  {
    assert LinksOk(s, i);
  }

  /** While an answer is on its way to a rank, that rank waits for it. */
  lemma AnswerAwaited(s: State, i: nat)
    requires Inv(s) && 1 <= i < |s.ranks| && !s.down[i].server.Accepting?
    ensures s.ranks[i].pc == Wait && s.ranks[i].flag
  {
    assert LinksOk(s, i) && RankOk(s.ranks[i], i) && RankOk(s.ranks[0], 0);
    PassedSent(s, i);
  }

  lemma InitInv(n: nat)
    ensures Inv(Init(n))
  {
  }

  // ----- one link and one step -----

  lemma SentOk(l: Link, v: int)
    requires LinkOk(l, v)
    ensures LinkOk(Sent(l, v), v)
  {
  }

  lemma ServedOk(l: Link, v: int, flag: bool)
    requires LinkOk(l, v)
    ensures LinkOk(ServerStep(l, flag), v)
  {
  }

  lemma RankKeeps(m: Rank, r: nat)
    requires RankOk(m, r) && m.buff != []
    ensures RankOk(RankStep(m, r), r)
  {
  }

  lemma RootKeepsUp(z: Rank, m: Rank, l: Link, i: nat)
    requires 1 <= i < |z.buff| && RankOk(z, 0) && UpOk(z, m, l, i)
    ensures UpOk(RankStep(z, 0), m, l, i)
  {
  }

  lemma RootKeepsDown(z: Rank, m: Rank, l: Link, i: nat)
    requires 1 <= i < |m.buff| == |z.buff| && RankOk(z, 0) && (z.pc.Ack? ==> 1 <= z.pc.i) && DownOk(z, m, l, i)
    ensures DownOk(RankStep(z, 0), m, if z.pc == Ack(i) then Sent(l, 0) else l, i)
  {
    SentOk(l, 0);
  }

  lemma RankKeepsUp(z: Rank, m: Rank, l: Link, i: nat)
    requires 1 <= i < |z.buff| == |m.buff| && RankOk(m, i) && UpOk(z, m, l, i)
    ensures UpOk(z, RankStep(m, i), if m.pc.Send? then Sent(l, i) else l, i)
  {
    SentOk(l, i);
  }

  lemma RankKeepsDown(z: Rank, m: Rank, l: Link, i: nat)
    requires 1 <= i < |m.buff| && RankOk(m, i) && DownOk(z, m, l, i)
    ensures DownOk(z, RankStep(m, i), l, i)
  {
  }

  /** The server of rank 0 writes slot `j`, which is not slot `i`. */
  lemma OtherSlot(z: Rank, m: Rank, l: Link, i: nat, j: nat, v: int)
    requires 1 <= i < |z.buff| && j < |z.buff| && i != j && UpOk(z, m, l, i)
    ensures UpOk(z.(buff := z.buff[j := v]), m, l, i)
  {
  }

  // ----- every step keeps the invariants -----

  lemma MainKeeps(s: State, r: nat)
    requires Inv(s) && r < |s.ranks|
    ensures Inv(MainStep(s, r))
  {
    var t, z := MainStep(s, r), s.ranks[0];
    assert RankOk(s.ranks[r], r);
    RankKeeps(s.ranks[r], r);
    forall i | 1 <= i < |t.ranks| ensures LinksOk(t, i) {
      assert LinksOk(s, i);
      var m := s.ranks[i];
      if r == 0 {
        RootKeepsUp(z, m, s.up[i], i);
        RootKeepsDown(z, m, s.down[i], i);
      } else if r == i {
        RankKeepsUp(z, m, s.up[i], i);
        RankKeepsDown(z, m, s.down[i], i);
      }
    }
  }

  lemma UpKeeps(s: State, i: nat)
    requires Inv(s) && 1 <= i < |s.ranks|
    ensures Inv(Step(s, Up(i)))
  {
    var t, z := Step(s, Up(i)), s.ranks[0];
    assert LinksOk(s, i) && RankOk(z, 0);
    ServedOk(s.up[i], i, z.flag);
    forall j | 1 <= j < |t.ranks| ensures LinksOk(t, j) {
      assert LinksOk(s, j);
      if j != i && s.up[i].server.Writing? {
        OtherSlot(z, s.ranks[j], s.up[j], j, i, i);
      }
    }
  }

  lemma DownKeeps(s: State, i: nat)
    requires Inv(s) && 1 <= i < |s.ranks|
    ensures Inv(Step(s, Down(i)))
  {
    var t, m := Step(s, Down(i)), s.ranks[i];
    assert LinksOk(s, i) && RankOk(m, i);
    ServedOk(s.down[i], 0, m.flag);
    if !s.down[i].server.Accepting? { AnswerAwaited(s, i); }
    forall j | 1 <= j < |t.ranks| ensures LinksOk(t, j) {
      assert LinksOk(s, j);
    }
  }

  lemma {:induction false} RunInv(n: nat, moves: seq<Move>)
    ensures Inv(Run(n, moves))
  {
    if moves == [] {
      InitInv(n);
    } else {
      var k := |moves| - 1;
      RunInv(n, moves[..k]);
      match moves[k]
      case Main(r) => if r < n { MainKeeps(Run(n, moves[..k]), r); }
      case Up(i) => if 1 <= i < n { UpKeeps(Run(n, moves[..k]), i); }
      case Down(i) => if 1 <= i < n { DownKeeps(Run(n, moves[..k]), i); }
    }
  }

  /** Safety, for any number of ranks and rounds and any interleaving: a rank
      that has returned from its k-th barrier knows that every rank has entered
      its k-th; and no barrier message is ever taken for data. */
  lemma Safe(n: nat, moves: seq<Move>, r: nat, q: nat)
    requires r < n && q < n
    ensures var s := Run(n, moves); s.ranks[r].returned <= s.ranks[q].entered && !s.strayed
  {
    var s := Run(n, moves);
    RunInv(n, moves);
    assert RankOk(s.ranks[0], 0) && RankOk(s.ranks[r], r) && RankOk(s.ranks[q], q);
    if q > 0 { PassedSent(s, q); }
    if r > 0 { assert LinksOk(s, r); }
  }

  // ----- two ranks can wait for ever -----

  function Idle(): Link {
    Link([], Accepting, 0, 0)
  }

  /** Two ranks, and the links between them. */
  datatype View = View(z: Rank, m: Rank, up: Link, down: Link)

  function Two(v: View): State {
    State([v.z, v.m], [Idle(), v.up], [Idle(), v.down], false)
  }

  /** Equal, as far as the elements tell. */
  predicate SameRank(a: Rank, b: Rank) {
    |a.buff| == |b.buff| == 2 && a.buff[0] == b.buff[0] && a.buff[1] == b.buff[1] && a.(buff := b.buff) == b
  }

  predicate SameLink(a: Link, b: Link) {
    |a.queue| == |b.queue| <= 1 && (a.queue != [] ==> a.queue[0] == b.queue[0]) && a.(queue := b.queue) == b
  }

  lemma Equal(a: Rank, b: Rank, k: Link, l: Link)
    ensures SameRank(a, b) ==> a == b
    ensures SameLink(k, l) ==> k == l
  {
    if SameRank(a, b) { assert a.buff == b.buff; }
    if SameLink(k, l) { assert k.queue == l.queue; }
  }

  /** What a move makes of two ranks. */
  predicate Leads(move: Move, v: View, w: View)
    requires |v.z.buff| == |v.m.buff| == 2
  {
    match move
    case Main(r) =>
      if r == 0 then
        && !v.z.pc.Send? && (v.z.pc.Ack? ==> v.z.pc.i >= 1)
        && SameRank(RankStep(v.z, 0), w.z) && w.m == v.m && w.up == v.up && SameLink(if v.z.pc == Ack(1) then Sent(v.down, 0) else v.down, w.down)
      else
        && r == 1 && !v.m.pc.Ack?
        && SameRank(RankStep(v.m, 1), w.m) && w.z == v.z && w.down == v.down && SameLink(if v.m.pc.Send? then Sent(v.up, 1) else v.up, w.up)
    case Up(i) =>
      && i == 1 && SameLink(ServerStep(v.up, v.z.flag), w.up) && w.m == v.m && w.down == v.down
      && SameRank(if v.up.server.Writing? then v.z.(buff := v.z.buff[1 := v.up.server.msg]) else v.z, w.z)
    case Down(i) =>
      && i == 1 && SameLink(ServerStep(v.down, v.m.flag), w.down) && w.z == v.z && w.up == v.up && (v.down.server.Deciding? ==> v.m.flag)
      && SameRank(if v.down.server.Writing? then v.m.(buff := v.m.buff[0 := v.down.server.msg]) else v.m, w.m)
  }

  lemma LeadsStep(move: Move, v: View, w: View)
    requires |v.z.buff| == |v.m.buff| == 2 && Shaped(Two(v)) && Leads(move, v, w)
    ensures Step(Two(v), move) == Two(w)
  {
    match move
    case Main(r) =>
      Equal(RankStep(if r == 0 then v.z else v.m, r), if r == 0 then w.z else w.m, Idle(), Idle());
      Equal(v.z, v.z, if v.z.pc == Ack(1) then Sent(v.down, 0) else v.down, w.down);
      Equal(v.z, v.z, if v.m.pc.Send? then Sent(v.up, 1) else v.up, w.up);
    case Up(i) =>
      Equal(if v.up.server.Writing? then v.z.(buff := v.z.buff[1 := v.up.server.msg]) else v.z, w.z, ServerStep(v.up, v.z.flag), w.up);
    case Down(i) =>
      Equal(if v.down.server.Writing? then v.m.(buff := v.m.buff[0 := v.down.server.msg]) else v.m, w.m, ServerStep(v.down, v.m.flag), w.down);
  }

  /** One move more. */
  lemma Next(moves: seq<Move>, move: Move, v: View, w: View) returns (more: seq<Move>, now: View)
    requires Run(2, moves) == Two(v) && |v.z.buff| == |v.m.buff| == 2 && Leads(move, v, w)
    ensures Run(2, more) == Two(w) && now == w
  {
    more, now := moves + [move], w;
    assert more[..|more| - 1] == moves;
    LeadsStep(move, v, w);
  }

  /** Rank 1 sends its first message, and both ranks wait. */
  lemma Part1(moves0: seq<Move>) returns (moves: seq<Move>)
    requires Run(2, moves0) == Two(View(Rank(Outside, false, [-1, -1], 0, 0), Rank(Outside, false, [-1, -1], 0, 0), Link([], Accepting, 0, 0), Link([], Accepting, 0, 0)))
    ensures Run(2, moves) == Two(View(Rank(Check(1), true, [-1, -1], 1, 0), Rank(Wait, true, [-1, -1], 1, 0), Link([1], Accepting, 1, 0), Link([], Accepting, 0, 0)))
  {
    var v := View(Rank(Outside, false, [-1, -1], 0, 0), Rank(Outside, false, [-1, -1], 0, 0), Link([], Accepting, 0, 0), Link([], Accepting, 0, 0));
    moves := moves0;
    moves, v := Next(moves, Main(1), v, v.(m := Rank(Raise, false, [-1, -1], 1, 0)));
    moves, v := Next(moves, Main(1), v, v.(m := Rank(Send, true, [-1, -1], 1, 0)));
    moves, v := Next(moves, Main(1), v, v.(m := Rank(Wait, true, [-1, -1], 1, 0), up := Link([1], Accepting, 1, 0)));
    moves, v := Next(moves, Main(0), v, v.(z := Rank(Raise, false, [-1, -1], 1, 0)));
    moves, v := Next(moves, Main(0), v, v.(z := Rank(Check(1), true, [-1, -1], 1, 0)));
  }

  /** The message arrives. */
  lemma Part2(moves0: seq<Move>) returns (moves: seq<Move>)
    requires Run(2, moves0) == Two(View(Rank(Check(1), true, [-1, -1], 1, 0), Rank(Wait, true, [-1, -1], 1, 0), Link([1], Accepting, 1, 0), Link([], Accepting, 0, 0)))
    ensures Run(2, moves) == Two(View(Rank(Check(1), true, [-1, 1], 1, 0), Rank(Wait, true, [-1, -1], 1, 0), Link([], Accepting, 1, 1), Link([], Accepting, 0, 0)))
  {
    var v := View(Rank(Check(1), true, [-1, -1], 1, 0), Rank(Wait, true, [-1, -1], 1, 0), Link([1], Accepting, 1, 0), Link([], Accepting, 0, 0));
    moves := moves0;
    moves, v := Next(moves, Up(1), v, v.(up := Link([], Spinning(1), 1, 0)));
    moves, v := Next(moves, Up(1), v, v.(up := Link([], Deciding(1), 1, 0)));
    moves, v := Next(moves, Up(1), v, v.(up := Link([], Writing(1), 1, 0)));
    moves, v := Next(moves, Up(1), v, v.(z := Rank(Check(1), true, [-1, 1], 1, 0), up := Link([], Accepting, 1, 1)));
  }

  /** Rank 0 has seen it, and answers. */
  lemma Part3(moves0: seq<Move>) returns (moves: seq<Move>)
    requires Run(2, moves0) == Two(View(Rank(Check(1), true, [-1, 1], 1, 0), Rank(Wait, true, [-1, -1], 1, 0), Link([], Accepting, 1, 1), Link([], Accepting, 0, 0)))
    ensures Run(2, moves) == Two(View(Rank(Ack(2), true, [-1, 1], 1, 0), Rank(Wait, true, [-1, -1], 1, 0), Link([], Accepting, 1, 1), Link([0], Accepting, 1, 0)))
  {
    var v := View(Rank(Check(1), true, [-1, 1], 1, 0), Rank(Wait, true, [-1, -1], 1, 0), Link([], Accepting, 1, 1), Link([], Accepting, 0, 0));
    moves := moves0;
    moves, v := Next(moves, Main(0), v, v.(z := Rank(Check(2), true, [-1, 1], 1, 0)));
    moves, v := Next(moves, Main(0), v, v.(z := Rank(Ack(1), true, [-1, 1], 1, 0)));
    moves, v := Next(moves, Main(0), v, v.(z := Rank(Ack(2), true, [-1, 1], 1, 0), down := Link([0], Accepting, 1, 0)));
  }

  /** The answer arrives. */
  lemma Part4(moves0: seq<Move>) returns (moves: seq<Move>)
    requires Run(2, moves0) == Two(View(Rank(Ack(2), true, [-1, 1], 1, 0), Rank(Wait, true, [-1, -1], 1, 0), Link([], Accepting, 1, 1), Link([0], Accepting, 1, 0)))
    ensures Run(2, moves) == Two(View(Rank(Ack(2), true, [-1, 1], 1, 0), Rank(Wait, true, [0, -1], 1, 0), Link([], Accepting, 1, 1), Link([], Accepting, 1, 1)))
  {
    var v := View(Rank(Ack(2), true, [-1, 1], 1, 0), Rank(Wait, true, [-1, -1], 1, 0), Link([], Accepting, 1, 1), Link([0], Accepting, 1, 0));
    moves := moves0;
    moves, v := Next(moves, Down(1), v, v.(down := Link([], Spinning(0), 1, 0)));
    moves, v := Next(moves, Down(1), v, v.(down := Link([], Deciding(0), 1, 0)));
    moves, v := Next(moves, Down(1), v, v.(down := Link([], Writing(0), 1, 0)));
    moves, v := Next(moves, Down(1), v, v.(m := Rank(Wait, true, [0, -1], 1, 0), down := Link([], Accepting, 1, 1)));
  }

  /** Rank 1 goes on, and resets its slots. */
  lemma Part5(moves0: seq<Move>) returns (moves: seq<Move>)
    requires Run(2, moves0) == Two(View(Rank(Ack(2), true, [-1, 1], 1, 0), Rank(Wait, true, [0, -1], 1, 0), Link([], Accepting, 1, 1), Link([], Accepting, 1, 1)))
    ensures Run(2, moves) == Two(View(Rank(Ack(2), true, [-1, 1], 1, 0), Rank(Reset(2), true, [-1, -1], 1, 0), Link([], Accepting, 1, 1), Link([], Accepting, 1, 1)))
  {
    var v := View(Rank(Ack(2), true, [-1, 1], 1, 0), Rank(Wait, true, [0, -1], 1, 0), Link([], Accepting, 1, 1), Link([], Accepting, 1, 1));
    moves := moves0;
    moves, v := Next(moves, Main(1), v, v.(m := Rank(Reset(0), true, [0, -1], 1, 0)));
    moves, v := Next(moves, Main(1), v, v.(m := Rank(Reset(1), true, [-1, -1], 1, 0)));
    moves, v := Next(moves, Main(1), v, v.(m := Rank(Reset(2), true, [-1, -1], 1, 0)));
  }

  /** Rank 1 returns, and is in its second round. */
  lemma Part6(moves0: seq<Move>) returns (moves: seq<Move>)
    requires Run(2, moves0) == Two(View(Rank(Ack(2), true, [-1, 1], 1, 0), Rank(Reset(2), true, [-1, -1], 1, 0), Link([], Accepting, 1, 1), Link([], Accepting, 1, 1)))
    ensures Run(2, moves) == Two(View(Rank(Ack(2), true, [-1, 1], 1, 0), Rank(Raise, false, [-1, -1], 2, 1), Link([], Accepting, 1, 1), Link([], Accepting, 1, 1)))
  {
    var v := View(Rank(Ack(2), true, [-1, 1], 1, 0), Rank(Reset(2), true, [-1, -1], 1, 0), Link([], Accepting, 1, 1), Link([], Accepting, 1, 1));
    moves := moves0;
    moves, v := Next(moves, Main(1), v, v.(m := Rank(Lower, true, [-1, -1], 1, 0)));
    moves, v := Next(moves, Main(1), v, v.(m := Rank(Outside, false, [-1, -1], 1, 1)));
    moves, v := Next(moves, Main(1), v, v.(m := Rank(Raise, false, [-1, -1], 2, 1)));
  }

  /** It sends the message of that round, */
  lemma Part7(moves0: seq<Move>) returns (moves: seq<Move>)
    requires Run(2, moves0) == Two(View(Rank(Ack(2), true, [-1, 1], 1, 0), Rank(Raise, false, [-1, -1], 2, 1), Link([], Accepting, 1, 1), Link([], Accepting, 1, 1)))
    ensures Run(2, moves) == Two(View(Rank(Ack(2), true, [-1, 1], 1, 0), Rank(Wait, true, [-1, -1], 2, 1), Link([1], Accepting, 2, 1), Link([], Accepting, 1, 1)))
  {
    var v := View(Rank(Ack(2), true, [-1, 1], 1, 0), Rank(Raise, false, [-1, -1], 2, 1), Link([], Accepting, 1, 1), Link([], Accepting, 1, 1));
    moves := moves0;
    moves, v := Next(moves, Main(1), v, v.(m := Rank(Send, true, [-1, -1], 2, 1)));
    moves, v := Next(moves, Main(1), v, v.(m := Rank(Wait, true, [-1, -1], 2, 1), up := Link([1], Accepting, 2, 1)));
  }

  /** which arrives while rank 0 has not reset the slot yet. */
  lemma Part8(moves0: seq<Move>) returns (moves: seq<Move>)
    requires Run(2, moves0) == Two(View(Rank(Ack(2), true, [-1, 1], 1, 0), Rank(Wait, true, [-1, -1], 2, 1), Link([1], Accepting, 2, 1), Link([], Accepting, 1, 1)))
    ensures Run(2, moves) == Two(View(Rank(Ack(2), true, [-1, 1], 1, 0), Rank(Wait, true, [-1, -1], 2, 1), Link([], Accepting, 2, 2), Link([], Accepting, 1, 1)))
  {
    var v := View(Rank(Ack(2), true, [-1, 1], 1, 0), Rank(Wait, true, [-1, -1], 2, 1), Link([1], Accepting, 2, 1), Link([], Accepting, 1, 1));
    moves := moves0;
    moves, v := Next(moves, Up(1), v, v.(up := Link([], Spinning(1), 2, 1)));
    moves, v := Next(moves, Up(1), v, v.(up := Link([], Deciding(1), 2, 1)));
    moves, v := Next(moves, Up(1), v, v.(up := Link([], Writing(1), 2, 1)));
    moves, v := Next(moves, Up(1), v, v.(up := Link([], Accepting, 2, 2)));
  }

  /** Rank 0 resets the slot. */
  lemma Part9(moves0: seq<Move>) returns (moves: seq<Move>)
    requires Run(2, moves0) == Two(View(Rank(Ack(2), true, [-1, 1], 1, 0), Rank(Wait, true, [-1, -1], 2, 1), Link([], Accepting, 2, 2), Link([], Accepting, 1, 1)))
    ensures Run(2, moves) == Two(View(Rank(Reset(2), true, [-1, -1], 1, 0), Rank(Wait, true, [-1, -1], 2, 1), Link([], Accepting, 2, 2), Link([], Accepting, 1, 1)))
  {
    var v := View(Rank(Ack(2), true, [-1, 1], 1, 0), Rank(Wait, true, [-1, -1], 2, 1), Link([], Accepting, 2, 2), Link([], Accepting, 1, 1));
    moves := moves0;
    moves, v := Next(moves, Main(0), v, v.(z := Rank(Reset(0), true, [-1, 1], 1, 0)));
    moves, v := Next(moves, Main(0), v, v.(z := Rank(Reset(1), true, [-1, 1], 1, 0)));
    moves, v := Next(moves, Main(0), v, v.(z := Rank(Reset(2), true, [-1, -1], 1, 0)));
  }

  /** Rank 0 returns, and waits in the second round. */
  lemma Part10(moves0: seq<Move>) returns (moves: seq<Move>)
    requires Run(2, moves0) == Two(View(Rank(Reset(2), true, [-1, -1], 1, 0), Rank(Wait, true, [-1, -1], 2, 1), Link([], Accepting, 2, 2), Link([], Accepting, 1, 1)))
    ensures Run(2, moves) == Two(View(Rank(Check(1), true, [-1, -1], 2, 1), Rank(Wait, true, [-1, -1], 2, 1), Link([], Accepting, 2, 2), Link([], Accepting, 1, 1)))
  {
    var v := View(Rank(Reset(2), true, [-1, -1], 1, 0), Rank(Wait, true, [-1, -1], 2, 1), Link([], Accepting, 2, 2), Link([], Accepting, 1, 1));
    moves := moves0;
    moves, v := Next(moves, Main(0), v, v.(z := Rank(Lower, true, [-1, -1], 1, 0)));
    moves, v := Next(moves, Main(0), v, v.(z := Rank(Outside, false, [-1, -1], 1, 1)));
    moves, v := Next(moves, Main(0), v, v.(z := Rank(Raise, false, [-1, -1], 2, 1)));
    moves, v := Next(moves, Main(0), v, v.(z := Rank(Check(1), true, [-1, -1], 2, 1)));
  }

  /** A message that overtakes the reset of its slot is lost: two ranks, both in
      their second barrier, from where no step leads on. */
  lemma WaitsForEver() returns (moves: seq<Move>)
    ensures var s := Run(2, moves);
            && (forall r :: 0 <= r < 2 ==> s.ranks[r].entered == 2 && s.ranks[r].returned == 1)
            && (forall move :: Step(s, move) == s) && forall more :: Run(2, moves + more) == s
  {
    assert Init(2) == Two(View(Rank(Outside, false, [-1, -1], 0, 0), Rank(Outside, false, [-1, -1], 0, 0), Idle(), Idle())) by { Start(); }
    moves := Part1([]);
    moves := Part2(moves);
    moves := Part3(moves);
    moves := Part4(moves);
    moves := Part5(moves);
    moves := Part6(moves);
    moves := Part7(moves);
    moves := Part8(moves);
    moves := Part9(moves);
    moves := Part10(moves);
    StuckThere(Run(2, moves));
    forall more ensures Run(2, moves + more) == Run(2, moves) {
      NothingHappens(2, moves, more);
    }
  }

  lemma Start()
    ensures Init(2) == Two(View(Rank(Outside, false, [-1, -1], 0, 0), Rank(Outside, false, [-1, -1], 0, 0), Idle(), Idle()))
  {
    var r := Init(2).ranks[0];
    Equal(r, Rank(Outside, false, [-1, -1], 0, 0), Idle(), Idle());
    assert Init(2).ranks == [r, r];
  }

  lemma StuckThere(s: State)
    requires s == Two(View(Rank(Check(1), true, [-1, -1], 2, 1), Rank(Wait, true, [-1, -1], 2, 1), Link([], Accepting, 2, 2), Link([], Accepting, 1, 1)))
    ensures forall move :: Step(s, move) == s
  {
    forall move ensures Step(s, move) == s {
      match move
      case Main(r) =>
        if r < 2 { assert s.ranks[r := s.ranks[r]] == s.ranks; }
      case Up(i) =>
        if i == 1 { assert s.up[1 := s.up[1]] == s.up; }
      case Down(i) =>
        if i == 1 { assert s.down[1 := s.down[1]] == s.down; }
    }
  }

  /** From there every run stays as it is. */
  lemma {:induction false} NothingHappens(n: nat, moves: seq<Move>, more: seq<Move>)
    requires forall move :: Step(Run(n, moves), move) == Run(n, moves)
    ensures Run(n, moves + more) == Run(n, moves)
  {
    if more == [] {
      assert moves + more == moves;
    } else {
      var k := |more| - 1;
      NothingHappens(n, moves, more[..k]);
      assert (moves + more)[..|moves + more| - 1] == moves + more[..k];
    }
  }
}
