/** When the ranks get on in the barrier (my_mpi.c), and when they never do: a
    message to rank 0 that arrives while its slot is still filled, or after rank
    0 has lowered its flag, is lost, and nothing else goes wrong. */
module BarrierProgress {
  import opened Barrier
  import Division

  /** A server thread holds a message. */
  predicate Busy(l: Link) {
    !l.server.Accepting?
  }

  /** Messages of rank `i` that were sent, and are neither under way, nor in the
      slot, nor were they there until it was reset. */
  ghost function Lost(s: State, i: nat): int
    requires Shaped(s) && 1 <= i < |s.ranks|
  {
    s.up[i].sent - Resets(s.ranks[0], i) - Bit(s.ranks[0].buff[i] == i) - |s.up[i].queue| - Bit(Busy(s.up[i]))
  }

  /** The two steps that lose a message. */
  ghost predicate Drops(s: State, move: Move, i: nat)
    requires Shaped(s) && 1 <= i < |s.ranks|
  {
    move == Up(i) && if s.up[i].server.Deciding? then !s.ranks[0].flag else s.up[i].server.Writing? && s.ranks[0].buff[i] == i
  }

  /** No answer of rank 0 is lost. */
  ghost predicate Answered(m: Rank, l: Link)
    requires m.buff != []
  {
    l.sent == Resets(m, 0) + Bit(m.buff[0] == 0) + |l.queue| + Bit(Busy(l))
  }

  /** The counters of the loops. */
  ghost predicate PcOk(m: Rank) {
    && (m.pc.Check? ==> 1 <= m.pc.i <= |m.buff|) && (m.pc.Ack? ==> 1 <= m.pc.i <= |m.buff|) && (m.pc.Reset? ==> m.pc.i <= |m.buff|)
  }

  /** What holds in every reachable state besides the invariants of the links. */
  ghost predicate Exact(s: State) {
    && Inv(s)
    && (forall r :: 0 <= r < |s.ranks| ==> PcOk(s.ranks[r]))
    && (forall i :: 1 <= i < |s.ranks| ==> Answered(s.ranks[i], s.down[i]))
  }

  // ----- a step loses a message, or keeps all -----

  lemma RootLoses(z: Rank, m: Rank, l: Link, i: nat)
    requires 1 <= i < |z.buff| && RankOk(z, 0) && UpOk(z, m, l, i)
    ensures var w := RankStep(z, 0);
            |w.buff| == |z.buff| && Resets(w, i) + Bit(w.buff[i] == i) == Resets(z, i) + Bit(z.buff[i] == i)
  {
  }

  lemma LostMain(s: State, r: nat, i: nat)
    requires Inv(s) && r < |s.ranks| && 1 <= i < |s.ranks|
    ensures Shaped(MainStep(s, r)) && Lost(MainStep(s, r), i) == Lost(s, i)
  {
    assert RankOk(s.ranks[0], 0) && RankOk(s.ranks[r], r) && LinksOk(s, i);
    ShapedStep(s, Main(r));
    RootLoses(s.ranks[0], s.ranks[i], s.up[i], i);
  }

  /** No step brings a message back, and exactly the two steps above lose one. */
  lemma LostStep(s: State, move: Move, i: nat)
    requires Inv(s) && 1 <= i < |s.ranks|
    ensures Shaped(Step(s, move)) && |Step(s, move).ranks| == |s.ranks|
    ensures Lost(Step(s, move), i) == Lost(s, i) + Bit(Drops(s, move, i))
  {
    ShapedStep(s, move);
    assert LinksOk(s, i);
    match move
    case Main(r) => if r < |s.ranks| { LostMain(s, r, i); }
    case Up(j) =>
    case Down(j) =>
  }

  lemma LostNat(s: State, i: nat)
    requires Inv(s) && 1 <= i < |s.ranks|
    ensures Lost(s, i) >= 0
  {
    assert LinksOk(s, i);
  }

  // ----- answers -----

  lemma StepInv(s: State, move: Move)
    requires Inv(s)
    ensures Inv(Step(s, move))
  {
    match move
    case Main(r) => if r < |s.ranks| { MainKeeps(s, r); }
    case Up(i) => if 1 <= i < |s.ranks| { UpKeeps(s, i); }
    case Down(i) => if 1 <= i < |s.ranks| { DownKeeps(s, i); }
  }

  /** A rank for which an answer is under way has not got one yet. */
  lemma OneAnswer(s: State, i: nat)
    requires Inv(s) && 1 <= i < |s.ranks| && Busy(s.down[i])
    ensures s.ranks[i].pc == Wait && s.ranks[i].flag && s.ranks[i].buff[0] != 0
  {
    AnswerAwaited(s, i);
    PassedSent(s, i);
    assert LinksOk(s, i) && RankOk(s.ranks[i], i) && RankOk(s.ranks[0], 0);
  }

  lemma RankAnswered(m: Rank, l: Link, z: Rank, i: nat)
    requires 1 <= i < |m.buff| && RankOk(m, i) && DownOk(z, m, l, i) && Answered(m, l)
    ensures RankStep(m, i).buff != [] && Answered(RankStep(m, i), l)
  {
  }

  lemma AnsweredStep(s: State, move: Move, i: nat)
    requires Exact(s) && 1 <= i < |s.ranks|
    ensures Shaped(Step(s, move)) && |Step(s, move).ranks| == |s.ranks|
    ensures Answered(Step(s, move).ranks[i], Step(s, move).down[i])
  {
    ShapedStep(s, move);
    assert LinksOk(s, i) && RankOk(s.ranks[i], i) && RankOk(s.ranks[0], 0) && Answered(s.ranks[i], s.down[i]);
    if Busy(s.down[i]) { OneAnswer(s, i); }
    match move
    case Main(r) => if r == i { RankAnswered(s.ranks[i], s.down[i], s.ranks[0], i); }
    case Up(j) =>
    case Down(j) =>
  }

  lemma ExactStep(s: State, move: Move)
    requires Exact(s)
    ensures Exact(Step(s, move))
  {
    StepInv(s, move);
    ShapedStep(s, move);
    var t := Step(s, move);
    forall r | 0 <= r < |t.ranks| ensures PcOk(t.ranks[r]) {
      assert PcOk(s.ranks[r]);
    }
    forall i | 1 <= i < |t.ranks| ensures Answered(t.ranks[i], t.down[i]) {
      AnsweredStep(s, move, i);
    }
  }

  lemma {:induction false} RunExact(n: nat, moves: seq<Move>)
    ensures Exact(Run(n, moves))
  {
    if moves == [] {
      InitInv(n);
    } else {
      var k := |moves| - 1;
      RunExact(n, moves[..k]);
      ExactStep(Run(n, moves[..k]), moves[k]);
    }
  }

  // ----- as long as nothing is lost the ranks get on -----

  ghost predicate Whole(s: State)
    requires Shaped(s)
  {
    forall i :: 1 <= i < |s.ranks| ==> Lost(s, i) == 0
  }

  ghost predicate Stuck(s: State)
    requires Shaped(s)
  {
    forall move :: Step(s, move) == s
  }

  lemma RootWaits(s: State)
    requires Exact(s) && |s.ranks| >= 1 && Step(s, Main(0)) == s
    ensures s.ranks[0].pc.Check? && 1 <= s.ranks[0].pc.i < |s.ranks| && s.ranks[0].flag
    ensures s.ranks[0].buff[s.ranks[0].pc.i] == -1
  {
    var z := s.ranks[0];
    assert RankOk(z, 0) && PcOk(z) && Step(s, Main(0)).ranks[0] == RankStep(z, 0);
    if z.pc.Check? && z.pc.i < |s.ranks| { assert LinksOk(s, z.pc.i); }
  }

  lemma RankWaits(s: State, i: nat)
    requires Exact(s) && 1 <= i < |s.ranks| && Step(s, Main(i)) == s
    ensures s.ranks[i].pc == Wait && s.ranks[i].flag && s.ranks[i].buff[0] != 0
  {
    assert RankOk(s.ranks[i], i) && Step(s, Main(i)).ranks[i] == RankStep(s.ranks[i], i);
  }

  lemma LinkIdle(s: State, i: nat)
    requires Exact(s) && 1 <= i < |s.ranks|
    ensures Step(s, Up(i)) == s && s.ranks[0].flag ==> s.up[i].queue == [] && !Busy(s.up[i])
    ensures Step(s, Down(i)) == s && s.ranks[i].flag ==> s.down[i].queue == [] && !Busy(s.down[i])
  {
    assert Step(s, Up(i)).up[i] == ServerStep(s.up[i], s.ranks[0].flag);
    assert Step(s, Down(i)).down[i] == ServerStep(s.down[i], s.ranks[i].flag);
  }

  /** If rank 0 waits for the message of rank `i`, and neither that rank nor the
      threads between the two lead on, the message is lost. */
  lemma NotComing(s: State, i: nat)
    requires Exact(s) && |s.ranks| >= 1 && Step(s, Main(0)) == s && s.ranks[0].pc == Check(i) && 1 <= i < |s.ranks|
    requires Step(s, Main(i)) == s && Step(s, Up(i)) == s && Step(s, Down(i)) == s
    ensures Lost(s, i) > 0
  {
    RootWaits(s);
    RankWaits(s, i);
    LinkIdle(s, i);
    assert LinksOk(s, i) && Answered(s.ranks[i], s.down[i]);
    assert RankOk(s.ranks[i], i) && RankOk(s.ranks[0], 0);
  }

  /** Where no message is lost some step leads on, and loses none. */
  lemma GetsOn(s: State) returns (move: Move)
    requires Exact(s) && |s.ranks| >= 1 && Whole(s)
    ensures Step(s, move) != s && forall i :: 1 <= i < |s.ranks| ==> !Drops(s, move, i)
  {
    move := Main(0);
    if Step(s, move) == s {
      RootWaits(s);
      var i := s.ranks[0].pc.i;
      if Step(s, Main(i)) != s {
        move := Main(i);
      } else if Step(s, Up(i)) != s {
        move := Up(i);
      } else {
        move := Down(i);
        if Step(s, move) == s { NotComing(s, i); }
      }
    }
  }

  // ----- a lost message stops them for good -----

  /** The rank whose message is lost waits, and no rank is further than it. */
  lemma LostWaits(s: State, i: nat)
    requires Inv(s) && 1 <= i < |s.ranks| && Lost(s, i) > 0
    ensures s.ranks[i].pc == Wait && Passed(s.ranks[0]) <= s.ranks[i].returned
  {
    assert LinksOk(s, i) && RankOk(s.ranks[i], i) && RankOk(s.ranks[0], 0);
  }

  lemma NoneFurther(s: State, i: nat, q: nat)
    requires Inv(s) && 1 <= i < |s.ranks| && q < |s.ranks| && Lost(s, i) > 0
    ensures s.ranks[q].returned <= s.ranks[i].returned
  {
    LostWaits(s, i);
    assert RankOk(s.ranks[q], q) && RankOk(s.ranks[0], 0);
    if q >= 1 { assert LinksOk(s, q); }
  }

  /** In every continuation. */
  lemma {:induction false} StaysLost(n: nat, moves: seq<Move>, more: seq<Move>, i: nat)
    requires 1 <= i < n && Lost(Run(n, moves), i) > 0
    ensures Lost(Run(n, moves + more), i) > 0 && Run(n, moves + more).ranks[i].returned == Run(n, moves).ranks[i].returned
  {
    if more == [] {
      assert moves + more == moves;
    } else {
      var k := |more| - 1;
      StaysLost(n, moves, more[..k], i);
      assert (moves + more)[..|moves + more| - 1] == moves + more[..k];
      RunInv(n, moves + more[..k]);
      LostFurther(Run(n, moves + more[..k]), more[k], i);
    }
  }

  lemma LostFurther(s: State, move: Move, i: nat)
    requires Inv(s) && 1 <= i < |s.ranks| && Lost(s, i) > 0
    ensures Shaped(Step(s, move)) && |Step(s, move).ranks| == |s.ranks|
    ensures Lost(Step(s, move), i) > 0 && Step(s, move).ranks[i].returned == s.ranks[i].returned
  {
    LostStep(s, move, i);
    LostWaits(s, i);
  }

  lemma Stopped(n: nat, moves: seq<Move>, more: seq<Move>, i: nat, q: nat)
    requires 1 <= i < n && q < n && Lost(Run(n, moves), i) > 0
    ensures Run(n, moves + more).ranks[i].pc == Wait
    ensures Run(n, moves + more).ranks[q].returned <= Run(n, moves + more).ranks[i].returned == Run(n, moves).ranks[i].returned
  {
    StaysLost(n, moves, more, i);
    RunInv(n, moves + more);
    LostWaits(Run(n, moves + more), i);
    NoneFurther(Run(n, moves + more), i, q);
  }

  // ----- ranks that do not run ahead lose nothing -----

  /** A rank does not send the message of a round before rank 0 has returned from
      the rounds that the rank has returned from. */
  ghost predicate Waits(s: State, move: Move)
    requires Shaped(s)
  {
    move.Main? && 1 <= move.r < |s.ranks| && s.ranks[move.r].pc.Send? ==> s.ranks[move.r].returned <= s.ranks[0].returned
  }

  ghost predicate Patient(n: nat, moves: seq<Move>) {
    moves == [] || (Patient(n, moves[..|moves| - 1]) && Waits(Run(n, moves[..|moves| - 1]), moves[|moves| - 1]))
  }

  /** Then no message is sent too early, and none is being handled while the flag
      of rank 0 is down. */
  ghost predicate InTime(s: State, i: nat)
    requires Shaped(s) && 1 <= i < |s.ranks|
  {
    && s.up[i].sent <= s.ranks[0].returned + 1 && Lost(s, i) == 0
    && (s.up[i].server.Deciding? || s.up[i].server.Writing? ==> s.ranks[0].flag)
  }

  lemma NotDropped(s: State, move: Move, i: nat)
    requires Inv(s) && 1 <= i < |s.ranks| && InTime(s, i)
    ensures !Drops(s, move, i)
  {
    assert LinksOk(s, i) && RankOk(s.ranks[0], 0);
  }

  lemma InTimeStep(s: State, move: Move, i: nat)
    requires Inv(s) && 1 <= i < |s.ranks| && InTime(s, i) && Waits(s, move)
    ensures Shaped(Step(s, move)) && |Step(s, move).ranks| == |s.ranks| && InTime(Step(s, move), i)
  {
    ShapedStep(s, move);
    LostStep(s, move, i);
    NotDropped(s, move, i);
    assert LinksOk(s, i) && RankOk(s.ranks[i], i) && RankOk(s.ranks[0], 0);
  }

  lemma {:induction false} PatientInTime(n: nat, moves: seq<Move>, i: nat)
    requires 1 <= i < n && Patient(n, moves)
    ensures InTime(Run(n, moves), i)
  {
    if moves != [] {
      var k := |moves| - 1;
      PatientInTime(n, moves[..k], i);
      RunInv(n, moves[..k]);
      InTimeStep(Run(n, moves[..k]), moves[k], i);
    }
  }

  /** If no rank runs ahead of rank 0 no message is lost, and no state is stuck. */
  lemma PatientGetsOn(n: nat, moves: seq<Move>)
    requires n >= 1 && Patient(n, moves)
    ensures Whole(Run(n, moves)) && !Stuck(Run(n, moves))
  {
    RunExact(n, moves);
    forall i | 1 <= i < n ensures Lost(Run(n, moves), i) == 0 {
      PatientInTime(n, moves, i);
    }
    var move := GetsOn(Run(n, moves));
  }

  // ----- round after round -----

  /** How far a rank has got, and how far a server thread. */
  function Pos(m: Rank): nat {
    var n := |m.buff|;
    match m.pc
    case Outside => 0
    case Raise => 1
    case Send => 2
    case Wait => 3
    case Check(i) => 2 + i
    case Ack(i) => n + 3 + i
    case Reset(i) => 2 * n + 4 + i
    case Lower => 3 * n + 5
  }

  function Done(m: Rank): nat {
    m.returned * (3 * |m.buff| + 6) + Pos(m)
  }

  function Served(l: Link): nat {
    4 * l.written + match l.server case Accepting => 0 case Spinning(_) => 1 case Deciding(_) => 2 case Writing(_) => 3
  }

  lemma RankAdvances(m: Rank, r: nat)
    requires PcOk(m) && m.buff != []
    ensures RankStep(m, r) == m || Done(RankStep(m, r)) > Done(m)
    ensures |RankStep(m, r).buff| == |m.buff|
  {
    var n := 3 * |m.buff| + 6;
    if m.pc.Lower? { assert (m.returned + 1) * n == m.returned * n + n; }
  }

  lemma LinkAdvances(l: Link, flag: bool)
    requires l.server.Deciding? ==> flag
    ensures ServerStep(l, flag) == l || Served(ServerStep(l, flag)) > Served(l)
  {
  }

  /** All of this, in one list. */
  ghost function Work(s: State): (w: seq<nat>)
    requires Shaped(s)
    ensures |w| == 3 * |s.ranks|
  {
    seq(|s.ranks|, i requires 0 <= i < |s.ranks| => Done(s.ranks[i]))
    + seq(|s.ranks|, i requires 0 <= i < |s.ranks| => if i == 0 then 0 else Served(s.up[i]))
    + seq(|s.ranks|, i requires 0 <= i < |s.ranks| => if i == 0 then 0 else Served(s.down[i]))
  }

  ghost function Sum(w: seq<nat>): nat {
    if w == [] then 0 else Sum(w[..|w| - 1]) + w[|w| - 1]
  }

  ghost predicate NoLess(a: seq<nat>, b: seq<nat>) {
    |a| == |b| && forall k :: 0 <= k < |a| ==> a[k] <= b[k]
  }

  lemma {:induction false} SumGrows(a: seq<nat>, b: seq<nat>)
    requires NoLess(a, b)
    ensures Sum(a) <= Sum(b) && (a != b ==> Sum(a) < Sum(b))
  {
    if a != [] {
      var k := |a| - 1;
      SumGrows(a[..k], b[..k]);
      assert a == a[..k] + [a[k]] && b == b[..k] + [b[k]];
    }
  }

  lemma {:induction false} SumBounded(a: seq<nat>, c: nat)
    requires forall k :: 0 <= k < |a| ==> a[k] <= c
    ensures Sum(a) <= |a| * c
  {
    if a != [] {
      SumBounded(a[..|a| - 1], c);
      assert |a| * c == (|a| - 1) * c + c;
    }
  }

  /** A step that leads on and loses nothing gets some rank or thread further, and
      none back. */
  lemma Advances(s: State, move: Move)
    requires Exact(s) && Step(s, move) != s && forall i :: 1 <= i < |s.ranks| ==> !Drops(s, move, i)
    ensures Shaped(Step(s, move)) && |Step(s, move).ranks| == |s.ranks|
    ensures Sum(Work(s)) < Sum(Work(Step(s, move)))
  {
    ShapedStep(s, move);
    var a, b := Work(s), Work(Step(s, move));
    match move {
      case Main(r) =>
        RankAdvances(s.ranks[r], r);
        MainChanges(s, r);
        MainWork(s, Step(s, move), r);
      case Up(i) =>
        assert !Drops(s, move, i);
        LinkAdvances(s.up[i], s.ranks[0].flag);
        UpChanges(s, i);
        UpWork(s, Step(s, move), i);
      case Down(i) =>
        if Busy(s.down[i]) { OneAnswer(s, i); }
        LinkAdvances(s.down[i], s.ranks[i].flag);
        DownChanges(s, i);
        DownWork(s, Step(s, move), i);
    }
    SumGrows(a, b);
  }

  lemma WorkAt(s: State, k: nat)
    requires Shaped(s) && k < |s.ranks|
    ensures var w, n := Work(s), |s.ranks|;
            w[k] == Done(s.ranks[k]) && w[n + k] == (if k == 0 then 0 else Served(s.up[k])) && w[2 * n + k] == if k == 0 then 0 else Served(s.down[k])
  {
  }

  /** The three parts of the list, compared one by one. */
  lemma WorkNoLess(s: State, t: State)
    requires Shaped(s) && Shaped(t) && |s.ranks| == |t.ranks|
    requires forall k :: 0 <= k < |s.ranks| ==> Done(s.ranks[k]) <= Done(t.ranks[k])
    requires forall k :: 1 <= k < |s.ranks| ==> Served(s.up[k]) <= Served(t.up[k]) && Served(s.down[k]) <= Served(t.down[k])
    ensures NoLess(Work(s), Work(t))
  {
    var n := |s.ranks|;
    forall k | 0 <= k < 3 * n ensures Work(s)[k] <= Work(t)[k] {
      var part := if k < n then 0 else if k < 2 * n then 1 else 2;
      PartNoLess(s, t, part, k - part * n);
    }
  }

  lemma PartNoLess(s: State, t: State, part: nat, j: nat)
    requires Shaped(s) && Shaped(t) && |s.ranks| == |t.ranks| && j < |s.ranks| && part < 3 && Done(s.ranks[j]) <= Done(t.ranks[j])
    requires j >= 1 ==> Served(s.up[j]) <= Served(t.up[j]) && Served(s.down[j]) <= Served(t.down[j])
    ensures Work(s)[part * |s.ranks| + j] <= Work(t)[part * |s.ranks| + j]
  {
    WorkAt(s, j);
    WorkAt(t, j);
  }

  lemma MainWork(s: State, t: State, r: nat)
    requires Shaped(s) && Shaped(t) && |s.ranks| == |t.ranks| && r < |s.ranks| && Done(s.ranks[r]) < Done(t.ranks[r])
    requires forall k :: 0 <= k < |s.ranks| && k != r ==> t.ranks[k] == s.ranks[k]
    requires forall k :: 0 <= k < |s.ranks| ==> Served(t.up[k]) == Served(s.up[k]) && Served(t.down[k]) == Served(s.down[k])
    ensures NoLess(Work(s), Work(t)) && Work(s) != Work(t)
  {
    WorkNoLess(s, t);
    WorkAt(s, r);
    WorkAt(t, r);
  }

  lemma UpWork(s: State, t: State, i: nat)
    requires Shaped(s) && Shaped(t) && |s.ranks| == |t.ranks| && 1 <= i < |s.ranks| && Served(s.up[i]) < Served(t.up[i])
    requires (forall k :: 0 <= k < |s.ranks| && k != i ==> t.up[k] == s.up[k]) && t.down == s.down
    requires forall k :: 0 <= k < |s.ranks| ==> Done(t.ranks[k]) == Done(s.ranks[k])
    ensures NoLess(Work(s), Work(t)) && Work(s) != Work(t)
  {
    WorkNoLess(s, t);
    WorkAt(s, i);
    WorkAt(t, i);
  }

  lemma DownWork(s: State, t: State, i: nat)
    requires Shaped(s) && Shaped(t) && |s.ranks| == |t.ranks| && 1 <= i < |s.ranks| && Served(s.down[i]) < Served(t.down[i])
    requires (forall k :: 0 <= k < |s.ranks| && k != i ==> t.down[k] == s.down[k]) && t.up == s.up
    requires forall k :: 0 <= k < |s.ranks| ==> Done(t.ranks[k]) == Done(s.ranks[k])
    ensures NoLess(Work(s), Work(t)) && Work(s) != Work(t)
  {
    WorkNoLess(s, t);
    WorkAt(s, i);
    WorkAt(t, i);
  }

  lemma MainChanges(s: State, r: nat)
    requires Exact(s) && r < |s.ranks| && Step(s, Main(r)) != s
    ensures var t := Step(s, Main(r));
            && |t.ranks| == |t.up| == |t.down| == |s.ranks|
            && t.ranks[r] == RankStep(s.ranks[r], r) != s.ranks[r] && (forall k :: 0 <= k < |s.ranks| && k != r ==> t.ranks[k] == s.ranks[k])
            && (forall k :: 0 <= k < |s.ranks| ==> Served(t.up[k]) == Served(s.up[k]) && Served(t.down[k]) == Served(s.down[k]))
  {
    assert s.ranks[r := s.ranks[r]] == s.ranks;
  }

  lemma UpChanges(s: State, i: nat)
    requires Exact(s) && 1 <= i < |s.ranks| && Step(s, Up(i)) != s
    ensures var t := Step(s, Up(i));
            && |t.ranks| == |t.up| == |t.down| == |s.ranks|
            && t.up[i] == ServerStep(s.up[i], s.ranks[0].flag) != s.up[i] && (forall k :: 0 <= k < |s.ranks| && k != i ==> t.up[k] == s.up[k])
            && t.down == s.down && (forall k :: 0 <= k < |s.ranks| ==> Done(t.ranks[k]) == Done(s.ranks[k]))
  {
    assert s.up[i := s.up[i]] == s.up;
  }

  lemma DownChanges(s: State, i: nat)
    requires Exact(s) && 1 <= i < |s.ranks| && Step(s, Down(i)) != s
    ensures var t := Step(s, Down(i));
            && |t.ranks| == |t.up| == |t.down| == |s.ranks|
            && t.down[i] == ServerStep(s.down[i], s.ranks[i].flag) != s.down[i] && (forall k :: 0 <= k < |s.ranks| && k != i ==> t.down[k] == s.down[k])
            && t.up == s.up && (forall k :: 0 <= k < |s.ranks| ==> Done(t.ranks[k]) == Done(s.ranks[k]))
  {
    if Busy(s.down[i]) { OneAnswer(s, i); }
    assert s.down[i := s.down[i]] == s.down;
  }

  /** A bound for each of the numbers while rank 0 has returned `k` times at most. */
  function Cap(n: nat, k: nat): nat {
    (k + 2) * (3 * n + 6) + 4 * (k + 2) + 3
  }

  lemma RoundsBounded(returned: nat, k: nat, n: nat, pos: nat)
    requires returned <= k + 1 && pos < n
    ensures returned * n + pos <= (k + 2) * n
  {
    Division.MulMonotone(returned, k + 1, n);
    Division.Distributes(k + 1, 1, n);
  }

  lemma DoneBounded(m: Rank, k: nat)
    requires PcOk(m) && m.returned <= k + 1
    ensures Done(m) <= Cap(|m.buff|, k)
  {
    RoundsBounded(m.returned, k, 3 * |m.buff| + 6, Pos(m));
  }

  lemma ServedBounded(l: Link, n: nat, k: nat)
    requires l.written <= k + 2
    ensures Served(l) <= Cap(n, k)
  {
    Division.MulMonotone(0, k + 2, 3 * n + 6);
  }

  /** No rank is more than a round ahead of rank 0. */
  lemma RoundAhead(s: State, r: nat)
    requires Exact(s) && r < |s.ranks|
    ensures s.ranks[r].returned <= s.ranks[0].returned + 1
    ensures r >= 1 ==> s.up[r].written <= s.ranks[0].returned + 2 && s.down[r].written <= s.ranks[0].returned + 2
  {
    assert RankOk(s.ranks[r], r) && RankOk(s.ranks[0], 0);
    if r >= 1 { assert LinksOk(s, r); }
  }

  lemma RankBounded(s: State, r: nat, k: nat)
    requires Exact(s) && r < |s.ranks| && s.ranks[0].returned <= k
    ensures Done(s.ranks[r]) <= Cap(|s.ranks|, k)
    ensures r >= 1 ==> Served(s.up[r]) <= Cap(|s.ranks|, k) && Served(s.down[r]) <= Cap(|s.ranks|, k)
  {
    RoundAhead(s, r);
    DoneBounded(s.ranks[r], k);
    if r >= 1 {
      ServedBounded(s.up[r], |s.ranks|, k);
      ServedBounded(s.down[r], |s.ranks|, k);
    }
  }

  lemma WorkBounded(s: State, k: nat)
    requires Exact(s) && |s.ranks| >= 1 && s.ranks[0].returned <= k
    ensures Sum(Work(s)) <= 3 * |s.ranks| * Cap(|s.ranks|, k)
  {
    var w, n := Work(s), |s.ranks|;
    forall j | 0 <= j < |w| ensures w[j] <= Cap(n, k) {
      var r := if j < n then j else if j < 2 * n then j - n else j - 2 * n;
      WorkAt(s, r);
      RankBounded(s, r, k);
    }
    SumBounded(w, Cap(n, k));
  }

  lemma WholeStep(s: State, move: Move)
    requires Exact(s) && Whole(s) && forall i :: 1 <= i < |s.ranks| ==> !Drops(s, move, i)
    ensures Exact(Step(s, move)) && Whole(Step(s, move))
  {
    ExactStep(s, move);
    forall i | 1 <= i < |s.ranks| ensures Lost(Step(s, move), i) == 0 {
      LostStep(s, move, i);
    }
  }

  ghost function Rest(n: nat, moves: seq<Move>, k: nat): nat
    requires n >= 1 && Run(n, moves).ranks[0].returned <= k
  {
    RunExact(n, moves);
    WorkBounded(Run(n, moves), k);
    3 * n * Cap(n, k) - Sum(Work(Run(n, moves)))
  }

  /** From a state where nothing is lost rank 0 can be led beyond any round. */
  lemma {:induction false} Onwards(n: nat, moves: seq<Move>, k: nat) returns (more: seq<Move>)
    requires n >= 1 && Whole(Run(n, moves))
    ensures Run(n, moves + more).ranks[0].returned > k
    decreases if Run(n, moves).ranks[0].returned <= k then 1 + Rest(n, moves, k) else 0
  {
    if Run(n, moves).ranks[0].returned > k {
      more := [];
      assert moves + [] == moves;
    } else {
      var move := Onward(n, moves, k);
      more := Onwards(n, moves + [move], k);
      assert moves + [move] + more == moves + ([move] + more);
      more := [move] + more;
    }
  }

  lemma Onward(n: nat, moves: seq<Move>, k: nat) returns (move: Move)
    requires n >= 1 && Whole(Run(n, moves)) && Run(n, moves).ranks[0].returned <= k
    ensures Whole(Run(n, moves + [move]))
    ensures Run(n, moves + [move]).ranks[0].returned <= k ==> Rest(n, moves + [move], k) < Rest(n, moves, k)
  {
    var s := Run(n, moves);
    RunExact(n, moves);
    move := GetsOn(s);
    assert (moves + [move])[..|moves|] == moves;
    Advances(s, move);
    WholeStep(s, move);
  }

  /** When rank 0 has returned from a round all ranks have entered it. */
  lemma AllFollow(n: nat, moves: seq<Move>, r: nat)
    requires r < n
    ensures Run(n, moves).ranks[0].returned <= Run(n, moves).ranks[r].returned + 1
  {
    Safe(n, moves, 0, r);
    RunInv(n, moves);
    assert RankOk(Run(n, moves).ranks[r], r);
  }

  ghost predicate Reaches(n: nat, moves: seq<Move>, k: nat) {
    exists more :: AllBeyond(n, moves + more, k)
  }

  ghost predicate AllBeyond(n: nat, moves: seq<Move>, k: nat) {
    forall r :: 0 <= r < n ==> Run(n, moves).ranks[r].returned >= k
  }

  /** Exactly when no message has been lost can all ranks be led through any
      number of rounds. */
  lemma GoOnIff(n: nat, moves: seq<Move>)
    requires n >= 1
    ensures Whole(Run(n, moves)) <==> forall k: nat :: Reaches(n, moves, k)
  {
    if Whole(Run(n, moves)) {
      forall k: nat ensures Reaches(n, moves, k) {
        var more := Onwards(n, moves, k);
        forall r | 0 <= r < n ensures Run(n, moves + more).ranks[r].returned >= k {
          AllFollow(n, moves + more, r);
        }
        assert AllBeyond(n, moves + more, k);
      }
    } else {
      var i := LostOne(n, moves);
      var k := Run(n, moves).ranks[i].returned + 1;
      if Reaches(n, moves, k) {
        var more :| AllBeyond(n, moves + more, k);
        StaysLost(n, moves, more, i);
      }
    }
  }

  lemma LostOne(n: nat, moves: seq<Move>) returns (i: nat)
    requires !Whole(Run(n, moves))
    ensures 1 <= i < n && Lost(Run(n, moves), i) > 0
  {
    i :| 1 <= i < n && Lost(Run(n, moves), i) != 0;
    RunInv(n, moves);
    LostNat(Run(n, moves), i);
  }
}
