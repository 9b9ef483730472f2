/** The grid and derivative program on one process and on several: the blocks of
    the grid, the exchange of edge values, and the collection at process 0. */
module Derivative {
  import opened Channels

  type Fn = real -> real

  // ----- points and slopes -----

  /** Grid point `i`; points 0 and `n + 1` lie one step outside. */
  function X(n: nat, i: int): real
    requires n >= 2
  {
    1.0 + (100.0 - 1.0) * (i - 1) as real / (n - 1) as real
  }

  function Width(n: nat): real
    requires n >= 2
  {
    99.0 / (n - 1) as real
  }

  lemma Scaled(a: real, m: real)
    requires m > 0.0
    ensures 99.0 * (a + 1.0) / m == 99.0 * a / m + 99.0 / m
  {
    assert 99.0 * a / m * m == 99.0 * a;
    assert 99.0 / m * m == 99.0;
    assert (99.0 * a / m + 99.0 / m) * m == 99.0 * a + 99.0;
  }

  /** The points are all one width apart. */
  lemma NextPoint(n: nat, i: int)
    requires n >= 2
    ensures X(n, i + 1) == X(n, i) + Width(n) && Width(n) > 0.0
  {
    Scaled((i - 1) as real, (n - 1) as real);
    assert (i - 1) as real + 1.0 == i as real;
  }

  function Quotient(low: real, high: real, dx: real): real
    requires dx != 0.0
  {
    (high - low) / (2.0 * dx)
  }

  function Slope(fn: Fn, n: nat, i: int): real
    requires n >= 2
  {
    NextPoint(n, i);
    Quotient(fn(X(n, i - 1)), fn(X(n, i + 1)), Width(n))
  }

  // ----- what the results are -----

  /** The points run from 1 to 100 in steps of `h`, and with each goes the value
      there and the central difference of the values one step to either side. */
  ghost predicate Differences(fn: Fn, h: real, x: seq<real>, y: seq<real>, d: seq<real>) {
    && |x| == |y| == |d| >= 2 && x[0] == 1.0 && x[|x| - 1] == 100.0 && h > 0.0
    && (forall i :: 1 <= i < |x| ==> x[i] - x[i - 1] == h)
    && (forall i :: 0 <= i < |x| ==> y[i] == fn(x[i]))
    && (forall i :: 0 <= i < |x| ==> Central(fn, x[i], h, d[i]))
  }

  ghost predicate Central(fn: Fn, x: real, h: real, d: real) {
    d * (2.0 * h) == fn(x + h) - fn(x - h)
  }

  /** The same, with the step that the points themselves have. */
  ghost predicate Listed(fn: Fn, x: seq<real>, y: seq<real>, d: seq<real>) {
    |x| >= 2 && Differences(fn, x[1] - x[0], x, y, d)
  }

  function Cubic(a: real, b: real, c: real, e: real, x: real): real {
    a * x * x * x + b * x * x + c * x + e
  }

  /** The derivative of that polynomial. */
  function Tangent(a: real, b: real, c: real, x: real): real {
    3.0 * a * x * x + 2.0 * b * x + c
  }

  function Off(a: real, h: real): real {
    a * h * h
  }

  /** For every polynomial of degree three at most: the derivative at each point,
      and an error of the leading coefficient times the step squared. */
  lemma NearlyExact(fn: Fn, h: real, x: seq<real>, y: seq<real>, d: seq<real>, a: real, b: real, c: real, e: real, i: nat)
    requires Differences(fn, h, x, y, d) && i < |x| && forall u :: fn(u) == Cubic(a, b, c, e, u)
    ensures d[i] == Tangent(a, b, c, x[i]) + Off(a, h)
  {
    NearlyExactAt(fn, x[i], h, d[i], a, b, c, e);
  }

  lemma NearlyExactAt(fn: Fn, x: real, h: real, d: real, a: real, b: real, c: real, e: real)
    requires h > 0.0 && Central(fn, x, h, d) && forall u :: fn(u) == Cubic(a, b, c, e, u)
    ensures d == Tangent(a, b, c, x) + Off(a, h)
  {
    CubicSlope(a, b, c, e, x, h, d);
  }

  /** So lines and parabolas come out exactly. */
  lemma ExactForParabolas(fn: Fn, h: real, x: seq<real>, y: seq<real>, d: seq<real>, b: real, c: real, e: real, i: nat)
    requires Differences(fn, h, x, y, d) && i < |x| && forall u :: fn(u) == b * u * u + c * u + e
    ensures d[i] == 2.0 * b * x[i] + c
  {
    forall u ensures fn(u) == Cubic(0.0, b, c, e, u) {
      assert fn(u) == b * u * u + c * u + e;
    }
    NearlyExact(fn, h, x, y, d, 0.0, b, c, e, i);
  }

  lemma CubicSlope(a: real, b: real, c: real, e: real, x: real, h: real, d: real)
    requires h > 0.0 && d * (2.0 * h) == Cubic(a, b, c, e, x + h) - Cubic(a, b, c, e, x - h)
    ensures d == Tangent(a, b, c, x) + Off(a, h)
  {
    var u, v, r := x + h, x - h, Tangent(a, b, c, x) + Off(a, h);
    CubeDifference(x, h);
    SquareDifference(x, h);
    assert a * u * u * u - a * v * v * v == a * (u * u * u - v * v * v) == a * (6.0 * x * x * h + 2.0 * h * h * h);
    assert b * u * u - b * v * v == b * (u * u - v * v) == b * (4.0 * x * h);
    assert r * (2.0 * h) == d * (2.0 * h);
    assert (r - d) * (2.0 * h) == 0.0;
  }

  lemma SquareDifference(x: real, h: real)
    ensures (x + h) * (x + h) - (x - h) * (x - h) == 4.0 * x * h
  {
  }

  lemma CubeDifference(x: real, h: real)
    ensures (x + h) * (x + h) * (x + h) - (x - h) * (x - h) * (x - h) == 6.0 * x * x * h + 2.0 * h * h * h
  {
    assert (x + h) * (x + h) == x * x + 2.0 * x * h + h * h;
    assert (x - h) * (x - h) == x * x - 2.0 * x * h + h * h;
  }

  /** What the two programs store, point by point, is such a list. */
  lemma AreDifferences(fn: Fn, n: nat, x: seq<real>, y: seq<real>, d: seq<real>)
    requires n >= 2 && |x| == |y| == |d| == n
    requires forall k :: 0 <= k < n ==> x[k] == X(n, k + 1) && y[k] == fn(x[k]) && d[k] == Slope(fn, n, k + 1)
    ensures x[1] - x[0] == Width(n) && Differences(fn, Width(n), x, y, d)
  {
    forall k | 0 <= k < n ensures Central(fn, x[k], Width(n), d[k]) {
      PointIs(fn, n, k + 1, x[k], d[k]);
    }
    forall k | 1 <= k < n ensures x[k] - x[k - 1] == Width(n) {
      StepIs(n, k, x[k - 1], x[k]);
    }
    LastPoint(n, x[0], x[n - 1]);
  }

  lemma PointIs(fn: Fn, n: nat, i: int, x: real, d: real)
    requires n >= 2 && x == X(n, i) && d == Slope(fn, n, i)
    ensures Central(fn, x, Width(n), d)
  {
    NextPoint(n, i - 1);
    NextPoint(n, i);
    Undone(fn(X(n, i + 1)) - fn(X(n, i - 1)), Width(n));
  }

  lemma StepIs(n: nat, i: int, x: real, next: real)
    requires n >= 2 && x == X(n, i) && next == X(n, i + 1)
    ensures next - x == Width(n)
  {
    NextPoint(n, i);
  }

  lemma Undone(a: real, w: real)
    requires w > 0.0
    ensures a / (2.0 * w) * (2.0 * w) == a
  {
  }

  lemma LastPoint(n: nat, first: real, last: real)
    requires n >= 2 && first == X(n, 1) && last == X(n, n)
    ensures first == 1.0 && last == 100.0 && Width(n) > 0.0
  {
    var m := (n - 1) as real;
    assert 99.0 * m / m == 99.0;
    assert Width(n) * m == 99.0;
  }

  /** The arrays of the serial program, point `i` at index `i`. */
  ghost predicate Table(fn: Fn, n: nat, xc: seq<real>, yc: seq<real>, dyc: seq<real>) {
    |xc| == |yc| == n + 2 && |dyc| == n + 1 && n >= 2 && Listed(fn, xc[1..n + 1], yc[1..n + 1], dyc[1..])
  }

  lemma IsTable(fn: Fn, n: nat, xc: seq<real>, yc: seq<real>, dyc: seq<real>)
    requires n >= 2 && |xc| == |yc| == n + 2 && |dyc| == n + 1
    requires forall i :: 1 <= i <= n ==> xc[i] == X(n, i) && yc[i] == fn(X(n, i)) && dyc[i] == Slope(fn, n, i)
    ensures Table(fn, n, xc, yc, dyc)
  {
    var x, y, d := xc[1..n + 1], yc[1..n + 1], dyc[1..];
    forall k | 0 <= k < n ensures x[k] == X(n, k + 1) && y[k] == fn(x[k]) && d[k] == Slope(fn, n, k + 1) {
      assert xc[k + 1] == X(n, k + 1);
    }
    AreDifferences(fn, n, x, y, d);
  }

  // ----- the serial program -----

  /** The grid points `start` to `end` and one more on each side; the step width is
      taken from the first two. */
  method Grid(n: nat, start: int, end: int) returns (xc: array<real>, dx: real)
    requires n >= 2 && 1 <= start < end <= n
    ensures fresh(xc) && xc.Length == end - start + 3 && dx == Width(n)
    ensures forall j :: 0 <= j < xc.Length ==> xc[j] == X(n, start - 1 + j)
  {
    xc := new real[end - start + 3];
    for i := start to end + 1
      invariant forall j :: 1 <= j <= i - start ==> xc[j] == X(n, start - 1 + j)
    {
      xc[i - start + 1] := 1.0 + (100.0 - 1.0) * (i - 1) as real / (n - 1) as real;
    }
    dx := xc[2] - xc[1];
    NextPoint(n, start - 1);
    NextPoint(n, start);
    NextPoint(n, end);
    xc[0] := xc[1] - dx;
    xc[end - start + 2] := xc[end - start + 1] + dx;
  }

  /** The values at the points, except the outermost two. */
  method Values(fn: Fn, xc: array<real>, yc: array<real>)
    requires xc != yc && xc.Length == yc.Length >= 3
    modifies yc
    ensures yc[0] == old(yc[0]) && yc[yc.Length - 1] == old(yc[yc.Length - 1])
    ensures forall j :: 1 <= j < yc.Length - 1 ==> yc[j] == fn(xc[j])
  {
    for i := 1 to yc.Length - 1
      invariant yc[0] == old(yc[0]) && yc[yc.Length - 1] == old(yc[yc.Length - 1])
      invariant forall j :: 1 <= j < i ==> yc[j] == fn(xc[j])
    {
      yc[i] := fn(xc[i]);
    }
  }

  method Differentiate(yc: array<real>, dx: real) returns (dyc: array<real>)
    requires yc.Length >= 3 && dx != 0.0
    ensures fresh(dyc) && dyc.Length == yc.Length - 1
    ensures forall j :: 1 <= j < dyc.Length ==> dyc[j] == Quotient(yc[j - 1], yc[j + 1], dx)
  {
    dyc := new real[yc.Length - 1];
    for i := 1 to dyc.Length
      invariant forall j :: 1 <= j < i ==> dyc[j] == Quotient(yc[j - 1], yc[j + 1], dx)
    {
      dyc[i] := (yc[i + 1] - yc[i - 1]) / (2.0 * dx);
    }
  }

  method Serial(fn: Fn, n: nat) returns (xc: array<real>, yc: array<real>, dyc: array<real>)
    requires n >= 2
    ensures xc.Length == yc.Length == n + 2 && dyc.Length == n + 1
    ensures forall i :: 1 <= i <= n ==> xc[i] == X(n, i) && yc[i] == fn(X(n, i)) && dyc[i] == Slope(fn, n, i)
    ensures Table(fn, n, xc[..], yc[..], dyc[..])
  {
    xc, yc, dyc := Solve(fn, n);
    IsTable(fn, n, xc[..], yc[..], dyc[..]);
  }

  method Solve(fn: Fn, n: nat) returns (xc: array<real>, yc: array<real>, dyc: array<real>)
    requires n >= 2
    ensures xc.Length == yc.Length == n + 2 && dyc.Length == n + 1
    ensures forall i :: 1 <= i <= n ==> xc[i] == X(n, i) && yc[i] == fn(X(n, i)) && dyc[i] == Slope(fn, n, i)
  {
    var dx;
    xc, dx := Grid(n, 1, n);
    yc := new real[n + 2];
    Values(fn, xc, yc);
    yc[0], yc[n + 1] := 0.0, 0.0;
    yc[0] := fn(xc[0]);
    yc[n + 1] := fn(xc[n + 1]);
    assert forall j :: 0 <= j <= n + 1 ==> yc[j] == fn(X(n, j));
    NextPoint(n, 0);
    dyc := Differentiate(yc, dx);
    forall i | 1 <= i <= n ensures dyc[i] == Slope(fn, n, i) {
      assert yc[i + 1] == fn(X(n, i + 1)) && yc[i - 1] == fn(X(n, i - 1));
    }
  }

  // ----- the blocks -----

  /** The first and last grid point of process `i`. */
  function Start(n: nat, p: nat, i: nat): int
    requires p >= 1
  {
    if i < n % p then 1 + n / p * i + i else 1 + n / p * i + n % p
  }

  function End(n: nat, p: nat, i: nat): int
    requires p >= 1
  {
    if i < n % p then Start(n, p, i) + n / p else Start(n, p, i) + n / p - 1
  }

  function Count(n: nat, p: nat, i: nat): int
    requires p >= 1
  {
    End(n, p, i) - Start(n, p, i) + 1
  }

  lemma NextBlock(n: nat, p: nat, i: nat)
    requires p >= 1
    ensures Start(n, p, i + 1) == End(n, p, i) + 1 && Start(n, p, i) >= 1
  {
    var q := n / p;
    assert q * (i + 1) == q * i + q;
    assert q * i >= 0;
  }

  /** The blocks start at the first point and end at the last. */
  lemma WholeGrid(n: nat, p: nat)
    requires p >= 1
    ensures Start(n, p, 0) == 1 && End(n, p, p - 1) == n
  {
    var q := n / p;
    assert n == q * p + n % p && q * (p - 1) == q * p - q;
  }

  lemma {:induction false} BlocksInOrder(n: nat, p: nat, i: nat, j: nat)
    requires p >= 1 && i < j
    ensures End(n, p, i) < Start(n, p, j)
    decreases j
  {
    NextBlock(n, p, j - 1);
    if i < j - 1 {
      BlocksInOrder(n, p, i, j - 1);
      assert n / p >= 0;
    } 
  }

  ghost predicate InBlock(n: nat, p: nat, i: nat, x: int)
    requires p >= 1
  {
    Start(n, p, i) <= x <= End(n, p, i)
  }

  /** Every grid point lies in the block of some process. */
  lemma {:induction false} BlockOf(n: nat, p: nat, x: int, m: nat) returns (i: nat)
    requires 1 <= m <= p && 1 <= x <= End(n, p, m - 1)
    ensures i < m && InBlock(n, p, i, x)
  {
    WholeGrid(n, p);
    if x >= Start(n, p, m - 1) {
      i := m - 1;
    } else {
      NextBlock(n, p, m - 2);
      i := BlockOf(n, p, x, m - 1);
    }
  }

  /** The points 1 to `n` are exactly those in blocks, and no point is in two. */
  lemma Blocks(n: nat, p: nat, x: int)
    requires p >= 1
    ensures 1 <= x <= n <==> exists i: nat :: i < p && InBlock(n, p, i, x)
    ensures forall i: nat, j: nat :: InBlock(n, p, i, x) && InBlock(n, p, j, x) ==> i == j
  {
    WholeGrid(n, p);
    if 1 <= x <= n { var i := BlockOf(n, p, x, p); }
    forall i: nat, j: nat | i < j ensures End(n, p, i) < Start(n, p, j) {
      BlocksInOrder(n, p, i, j);
    }
    forall i: nat | i < p && InBlock(n, p, i, x) ensures 1 <= x <= n {
      NextBlock(n, p, i);
      if i < p - 1 {
        BlocksInOrder(n, p, i, p - 1);
        SomePoints(n, p);
      }
    }
  }

  lemma SomePoints(n: nat, p: nat)
    requires p >= 1
    ensures forall i: nat :: Start(n, p, i) - 1 <= End(n, p, i)
  {
    assert n / p >= 0;
  }

  /** Each process can take its step width from its own first two points exactly
      when there are two points for each. */
  lemma TwoEach(n: nat, p: nat)
    requires p >= 1
    ensures (forall i: nat :: i < p ==> Count(n, p, i) >= 2) <==> n >= 2 * p
  {
    var q, m := n / p, n % p;
    assert n == q * p + m;
    TwoTimes(q, p, m);
    if n < 2 * p { assert Count(n, p, p - 1) <= 1; }
  }

  lemma TwoTimes(q: nat, p: nat, m: nat)
    requires m < p
    ensures q * p + m >= 2 * p <==> q >= 2
  {
    if q >= 2 {
      assert (q - 2) * p >= 0;
    } else {
      assert (1 - q) * p >= 0;
    }
  }

  // ----- the processes -----

  datatype Job = Job(fn: Fn, n: nat, p: nat)

  ghost predicate Sized(job: Job) {
    job.p >= 1 && job.n >= 2 * job.p
  }

  function First(job: Job, r: nat): int requires Sized(job) { Start(job.n, job.p, r) }

  function Last(job: Job, r: nat): int requires Sized(job) { End(job.n, job.p, r) }

  function Y(job: Job, i: int): real requires Sized(job) { job.fn(X(job.n, i)) }

  lemma BlockFits(job: Job, r: nat)
    requires Sized(job) && r < job.p
    ensures 1 <= First(job, r) < Last(job, r) <= job.n
  {
    TwoEach(job.n, job.p);
    assert Count(job.n, job.p, r) >= 2;
    Blocks(job.n, job.p, First(job, r));
    Blocks(job.n, job.p, Last(job, r));
    assert InBlock(job.n, job.p, r, First(job, r)) && InBlock(job.n, job.p, r, Last(job, r));
  }

  function XBlock(job: Job, r: nat): seq<real>
    requires Sized(job) && r < job.p
  {
    BlockFits(job, r);
    seq(Last(job, r) - First(job, r) + 1, (j: nat) => X(job.n, First(job, r) + j))
  }

  function YBlock(job: Job, r: nat): seq<real>
    requires Sized(job) && r < job.p
  {
    BlockFits(job, r);
    seq(Last(job, r) - First(job, r) + 1, (j: nat) => Y(job, First(job, r) + j))
  }

  /** The slopes of a block, from the values on its two sides. */
  function DBlock(job: Job, r: nat, left: real, right: real): seq<real>
    requires Sized(job) && r < job.p
  {
    BlockFits(job, r);
    NextPoint(job.n, 0);
    var a, c := First(job, r), Last(job, r) - First(job, r) + 1;
    seq(c, (j: nat) => Quotient(if j == 0 then left else Y(job, a + j - 1), if j == c - 1 then right else Y(job, a + j + 1), Width(job.n)))
  }

  function Slopes(job: Job, r: nat): seq<real>
    requires Sized(job) && r < job.p
  {
    DBlock(job, r, Y(job, First(job, r) - 1), Y(job, Last(job, r) + 1))
  }

  lemma SlopesAre(job: Job, r: nat, j: nat)
    requires Sized(job) && r < job.p && j < |Slopes(job, r)|
    ensures Slopes(job, r)[j] == Slope(job.fn, job.n, First(job, r) + j)
  {
    var i := First(job, r) + j;
    NextPoint(job.n, 0);
    assert Slopes(job, r)[j] == Quotient(Y(job, i - 1), Y(job, i + 1), Width(job.n));
  }

  ghost predicate HoldsPoints(job: Job, r: nat, x: seq<real>)
    requires Sized(job)
  {
    |x| == Last(job, r) - First(job, r) + 3 && forall j :: 0 <= j < |x| ==> x[j] == X(job.n, First(job, r) - 1 + j)
  }

  lemma AsXBlock(job: Job, r: nat, x: seq<real>)
    requires Sized(job) && r < job.p && HoldsPoints(job, r, x)
    ensures |x| == |XBlock(job, r)| + 2 && x[1..|x| - 1] == XBlock(job, r)
  {
    BlockFits(job, r);
    forall j: nat | j < |x| - 2 ensures x[1..|x| - 1][j] == XBlock(job, r)[j] {
      assert x[j + 1] == X(job.n, First(job, r) + j);
    }
  }

  lemma AsYBlock(job: Job, r: nat, x: seq<real>, y: seq<real>)
    requires Sized(job) && r < job.p && HoldsPoints(job, r, x)
    requires |y| == |x| && forall j :: 1 <= j < |y| - 1 ==> y[j] == job.fn(x[j])
    ensures |y| == |YBlock(job, r)| + 2 && y[1..|y| - 1] == YBlock(job, r)
  {
    BlockFits(job, r);
    forall j: nat | j < |y| - 2 ensures y[1..|y| - 1][j] == YBlock(job, r)[j] {
      assert y[j + 1] == job.fn(x[j + 1]);
      assert x[j + 1] == X(job.n, First(job, r) + j);
    }
  }

  /** What process `r` computes before it has received anything. */
  method Prepare(job: Job, r: nat) returns (xc: array<real>, yc: array<real>, dx: real)
    requires Sized(job) && r < job.p
    ensures fresh(xc) && fresh(yc) && xc != yc && xc.Length == yc.Length == |XBlock(job, r)| + 2 && dx == Width(job.n)
    ensures xc[1..xc.Length - 1] == XBlock(job, r) && yc[1..yc.Length - 1] == YBlock(job, r)
    ensures r == 0 ==> yc[0] == Y(job, 0)
    ensures r == job.p - 1 ==> yc[yc.Length - 1] == Y(job, job.n + 1)
  {
    BlockFits(job, r);
    WholeGrid(job.n, job.p);
    xc, dx := Grid(job.n, First(job, r), Last(job, r));
    AsXBlock(job, r, xc[..]);
    yc := new real[xc.Length];
    yc[0] := if r == 0 then job.fn(xc[0]) else 0.0;
    yc[yc.Length - 1] := if r == job.p - 1 then job.fn(xc[xc.Length - 1]) else 0.0;
    Values(job.fn, xc, yc);
    AsYBlock(job, r, xc[..], yc[..]);
  }

  /** What it computes once the values from its neighbours are in place. */
  method Finish(job: Job, r: nat, yc: array<real>, dx: real) returns (dyc: array<real>)
    requires Sized(job) && r < job.p && dx == Width(job.n) && yc.Length == |YBlock(job, r)| + 2
    requires yc[1..yc.Length - 1] == YBlock(job, r)
    ensures fresh(dyc) && dyc.Length == yc.Length - 1 && dyc[1..] == DBlock(job, r, yc[0], yc[yc.Length - 1])
  {
    BlockFits(job, r);
    NextPoint(job.n, 0);
    forall j: nat | 1 <= j < yc.Length - 1 ensures yc[j] == Y(job, First(job, r) + j - 1) {
      assert yc[j] == yc[1..yc.Length - 1][j - 1];
    }
    dyc := Differentiate(yc, dx);
  }

  // ----- the messages -----

  function ToLeft(job: Job, r: nat): Act
    requires Sized(job) && 1 <= r < job.p
  {
    Send(r - 1, Msg(123, [Y(job, First(job, r))]), 0)
  }

  function ToRight(job: Job, r: nat): Act
    requires Sized(job) && r < job.p
  {
    Send(r + 1, Msg(123, [Y(job, Last(job, r))]), 2 * r + 1)
  }

  function Results(job: Job, r: nat): seq<Act>
    requires Sized(job) && r < job.p
  {
    [Send(0, Msg(123, XBlock(job, r)), 2 * job.p + 1), Send(0, Msg(124, YBlock(job, r)), 2 * job.p + 2),
     Send(0, Msg(125, Slopes(job, r)), 2 * job.p + 3)]
  }

  function Halo(job: Job, r: nat): seq<Act>
    requires Sized(job) && r < job.p
  {
    (if r != 0 then [ToLeft(job, r), Recv(r - 1, 123, 2 * r)] else []) +
    (if r != job.p - 1 then [ToRight(job, r), Recv(r + 1, 123, 2 * r + 2)] else [])
  }

  /** The receives of process 0, from processes 1 to `m - 1` in turn. */
  function Collects(p: nat, m: nat): seq<Act>
    requires m >= 1
  {
    seq(3 * (m - 1), (k: nat) => Recv(k / 3 + 1, 123 + k % 3, 2 * p + 5 + k))
  }

  function Group(p: nat, i: nat): seq<Act>
    requires i >= 1
  {
    var t := 2 * p + 2 + 3 * i;
    [Recv(i, 123, t), Recv(i, 124, t + 1), Recv(i, 125, t + 2)]
  }

  function Actions(job: Job, r: nat): seq<Act>
    requires Sized(job) && r < job.p
  {
    Halo(job, r) + (if r != 0 then Results(job, r) else Collects(job.p, job.p))
  }

  ghost function Processes(job: Job): Program
    requires Sized(job)
  {
    (r: nat) => if r < job.p then Actions(job, r) else []
  }

  /** A slope at the edge of a block needs what came from the neighbour. */
  function LeftEdge(job: Job, r: nat, got: seq<Msg>): real
    requires Sized(job) && r < job.p
  {
    if r == 0 then Y(job, 0) else if |got| > 0 && |got[0].data| > 0 then got[0].data[0] else 0.0
  }

  function RightEdge(job: Job, r: nat, got: seq<Msg>): real
    requires Sized(job) && r < job.p
  {
    var k := if r == 0 then 0 else 1;
    if r == job.p - 1 then Y(job, job.n + 1) else if |got| > k && |got[k].data| > 0 then got[k].data[0] else 0.0
  }

  /** The messages as the processes make them: the last one holds slopes computed
      with the values received. */
  ghost function Made(job: Job): Payload
    requires Sized(job)
  {
    (r: nat, k: nat, got: seq<Msg>) =>
      if r >= job.p || k >= |Actions(job, r)| || Actions(job, r)[k].Recv? then Msg(0, [])
      else if r != 0 && k == |Actions(job, r)| - 1 then Msg(125, DBlock(job, r, LeftEdge(job, r, got), RightEdge(job, r, got)))
      else Actions(job, r)[k].msg
  }

  /** The message of an action, from the arrays of the process: the value at an
      edge of its block, its points or values, or the slopes once the values from
      the neighbours are in place. */
  method Message(job: Job, r: nat, k: nat, got: seq<Msg>) returns (m: Msg)
    requires Sized(job) && r < job.p && k < |Actions(job, r)| && Actions(job, r)[k].Send?
    ensures m == Made(job)(r, k, got)
  {
    BlockFits(job, r);
    SendPlaces(job, r, k);
    var xc, yc, dx := Prepare(job, r);
    var len := xc.Length - 2;
    var own := if r != 0 then 2 else 0;
    var h := own + if r != job.p - 1 then 2 else 0;
    assert yc[1..len + 1][0] == yc[1] && yc[1..len + 1][len - 1] == yc[len];
    if k < own {
      m := Msg(123, [yc[1]]);
    } else if k < h {
      m := Msg(123, [yc[len]]);
    } else if k == h {
      m := Msg(123, xc[1..len + 1]);
    } else if k == h + 1 {
      m := Msg(124, yc[1..len + 1]);
    } else {
      yc[0], yc[len + 1] := LeftEdge(job, r, got), RightEdge(job, r, got);
      var dyc := Finish(job, r, yc, dx);
      m := Msg(125, dyc[1..]);
    }
  }

  /** Which actions are sends, and of what. */
  lemma SendPlaces(job: Job, r: nat, k: nat)
    requires Sized(job) && r < job.p && k < |Actions(job, r)| && Actions(job, r)[k].Send?
    ensures var own := if r != 0 then 2 else 0; var h := own + if r != job.p - 1 then 2 else 0;
            && (k < own ==> r != 0 && Actions(job, r)[k] == ToLeft(job, r))
            && (own <= k < h ==> Actions(job, r)[k] == ToRight(job, r))
            && (k >= h ==> r != 0 && h + 3 == |Actions(job, r)| && Actions(job, r)[k] == Results(job, r)[k - h])
            && (k < h && r != 0 ==> k < |Actions(job, r)| - 1)
  {
  }

  // ----- who sends what to whom -----

  lemma Pair(a: Act, b: Act, q: nat)
    ensures Sends([a, b], q) == (if a.Send? && a.to == q then [a] else []) + (if b.Send? && b.to == q then [b] else [])
    ensures Recvs([a, b], q) == (if a.Recv? && a.src == q then [a] else []) + (if b.Recv? && b.src == q then [b] else [])
  {
    assert [] + [a] == [a] && [a] + [b] == [a, b];
    SendsNext([], a, q);
    RecvsNext([], a, q);
    SendsNext([a], b, q);
    RecvsNext([a], b, q);
  }

  lemma Triple(a: Act, b: Act, c: Act, q: nat)
    ensures Sends([a, b, c], q) == Sends([a, b], q) + (if c.Send? && c.to == q then [c] else [])
    ensures Recvs([a, b, c], q) == Recvs([a, b], q) + (if c.Recv? && c.src == q then [c] else [])
  {
    assert [a, b] + [c] == [a, b, c];
    SendsNext([a, b], c, q);
    RecvsNext([a, b], c, q);
  }

  lemma HaloSends(job: Job, r: nat, q: nat)
    requires Sized(job) && r < job.p
    ensures Sends(Halo(job, r), q) == (if r != 0 && q == r - 1 then [ToLeft(job, r)] else []) + (if r != job.p - 1 && q == r + 1 then [ToRight(job, r)] else [])
    ensures Recvs(Halo(job, r), q) == (if r != 0 && q == r - 1 then [Recv(r - 1, 123, 2 * r)] else []) + (if r != job.p - 1 && q == r + 1 then [Recv(r + 1, 123, 2 * r + 2)] else [])
  {
    var a := if r != 0 then [ToLeft(job, r), Recv(r - 1, 123, 2 * r)] else [];
    var b := if r != job.p - 1 then [ToRight(job, r), Recv(r + 1, 123, 2 * r + 2)] else [];
    SendsAppend(a, b, q);
    RecvsAppend(a, b, q);
    if r != 0 { Pair(a[0], a[1], q); }
    if r != job.p - 1 { Pair(b[0], b[1], q); }
  }

  lemma {:induction false} CollectsFrom(p: nat, m: nat, q: nat)
    requires m >= 1
    ensures Sends(Collects(p, m), q) == []
    ensures Recvs(Collects(p, m), q) == if 1 <= q < m then Group(p, q) else []
  {
    if m > 1 {
      CollectsFrom(p, m - 1, q);
      CollectsMore(p, m);
      GroupFrom(p, m - 1, q);
      SendsAppend(Collects(p, m - 1), Group(p, m - 1), q);
      RecvsAppend(Collects(p, m - 1), Group(p, m - 1), q);
    }
  }

  lemma CollectsMore(p: nat, m: nat)
    requires m > 1
    ensures Collects(p, m) == Collects(p, m - 1) + Group(p, m - 1)
  {
  }

  lemma GroupFrom(p: nat, i: nat, q: nat)
    requires i >= 1
    ensures Sends(Group(p, i), q) == [] && Recvs(Group(p, i), q) == if q == i then Group(p, i) else []
  {
    var g := Group(p, i);
    Pair(g[0], g[1], q);
    Triple(g[0], g[1], g[2], q);
  }

  lemma ActionsSends(job: Job, r: nat, q: nat)
    requires Sized(job) && r < job.p
    ensures Sends(Actions(job, r), q) == Sends(Halo(job, r), q) + if r != 0 && q == 0 then Results(job, r) else []
    ensures Recvs(Actions(job, r), q) == Recvs(Halo(job, r), q) + if r == 0 && 1 <= q < job.p then Group(job.p, q) else []
  {
    var rest := if r != 0 then Results(job, r) else Collects(job.p, job.p);
    SendsAppend(Halo(job, r), rest, q);
    RecvsAppend(Halo(job, r), rest, q);
    if r != 0 {
      Pair(rest[0], rest[1], q);
      Triple(rest[0], rest[1], rest[2], q);
    } else {
      CollectsFrom(job.p, job.p, q);
    }
  }

  /** All that a process sends to another, and all that the other receives from it. */
  function SentTo(job: Job, s: nat, d: nat): seq<Act>
    requires Sized(job) && s < job.p
  {
    (if s != 0 && d == s - 1 then [ToLeft(job, s)] else []) + (if s != job.p - 1 && d == s + 1 then [ToRight(job, s)] else [])
    + if s != 0 && d == 0 then Results(job, s) else []
  }

  function TakenFrom(job: Job, d: nat, s: nat): seq<Act>
    requires Sized(job) && d < job.p
  {
    (if d != 0 && s == d - 1 then [Recv(d - 1, 123, 2 * d)] else []) + (if d != job.p - 1 && s == d + 1 then [Recv(d + 1, 123, 2 * d + 2)] else [])
    + if d == 0 && 1 <= s < job.p then Group(job.p, s) else []
  }

  ghost predicate Paired(s: seq<Act>, r: seq<Act>) {
    |s| == |r| && forall k :: 0 <= k < |s| ==> s[k].Send? && r[k].Recv? && s[k].msg.tag == r[k].tag && s[k].t < r[k].t
  }

  lemma ListsPaired(job: Job, s: nat, d: nat)
    requires Sized(job) && s < job.p && d < job.p
    ensures Paired(SentTo(job, s, d), TakenFrom(job, d, s))
  {
  }

  lemma SentList(job: Job, s: nat, d: nat)
    requires Sized(job) && s < job.p
    ensures Sends(Actions(job, s), d) == SentTo(job, s, d)
  {
    ActionsSends(job, s, d);
    HaloSends(job, s, d);
  }

  lemma TakenList(job: Job, d: nat, s: nat)
    requires Sized(job) && d < job.p
    ensures Recvs(Actions(job, d), s) == TakenFrom(job, d, s)
  {
    ActionsSends(job, d, s);
    HaloSends(job, d, s);
  }

  /** The sends of each process to each other match the receives there. */
  lemma AllMatch(job: Job, s: nat, d: nat)
    requires Sized(job) && s < job.p && d < job.p
    ensures Match(Processes(job), job.p, s, d)
  {
    SentList(job, s, d);
    TakenList(job, d, s);
    ListsPaired(job, s, d);
    assert Paired(Sends(Processes(job)(s), d), Recvs(Processes(job)(d), s));
  }

  lemma AllOrdered(job: Job, r: nat)
    requires Sized(job) && r < job.p
    ensures Ordered(Actions(job, r))
    ensures forall k :: 0 <= k < |Actions(job, r)| ==> if Actions(job, r)[k].Send? then Actions(job, r)[k].to < job.p else Actions(job, r)[k].src < job.p
  {
  }

  lemma IsLegal(job: Job)
    requires Sized(job)
    ensures Legal(Processes(job), job.p)
  {
    forall s, d | 0 <= s < job.p && 0 <= d < job.p ensures Match(Processes(job), job.p, s, d) {
      AllMatch(job, s, d);
    }
    forall r | 0 <= r < job.p ensures Ordered(Processes(job)(r)) {
      AllOrdered(job, r);
    }
    forall r, k | 0 <= r < job.p && 0 <= k < |Processes(job)(r)|
      ensures if Processes(job)(r)[k].Send? then Processes(job)(r)[k].to < job.p else Processes(job)(r)[k].src < job.p {
      AllOrdered(job, r);
    }
  }

  // ----- what is received -----

  /** The value from the left neighbour, and the value from the right one. */
  function FromLeft(job: Job, r: nat): seq<Msg>
    requires Sized(job) && r < job.p
  {
    if r != 0 then [Msg(123, [Y(job, First(job, r) - 1)])] else []
  }

  function FromRight(job: Job, r: nat): seq<Msg>
    requires Sized(job) && r < job.p
  {
    if r != job.p - 1 then [Msg(123, [Y(job, Last(job, r) + 1)])] else []
  }

  lemma SentRight(job: Job, r: nat)
    requires Sized(job) && 1 <= r < job.p
    ensures Sends(Actions(job, r - 1), r) != [] && Sends(Actions(job, r - 1), r)[0] == ToRight(job, r - 1)
    ensures FromLeft(job, r) == [ToRight(job, r - 1).msg]
  {
    ActionsSends(job, r - 1, r);
    HaloSends(job, r - 1, r);
    NextBlock(job.n, job.p, r - 1);
  }

  lemma SentLeft(job: Job, r: nat)
    requires Sized(job) && r < job.p - 1
    ensures Sends(Actions(job, r + 1), r) != [] && Sends(Actions(job, r + 1), r)[0] == ToLeft(job, r + 1)
    ensures FromRight(job, r) == [ToLeft(job, r + 1).msg]
  {
    ActionsSends(job, r + 1, r);
    HaloSends(job, r + 1, r);
    NextBlock(job.n, job.p, r);
  }

  lemma LeftReceived(job: Job, r: nat)
    requires Sized(job) && 1 <= r < job.p
    ensures |Processes(job)(r)| >= 2 && Expected(Processes(job), r, 2) == FromLeft(job, r)
  {
    ProcessIs(job, r);
    ProcessIs(job, r - 1);
    var a := Actions(job, r);
    assert a[0] == ToLeft(job, r) && a[1] == Recv(r - 1, 123, 2 * r) && a[..0] == [];
    SentRight(job, r);
    assert Expected(Processes(job), r, 0) == [];
    ExpectedExchange(Processes(job), r, 0, r - 1, ToRight(job, r - 1));
  }

  /** Where the exchange with the right neighbour stands, and that nothing came
      from there before. */
  lemma RightTurn(job: Job, r: nat, k: nat)
    requires Sized(job) && r < job.p - 1 && k == |Halo(job, r)| - 2
    ensures var a := Actions(job, r);
            k + 2 <= |a| && a[k].Send? && a[k + 1].Recv? && a[k + 1].src == r + 1 && Recvs(a[..k], r + 1) == []
  {
    var a := Actions(job, r);
    assert a[k] == ToRight(job, r) && a[k + 1] == Recv(r + 1, 123, 2 * r + 2);
    if r != 0 {
      assert a[..2] == [a[0], a[1]];
      Pair(a[0], a[1], r + 1);
    }
  }

  lemma RightReceived(job: Job, r: nat)
    requires Sized(job) && r < job.p - 1
    ensures |Halo(job, r)| <= |Processes(job)(r)| && Expected(Processes(job), r, |Halo(job, r)|) == FromLeft(job, r) + FromRight(job, r)
  {
    var k := |Halo(job, r)| - 2;
    ProcessIs(job, r);
    ProcessIs(job, r + 1);
    RightTurn(job, r, k);
    SentLeft(job, r);
    ExpectedExchange(Processes(job), r, k, r + 1, ToLeft(job, r + 1));
    if r != 0 {
      LeftReceived(job, r);
    } else {
      assert Expected(Processes(job), r, 0) == [];
    }
  }

  lemma HaloReceived(job: Job, r: nat)
    requires Sized(job) && r < job.p
    ensures |Halo(job, r)| <= |Processes(job)(r)| && Expected(Processes(job), r, |Halo(job, r)|) == FromLeft(job, r) + FromRight(job, r)
  {
    if r < job.p - 1 {
      RightReceived(job, r);
    } else if r != 0 {
      LeftReceived(job, r);
    } else {
      assert Expected(Processes(job), r, 0) == [];
    }
  }

  /** A process computes its slopes from the true values at its edges. */
  lemma TrueEdges(job: Job, r: nat)
    requires Sized(job) && r < job.p
    ensures var got := FromLeft(job, r) + FromRight(job, r);
            DBlock(job, r, LeftEdge(job, r, got), RightEdge(job, r, got)) == Slopes(job, r)
  {
    WholeGrid(job.n, job.p);
  }

  lemma IsFaithful(job: Job)
    requires Sized(job)
    ensures Faithful(Processes(job), job.p, Made(job))
  {
    var prog, pay := Processes(job), Made(job);
    forall r, k | 0 <= r < job.p && 0 <= k < |prog(r)| && prog(r)[k].Send? ensures pay(r, k, Expected(prog, r, k)) == prog(r)[k].msg {
      if r != 0 && k == |Actions(job, r)| - 1 {
        SlopesMade(job, r);
      }
    }
  }

  lemma SlopesMade(job: Job, r: nat)
    requires Sized(job) && 1 <= r < job.p
    ensures var k := |Actions(job, r)| - 1; Made(job)(r, k, Expected(Processes(job), r, k)) == Actions(job, r)[k].msg
  {
    var prog, h := Processes(job), |Halo(job, r)|;
    HaloReceived(job, r);
    ExpectedSend(prog, r, h);
    ExpectedSend(prog, r, h + 1);
    TrueEdges(job, r);
  }

  // ----- the collection -----

  /** The `k`-th of the blocks that process 0 is sent. */
  function Part(job: Job, k: nat): Msg
    requires Sized(job) && k < 3 * (job.p - 1)
  {
    Results(job, k / 3 + 1)[k % 3].msg
  }

  function Parts(job: Job, k: nat): seq<Msg>
    requires Sized(job) && k <= 3 * (job.p - 1)
  {
    seq(k, (j: nat) requires j < k => Part(job, j))
  }

  lemma {:induction false} CollectsSoFar(p: nat, m: nat, k: nat, q: nat)
    requires m >= 1 && k <= 3 * (m - 1) && 1 <= q
    ensures |Recvs(Collects(p, m)[..k], q)| == if q <= k / 3 then 3 else if q == k / 3 + 1 then k % 3 else 0
  {
    if k > 0 {
      CollectsSoFar(p, m, k - 1, q);
      var c := Collects(p, m);
      assert c[..k] == c[..k - 1] + [c[k - 1]];
      RecvsNext(c[..k - 1], c[k - 1], q);
    }
  }

  lemma ProcessIs(job: Job, r: nat)
    requires Sized(job) && r < job.p
    ensures Processes(job)(r) == Actions(job, r)
  {
  }

  /** The next of the collecting receives, and how many there were from its source. */
  lemma PartTurn(job: Job, r: nat, i: nat, j: nat, at: nat)
    requires Sized(job) && r == 0 && 1 <= i < job.p && j < 3 && at == |Halo(job, r)| + 3 * (i - 1) + j
    ensures var a := Actions(job, r);
            at < |a| && a[at].Recv? && a[at].src == i && |Recvs(a[..at], i)| == (if i == 1 then 1 else 0) + j
  {
    var c, k := Collects(job.p, job.p), 3 * (i - 1) + j;
    assert Actions(job, r)[at] == c[k];
    assert Actions(job, r)[..at] == Halo(job, r) + c[..k];
    RecvsAppend(Halo(job, r), c[..k], i);
    CollectsSoFar(job.p, job.p, k, i);
    HaloSends(job, r, i);
  }

  lemma PartSent(job: Job, r: nat, i: nat, j: nat)
    requires Sized(job) && r == 0 && 1 <= i < job.p && j < 3
    ensures var s, at := Sends(Actions(job, i), r), (if i == 1 then 1 else 0) + j;
            at < |s| && s[at] == Results(job, i)[j] && s[at].Send?
  {
    ActionsSends(job, i, r);
    HaloSends(job, i, r);
  }

  lemma PartReceived(job: Job, r: nat, i: nat, j: nat, at: nat)
    requires Sized(job) && r == 0 && 1 <= i < job.p && j < 3 && at == |Halo(job, r)| + 3 * (i - 1) + j
    ensures at < |Processes(job)(r)| && Expected(Processes(job), r, at + 1) == Expected(Processes(job), r, at) + [Results(job, i)[j].msg]
  {
    PartTurn(job, r, i, j, at);
    PartSent(job, r, i, j);
    ProcessIs(job, r);
    ProcessIs(job, i);
    ExpectedFrom(Processes(job), r, at, i, (if i == 1 then 1 else 0) + j, Results(job, i)[j]);
  }

  lemma PartIs(job: Job, k: nat, i: nat, j: nat)
    requires Sized(job) && k < 3 * (job.p - 1) && i == k / 3 + 1 && j == k % 3
    ensures 1 <= i < job.p && j < 3 && k == 3 * (i - 1) + j && Part(job, k) == Results(job, i)[j].msg
  {
  }

  lemma NextPart(job: Job, r: nat, k: nat, at: nat)
    requires Sized(job) && r == 0 && k < 3 * (job.p - 1) && at == |Halo(job, r)| + k
    ensures ReceivesNext(Processes(job), r, at, Part(job, k))
  {
    var i, j := k / 3 + 1, k % 3;
    PartIs(job, k, i, j);
    PartReceived(job, r, i, j, at);
  }

  lemma PartsFollow(job: Job, r: nat, base: nat, n: nat)
    requires Sized(job) && r == 0 && base == |Halo(job, r)| && n == 3 * (job.p - 1)
    ensures |Parts(job, n)| == n && ReceivesAll(Processes(job), r, base, Parts(job, n))
  {
    var parts := Parts(job, n);
    forall k: nat | k < n ensures ReceivesNext(Processes(job), r, base + k, parts[k]) {
      NextPart(job, r, k, base + k);
    }
  }

  lemma HaloAtRoot(job: Job, r: nat)
    requires Sized(job) && r == 0
    ensures |Halo(job, r)| <= |Processes(job)(r)| && Expected(Processes(job), r, |Halo(job, r)|) == FromRight(job, r)
  {
    HaloReceived(job, r);
    assert FromLeft(job, r) + FromRight(job, r) == FromRight(job, r);
  }

  /** What process 0 has received in the end. */
  lemma RootReceived(job: Job, r: nat, base: nat, n: nat, at: nat)
    requires Sized(job) && r == 0 && base == |Halo(job, r)| && n == 3 * (job.p - 1) && at == base + n
    ensures at <= |Processes(job)(r)| && Expected(Processes(job), r, at) == FromRight(job, r) + Parts(job, n)
  {
    HaloAtRoot(job, r);
    PartsFollow(job, r, base, n);
    ExpectedAll(Processes(job), r, base, FromRight(job, r), Parts(job, n), at);
  }

  ghost function RunOf(job: Job, sched: seq<nat>): State
    requires Sized(job)
  {
    After(Processes(job), Made(job), job.p, sched)
  }

  ghost predicate Ended(job: Job, sched: seq<nat>)
    requires Sized(job)
  {
    Finished(RunOf(job, sched), Processes(job), job.p)
  }

  /** However the processes are scheduled, some one can go on until all are
      finished, and they can all be led there. */
  lemma Completes(job: Job, sched: seq<nat>)
    requires Sized(job)
    ensures Ended(job, sched) || exists r: nat :: r < job.p && Enabled(RunOf(job, sched), Processes(job), r)
    ensures exists more :: Ended(job, sched + more)
  {
    IsLegal(job);
    IsFaithful(job);
    AnySchedule(Processes(job), Made(job), job.p, sched);
    CanFinish(Processes(job), Made(job), job.p, sched);
    var more :| Finished(After(Processes(job), Made(job), job.p, sched + more), Processes(job), job.p);
    assert Ended(job, sched + more);
  }

  /** When all are finished, process 0 has the value that it needs and the blocks
      of all the others. */
  lemma RootHasAll(job: Job, sched: seq<nat>, r: nat)
    requires Sized(job) && Ended(job, sched) && r == 0
    ensures RunOf(job, sched).got(r) == FromRight(job, r) + Parts(job, 3 * (job.p - 1))
  {
    IsLegal(job);
    IsFaithful(job);
    AnySchedule(Processes(job), Made(job), job.p, sched);
    ProcessIs(job, r);
    RootReceived(job, r, |Halo(job, r)|, 3 * (job.p - 1), |Actions(job, r)|);
  }

  /** The points from `low` to below `high` are stored, point `x` at index `x - 1`. */
  ghost predicate Stored(f: seq<real>, job: Job, j: nat, low: int, high: int)
    requires Sized(job)
  {
    low >= 1 && high <= |f| + 1 && forall x :: low <= x < high ==> f[x - 1] == At(job, j, x)
  }

  /** The grid point, its value, or the slope there. */
  function At(job: Job, j: nat, x: int): real
    requires Sized(job)
  {
    if j == 0 then X(job.n, x) else if j == 1 then Y(job, x) else Slope(job.fn, job.n, x)
  }

  lemma ResultAt(job: Job, r: nat, j: nat, k: nat)
    requires Sized(job) && r < job.p && j < 3
    ensures var d := Results(job, r)[j].msg.data; |d| == Count(job.n, job.p, r) && (k < |d| ==> d[k] == At(job, j, First(job, r) + k))
  {
    if j == 2 && k < |Slopes(job, r)| { SlopesAre(job, r, k); }
  }

  /** A received block goes to its place. */
  method Place(f: array<real>, job: Job, r: nat, j: nat, low: int, data: seq<real>)
    requires Sized(job) && r < job.p && j < 3 && f.Length == job.n && data == Results(job, r)[j].msg.data
    requires low <= First(job, r) && Stored(f[..], job, j, low, First(job, r))
    modifies f
    ensures Stored(f[..], job, j, low, Last(job, r) + 1)
  {
    BlockFits(job, r);
    ResultAt(job, r, j, 0);
    var at := First(job, r) - 1;
    for k := 0 to |data|
      invariant forall x :: low <= x < First(job, r) + k ==> f[x - 1] == At(job, j, x)
    {
      ResultAt(job, r, j, k);
      f[at + k] := data[k];
    }
  }

  ghost predicate AllStored(fx: seq<real>, fy: seq<real>, fd: seq<real>, job: Job, low: int, high: int)
    requires Sized(job)
  {
    Stored(fx, job, 0, low, high) && Stored(fy, job, 1, low, high) && Stored(fd, job, 2, low, high)
  }

  /** Process 0 receives the three blocks of process `i`. */
  method CollectFrom(job: Job, i: nat, got: seq<Msg>, low: int, fxc: array<real>, fyc: array<real>, fdyc: array<real>)
    requires Sized(job) && 1 <= i < job.p && got == Parts(job, 3 * (job.p - 1))
    requires fxc != fyc && fyc != fdyc && fxc != fdyc && fxc.Length == fyc.Length == fdyc.Length == job.n
    requires low <= First(job, i) && AllStored(fxc[..], fyc[..], fdyc[..], job, low, First(job, i))
    modifies fxc, fyc, fdyc
    ensures AllStored(fxc[..], fyc[..], fdyc[..], job, low, Last(job, i) + 1)
  {
    PartIs(job, 3 * (i - 1), i, 0);
    Place(fxc, job, i, 0, low, got[3 * (i - 1)].data);
    PartIs(job, 3 * (i - 1) + 1, i, 1);
    Place(fyc, job, i, 1, low, got[3 * (i - 1) + 1].data);
    PartIs(job, 3 * (i - 1) + 2, i, 2);
    Place(fdyc, job, i, 2, low, got[3 * (i - 1) + 2].data);
  }

  lemma NothingYet(fx: seq<real>, fy: seq<real>, fd: seq<real>, job: Job)
    requires Sized(job) && |fx| == |fy| == |fd| == job.n
    ensures AllStored(fx, fy, fd, job, Last(job, 0) + 1, Last(job, 0) + 1)
  {
    BlockFits(job, 0);
  }

  /** Process 0 stores the blocks of the others. */
  method Collect(job: Job, got: seq<Msg>) returns (fxc: array<real>, fyc: array<real>, fdyc: array<real>)
    requires Sized(job) && got == Parts(job, 3 * (job.p - 1))
    ensures fresh(fxc) && fresh(fyc) && fresh(fdyc) && fxc != fyc && fyc != fdyc && fxc != fdyc
    ensures fxc.Length == fyc.Length == fdyc.Length == job.n
    ensures AllStored(fxc[..], fyc[..], fdyc[..], job, Last(job, 0) + 1, job.n + 1)
  {
    fxc, fyc, fdyc := new real[job.n], new real[job.n], new real[job.n];
    var low := Last(job, 0) + 1;
    NothingYet(fxc[..], fyc[..], fdyc[..], job);
    for i := 1 to job.p
      invariant low <= Last(job, i - 1) + 1
      invariant AllStored(fxc[..], fyc[..], fdyc[..], job, low, Last(job, i - 1) + 1)
    {
      NextBlock(job.n, job.p, i - 1);
      BlockFits(job, i);
      CollectFrom(job, i, got, low, fxc, fyc, fdyc);
    }
    WholeGrid(job.n, job.p);
  }

  /** Process 0 adds its own block. */
  method CopyOwn(job: Job, xc: array<real>, yc: array<real>, dyc: array<real>, fxc: array<real>, fyc: array<real>, fdyc: array<real>)
    requires Sized(job) && Owned(job, xc[..], yc[..], dyc[..]) && {xc, yc, dyc} !! {fxc, fyc, fdyc}
    requires fxc != fyc && fyc != fdyc && fxc != fdyc && fxc.Length == fyc.Length == fdyc.Length == job.n
    requires AllStored(fxc[..], fyc[..], fdyc[..], job, Last(job, 0) + 1, job.n + 1)
    modifies fxc, fyc, fdyc
    ensures AllStored(fxc[..], fyc[..], fdyc[..], job, 1, job.n + 1)
  {
    BlockFits(job, 0);
    WholeGrid(job.n, job.p);
    var high := Last(job, 0);
    for i := 0 to high
      invariant forall x :: 1 <= x <= i || high < x <= job.n ==> fxc[x - 1] == At(job, 0, x)
      invariant forall x :: 1 <= x <= i || high < x <= job.n ==> fyc[x - 1] == At(job, 1, x)
      invariant forall x :: 1 <= x <= i || high < x <= job.n ==> fdyc[x - 1] == At(job, 2, x)
    {
      assert xc[..][i + 1] == At(job, 0, i + 1);
      fxc[i], fyc[i], fdyc[i] := xc[i + 1], yc[i + 1], dyc[i + 1];
    }
  }

  /** The whole of process 0: what it stores is what the serial program stores. */
  method Root(job: Job, got: seq<Msg>, ghost sched: seq<nat>) returns (fxc: array<real>, fyc: array<real>, fdyc: array<real>)
    requires Sized(job) && Ended(job, sched) && got == RunOf(job, sched).got(0)
    ensures fxc.Length == fyc.Length == fdyc.Length == job.n
    ensures forall i :: 1 <= i <= job.n ==> fxc[i - 1] == X(job.n, i) && fyc[i - 1] == job.fn(X(job.n, i)) && fdyc[i - 1] == Slope(job.fn, job.n, i)
    ensures Listed(job.fn, fxc[..], fyc[..], fdyc[..])
  {
    RootHasAll(job, sched, 0);
    BlockFits(job, 0);
    var xc, yc, dyc := OwnBlock(job, got);
    fxc, fyc, fdyc := Collect(job, if job.p != 1 then got[1..] else got);
    CopyOwn(job, xc, yc, dyc, fxc, fyc, fdyc);
    Everything(job, fxc[..], fyc[..], fdyc[..]);
    Collected(job, fxc[..], fyc[..], fdyc[..]);
  }

  lemma Collected(job: Job, fx: seq<real>, fy: seq<real>, fd: seq<real>)
    requires Sized(job) && |fx| == |fy| == |fd| == job.n && AllStored(fx, fy, fd, job, 1, job.n + 1)
    ensures Listed(job.fn, fx, fy, fd)
  {
    forall k | 0 <= k < job.n ensures fx[k] == X(job.n, k + 1) && fy[k] == job.fn(fx[k]) && fd[k] == Slope(job.fn, job.n, k + 1) {
      assert fx[(k + 1) - 1] == At(job, 0, k + 1) && fy[(k + 1) - 1] == At(job, 1, k + 1) && fd[(k + 1) - 1] == At(job, 2, k + 1);
    }
    AreDifferences(job.fn, job.n, fx, fy, fd);
  }

  /** The block of process 0, with the value from its neighbour, if it has one. */
  method OwnBlock(job: Job, got: seq<Msg>) returns (xc: array<real>, yc: array<real>, dyc: array<real>)
    requires Sized(job) && FromRight(job, 0) <= got
    ensures fresh(xc) && fresh(yc) && fresh(dyc) && Owned(job, xc[..], yc[..], dyc[..])
  {
    BlockFits(job, 0);
    WholeGrid(job.n, job.p);
    var dx;
    xc, yc, dx := Prepare(job, 0);
    if job.p != 1 {
      yc[yc.Length - 1] := got[0].data[0];
    }
    dyc := Finish(job, 0, yc, dx);
    Own(job, xc[..], yc[..], dyc[..]);
  }

  lemma Everything(job: Job, fx: seq<real>, fy: seq<real>, fd: seq<real>)
    requires Sized(job) && |fx| == |fy| == |fd| == job.n && AllStored(fx, fy, fd, job, 1, job.n + 1)
    ensures forall i :: 1 <= i <= job.n ==> fx[i - 1] == X(job.n, i) && fy[i - 1] == job.fn(X(job.n, i)) && fd[i - 1] == Slope(job.fn, job.n, i)
  {
    forall i | 1 <= i <= job.n ensures fx[i - 1] == X(job.n, i) && fy[i - 1] == job.fn(X(job.n, i)) && fd[i - 1] == Slope(job.fn, job.n, i) {
      assert fx[i - 1] == At(job, 0, i) && fy[i - 1] == At(job, 1, i) && fd[i - 1] == At(job, 2, i);
    }
  }

  /** The arrays of process 0 hold, at index `i`, what belongs to point `i`. */
  ghost predicate Owned(job: Job, xc: seq<real>, yc: seq<real>, dyc: seq<real>)
    requires Sized(job)
  {
    && |xc| == |yc| == Last(job, 0) + 2 && |dyc| == Last(job, 0) + 1
    && forall i :: 1 <= i <= Last(job, 0) ==> xc[i] == At(job, 0, i) && yc[i] == At(job, 1, i) && dyc[i] == At(job, 2, i)
  }

  lemma Own(job: Job, xc: seq<real>, yc: seq<real>, dyc: seq<real>)
    requires Sized(job) && |xc| == |yc| == Last(job, 0) + 2 && |dyc| == Last(job, 0) + 1
    requires xc[1..|xc| - 1] == XBlock(job, 0) && yc[1..|yc| - 1] == YBlock(job, 0)
    requires dyc[1..] == Slopes(job, 0)
    ensures Owned(job, xc, yc, dyc)
  {
    forall i | 1 <= i <= Last(job, 0) ensures xc[i] == At(job, 0, i) && yc[i] == At(job, 1, i) && dyc[i] == At(job, 2, i) {
      assert xc[1..|xc| - 1][i - 1] == xc[i] && yc[1..|yc| - 1][i - 1] == yc[i] && dyc[1..][i - 1] == dyc[i];
      ResultAt(job, 0, 0, i - 1);
      ResultAt(job, 0, 1, i - 1);
      ResultAt(job, 0, 2, i - 1);
    }
  }
}
