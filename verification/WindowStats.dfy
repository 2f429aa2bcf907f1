/** The three tumbling windows over the analog samples, and what each publishes when it closes. */
module WindowStats {
  import opened Bytes
  import opened SquareRoot

  type u16 = x: int | 0 <= x < 0x1_0000
  type u64 = x: int | 0 <= x < 0x1_0000_0000_0000_0000

  const TOP := 4095
  const WINDOWS := 3

  function Length(w: nat): nat
    requires w < WINDOWS
  {
    [16, 160, 1600][w]
  }

  datatype Acc = Acc(min: nat, max: nat, sum: nat, sumsq: nat, count: nat)

  datatype Stat = Stat(min: nat, max: nat, avg: nat, rms: nat)

  function Empty(): Acc { Acc(0, 0, 0, 0, 0) }

  // ---- The batch definition -----------------------------------------------------------

  function Sum(xs: seq<nat>): nat { if xs == [] then 0 else Sum(xs[..|xs| - 1]) + xs[|xs| - 1] }

  function SumSq(xs: seq<nat>): nat {
    if xs == [] then 0 else SumSq(xs[..|xs| - 1]) + xs[|xs| - 1] * xs[|xs| - 1]
  }

  predicate IsMin(m: nat, xs: seq<nat>) { m in xs && forall i :: 0 <= i < |xs| ==> m <= xs[i] }

  predicate IsMax(m: nat, xs: seq<nat>) { m in xs && forall i :: 0 <= i < |xs| ==> xs[i] <= m }

  predicate InRange(xs: seq<nat>) { forall i :: 0 <= i < |xs| ==> xs[i] <= TOP }

  /** The floor of the variance. */
  function Variance(xs: seq<nat>): nat
    requires xs != []
  {
    SpreadNatural(xs);
    ZeroQuotient(|xs|);
    Over(|xs| * SumSq(xs) - Sum(xs) * Sum(xs), |xs| * |xs|)
  }

  function Over(a: nat, b: nat): nat
    requires b > 0
  {
    a / b
  }

  /** A published record is right for a block of samples. */
  predicate Describes(st: Stat, xs: seq<nat>) {
    xs != [] && IsMin(st.min, xs) && IsMax(st.max, xs) && st.avg == Sum(xs) / |xs| && IsRoot(st.rms, Variance(xs))
  }

  /** The sum of the squared distances to v. */
  function Distances(xs: seq<nat>, v: int): int {
    if xs == [] then 0 else Distances(xs[..|xs| - 1], v) + (xs[|xs| - 1] - v) * (xs[|xs| - 1] - v)
  }

  lemma Steps(xs: seq<nat>, v: int)
    requires xs != []
    ensures var ys, x := xs[..|xs| - 1], xs[|xs| - 1];
      && Sum(xs) == Sum(ys) + x && SumSq(xs) == SumSq(ys) + x * x
      && Distances(xs, v) == Distances(ys, v) + (x - v) * (x - v) && |xs| == |ys| + 1
  {
  }

  lemma DistanceStep(d: int, q: int, s: int, n: int, v: int, x: int)
    requires d == q - 2 * (v * s) + n * (v * v)
    ensures d + (x - v) * (x - v) == (q + x * x) - 2 * (v * (s + x)) + (n + 1) * (v * v)
  {
    assert (x - v) * (x - v) == x * x - 2 * (v * x) + v * v;
    assert v * (s + x) == v * s + v * x;
    assert (n + 1) * (v * v) == n * (v * v) + v * v;
  }

  lemma {:induction false} DistancesAre(xs: seq<nat>, v: int)
    ensures Distances(xs, v) == SumSq(xs) - 2 * (v * Sum(xs)) + |xs| * (v * v)
    ensures Distances(xs, v) >= 0
    decreases |xs|
  {
    if xs != [] {
      hide Distances, Sum, SumSq;
      var ys, x := xs[..|xs| - 1], xs[|xs| - 1];
      DistancesAre(ys, v);
      Steps(xs, v);
      DistanceStep(Distances(ys, v), SumSq(ys), Sum(ys), |ys|, v, x);
      SquareNatural(x - v);
    }
  }

  lemma SquareNatural(d: int)
    ensures d * d >= 0
  {
  }

  lemma SpreadStep(n: int, q: int, s: int, x: int)
    requires n * q >= s * s && q - 2 * (x * s) + n * (x * x) >= 0
    ensures (n + 1) * (q + x * x) >= (s + x) * (s + x)
  {
    Expand(s, x);
    assert (n + 1) * (q + x * x) == n * q + n * (x * x) + q + x * x;
    assert s * x == x * s;
  }

  /** The subtraction in the variance never goes below zero. */
  lemma {:induction false} SpreadNatural(xs: seq<nat>)
    ensures |xs| * SumSq(xs) >= Sum(xs) * Sum(xs)
    decreases |xs|
  {
    if xs != [] {
      hide Distances, Sum, SumSq;
      var ys, x := xs[..|xs| - 1], xs[|xs| - 1];
      SpreadNatural(ys);
      DistancesAre(ys, x);
      Steps(xs, x);
      SpreadStep(|ys|, SumSq(ys), Sum(ys), x);
    }
  }

  lemma InRangeFront(xs: seq<nat>)
    requires InRange(xs) && xs != []
    ensures InRange(xs[..|xs| - 1]) && xs[|xs| - 1] <= TOP
  {
  }

  lemma BoundStep(q: nat, s: nat, x: nat)
    requires q <= TOP * s && x <= TOP
    ensures q + x * x <= TOP * (s + x)
  {
    ProductBelow(x, TOP, x, x);
  }

  lemma {:induction false} SumBounds(xs: seq<nat>)
    requires InRange(xs)
    ensures Sum(xs) <= TOP * |xs| && SumSq(xs) <= TOP * Sum(xs)
    decreases |xs|
  {
    if xs != [] {
      InRangeFront(xs);
      hide Distances, Sum, SumSq, InRange;
      var ys, x := xs[..|xs| - 1], xs[|xs| - 1];
      SumBounds(ys);
      Steps(xs, 0);
      BoundStep(SumSq(ys), Sum(ys), x);
    }
  }

  /** Nothing overflows: the sum stays in 32 bits, the sum of squares and both products in 64, the
      variance in 32, and what is published in 16. */
  lemma Fits(xs: seq<nat>)
    requires InRange(xs) && 0 < |xs| <= 1600
    ensures Sum(xs) < 0x1_0000_0000 && SumSq(xs) < 0x1_0000_0000_0000_0000
    ensures |xs| * SumSq(xs) < 0x1_0000_0000_0000_0000 && Sum(xs) * Sum(xs) < 0x1_0000_0000_0000_0000
    ensures Sum(xs) / |xs| <= TOP && Variance(xs) <= TOP * TOP < 0x1_0000_0000
  {
    SumBounds(xs);
    VarianceIs(xs);
    hide Sum, SumSq, Variance;
    FitsSums(|xs|, Sum(xs), SumSq(xs));
    if |xs| * SumSq(xs) > Sum(xs) * Sum(xs) {
      FitsVariance(|xs|, Sum(xs), SumSq(xs));
    }
  }

  lemma FitsSums(n: nat, s: nat, q: nat)
    requires 0 < n <= 1600 && s <= TOP * n && q <= TOP * s
    ensures s < 0x1_0000_0000 && q < 0x1_0000_0000_0000_0000
    ensures n * q < 0x1_0000_0000_0000_0000 && s * s < 0x1_0000_0000_0000_0000 && s / n <= TOP
  {
    ProductBelow(n, 1600, q, TOP * (TOP * 1600));
    SquareBelow(s, TOP * 1600);
    QuotientBelow(s, n, TOP);
  }

  lemma FitsVariance(n: nat, s: nat, q: nat)
    requires n > 0 && s <= TOP * n && q <= TOP * s && n * q > s * s
    ensures n * n > 0 && Over(n * q - s * s, n * n) <= TOP * TOP
  {
    ZeroQuotient(n);
    ProductBelow(n, n, q, TOP * (TOP * n));
    assert n * (TOP * (TOP * n)) == TOP * TOP * (n * n);
    SquareNatural(s);
    QuotientBelow(n * q - s * s, n * n, TOP * TOP);
  }

  lemma CancelBelow(k: int, c: int, b: int)
    requires b > 0 && k * b <= c * b
    ensures k <= c
  {
    assert (c - k) * b >= 0;
    assert c - k <= -1 ==> (c - k) * b <= -b;
  }

  lemma QuotientBelow(a: nat, b: nat, c: nat)
    requires b > 0 && a <= c * b
    ensures a / b <= c
  {
    assert a == (a / b) * b + a % b;
    CancelBelow(a / b, c, b);
  }

  // ---- The running form ---------------------------------------------------------------

  function Add(a: Acc, v: nat): Acc {
    Acc(if a.count == 0 || v < a.min then v else a.min, if a.count == 0 || v > a.max then v else a.max,
        a.sum + v, a.sumsq + v * v, a.count + 1)
  }

  /** The accumulator after a block of samples. */
  function AccOf(xs: seq<nat>): Acc { if xs == [] then Empty() else Add(AccOf(xs[..|xs| - 1]), xs[|xs| - 1]) }

  lemma {:induction false} AccIs(xs: seq<nat>)
    ensures var a := AccOf(xs); a.sum == Sum(xs) && a.sumsq == SumSq(xs) && a.count == |xs|
    ensures xs != [] ==> IsMin(AccOf(xs).min, xs) && IsMax(AccOf(xs).max, xs)
    decreases |xs|
  {
    if xs != [] {
      var ys, x := xs[..|xs| - 1], xs[|xs| - 1];
      AccIs(ys);
      assert x in xs;
      assert forall y :: y in ys ==> y in xs;
      assert forall i :: 0 <= i < |ys| ==> xs[i] == ys[i];
    }
  }

  /** The closing of one window; each variable is as wide as the program's. */
  method Finish(a: Acc, ghost xs: seq<nat>) returns (st: Stat)
    requires a == AccOf(xs) && InRange(xs) && 0 < |xs| <= 1600
    ensures Describes(st, xs) && st.rms <= TOP && st.avg <= TOP
  {
    hide *;
    AccIs(xs);
    Fits(xs);
    FitsAverage(xs);
    VarianceIs(xs);
    var n: u16 := a.count;
    var avg: u32, v: u32 := 0, 0;
    if n != 0 {
      avg := a.sum / n;
      var nss: u64 := n * a.sumsq;
      var ss: u64 := a.sum * a.sum;
      if nss > ss {
        v := Over(nss - ss, n * n);
      }
    }
    assert v == Variance(xs);
    var rms := Isqrt32(v);
    RootBound(rms, v);
    st := Stat(a.min, a.max, avg, rms);
    Described(st, xs);
  }

  lemma FitsAverage(xs: seq<nat>)
    requires InRange(xs) && 0 < |xs| <= 1600
    ensures 0 <= Sum(xs) / |xs| < 0x1_0000
  {
    SumBounds(xs);
    hide Sum, InRange;
    QuotientBelow(Sum(xs), |xs|, TOP);
    assert Sum(xs) / |xs| == Over(Sum(xs), |xs|);
  }

  lemma RootBound(r: nat, x: nat)
    requires IsRoot(r, x) && x <= TOP * TOP
    ensures r <= TOP
  {
    if r >= TOP + 1 {
      SquareBelow(TOP + 1, r);
    }
  }

  lemma Described(st: Stat, xs: seq<nat>)
    requires xs != [] && IsMin(st.min, xs) && IsMax(st.max, xs)
    requires st.avg == Sum(xs) / |xs| && IsRoot(st.rms, Variance(xs))
    ensures Describes(st, xs)
  {
  }

  lemma VarianceIs(xs: seq<nat>)
    requires xs != []
    ensures var n, q, s := |xs|, SumSq(xs), Sum(xs);
      n * n > 0 && Variance(xs) == if n * q > s * s then Over(n * q - s * s, n * n) else 0
  {
    SpreadNatural(xs);
    ZeroQuotient(|xs|);
    hide Sum, SumSq, Over;
  }

  lemma ZeroQuotient(n: nat)
    requires n > 0
    ensures n * n > 0 && Over(0, n * n) == 0
  {
  }

  // ---- Blocks of a run ----------------------------------------------------------------

  /** The samples of the window that is filling after a run, and those of the last one that filled. */
  function Filling(xs: seq<nat>, n: nat): (r: seq<nat>)
    requires n > 0
  {
    FullBelow(|xs|, n);
    xs[|xs| / n * n..]
  }

  function LastFull(xs: seq<nat>, n: nat): (r: seq<nat>)
    requires n > 0 && |xs| >= n
    ensures |r| == n
  {
    FullBelow(|xs|, n);
    xs[|xs| / n * n - n..|xs| / n * n]
  }

  lemma FullBelow(m: nat, n: nat)
    requires n > 0
    ensures 0 <= m / n * n <= m < m / n * n + n
    ensures m >= n ==> m / n * n >= n
  {
    assert m == m / n * n + m % n;
    var q := m / n;
    assert q <= 0 ==> q * n <= 0;
    assert q >= 1 ==> q * n >= n;
  }

  lemma CountNext(m: nat, n: nat)
    requires n > 0
    ensures 0 <= m - m / n * n < n
    ensures m - m / n * n + 1 < n ==> (m + 1) / n == m / n
    ensures m - m / n * n + 1 == n ==> (m + 1) / n == m / n + 1 && (m + 1) / n * n == m + 1
  {
    FullBelow(m, n);
    var q := m / n;
    if m - q * n + 1 < n {
      DivisionIs(m + 1, n, q, m + 1 - q * n);
    } else {
      assert (q + 1) * n == q * n + n;
      DivisionIs(m + 1, n, q + 1, 0);
    }
  }

  /** A sample either joins the window that is filling, */
  lemma SampleJoins(xs: seq<nat>, v: nat, n: nat)
    requires n > 0 && |Filling(xs, n)| + 1 < n
    ensures var ys := xs + [v];
      && |ys| / n == |xs| / n && Filling(ys, n) == Filling(xs, n) + [v]
      && (|ys| >= n <==> |xs| >= n)
      && (|xs| >= n ==> LastFull(ys, n) == LastFull(xs, n))
  {
    CountNext(|xs|, n);
    FullBelow(|xs|, n);
    FullBelow(|xs| + 1, n);
  }

  /** or fills it. */
  lemma SampleFills(xs: seq<nat>, v: nat, n: nat)
    requires n > 0 && |Filling(xs, n)| + 1 == n
    ensures var ys := xs + [v];
      && |ys| / n == |xs| / n + 1 && Filling(ys, n) == []
      && |ys| >= n && LastFull(ys, n) == Filling(xs, n) + [v]
  {
    CountNext(|xs|, n);
    FullBelow(|xs| + 1, n);
  }

  lemma FillingBelow(xs: seq<nat>, n: nat)
    requires n > 0
    ensures |Filling(xs, n)| < n
  {
    CountNext(|xs|, n);
  }

  // ---- The sampler --------------------------------------------------------------------

  class Sampler {
    const acc: array<Acc>
    const stat: array<Stat>
    const seqNo: array<nat>
    var latest: nat
    /** Every sample since the mode was set up. */
    ghost var history: seq<nat>

    /** Each window holds the accumulator of its unfinished block, the record of its last full one, and
        the number of blocks so far. */
    ghost predicate Valid()
      reads this, acc, stat, seqNo
    {
      && acc.Length == WINDOWS && stat.Length == WINDOWS && seqNo.Length == WINDOWS
      && InRange(history)
      && forall w :: 0 <= w < WINDOWS ==> WindowIs(acc[w], stat[w], seqNo[w], history, Length(w))
    }

    constructor ()
      ensures Valid() && history == [] && fresh(acc) && fresh(stat) && fresh(seqNo)
    {
      acc := new Acc[WINDOWS](_ => Empty());
      stat := new Stat[WINDOWS](_ => Stat(0, 0, 0, 0));
      seqNo := new nat[WINDOWS](_ => 0);
      latest := 0;
      history := [];
    }

    method Accumulate(x: nat)
      requires acc.Length == WINDOWS
      modifies this`latest, acc
      ensures latest == x && forall k :: 0 <= k < WINDOWS ==> acc[k] == Add(old(acc[k]), x)
    {
      latest := x;
      var w := 0;
      while w < WINDOWS
        invariant 0 <= w <= WINDOWS && latest == x
        invariant forall k :: 0 <= k < w ==> acc[k] == Add(old(acc[k]), x)
        invariant forall k :: w <= k < WINDOWS ==> acc[k] == old(acc[k])
      {
        var a := acc[w];
        var lo, hi := a.min, a.max;
        if a.count == 0 {
          lo, hi := x, x;
        } else {
          if x < lo {
            lo := x;
          }
          if x > hi {
            hi := x;
          }
        }
        acc[w] := Acc(lo, hi, a.sum + x, a.sumsq + x * x, a.count + 1);
        w := w + 1;
      }
    }

    /** Closes window w if it is full. */
    method Close(w: nat, ghost before: seq<nat>, ghost a0: Acc, x: nat)
      requires w < WINDOWS && acc.Length == WINDOWS && stat.Length == WINDOWS && seqNo.Length == WINDOWS
      requires WindowIs(a0, stat[w], seqNo[w], before, Length(w)) && acc[w] == Add(a0, x) && InRange(before) && x <= TOP
      modifies acc, stat, seqNo
      ensures WindowIs(acc[w], stat[w], seqNo[w], before + [x], Length(w))
      ensures forall k :: 0 <= k < WINDOWS && k != w ==>
        acc[k] == old(acc[k]) && stat[k] == old(stat[k]) && seqNo[k] == old(seqNo[k])
    {
      hide WindowIs, Add, AccOf, Filling, LastFull, InRange, Describes;
      ghost var ys := before + [x];
      CountsUp(a0, stat[w], seqNo[w], before, x, Length(w));
      LengthBound(w);
      if acc[w].count < Length(w) {
        WindowJoins(a0, stat[w], seqNo[w], before, x, Length(w));
        return;
      }
      WindowFills(a0, stat[w], seqNo[w], before, x, Length(w));
      var st := Finish(acc[w], LastFull(ys, Length(w)));
      WindowClosed(st, (seqNo[w] + 1) % 0x1_0000, ys, Length(w));
      stat[w] := st;
      acc[w] := Empty();
      seqNo[w] := (seqNo[w] + 1) % 0x1_0000;
    }

    static lemma LengthBound(w: nat)
      requires w < WINDOWS
      ensures 0 < Length(w) <= 1600
    {
    }

    /** Folds one sample into every window, then closes the windows that are full. */
    method Sample(v: nat)
      requires Valid()
      modifies this`latest, this`history, acc, stat, seqNo
      ensures Valid() && history == old(history) + [if v > 4095 then 4095 else v] && latest == history[|history| - 1]
      ensures WindowIs(acc[0], stat[0], seqNo[0], history, 16)
      ensures WindowIs(acc[1], stat[1], seqNo[1], history, 160)
      ensures WindowIs(acc[2], stat[2], seqNo[2], history, 1600)
    {
      hide WindowIs, Add;
      var x := if v > TOP then TOP else v;
      ghost var before := history;
      Accumulate(x);
      history := history + [x];
      var w := 0;
      while w < WINDOWS
        invariant 0 <= w <= WINDOWS && latest == x && history == before + [x]
        invariant forall k :: 0 <= k < w ==> WindowIs(acc[k], stat[k], seqNo[k], history, Length(k))
        invariant forall k :: w <= k < WINDOWS ==>
          acc[k] == Add(old(acc[k]), x) && stat[k] == old(stat[k]) && seqNo[k] == old(seqNo[k])
      {
        Close(w, before, old(acc[w]), x);
        w := w + 1;
      }
    }
  }

  /** One window after a run of samples. */
  ghost predicate WindowIs(a: Acc, st: Stat, s: nat, xs: seq<nat>, n: nat) {
    && n > 0 && a == AccOf(Filling(xs, n)) && s == |xs| / n % 0x1_0000
    && (|xs| >= n ==> Describes(st, LastFull(xs, n)))
  }

  lemma WindowJoins(a: Acc, st: Stat, s: nat, xs: seq<nat>, x: nat, n: nat)
    requires WindowIs(a, st, s, xs, n) && |Filling(xs, n)| + 1 < n
    ensures WindowIs(Add(a, x), st, s, xs + [x], n)
  {
    hide AccOf, Filling, LastFull, Describes, Add;
    SampleJoins(xs, x, n);
    AccSnoc(Filling(xs, n), x);
  }

  lemma WindowFills(a: Acc, st: Stat, s: nat, xs: seq<nat>, x: nat, n: nat)
    requires WindowIs(a, st, s, xs, n) && |Filling(xs, n)| + 1 == n && InRange(xs) && x <= TOP
    ensures var ys := xs + [x];
      && |ys| >= n && Filling(ys, n) == [] && Add(a, x) == AccOf(LastFull(ys, n)) && InRange(LastFull(ys, n))
      && (s + 1) % 0x1_0000 == |ys| / n % 0x1_0000
  {
    hide AccOf, Describes, Add;
    SampleFills(xs, x, n);
    AccSnoc(Filling(xs, n), x);
    SeqNext(|xs| / n);
    FillingIn(xs, x, n);
  }

  lemma FillingIn(xs: seq<nat>, x: nat, n: nat)
    requires n > 0 && InRange(xs) && x <= TOP
    ensures InRange(Filling(xs, n) + [x])
  {
    FullBelow(|xs|, n);
  }

  lemma CountsUp(a: Acc, st: Stat, s: nat, xs: seq<nat>, x: nat, n: nat)
    requires WindowIs(a, st, s, xs, n)
    ensures Add(a, x).count == |Filling(xs, n)| + 1 <= n
  {
    AccIs(Filling(xs, n));
    AddCounts(a, x);
    FillingBelow(xs, n);
    hide AccOf, Describes, Add, Filling;
  }

  lemma AddCounts(a: Acc, x: nat)
    ensures Add(a, x).count == a.count + 1
  {
  }

  lemma SeqNext(q: nat)
    ensures (q % 0x1_0000 + 1) % 0x1_0000 == (q + 1) % 0x1_0000
  {
  }

  lemma AccSnoc(f: seq<nat>, x: nat)
    ensures AccOf(f + [x]) == Add(AccOf(f), x)
  {
    var g := f + [x];
    assert g[..|g| - 1] == f;
  }

  lemma WindowClosed(st: Stat, s: nat, xs: seq<nat>, n: nat)
    requires n > 0 && |xs| >= n && Filling(xs, n) == [] && Describes(st, LastFull(xs, n)) && s == |xs| / n % 0x1_0000
    ensures WindowIs(Empty(), st, s, xs, n)
  {
    hide Describes, Filling, LastFull;
  }
}
