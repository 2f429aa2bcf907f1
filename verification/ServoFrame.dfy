/** The servo frame of the bus controller: a list of words, each a set of pins and how long to hold
    them, played one after another. */
module ServoFrame {
  import opened Bytes

  const FRAME_US := 20000
  const MIN_US := 500
  const MAX_US := 2500
  const MAX := 8
  const DELAY_SPAN := 0x100_0000

  /** One 32-bit word: eight pin levels and a 24-bit delay. */
  datatype Word = Word(levels: set<nat>, delay: nat)

  /** The all-low rest of the frame, computed in 32 bits of which 24 are kept. */
  function TailDelay(prev: nat): nat { (FRAME_US - prev) % DELAY_SPAN }

  /** Every channel listed has a width. */
  predicate Within(order: seq<nat>, us: seq<nat>) { forall i :: 0 <= i < |order| ==> order[i] < |us| }

  /** The frame from channels in order of width; `mask` is still high and `prev` is where the last drop
      was. */
  function FrameFrom(order: seq<nat>, us: seq<nat>, mask: set<nat>, prev: nat): (r: seq<Word>)
    requires Within(order, us)
    ensures 1 <= |r| <= |order| + 1
    decreases |order|
  {
    if order == [] then [Word({}, TailDelay(prev))]
    else
      var w := us[order[0]];
      var rest := mask - {order[0]};
      if w > prev then [Word(mask, w - prev)] + FrameFrom(order[1..], us, rest, w)
      else FrameFrom(order[1..], us, rest, prev)
  }

  function Total(f: seq<Word>): nat { if f == [] then 0 else f[0].delay + Total(f[1..]) }

  /** The pins that are high at a time of the frame. */
  function LevelAt(f: seq<Word>, time: nat): set<nat>
    decreases |f|
  {
    if f == [] then {} else if time < f[0].delay then f[0].levels else LevelAt(f[1..], time - f[0].delay)
  }

  // ---- Orders -------------------------------------------------------------------------

  predicate ByWidth(order: seq<nat>, us: seq<nat>)
    requires Within(order, us)
  {
    forall a, b :: 0 <= a < b < |order| ==> us[order[a]] <= us[order[b]]
  }

  predicate Distinct(order: seq<nat>) { forall a, b :: 0 <= a < b < |order| ==> order[a] != order[b] }

  /** The channels below n, each once, by width. */
  ghost predicate IsOrder(order: seq<nat>, us: seq<nat>, n: nat) {
    && n <= |us| && |order| == n && (forall i :: 0 <= i < n ==> order[i] < n)
    && Within(order, us) && Distinct(order) && ByWidth(order, us)
  }

  function Upto(n: nat): (r: set<nat>)
    ensures forall i: nat :: i in r <==> i < n
    ensures |r| == n
  {
    if n == 0 then {} else Upto(n - 1) + {n - 1}
  }

  function Members(order: seq<nat>): (r: set<nat>)
    ensures forall i :: i in r <==> i in order
  {
    set i | i in order
  }

  lemma {:induction false} DistinctSize(order: seq<nat>)
    requires Distinct(order)
    ensures |Members(order)| == |order|
    decreases |order|
  {
    if order != [] {
      var rest := order[1..];
      DistinctSize(rest);
      assert Members(order) == Members(rest) + {order[0]};
      assert order[0] !in Members(rest);
    }
  }

  /** An order lists every channel. */
  lemma OrderCovers(order: seq<nat>, us: seq<nat>, n: nat)
    requires IsOrder(order, us, n)
    ensures Members(order) == Upto(n)
  {
    DistinctSize(order);
    assert Members(order) <= Upto(n);
    SubsetSame(Members(order), Upto(n));
  }

  lemma SubsetSame(a: set<nat>, b: set<nat>)
    requires a <= b && |a| == |b|
    ensures a == b
  {
    assert |b| == |a| + |b - a| by { assert b == a + (b - a); }
    assert b - a == {};
  }

  // ---- What a frame plays -------------------------------------------------------------

  lemma {:induction false} LevelsFrom(order: seq<nat>, us: seq<nat>, prev: nat, time: nat, i: nat)
    requires Within(order, us) && ByWidth(order, us) && Distinct(order)
    requires i < |us|
    ensures i in LevelAt(FrameFrom(order, us, Members(order), prev), time) <==> i in order && prev + time < us[i]
    decreases |order|
  {
    if order != [] {
      var w, rest := us[order[0]], order[1..];
      assert Members(order) - {order[0]} == Members(rest);
      assert i in order <==> i == order[0] || i in rest;
      WidthsAbove(order, us, i);
      if w > prev {
        var f := FrameFrom(order, us, Members(order), prev);
        assert f[0] == Word(Members(order), w - prev) && f[1..] == FrameFrom(rest, us, Members(rest), w);
        if time >= w - prev {
          LevelsFrom(rest, us, w, time - (w - prev), i);
        }
      } else {
        LevelsFrom(rest, us, prev, time, i);
      }
    }
  }

  lemma WidthsAbove(order: seq<nat>, us: seq<nat>, i: nat)
    requires order != [] && Within(order, us) && ByWidth(order, us) && i < |us|
    ensures i in order ==> us[order[0]] <= us[i]
  {
    if i in order {
      var k :| 0 <= k < |order| && order[k] == i;
      assert k > 0 ==> us[order[0]] <= us[order[k]];
    }
  }

  /** Channel i is high for exactly its width, from the start of the frame. */
  lemma HighForWidth(order: seq<nat>, us: seq<nat>, n: nat, i: nat, time: nat)
    requires IsOrder(order, us, n) && i < n
    ensures i in LevelAt(FrameFrom(order, us, Upto(n), 0), time) <==> time < us[i]
  {
    OrderCovers(order, us, n);
    LevelsFrom(order, us, 0, time, i);
    assert i in Members(order);
  }

  function Widest(order: seq<nat>, us: seq<nat>, prev: nat): (r: nat)
    requires Within(order, us)
    ensures r >= prev
    decreases |order|
  {
    if order == [] then prev else Widest(order[1..], us, if us[order[0]] > prev then us[order[0]] else prev)
  }

  lemma {:induction false} TotalFrom(order: seq<nat>, us: seq<nat>, mask: set<nat>, prev: nat)
    requires Within(order, us)
    ensures var last := Widest(order, us, prev);
      Total(FrameFrom(order, us, mask, prev)) == last - prev + TailDelay(last)
    decreases |order|
  {
    var f := FrameFrom(order, us, mask, prev);
    if order == [] {
      assert f[1..] == [];
    } else {
      var w, rest := us[order[0]], mask - {order[0]};
      if w > prev {
        assert f[1..] == FrameFrom(order[1..], us, rest, w);
        TotalFrom(order[1..], us, rest, w);
      } else {
        TotalFrom(order[1..], us, rest, prev);
      }
    }
  }

  lemma {:induction false} WidestIs(order: seq<nat>, us: seq<nat>, prev: nat)
    requires Within(order, us)
    ensures forall i :: 0 <= i < |order| ==> us[order[i]] <= Widest(order, us, prev)
    ensures Widest(order, us, prev) == prev || exists i :: 0 <= i < |order| && Widest(order, us, prev) == us[order[i]]
    decreases |order|
  {
    if order != [] {
      var p := if us[order[0]] > prev then us[order[0]] else prev;
      WidestIs(order[1..], us, p);
      forall i | 0 <= i < |order|
        ensures us[order[i]] <= Widest(order, us, prev)
      {
        if i > 0 {
          assert us[order[1..][i - 1]] <= Widest(order[1..], us, p);
        }
      }
      if Widest(order, us, prev) != p {
        var j :| 0 <= j < |order[1..]| && Widest(order, us, prev) == us[order[1..][j]];
        assert us[order[j + 1]] == Widest(order, us, prev);
      }
    }
  }

  lemma WidestFits(order: seq<nat>, us: seq<nat>, n: nat)
    requires IsOrder(order, us, n) && forall i :: 0 <= i < |us| ==> us[i] < 0x1_0000
    ensures var last := Widest(order, us, 0);
      last < 0x1_0000 && (last <= FRAME_US <==> forall i :: 0 <= i < n ==> us[i] <= FRAME_US)
  {
    WidestIs(order, us, 0);
    OrderCovers(order, us, n);
    hide Widest, Upto, ByWidth, Distinct;
    var last := Widest(order, us, 0);
    forall i | 0 <= i < n
      ensures us[i] <= last
    {
      assert i in Upto(n);
      var k :| 0 <= k < |order| && order[k] == i;
      assert us[order[k]] <= last;
    }
    if last > FRAME_US {
      var j :| 0 <= j < |order| && last == us[order[j]];
      assert us[order[j]] > FRAME_US;
    }
  }

  /** The delays of a frame sum to 20 ms exactly when no width exceeds that; otherwise the frame is longer
      by the whole range of a 24-bit delay. */
  lemma FrameLasts(order: seq<nat>, us: seq<nat>, n: nat)
    requires IsOrder(order, us, n) && forall i :: 0 <= i < |us| ==> us[i] < 0x1_0000
    ensures Within(order, us)
    ensures Total(FrameFrom(order, us, Upto(n), 0)) ==
            if forall i :: 0 <= i < n ==> us[i] <= 20000 then 20000 else 20000 + 0x100_0000
  {
    assert Within(order, us);
    hide FrameFrom, Total, Widest, Upto, IsOrder, Within, TailDelay;
    TotalFrom(order, us, Upto(n), 0);
    WidestFits(order, us, n);
    TailIs(Widest(order, us, 0));
  }

  lemma TailIs(last: nat)
    ensures last <= FRAME_US ==> last + TailDelay(last) == FRAME_US
    ensures FRAME_US < last < 0x1_0000 ==> last + TailDelay(last) == FRAME_US + DELAY_SPAN
  {
  }

  // ---- As the program builds it -------------------------------------------------------

  /** The numbers below |s|, each once. */
  predicate Permuted(s: seq<nat>) { (forall k :: 0 <= k < |s| ==> s[k] < |s|) && Distinct(s) }

  /** The first i + 1 are in order but for the one at j, which is no wider than those after it. */
  predicate SortedBut(s: seq<nat>, us: seq<nat>, i: int, j: int) {
    forall a, b :: 0 <= a < b <= i < |s| && b != j && s[a] < |us| && s[b] < |us| ==> us[s[a]] <= us[s[b]]
  }

  lemma SwapDown(s: seq<nat>, us: seq<nat>, i: nat, j: nat)
    requires Permuted(s) && |s| <= |us| && 0 < j <= i < |s| && SortedBut(s, us, i, j) && us[s[j]] < us[s[j - 1]]
    ensures var r := s[j := s[j - 1]][j - 1 := s[j]]; Permuted(r) && SortedBut(r, us, i, j - 1)
  {
    var r := s[j := s[j - 1]][j - 1 := s[j]];
    forall a, b | 0 <= a < b <= i && b != j - 1
      ensures us[r[a]] <= us[r[b]]
    {
      if a == j - 1 && b == j {
      } else if b == j {
        assert us[s[a]] <= us[s[j - 1]];
      } else if a == j - 1 {
        assert us[s[j]] <= us[s[b]];
      } else if a == j {
        assert us[s[j - 1]] <= us[s[b]];
      }
    }
  }

  lemma Settled(s: seq<nat>, us: seq<nat>, i: nat, j: nat)
    requires Permuted(s) && |s| <= |us| && j <= i < |s| && SortedBut(s, us, i, j)
    requires j > 0 ==> us[s[j - 1]] <= us[s[j]]
    ensures SortedBut(s, us, i, -1)
    ensures i + 1 < |s| ==> SortedBut(s, us, i + 1, i + 1)
  {
    forall a, b | 0 <= a < b <= i
      ensures us[s[a]] <= us[s[b]]
    {
      if b == j && a < j - 1 {
        assert us[s[a]] <= us[s[j - 1]];
      }
    }
  }

  /** Moves the channel at i down to its place. */
  method SinkDown(us: array<nat>, idx: array<nat>, n: nat, i: nat)
    requires i < n <= us.Length && n <= idx.Length && us != idx
    requires Permuted(idx[..n]) && SortedBut(idx[..n], us[..], i, i)
    modifies idx
    ensures us[..] == old(us[..]) && Permuted(idx[..n]) && SortedBut(idx[..n], us[..], i, -1)
    ensures i + 1 < n ==> SortedBut(idx[..n], us[..], i + 1, i + 1)
  {
    hide Distinct, SortedBut;
    ghost var w := us[..];
    var j := i;
    while j > 0 && us[idx[j]] < us[idx[j - 1]]
      invariant 0 <= j <= i && us[..] == w && Permuted(idx[..n]) && SortedBut(idx[..n], w, i, j)
    {
      ghost var s := idx[..n];
      assert s[j] == idx[j] && s[j - 1] == idx[j - 1] && w[s[j]] < w[s[j - 1]];
      SwapDown(s, w, i, j);
      idx[j], idx[j - 1] := idx[j - 1], idx[j];
      assert idx[..n] == s[j := s[j - 1]][j - 1 := s[j]];
      j := j - 1;
    }
    ghost var s := idx[..n];
    assert j > 0 ==> w[s[j - 1]] <= w[s[j]];
    Settled(s, w, i, j);
  }

  lemma SortedAll(s: seq<nat>, us: seq<nat>)
    requires Permuted(s) && |s| <= |us| && (|s| > 1 ==> SortedBut(s, us, |s| - 1, -1))
    ensures IsOrder(s, us, |s|)
  {
    forall a, b | 0 <= a < b < |s|
      ensures us[s[a]] <= us[s[b]]
    {
    }
  }

  lemma Identity(s: seq<nat>, us: seq<nat>)
    requires |s| <= |us| && forall k :: 0 <= k < |s| ==> s[k] == k
    ensures Permuted(s) && SortedBut(s, us, 0, -1) && (|s| > 1 ==> SortedBut(s, us, 1, 1))
  {
  }

  /** Sorts the channel numbers by width, in place. */
  method SortByWidth(us: array<nat>, idx: array<nat>, n: nat)
    requires n <= us.Length && n <= idx.Length && us != idx
    requires forall k :: 0 <= k < n ==> idx[k] == k
    modifies idx
    ensures us[..] == old(us[..]) && IsOrder(idx[..n], us[..], n)
  {
    hide Permuted, SortedBut, IsOrder;
    ghost var w := us[..];
    Identity(idx[..n], w);
    var i := 1;
    while i < n
      invariant 1 <= i && us[..] == w && Permuted(idx[..n])
      invariant i < n ==> SortedBut(idx[..n], w, i, i)
      invariant n > 1 && i >= n ==> SortedBut(idx[..n], w, n - 1, -1)
    {
      SinkDown(us, idx, n, i);
      i := i + 1;
    }
    SortedAll(idx[..n], w);
  }

  /** The words of sorted channels: a word per distinct width, then the tail. */
  method EmitWords(us: array<nat>, idx: array<nat>, n: nat) returns (frame: seq<Word>)
    requires n <= idx.Length && Within(idx[..n], us[..])
    ensures frame == FrameFrom(idx[..n], us[..], Upto(n), 0)
  {
    hide FrameFrom, Upto, Within, TailDelay;
    ghost var order, widths := idx[..n], us[..];
    ghost var goal := FrameFrom(order, widths, Upto(n), 0);
    frame := [];
    var mask, prev: nat := Upto(n), 0;
    var i := 0;
    assert order[0..] == order;
    while i < n
      invariant 0 <= i <= n && Within(order[i..], widths)
      invariant frame + FrameFrom(order[i..], widths, mask, prev) == goal
    {
      FrameStep(order, i, widths, mask, prev);
      var ch := idx[i];
      assert ch == order[i] && us[ch] == widths[order[i]];
      var w := us[ch];
      if w > prev {
        Append(frame, Word(mask, w - prev), FrameFrom(order[i + 1..], widths, mask - {ch}, w));
        frame := frame + [Word(mask, w - prev)];
        prev := w;
      }
      mask := mask - {ch};
      i := i + 1;
    }
    FrameTail(order[i..], widths, mask, prev);
    frame := frame + [Word({}, TailDelay(prev))];
  }

  /** The frame for the first n channels; no channels, no frame. */
  method BuildFrame(us: array<nat>, n: nat) returns (frame: seq<Word>, ghost order: seq<nat>)
    requires n <= MAX <= us.Length
    ensures n == 0 ==> frame == []
    ensures n > 0 ==> IsOrder(order, us[..], n) && frame == FrameFrom(order, us[..], Upto(n), 0)
  {
    if n == 0 {
      return [], [];
    }
    hide FrameFrom, Upto, TailDelay, IsOrder, Within;
    var idx := new nat[MAX](i => i);
    SortByWidth(us, idx, n);
    order := idx[..n];
    OrderBelow(order, us[..], n);
    frame := EmitWords(us, idx, n);
  }

  lemma OrderBelow(order: seq<nat>, us: seq<nat>, n: nat)
    requires IsOrder(order, us, n)
    ensures Within(order, us) && |order| == n
  {
  }

  lemma Append(a: seq<Word>, w: Word, b: seq<Word>)
    ensures a + ([w] + b) == a + [w] + b
  {
  }

  lemma FrameTail(order: seq<nat>, us: seq<nat>, mask: set<nat>, prev: nat)
    requires order == [] && Within(order, us)
    ensures FrameFrom(order, us, mask, prev) == [Word({}, TailDelay(prev))]
  {
  }

  lemma FrameStep(order: seq<nat>, i: nat, us: seq<nat>, mask: set<nat>, prev: nat)
    requires i < |order| && Within(order[i..], us)
    ensures order[i] < |us| && Within(order[i + 1..], us)
    ensures var w, rest := us[order[i]], mask - {order[i]};
      FrameFrom(order[i..], us, mask, prev) ==
        if w > prev then [Word(mask, w - prev)] + FrameFrom(order[i + 1..], us, rest, w)
        else FrameFrom(order[i + 1..], us, rest, prev)
  {
    assert order[i..][0] == order[i] && order[i..][1..] == order[i + 1..];
  }

  // ---- The bank -----------------------------------------------------------------------

  function ClampedUs(w: nat): (r: nat)
    ensures MIN_US <= r <= MAX_US && (MIN_US <= w <= MAX_US ==> r == w)
  {
    if w < MIN_US then MIN_US else if w > MAX_US then MAX_US else w
  }

  /** What the command can leave in the array of widths. */
  predicate Storable(us: seq<nat>) { forall i :: 0 <= i < |us| ==> MIN_US <= us[i] <= MAX_US }

  function WidthAt(args: seq<byte>, i: nat): nat
    requires 2 * i + 1 < |args|
  {
    var low: nat, high: nat := args[2 * i], args[2 * i + 1];
    low + 0x100 * high
  }

  /** The widths after a command that brings the first cnt, low byte first. */
  function Stored(us: seq<nat>, args: seq<byte>, cnt: nat): (r: seq<nat>)
    requires 2 * cnt <= |args|
    ensures |r| == |us| && (Storable(us) ==> Storable(r))
  {
    seq(|us|, i requires 0 <= i < |us| =>
      if i < cnt then ClampedUs(WidthAt(args, i)) else us[i])
  }

  /** Two bytes, low one first, set the width of a channel in microseconds, brought into the range that
      servos take. */
  lemma WidthSent(us: seq<nat>, args: seq<byte>, cnt: nat, i: nat, w: nat)
    requires 2 * cnt <= |args| && i < cnt && i < |us| && w < 0x1_0000
    requires args[2 * i] == w % 256 && args[2 * i + 1] == w / 256
    ensures Stored(us, args, cnt)[i] == if w < 500 then 500 else if w > 2500 then 2500 else w
  {
    assert w == w % 256 + 256 * (w / 256);
  }

  method StoreWidths(us: array<nat>, args: seq<byte>, cnt: nat)
    requires cnt <= us.Length && 2 * cnt <= |args|
    modifies us
    ensures us[..] == Stored(old(us[..]), args, cnt)
  {
    ghost var was := us[..];
    var i := 0;
    while i < cnt
      invariant 0 <= i <= cnt
      invariant forall k :: 0 <= k < us.Length ==> us[k] == if k < i then Stored(was, args, cnt)[k] else was[k]
    {
      var w := WidthAt(args, i);
      if w < MIN_US {
        w := MIN_US;
      }
      if w > MAX_US {
        w := MAX_US;
      }
      us[i] := w;
      i := i + 1;
    }
    assert us[..] == Stored(was, args, cnt);
  }

  class Bank {
    const us: array<nat>
    var n: nat
    var frame: seq<Word>
    ghost var order: seq<nat>

    ghost predicate Valid()
      reads this, us
    {
      && us.Length == MAX && n <= MAX && Storable(us[..])
      && (n == 0 ==> frame == [])
      && (n > 0 ==> IsOrder(order, us[..], n) && frame == FrameFrom(order, us[..], Upto(n), 0))
    }

    constructor ()
      ensures Valid() && fresh(us) && n == 0 && forall i :: 0 <= i < 8 ==> us[i] == 1500
    {
      us := new nat[MAX](_ => 1500);
      n, frame, order := 0, [], [];
    }

    method Rebuild()
      requires us.Length == MAX && n <= MAX && Storable(us[..])
      modifies this`frame, this`order
      ensures Valid()
    {
      frame, order := BuildFrame(us, n);
    }

    /** Drives the first `count` channels. */
    method SetCount(count: nat)
      requires Valid()
      modifies this
      ensures Valid() && n == if 1 <= count <= 8 then count else old(n)
    {
      if count == 0 || count > MAX {
        return;
      }
      n := count;
      Rebuild();
    }

    method StopAll()
      requires Valid()
      modifies this
      ensures Valid() && n == 0 && frame == []
    {
      n, frame := 0, [];
    }

    /** The command that sets widths: it clamps each, and looks at the channels in use only. */
    method SetAll(servoMode: bool, args: seq<byte>) returns (ok: bool)
      requires Valid()
      modifies this`frame, this`order, us
      ensures Valid() && ok == (servoMode && |args| >= 2)
      ensures us[..] == if ok then Stored(old(us[..]), args, if |args| / 2 > n then n else |args| / 2) else old(us[..])
      ensures !ok ==> frame == old(frame)
    {
      hide IsOrder, FrameFrom, Upto, Storable, Stored;
      if !servoMode || |args| < 2 {
        return false;
      }
      var cnt := |args| / 2;
      if cnt > n {
        cnt := n;
      }
      StoreWidths(us, args, cnt);
      Rebuild();
      ok := true;
    }

    /** Whatever was sent to it, a bank in use plays frames of exactly 20 ms in which every channel
        is high for its own width. */
    lemma Plays(i: nat, time: nat)
      requires Valid() && i < n && time < 20000
      ensures Total(frame) == 20000 && (i in LevelAt(frame, time) <==> time < us[i])
    {
      hide FrameFrom, Total, LevelAt, Upto, IsOrder;
      assert forall k :: 0 <= k < |us[..]| ==> us[..][k] <= MAX_US;
      FrameLasts(order, us[..], n);
      HighForWidth(order, us[..], n, i, time);
    }
  }
}
