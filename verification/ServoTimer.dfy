/** The servo schedule of the timer-driven bank: drop events sorted and merged by time, and the
    interrupt that walks them. A port mask is the set of its pads; the two ports are told apart by the
    pads themselves. */
module ServoTimer {
  import BoardPins

  const CHANNELS := 8
  const US_MIN := 500
  const US_MAX := 2500

  datatype Pad = Pad(group: nat, pin: nat)

  datatype Event = Event(t: nat, clr: set<Pad>)

  function PadOf(ch: nat): Pad
    requires ch < CHANNELS
  {
    [Pad(0, 2), Pad(0, 4), Pad(0, 10), Pad(0, 11), Pad(1, 9), Pad(0, 7), Pad(0, 5), Pad(0, 6)][ch]
  }

  predicate On(ch: nat, text: string)
    requires ch < CHANNELS
  {
    var pin := BoardPins.Lookup(text);
    pin.Some? && PadOf(ch) == Pad(pin.value.port, pin.value.pin)
  }

  /** The channels are the board's pins D0 to D3 and D7 to D10. */
  lemma PadIsPin()
    ensures On(0, "D0") && On(1, "D1") && On(2, "D2") && On(3, "D3")
    ensures On(4, "D7") && On(5, "D8") && On(6, "D9") && On(7, "D10")
  {
    hide BoardPins.Lookup;
    BoardPins.LowPins();
    BoardPins.HighPins();
  }

  lemma PadsDiffer(a: nat, b: nat)
    requires a < CHANNELS && b < CHANNELS && a != b
    ensures PadOf(a) != PadOf(b)
  {
  }

  function Clamp(us: nat): nat { if us < US_MIN then US_MIN else if us > US_MAX then US_MAX else us }

  /** Where a channel drops, at three ticks in four microseconds. */
  function Ticks(us: nat): (t: nat)
    ensures 375 <= t <= 1875
  {
    Clamp(us) * 3 / 4
  }

  // ---- Building -----------------------------------------------------------------------

  /** Inserts a drop, merging it with a drop at the same time. */
  function Insert(es: seq<Event>, t: nat, pad: Pad): (r: seq<Event>)
    ensures |r| <= |es| + 1
    decreases |es|
  {
    if es == [] then [Event(t, {pad})]
    else if es[0].t < t then [es[0]] + Insert(es[1..], t, pad)
    else if es[0].t == t then [Event(t, es[0].clr + {pad})] + es[1..]
    else [Event(t, {pad})] + es
  }

  datatype Schedule = Schedule(up: set<Pad>, events: seq<Event>)

  /** The schedule of the first n channels. */
  function Build(active: seq<bool>, us: seq<nat>, n: nat): (s: Schedule)
    requires n <= CHANNELS <= |active| && CHANNELS <= |us|
    ensures |s.events| <= n
  {
    if n == 0 then Schedule({}, [])
    else
      var s := Build(active, us, n - 1);
      if active[n - 1] then
        Schedule(s.up + {PadOf(n - 1)}, Insert(s.events, Ticks(us[n - 1]), PadOf(n - 1)))
      else s
  }

  predicate Rising(es: seq<Event>) { forall i, j :: 0 <= i < j < |es| ==> es[i].t < es[j].t }

  /** How many events drop a pad. */
  function Drops(es: seq<Event>, pad: Pad): nat
    decreases |es|
  {
    if es == [] then 0 else (if pad in es[0].clr then 1 else 0) + Drops(es[1..], pad)
  }

  lemma {:induction false} InsertTimes(es: seq<Event>, t: nat, pad: Pad)
    ensures forall i :: 0 <= i < |Insert(es, t, pad)| ==>
      Insert(es, t, pad)[i].t == t || exists j :: 0 <= j < |es| && es[j].t == Insert(es, t, pad)[i].t
    decreases |es|
  {
    if es != [] && es[0].t < t {
      var rest := Insert(es[1..], t, pad);
      InsertTimes(es[1..], t, pad);
      forall i | 0 <= i < |rest| && rest[i].t != t
        ensures exists j :: 0 <= j < |es| && es[j].t == rest[i].t
      {
        var j :| 0 <= j < |es[1..]| && es[1..][j].t == rest[i].t;
        assert es[j + 1].t == rest[i].t;
      }
    } else if es != [] {
      var r := Insert(es, t, pad);
      forall i | 0 <= i < |r| && r[i].t != t
        ensures exists j :: 0 <= j < |es| && es[j].t == r[i].t
      {
        assert es[if es[0].t == t then i else i - 1].t == r[i].t;
      }
    }
  }

  /** Inserting keeps the times strictly rising. */
  lemma {:induction false} InsertRising(es: seq<Event>, t: nat, pad: Pad)
    requires Rising(es)
    ensures Rising(Insert(es, t, pad))
    decreases |es|
  {
    if es != [] && es[0].t < t {
      InsertRising(es[1..], t, pad);
      InsertTimes(es[1..], t, pad);
      var rest := Insert(es[1..], t, pad);
      forall i | 0 <= i < |rest|
        ensures es[0].t < rest[i].t
      {
        if rest[i].t != t {
          var j :| 0 <= j < |es[1..]| && es[1..][j].t == rest[i].t;
          assert es[0].t < es[j + 1].t;
        }
      }
      hide Insert;
    }
  }

  /** Inserting adds one drop of the pad and no other. */
  lemma {:induction false} InsertDrops(es: seq<Event>, t: nat, pad: Pad, q: Pad)
    requires Drops(es, pad) == 0
    ensures Drops(Insert(es, t, pad), q) == Drops(es, q) + if q == pad then 1 else 0
    decreases |es|
  {
    var r := Insert(es, t, pad);
    if es == [] {
      assert r[1..] == [];
    } else if es[0].t < t {
      InsertDrops(es[1..], t, pad, q);
      assert r[1..] == Insert(es[1..], t, pad);
    } else if es[0].t == t {
      assert r[1..] == es[1..];
    } else {
      assert r[1..] == es;
    }
  }

  /** When an event drops a pad. */
  ghost predicate DropsAt(es: seq<Event>, pad: Pad, t: nat) {
    exists i :: 0 <= i < |es| && es[i].t == t && pad in es[i].clr
  }

  lemma DropsAtHead(es: seq<Event>, pad: Pad, t: nat)
    requires es != []
    ensures DropsAt(es, pad, t) <==> (es[0].t == t && pad in es[0].clr) || DropsAt(es[1..], pad, t)
  {
    if DropsAt(es, pad, t) {
      var i :| 0 <= i < |es| && es[i].t == t && pad in es[i].clr;
      if i > 0 {
        assert es[1..][i - 1] == es[i];
      }
    }
    if DropsAt(es[1..], pad, t) {
      var i :| 0 <= i < |es[1..]| && es[1..][i].t == t && pad in es[1..][i].clr;
      assert es[i + 1].t == t;
    }
  }

  lemma {:induction false} InsertDropsAt(es: seq<Event>, t: nat, pad: Pad, q: Pad, u: nat)
    ensures DropsAt(Insert(es, t, pad), q, u) <==> DropsAt(es, q, u) || (q == pad && u == t)
    decreases |es|
  {
    var r := Insert(es, t, pad);
    DropsAtHead(r, q, u);
    if es == [] {
      assert r[1..] == [];
    } else {
      DropsAtHead(es, q, u);
      if es[0].t < t {
        InsertDropsAt(es[1..], t, pad, q, u);
        assert r[1..] == Insert(es[1..], t, pad);
      } else if es[0].t == t {
        assert r[1..] == es[1..];
      } else {
        assert r[1..] == es;
      }
    }
    hide DropsAt, Insert;
  }

  /** What is right about the schedule of the first n channels: times strictly rise, each raised pad is
      dropped by exactly one event and no other pad by any, every active channel's pad at its own
      clamped time, and only the pads of active channels are raised. */
  ghost predicate Realises(s: Schedule, active: seq<bool>, us: seq<nat>, n: nat)
    requires n <= CHANNELS <= |active| && CHANNELS <= |us|
  {
    && Rising(s.events)
    && (forall q :: Drops(s.events, q) == if q in s.up then 1 else 0)
    && (forall ch :: 0 <= ch < n && active[ch] ==> PadOf(ch) in s.up && DropsAt(s.events, PadOf(ch), Ticks(us[ch])))
    && (forall q :: q in s.up ==> exists ch :: 0 <= ch < n && active[ch] && q == PadOf(ch))
  }

  lemma AddChannel(s: Schedule, active: seq<bool>, us: seq<nat>, n: nat)
    requires n < CHANNELS <= |active| && CHANNELS <= |us| && active[n] && Realises(s, active, us, n)
    ensures Realises(Schedule(s.up + {PadOf(n)}, Insert(s.events, Ticks(us[n]), PadOf(n))), active, us, n + 1)
  {
    var t, pad := Ticks(us[n]), PadOf(n);
    var r := Schedule(s.up + {pad}, Insert(s.events, t, pad));
    NewPad(active, s.up, n);
    hide PadOf, Insert, Rising, Drops, DropsAt, Ticks;
    InsertRising(s.events, t, pad);
    forall q
      ensures Drops(r.events, q) == if q in r.up then 1 else 0
    {
      InsertDrops(s.events, t, pad, q);
    }
    forall ch | 0 <= ch < n + 1 && active[ch]
      ensures PadOf(ch) in r.up && DropsAt(r.events, PadOf(ch), Ticks(us[ch]))
    {
      InsertDropsAt(s.events, t, pad, PadOf(ch), Ticks(us[ch]));
    }
    forall q | q in r.up
      ensures exists ch :: 0 <= ch < n + 1 && active[ch] && q == PadOf(ch)
    {
      if q in s.up {
        var ch :| 0 <= ch < n && active[ch] && q == PadOf(ch);
      }
    }
  }

  lemma SkipChannel(s: Schedule, active: seq<bool>, us: seq<nat>, n: nat)
    requires n < CHANNELS <= |active| && CHANNELS <= |us| && !active[n] && Realises(s, active, us, n)
    ensures Realises(s, active, us, n + 1)
  {
    hide PadOf, Rising, Drops, DropsAt, Ticks;
    forall q | q in s.up
      ensures exists ch :: 0 <= ch < n + 1 && active[ch] && q == PadOf(ch)
    {
      var ch :| 0 <= ch < n && active[ch] && q == PadOf(ch);
    }
  }

  lemma BuildNone(active: seq<bool>, us: seq<nat>)
    requires CHANNELS <= |active| && CHANNELS <= |us|
    ensures Realises(Schedule({}, []), active, us, 0)
  {
  }

  lemma BuildStep(active: seq<bool>, us: seq<nat>, n: nat)
    requires n < CHANNELS <= |active| && CHANNELS <= |us|
    ensures Build(active, us, 0) == Schedule({}, [])
    ensures var s := Build(active, us, n);
      Build(active, us, n + 1) ==
        if active[n] then Schedule(s.up + {PadOf(n)}, Insert(s.events, Ticks(us[n]), PadOf(n))) else s
  {
    hide PadOf, Insert, Ticks;
  }

  /** The schedule of any widths realises them. */
  lemma {:induction false} BuildLaw(active: seq<bool>, us: seq<nat>, n: nat)
    requires n <= CHANNELS <= |active| && CHANNELS <= |us|
    ensures Realises(Build(active, us, n), active, us, n)
    decreases n
  {
    hide Build, Realises, Insert, PadOf, Ticks;
    if n == 0 {
      BuildStep(active, us, 0);
      BuildNone(active, us);
    } else {
      BuildLaw(active, us, n - 1);
      BuildStep(active, us, n - 1);
      if active[n - 1] {
        AddChannel(Build(active, us, n - 1), active, us, n - 1);
      } else {
        SkipChannel(Build(active, us, n - 1), active, us, n - 1);
      }
    }
  }

  lemma NewPad(active: seq<bool>, up: set<Pad>, n: nat)
    requires n < CHANNELS <= |active|
    requires forall q :: q in up ==> exists ch :: 0 <= ch < n && active[ch] && q == PadOf(ch)
    ensures PadOf(n) !in up
  {
    hide PadOf;
    if PadOf(n) in up {
      var ch :| 0 <= ch < n && PadOf(n) == PadOf(ch);
      PadsDiffer(ch, n);
    }
  }

  // ---- The interrupt ------------------------------------------------------------------

  /** What the interrupt sees and drives: the pads that are high, the next event, and the compare
      register if it is armed. */
  datatype Walk = Walk(high: set<Pad>, idx: nat, armed: bool, compare: nat)

  function FrameStart(w: Walk, s: Schedule): Walk {
    if s.events == [] then Walk(w.high + s.up, 0, false, w.compare) else Walk(w.high + s.up, 0, true, s.events[0].t)
  }

  function Drop(w: Walk, es: seq<Event>): Walk
    requires w.idx < |es|
  {
    var next := w.idx + 1;
    Walk(w.high - es[w.idx].clr, next, next < |es|, if next < |es| then es[next].t else w.compare)
  }

  /** The counter reaches c. */
  function Reach(w: Walk, es: seq<Event>, c: nat): Walk {
    if w.armed && w.idx < |es| && w.compare == c then Drop(w, es) else w
  }

  /** A running frame after the counter has gone from 0 up to c. */
  function Frame(w: Walk, s: Schedule, c: nat): Walk {
    if c == 0 then FrameStart(w, s) else Reach(Frame(w, s, c - 1), s.events, c)
  }

  /** The walk at counter c: every event up to c is done, the next one is armed. */
  ghost predicate Walking(w: Walk, before: set<Pad>, s: Schedule, c: nat) {
    && w.idx <= |s.events|
    && (forall i :: 0 <= i < w.idx ==> s.events[i].t <= c)
    && (forall i :: w.idx <= i < |s.events| ==> s.events[i].t > c)
    && (w.armed <==> w.idx < |s.events|) && (w.armed ==> w.compare == s.events[w.idx].t)
    && forall q :: q in w.high <==> (q in before || q in s.up) && forall i :: 0 <= i < w.idx ==> q !in s.events[i].clr
  }

  lemma DropKeeps(w: Walk, before: set<Pad>, s: Schedule, c: nat)
    requires Rising(s.events) && Walking(w, before, s, c) && w.armed && w.compare == c + 1
    ensures Walking(Drop(w, s.events), before, s, c + 1)
  {
    var d := Drop(w, s.events);
    forall q
      ensures q in d.high <==> (q in before || q in s.up) && forall i :: 0 <= i < d.idx ==> q !in s.events[i].clr
    {
      if q in w.high {
        assert forall i :: 0 <= i < w.idx ==> q !in s.events[i].clr;
      }
    }
  }

  lemma {:induction false} FrameWalks(w: Walk, s: Schedule, c: nat)
    requires Rising(s.events) && forall i :: 0 <= i < |s.events| ==> s.events[i].t > 0
    ensures Walking(Frame(w, s, c), w.high, s, c)
    decreases c
  {
    if c > 0 {
      FrameWalks(w, s, c - 1);
      var p := Frame(w, s, c - 1);
      if p.armed && p.compare == c {
        DropKeeps(p, w.high, s, c - 1);
      } else if p.idx < |s.events| {
        NotYet(p, w.high, s, c);
      }
    }
  }

  lemma NotYet(p: Walk, before: set<Pad>, s: Schedule, c: nat)
    requires Rising(s.events) && c > 0 && Walking(p, before, s, c - 1) && p.idx < |s.events| && p.compare != c
    ensures forall i :: p.idx <= i < |s.events| ==> s.events[i].t > c
  {
    assert s.events[p.idx].t > c;
    assert forall i :: p.idx < i < |s.events| ==> s.events[p.idx].t < s.events[i].t;
  }

  lemma {:induction false} OneDrop(es: seq<Event>, q: Pad, i: nat, j: nat)
    requires Drops(es, q) <= 1 && i < |es| && j < |es| && q in es[i].clr && q in es[j].clr
    ensures i == j
    decreases |es|
  {
    if i == 0 && j > 0 {
      SomeDrop(es[1..], q, j - 1);
    } else if j == 0 && i > 0 {
      SomeDrop(es[1..], q, i - 1);
    } else if i > 0 {
      OneDrop(es[1..], q, i - 1, j - 1);
    }
  }

  lemma {:induction false} SomeDrop(es: seq<Event>, q: Pad, i: nat)
    requires i < |es| && q in es[i].clr
    ensures Drops(es, q) >= 1
    decreases |es|
  {
    if i > 0 {
      SomeDrop(es[1..], q, i - 1);
    }
  }

  lemma {:induction false} TimesPositive(active: seq<bool>, us: seq<nat>, n: nat)
    requires n <= CHANNELS <= |active| && CHANNELS <= |us|
    ensures forall i :: 0 <= i < |Build(active, us, n).events| ==> 0 < Build(active, us, n).events[i].t <= 1875
    decreases n
  {
    if n > 0 {
      TimesPositive(active, us, n - 1);
      InsertTimes(Build(active, us, n - 1).events, Ticks(us[n - 1]), PadOf(n - 1));
      hide Insert, PadOf, Ticks;
    }
  }

  /** The tick of a width, at three ticks in four microseconds: counts below it are those whose end still
      lies within the width, brought into the range that servos take. */
  lemma TicksMean(us: nat, c: nat)
    ensures var width := if us < 500 then 500 else if us > 2500 then 2500 else us;
      c < Ticks(us) <==> 4 * (c + 1) <= 3 * width
  {
  }

  /** In any frame started after a build, an active channel is high for its own width, in range, to the
      tick below, and low from then on; a pad of no active channel keeps its level. */
  lemma PulseIsWidth(w: Walk, active: seq<bool>, us: seq<nat>, ch: nat, c: nat)
    requires CHANNELS <= |active| && CHANNELS <= |us| && ch < CHANNELS
    ensures var f := Frame(w, Build(active, us, CHANNELS), c);
      var width := if us[ch] < 500 then 500 else if us[ch] > 2500 then 2500 else us[ch];
      && (active[ch] ==> (PadOf(ch) in f.high <==> 4 * (c + 1) <= 3 * width))
      && (!active[ch] ==> (PadOf(ch) in f.high <==> PadOf(ch) in w.high))
  {
    var s := Build(active, us, CHANNELS);
    BuildLaw(active, us, CHANNELS);
    TimesPositive(active, us, CHANNELS);
    FrameWalks(w, s, c);
    TicksMean(us[ch], c);
    var q := PadOf(ch);
    if active[ch] {
      hide Build, Frame, PadOf, Rising, Drops, Ticks;
      ActiveLevel(Frame(w, s, c), w.high, s, c, q, Ticks(us[ch]));
    } else {
      InactiveNotUp(active, s.up, ch);
      hide Build, Frame, PadOf, Rising, Drops, Ticks;
      IdleLevel(Frame(w, s, c), w.high, s, c, q);
    }
  }

  lemma InactiveNotUp(active: seq<bool>, up: set<Pad>, ch: nat)
    requires CHANNELS <= |active| && ch < CHANNELS && !active[ch]
    requires forall q :: q in up ==> exists k :: 0 <= k < CHANNELS && active[k] && q == PadOf(k)
    ensures PadOf(ch) !in up
  {
    hide PadOf;
    if PadOf(ch) in up {
      var k :| 0 <= k < CHANNELS && active[k] && PadOf(ch) == PadOf(k);
      PadsDiffer(k, ch);
    }
  }

  lemma ActiveLevel(f: Walk, before: set<Pad>, s: Schedule, c: nat, q: Pad, t: nat)
    requires Walking(f, before, s, c) && q in s.up && Drops(s.events, q) == 1 && DropsAt(s.events, q, t)
    ensures q in f.high <==> c < t
  {
    hide Drops;
    var j :| 0 <= j < |s.events| && s.events[j].t == t && q in s.events[j].clr;
    if c < t {
      forall i | 0 <= i < f.idx
        ensures q !in s.events[i].clr
      {
        if q in s.events[i].clr {
          OneDrop(s.events, q, i, j);
        }
      }
    }
  }

  lemma IdleLevel(f: Walk, before: set<Pad>, s: Schedule, c: nat, q: Pad)
    requires Walking(f, before, s, c) && q !in s.up && Drops(s.events, q) == 0
    ensures q in f.high <==> q in before
  {
    hide Drops;
    forall i | 0 <= i < f.idx
      ensures q !in s.events[i].clr
    {
      if q in s.events[i].clr {
        SomeDrop(s.events, q, i);
      }
    }
  }

  // ---- As the program keeps it --------------------------------------------------------

  /** Where the insertion happens. */
  lemma {:induction false} InsertAt(es: seq<Event>, t: nat, pad: Pad, i: nat)
    requires i <= |es| && (forall k :: 0 <= k < i ==> es[k].t < t) && (i < |es| ==> es[i].t >= t)
    ensures Insert(es, t, pad) ==
      if i < |es| && es[i].t == t then es[i := Event(t, es[i].clr + {pad})] else es[..i] + [Event(t, {pad})] + es[i..]
    decreases i
  {
    if i == 0 {
      assert es != [] ==> [Event(t, es[0].clr + {pad})] + es[1..] == es[0 := Event(t, es[0].clr + {pad})];
    } else {
      InsertAt(es[1..], t, pad, i - 1);
      hide Insert;
    }
  }

  class Bank {
    const us: array<nat>
    var enable: seq<bool>
    var declared: seq<bool>
    const evt: array<Event>
    var count: nat
    var up: set<Pad>
    var walk: Walk
    var running: bool

    ghost predicate Valid()
      reads this
    {
      && us.Length == CHANNELS + 1 && evt.Length == CHANNELS + 1 && count <= CHANNELS
      && |enable| == CHANNELS && |declared| == CHANNELS && (walk.armed ==> walk.idx < count || walk.idx == 0)
    }

    ghost function Installed(): Schedule
      requires Valid()
      reads this, evt
    {
      Schedule(up, evt[..count])
    }

    function Active(): seq<bool>
      requires |enable| == CHANNELS && |declared| == CHANNELS
      reads this`enable, this`declared
    {
      var e, d := enable, declared;
      seq(CHANNELS, i requires 0 <= i < CHANNELS && |e| == |d| == CHANNELS => e[i] && d[i])
    }

    constructor ()
      ensures Valid() && fresh(us) && fresh(evt)
      ensures !running && count == 0 && walk.high == {} && !walk.armed
      ensures forall i :: 0 <= i < 9 ==> us[i] == 1500
      ensures forall i :: 0 <= i < 8 ==> !enable[i] && !declared[i]
    {
      us := new nat[CHANNELS + 1](_ => 1500);
      enable := [false, false, false, false, false, false, false, false];
      declared := [false, false, false, false, false, false, false, false];
      evt := new Event[CHANNELS + 1](_ => Event(0, {}));
      count := 0;
      up := {};
      walk := Walk({}, 0, false, 0);
      running := false;
    }

    static lemma Inserted(es: seq<Event>, i: nat, e: Event, r: seq<Event>)
      requires i <= |es| && |r| == |es| + 1 && r[i] == e
      requires forall k :: 0 <= k < i ==> r[k] == es[k]
      requires forall k :: i < k <= |es| ==> r[k] == es[k - 1]
      ensures r == es[..i] + [e] + es[i..]
    {
    }

    /** Inserts one drop into the first n events of the array. */
    static method InsertDrop(a: array<Event>, n: nat, t: nat, pad: Pad) returns (m: nat)
      requires n < a.Length
      modifies a
      ensures m <= a.Length && a[..m] == Insert(old(a[..n]), t, pad)
    {
      hide Insert;
      ghost var es := a[..n];
      var i := 0;
      while i < n && a[i].t < t
        invariant 0 <= i <= n && a[..n] == es
        invariant forall k :: 0 <= k < i ==> a[k].t < t
      {
        i := i + 1;
      }
      InsertAt(es, t, pad, i);
      if i < n && a[i].t == t {
        a[i] := a[i].(clr := a[i].clr + {pad});
        m := n;
      } else {
        ShiftUp(a, n, i);
        a[i] := Event(t, {pad});
        m := n + 1;
        Inserted(es, i, Event(t, {pad}), a[..m]);
      }
    }

    /** Makes room at i. */
    static method ShiftUp(a: array<Event>, n: nat, i: nat)
      requires i <= n < a.Length
      modifies a
      ensures forall k :: 0 <= k < i ==> a[k] == old(a[k])
      ensures forall k :: i < k <= n ==> a[k] == old(a[k - 1])
    {
      ghost var es := a[..n];
      var j := n;
      while j > i
        invariant i <= j <= n
        invariant forall k :: 0 <= k < j ==> a[k] == es[k]
        invariant forall k :: j < k <= n ==> a[k] == es[k - 1]
      {
        a[j] := a[j - 1];
        j := j - 1;
      }
    }

    /** Recomputes the schedule beside the installed one, then installs it. */
    method BuildSchedule()
      requires Valid()
      modifies this`up, this`count, this`walk, evt
      ensures Valid() && Installed() == Build(Active(), us[..], CHANNELS)
      ensures walk == old(walk).(idx := 0)
    {
      hide Insert, PadOf, Ticks, Build, Clamp;
      ghost var active, widths := Active(), us[..];
      BuildStep(active, widths, 0);
      var raised: set<Pad> := {};
      var tmp := new Event[CHANNELS + 1](_ => Event(0, {}));
      var n := 0;
      var ch := 0;
      while ch < CHANNELS
        invariant 0 <= ch <= CHANNELS && 0 <= n <= ch && walk == old(walk)
        invariant Active() == active && us[..] == widths
        invariant Schedule(raised, tmp[..n]) == Build(active, widths, ch)
      {
        BuildStep(active, widths, ch);
        assert active[ch] == (enable[ch] && declared[ch]);
        if enable[ch] && declared[ch] {
          var width := us[ch];
          if width < US_MIN {
            width := US_MIN;
          }
          if width > US_MAX {
            width := US_MAX;
          }
          TicksAre(us[ch]);
          raised := raised + {PadOf(ch)};
          n := InsertDrop(tmp, n, width * 3 / 4, PadOf(ch));
        }
        ch := ch + 1;
      }
      up := raised;
      Copy(tmp, evt, n);
      count := n;
      walk := walk.(idx := 0);
    }

    static method Copy(from: array<Event>, to: array<Event>, n: nat)
      requires from != to && n <= from.Length && n <= to.Length
      modifies to
      ensures to[..n] == from[..n]
    {
      var i := 0;
      while i < n
        invariant 0 <= i <= n
        invariant forall k :: 0 <= k < i ==> to[k] == from[k]
      {
        to[i] := from[i];
        i := i + 1;
      }
    }

    static lemma TicksAre(us: nat)
      ensures Ticks(us) == (if us < US_MIN then US_MIN else if us > US_MAX then US_MAX else us) * 3 / 4
    {
    }

    /** The frame boundary: all channels up together, first drop armed; nothing while stopped. */
    method FrameBoundary()
      requires Valid()
      modifies this`walk
      ensures Valid()
      ensures walk == if running then FrameStart(old(walk), Installed()) else old(walk).(armed := false)
    {
      if !running {
        walk := walk.(armed := false);
        return;
      }
      walk := walk.(high := walk.high + up, idx := 0);
      if count > 0 {
        walk := walk.(compare := evt[0].t, armed := true);
      } else {
        walk := walk.(armed := false);
      }
    }

    /** The compare interrupt. A rebuild in mid-frame that leaves no event may find it armed: it then
        drops the pads of whatever stands first in the array, once, and disarms itself. */
    method DropInterrupt()
      requires Valid() && walk.armed
      modifies this`walk
      ensures Valid() && (old(walk.idx) < count ==> walk == Drop(old(walk), Installed().events))
      ensures old(walk.idx) >= count ==>
        count == 0 && walk == old(walk).(high := old(walk.high) - evt[0].clr, idx := 1, armed := false)
    {
      var next := walk.idx + 1;
      walk := walk.(high := walk.high - evt[walk.idx].clr, idx := next);
      if next < count {
        walk := walk.(compare := evt[next].t);
      } else {
        walk := walk.(armed := false);
      }
    }
  }
}
