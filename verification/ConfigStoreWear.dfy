/** How evenly the config store erases its rows. */
module ConfigStoreWear {
  import opened ConfigStore
  import opened ConfigStoreLaws
  import opened ConfigStoreRuns

  /** A session: no reboot, reload or format. */
  predicate InSession(op: Op) {
    op.Open? || op.Edit? || op.Save?
  }

  function ErasedBy(st: Store, op: Op): seq<nat>
    requires st.Shaped()
  {
    if !op.Save? then []
    else
      var e := Commit(st, op.slot, 5).erased;
      if e.Some? then [e.value] else []
  }

  lemma SessionStep(st: Store, op: Op)
    requires st.Shaped() && InSession(op)
    ensures Step(st, op).Shaped()
  {
    hide Row.Valid, NewEntry, Programmed, Unchanged, Pick, LoadRows;
    if op.Save? {
      PickSucceeds(st);
    }
  }

  /** The rows erased over a session, in order. */
  ghost function ErasedRows(st: Store, ops: seq<Op>): seq<nat>
    requires st.Shaped() && forall op :: op in ops ==> InSession(op)
    decreases |ops|
  {
    if ops == [] then []
    else
      SessionStep(st, ops[0]);
      ErasedBy(st, ops[0]) + ErasedRows(Step(st, ops[0]), ops[1..])
  }

  lemma {:induction false} PickDistanceFrom(st: Store, k: nat) returns (n: nat)
    requires st.Shaped() && k <= ROWS && PickFrom(st, k).Some?
    ensures k <= n < ROWS && PickFrom(st, k) == Some((st.cursor + n) % ROWS)
    ensures forall m: nat :: k <= m < n ==> Skipped(st, m)
    decreases ROWS - k
  {
    hide Live;
    if !Live(st.slots, (st.cursor + k) % ROWS) {
      n := k;
    } else {
      n := PickDistanceFrom(st, k + 1);
    }
  }

  /** A commit either erases nothing and makes no row live, or erases the first row that is not
      live at or after the cursor, and makes at most that row live. */
  lemma SaveEffect(st: Store, slot: nat) returns (n: nat)
    requires st.Shaped()
    ensures n < ROWS
    ensures
      var c := Commit(st, slot, 5);
      if c.erased.None? then c.store == st
      else
        && c.erased.value == (st.cursor + n) % ROWS && !Live(st.slots, c.erased.value)
        && (forall m: nat :: m < n ==> Skipped(st, m))
        && c.store.cursor == (c.erased.value + 1) % ROWS
        && LiveRows(c.store.slots) <= LiveRows(st.slots) + {c.erased.value as int}
  {
    hide Row.Valid, NewEntry, Programmed, Unchanged, Live, PickFrom, LeftBehind;
    if Writes(st, slot) {
      CommitWrites(st, slot, 5);
      n := PickDistanceFrom(st, 0);
      hide Commit;
      var s, p := st.slots[slot], Pick(st).value;
      assert LiveRows(st.slots[slot := s.(sq := s.sq + 1, row := p)]) <= LiveRows(st.slots) + {p as int};
    } else {
      CommitSkips(st, slot, 5);
      n := 0;
    }
  }

  /** The lap of the cursor since row r was erased: the d rows it has passed are in `seen`, and so
      is every row that is live, but for r. At d == 255 all other rows have been passed. */
  ghost predicate Lap(st: Store, r: nat, seen: set<int>, d: nat)
    requires st.Shaped()
  {
    && r < ROWS && d <= 255
    && (forall k: nat :: k < d ==> Passed(r, k) in seen)
    && (d < 255 ==> st.cursor == Passed(r, d))
    && (forall x: nat :: x in LiveRows(st.slots) ==> x in seen || x == r)
  }

  function Passed(r: nat, k: nat): nat { (r + 1 + k) % ROWS }

  lemma PassedAll(r: nat, x: nat) returns (k: nat)
    requires r < ROWS && x < ROWS && x != r
    ensures k < 255 && Passed(r, k) == x
  {
    k := (x + ROWS - r - 1) % ROWS;
  }

  lemma PassedFrom(r: nat, d: nat, m: nat)
    requires r < ROWS
    ensures (Passed(r, d) + m) % ROWS == Passed(r, d + m)
  {
  }

  lemma PassedNotSelf(r: nat, k: nat)
    requires r < ROWS && k < 511
    ensures Passed(r, k) == r <==> k == 255
  {
  }

  /** One erase moves the lap forward; erasing r itself ends it. */
  lemma LapStep(st: Store, slot: nat, r: nat, seen: set<int>, d: nat) returns (d': nat)
    requires st.Shaped() && Commit(st, slot, 5).store.Shaped()
    requires Lap(st, r, seen, d) && Commit(st, slot, 5).erased.Some?
    ensures Lap(Commit(st, slot, 5).store, r, seen + {Commit(st, slot, 5).erased.value as int}, d')
    ensures Commit(st, slot, 5).erased.value == r ==> d' == 255 && forall k: nat :: k < 255 ==> Passed(r, k) in seen
  {
    hide Commit, LiveRows, Live;
    var n := SaveEffect(st, slot);
    var c := Commit(st, slot, 5);
    var p := c.erased.value;
    if d == 255 {
      return 255;
    }
    forall k: nat | d <= k < d + n && k < 255
      ensures Passed(r, k) in seen
    {
      assert Skipped(st, k - d);
      PassedFrom(r, d, k - d);
      PassedNotSelf(r, k);
      LiveIsCounted(st.slots, Passed(r, k));
    }
    PassedFrom(r, d, n);
    PassedNotSelf(r, d + n);
    PassedFrom(r, d + n, 1);
    d' := if d + n < 255 then d + n + 1 else 255;
  }

  /** From any point of a lap of r: by the time r is erased, every other row has been seen or
      erased. */
  lemma {:induction false} LapCovers(st: Store, ops: seq<Op>, r: nat, seen: set<int>, d: nat, j: nat)
    requires st.Shaped() && forall op :: op in ops ==> InSession(op)
    requires Lap(st, r, seen, d)
    requires j < |ErasedRows(st, ops)| && ErasedRows(st, ops)[j] == r
    ensures forall x: nat :: x < ROWS && x != r ==> x in seen || x in ErasedRows(st, ops)[..j]
    decreases |ops|
  {
    hide Commit, LiveRows, Live;
    var op, rest := ops[0], ops[1..];
    SessionStep(st, op);
    var next := Step(st, op);
    var er := ErasedRows(st, ops);
    if ErasedBy(st, op) == [] {
      LapIdle(st, op, r, seen, d);
      assert er == ErasedRows(next, rest);
      LapCovers(next, rest, r, seen, d, j);
    } else {
      var p := er[0];
      var d' := LapStep(st, op.slot, r, seen, d);
      if j == 0 {
        forall x: nat | x < ROWS && x != r
          ensures x in seen
        {
          var k := PassedAll(r, x);
        }
      } else {
        LapCovers(next, rest, r, seen + {p as int}, d', j - 1);
        assert er[..j] == [p] + er[1..][..j - 1];
      }
    }
  }

  /** Operations that erase nothing make no row live and leave the cursor. */
  lemma LapIdle(st: Store, op: Op, r: nat, seen: set<int>, d: nat)
    requires st.Shaped() && InSession(op) && Step(st, op).Shaped() && ErasedBy(st, op) == []
    requires Lap(st, r, seen, d)
    ensures Lap(Step(st, op), r, seen, d)
  {
    hide Commit, Live;
    match op {
      case Open(name) =>
        forall x: nat | x in LiveRows(Step(st, op).slots)
          ensures x in LiveRows(st.slots)
        {
        }
      case Edit(slot, data, len) =>
        forall x: nat | x in LiveRows(Step(st, op).slots)
          ensures x in LiveRows(st.slots)
        {
        }
      case Save(slot) =>
        var n := SaveEffect(st, slot);
    }
  }

  /** Between its erases i and j, at least 223 rows other than the one they erase were erased. */
  ghost predicate Spread(er: seq<nat>, i: nat, j: nat)
    requires i < j < |er|
  {
    |Rows(er[i + 1..j]) - {er[i] as int}| >= 223
  }

  lemma SpreadShift(p: nat, er: seq<nat>, i: nat, j: nat)
    requires i < j < |er|
    ensures Spread([p] + er, i + 1, j + 1) <==> Spread(er, i, j)
  {
    assert ([p] + er)[i + 2..j + 1] == er[i + 1..j];
  }

  /** Wear levelling: between two erases of the same row in one session, at least 223 other rows
      are erased. */
  lemma {:induction false} WearBound(st: Store, ops: seq<Op>, i: nat, j: nat)
    requires st.Shaped() && forall op :: op in ops ==> InSession(op)
    requires i < j < |ErasedRows(st, ops)|
    requires ErasedRows(st, ops)[i] == ErasedRows(st, ops)[j]
    ensures Spread(ErasedRows(st, ops), i, j)
    decreases |ops|
  {
    hide Commit, Spread, Step, ErasedBy;
    var op, rest := ops[0], ops[1..];
    SessionStep(st, op);
    var er := ErasedRows(Step(st, op), rest);
    if ErasedBy(st, op) == [] {
      assert ErasedRows(st, ops) == er;
      WearBound(Step(st, op), rest, i, j);
    } else if i > 0 {
      ErasesOne(st, op);
      WearBound(Step(st, op), rest, i - 1, j - 1);
      SpreadShift(ErasedBy(st, op)[0], er, i - 1, j - 1);
    } else {
      ErasesOne(st, op);
      WearFirst(st, op.slot, rest, j - 1);
    }
  }

  lemma ErasesOne(st: Store, op: Op)
    requires st.Shaped() && ErasedBy(st, op) != []
    ensures op.Save? && Commit(st, op.slot, 5).erased.Some? && Step(st, op) == Commit(st, op.slot, 5).store
    ensures ErasedBy(st, op) == [Commit(st, op.slot, 5).erased.value]
  {
    hide Commit;
  }

  lemma WearFirst(st: Store, slot: nat, rest: seq<Op>, j: nat)
    requires st.Shaped() && Commit(st, slot, 5).erased.Some? && Commit(st, slot, 5).store.Shaped()
    requires forall op :: op in rest ==> InSession(op)
    requires var c := Commit(st, slot, 5);
      j < |ErasedRows(c.store, rest)| && ErasedRows(c.store, rest)[j] == c.erased.value
    ensures var c := Commit(st, slot, 5);
      Spread([c.erased.value] + ErasedRows(c.store, rest), 0, j + 1)
  {
    hide Commit, LiveRows, ErasedRows, Rows, PickFrom, LoadRows;
    var c := Commit(st, slot, 5);
    var r, live := c.erased.value, LiveRows(st.slots);
    var n := SaveEffect(st, slot);
    LiveIsCounted(st.slots, r);
    assert Lap(c.store, r, live, 0);
    LapCovers(c.store, rest, r, live, 0, j);
    LiveCount(st.slots);
    LapCount(r, live, ErasedRows(c.store, rest)[..j]);
    assert ([r] + ErasedRows(c.store, rest))[1..j + 1] == ErasedRows(c.store, rest)[..j];
  }

  function Rows(er: seq<nat>): set<int> {
    set k | 0 <= k < |er| :: er[k] as int
  }

  lemma LapCount(r: nat, live: set<int>, er: seq<nat>)
    requires r < ROWS && |live| <= SLOTS
    requires forall x: nat :: x < ROWS && x != r ==> x in live || x in er
    ensures |Rows(er) - {r as int}| >= 223
  {
    assert forall x :: x in er ==> x as int in Rows(er);
    hide OtherRows, Rows;
    var others, erased := OtherRows(r), Rows(er) - {r as int};
    SubsetCount(others, live + erased);
    UnionCount(live, erased);
  }

  ghost function OtherRows(r: nat): (s: set<int>)
    requires r < ROWS
    ensures |s| == 255
    ensures forall x :: x in s <==> 0 <= x < ROWS && x != r
  {
    hide UpTo;
    var all := UpTo(ROWS);
    assert all == (all - {r as int}) + {r as int};
    all - {r as int}
  }

  lemma UnionCount(a: set<int>, b: set<int>)
    ensures |a + b| <= |a| + |b|
  {
    assert a + b == a + (b - a);
    SubsetCount(b - a, b);
  }
}
