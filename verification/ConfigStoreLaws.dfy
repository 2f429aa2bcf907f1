/** What the config store keeps: the newest entry of every name survives commits, power cuts and
    reboots, and both readers agree on it. */
module ConfigStoreLaws {
  import opened Bytes
  import Crc8
  import opened ConfigStore

  // ---- The invariant ------------------------------------------------------------------

  /** Row r holds the entry of `name` with the highest sequence number. */
  ghost predicate Latest(flash: seq<Row>, name: Name, r: nat) {
    && Entry(flash, name, r)
    && forall q: nat :: q != r && Entry(flash, name, q) ==> flash[q].sq < flash[r].sq
  }

  ghost predicate Absent(flash: seq<Row>, name: Name) {
    forall q: nat :: !Entry(flash, name, q)
  }

  ghost predicate FlashOk(flash: seq<Row>) {
    && |flash| == ROWS
    && (forall r: nat :: r < ROWS && flash[r].Valid() ==> flash[r].sq >= 1)
    && forall q: nat, r: nat ::
         (q < r < ROWS && flash[q].Valid() && flash[r].Valid() && flash[q].name == flash[r].name)
         ==> flash[q].sq != flash[r].sq
  }

  /** A used slot points at the latest entry of its name, or its name has none. */
  ghost predicate Tracks(flash: seq<Row>, s: Slot) {
    if s.row >= 0 then Latest(flash, s.name, s.row) && s.sq == flash[s.row].sq
    else s.row == -1 && s.sq == 0 && Absent(flash, s.name)
  }

  ghost predicate DistinctNames(slots: seq<Slot>) {
    forall i, j :: 0 <= i < j < |slots| && slots[i].used && slots[j].used ==> slots[i].name != slots[j].name
  }

  ghost predicate Holds(slots: seq<Slot>, name: Name) {
    exists i :: 0 <= i < |slots| && slots[i].used && slots[i].name == name
  }

  ghost predicate Inv(st: Store) {
    && st.Shaped()
    && FlashOk(st.flash)
    && DistinctNames(st.slots)
    && (forall i :: 0 <= i < SLOTS && st.slots[i].used ==> Tracks(st.flash, st.slots[i]))
    && forall r: nat :: r < ROWS && st.flash[r].Valid() ==> Holds(st.slots, st.flash[r].name)
  }

  lemma LatestIsStored(flash: seq<Row>, name: Name)
    ensures Absent(flash, name) ==> Stored(flash, name).None?
    ensures forall r: nat :: Latest(flash, name, r) ==> Stored(flash, name) == Some(flash[r].Bytes())
  {
    var best := Newest(flash, name, |flash|);
    if best.Some? {
      assert Entry(flash, name, best.value);
    }
  }

  lemma StoredIsLatest(flash: seq<Row>, name: Name)
    requires FlashOk(flash)
    ensures Stored(flash, name).None? ==> Absent(flash, name)
    ensures Stored(flash, name).Some? ==> Latest(flash, name, Newest(flash, name, |flash|).value)
  {
  }

  // ---- Counting -----------------------------------------------------------------------

  ghost function Names(slots: seq<Slot>): set<Name> {
    set i | 0 <= i < |slots| && slots[i].used :: slots[i].name
  }

  ghost function LiveRows(slots: seq<Slot>): set<int> {
    set i | 0 <= i < |slots| && slots[i].used :: slots[i].row
  }

  lemma {:induction false} NamesCount(slots: seq<Slot>)
    ensures |Names(slots)| <= |slots|
    ensures DistinctNames(slots) && (forall i :: 0 <= i < |slots| ==> slots[i].used) ==> |Names(slots)| == |slots|
  {
    if slots != [] {
      var k := |slots| - 1;
      var init, s := slots[..k], slots[k];
      NamesCount(init);
      NamesSnoc(init, s);
      assert init + [s] == slots;
      assert DistinctNames(slots) ==> DistinctNames(init);
      assert DistinctNames(slots) && s.used ==> s.name !in Names(init);
      hide Names, DistinctNames;
    }
  }

  lemma NamesSnoc(slots: seq<Slot>, s: Slot)
    ensures Names(slots + [s]) == if s.used then Names(slots) + {s.name} else Names(slots)
  {
    var all := slots + [s];
    assert all[|slots|] == s;
    assert forall i :: 0 <= i < |slots| ==> all[i] == slots[i];
  }

  lemma {:induction false} LiveCount(slots: seq<Slot>)
    ensures |LiveRows(slots)| <= |slots|
  {
    if slots != [] {
      var k := |slots| - 1;
      var init, s := slots[..k], slots[k];
      LiveCount(init);
      assert LiveRows(slots) == if s.used then LiveRows(init) + {s.row} else LiveRows(init);
    }
  }

  ghost function UpTo(n: nat): (s: set<int>)
    ensures |s| == n
    ensures forall i :: i in s <==> 0 <= i < n
  {
    if n == 0 then {} else UpTo(n - 1) + {n - 1}
  }

  lemma SubsetCount<T>(a: set<T>, b: set<T>)
    requires a <= b
    ensures |a| <= |b|
  {
    assert b == a + (b - a);
  }

  ghost predicate Skipped(st: Store, n: nat) {
    Live(st.slots, (st.cursor + n) % ROWS)
  }

  lemma {:induction false} PickScans(st: Store, n: nat)
    requires st.Shaped() && n <= ROWS
    ensures PickFrom(st, n).Some? ==>
      PickFrom(st, n).value < ROWS && !Live(st.slots, PickFrom(st, n).value)
    ensures PickFrom(st, n).None? ==> forall k: nat :: n <= k < ROWS ==> Skipped(st, k)
    decreases ROWS - n
  {
    hide Live;
    if n < ROWS {
      PickScans(st, n + 1);
    }
  }

  lemma FreeRow(slots: seq<Slot>) returns (r: nat)
    requires |slots| < ROWS
    ensures r < ROWS && !Live(slots, r)
  {
    var all, live := UpTo(ROWS), LiveRows(slots);
    LiveCount(slots);
    if all <= live {
      SubsetCount(all, live);
    }
    r :| r in all && r !in live;
    LiveIsCounted(slots, r);
  }

  /** There are more rows than slots, so the writer always finds a row that is not live. */
  lemma PickSucceeds(st: Store)
    requires st.Shaped()
    ensures Pick(st).Some? && Pick(st).value < ROWS && !Live(st.slots, Pick(st).value)
  {
    PickScans(st, 0);
    var r := FreeRow(st.slots);
    LapReaches(st.cursor, r);
    hide Live, PickFrom;
    assert !Skipped(st, (r + ROWS - st.cursor) % ROWS);
  }

  lemma LiveIsCounted(slots: seq<Slot>, r: nat)
    ensures Live(slots, r) <==> r in LiveRows(slots)
  {
  }

  lemma LapReaches(c: nat, r: nat)
    requires c < ROWS && r < ROWS
    ensures (c + (r + ROWS - c) % ROWS) % ROWS == r
  {
  }

  // ---- Loading ------------------------------------------------------------------------

  /** Slot s shadows the newest of the first n entries of its name. */
  ghost predicate Shadows(flash: seq<Row>, n: nat, s: Slot)
    requires n <= |flash|
  {
    && Newest(flash, s.name, n).Some?
    && s.row == Newest(flash, s.name, n).value
    && var e := flash[s.row];
       s.sq == e.sq && s.len == e.len && e.len <= DATA_MAX && s.data[..s.len] == e.Bytes()
  }

  ghost predicate Loaded(slots: seq<Slot>, flash: seq<Row>, n: nat)
    requires n <= |flash|
  {
    && DistinctNames(slots)
    && (forall i :: 0 <= i < |slots| && slots[i].used ==> Shadows(flash, n, slots[i]))
    && (forall r: nat :: r < n && flash[r].Valid() ==> Holds(slots, flash[r].name))
    && forall i :: 0 <= i < |slots| ==> slots[i].len <= DATA_MAX
  }

  lemma {:induction false} LoadsAll(slots: seq<Slot>, flash: seq<Row>, n: nat, names: set<Name>)
    requires |slots| == SLOTS && FlashOk(flash) && n <= ROWS
    requires |names| <= SLOTS
    requires forall r: nat :: r < ROWS && flash[r].Valid() ==> flash[r].name in names
    ensures Loaded(LoadRows(slots, flash, n), flash, n)
  {
    hide EntryCrc, LoadRow, Shadows;
    if n > 0 {
      LoadsAll(slots, flash, n - 1, names);
      LoadsOne(LoadRows(slots, flash, n - 1), flash, n - 1, names);
    }
  }

  /** One valid row changes at most the slot of its own name. */
  lemma LoadRowEffect(slots: seq<Slot>, flash: seq<Row>, n: nat) returns (s: nat)
    requires n < |flash| && flash[n].Valid() && Alloc(slots, flash[n].name).1 >= 0
    ensures s < |slots|
    ensures var e, res := flash[n], LoadRow(slots, flash, n);
      && (forall i :: 0 <= i < |slots| && i != s ==> res[i] == slots[i])
      && res[s].used && res[s].name == e.name
      && (slots[s].used ==> slots[s].name == e.name)
      && (!slots[s].used ==> forall i :: 0 <= i < |slots| && slots[i].used ==> slots[i].name != e.name)
      && (if e.sq > (if slots[s].used then slots[s].sq else 0)
          then res[s].row == n && res[s].sq == e.sq && res[s].len == e.len && res[s].data[..e.len] == e.Bytes()
          else slots[s].used ==> res[s] == slots[s])
  {
    hide EntryCrc;
    s := Alloc(slots, flash[n].name).1;
  }

  lemma ShadowKept(flash: seq<Row>, n: nat, s: Slot)
    requires n < |flash| && Shadows(flash, n, s)
    requires !flash[n].Valid() || flash[n].name != s.name || flash[n].sq <= s.sq
    ensures Shadows(flash, n + 1, s)
  {
    hide EntryCrc;
  }

  lemma ShadowTaken(flash: seq<Row>, n: nat, s: Slot, was: Option<Slot>)
    requires n < |flash| && Entry(flash, s.name, n)
    requires if was.None? then Newest(flash, s.name, n).None?
             else was.value.name == s.name && Shadows(flash, n, was.value) && flash[n].sq > was.value.sq
    requires s.row == n && s.sq == flash[n].sq && s.len == flash[n].len && s.data[..s.len] == flash[n].Bytes()
    ensures Shadows(flash, n + 1, s)
  {
    hide EntryCrc;
  }

  lemma LoadsNothing(slots: seq<Slot>, flash: seq<Row>, n: nat)
    requires |slots| == SLOTS && |flash| == ROWS && n < ROWS && Loaded(slots, flash, n) && !flash[n].Valid()
    ensures Loaded(LoadRow(slots, flash, n), flash, n + 1)
  {
    hide EntryCrc, Alloc, Shadows;
    forall i | 0 <= i < SLOTS && slots[i].used
      ensures Shadows(flash, n + 1, slots[i])
    {
      ShadowKept(flash, n, slots[i]);
    }
  }

  lemma LoadsOne(slots: seq<Slot>, flash: seq<Row>, n: nat, names: set<Name>)
    requires |slots| == SLOTS && FlashOk(flash) && n < ROWS
    requires |names| <= SLOTS
    requires forall r: nat :: r < ROWS && flash[r].Valid() ==> flash[r].name in names
    requires Loaded(slots, flash, n)
    ensures Loaded(LoadRow(slots, flash, n), flash, n + 1)
  {
    hide EntryCrc, Alloc, LoadRow, Newest, Shadows;
    if flash[n].Valid() {
      NoRoomLeft(slots, flash, n, names);
      LoadsEntry(slots, flash, n);
    } else {
      LoadsNothing(slots, flash, n);
    }
  }

  lemma LoadsEntry(slots: seq<Slot>, flash: seq<Row>, n: nat)
    requires |slots| == SLOTS && FlashOk(flash) && n < ROWS && Loaded(slots, flash, n) && flash[n].Valid()
    requires Alloc(slots, flash[n].name).1 >= 0
    ensures Loaded(LoadRow(slots, flash, n), flash, n + 1)
  {
    hide EntryCrc, Alloc, LoadRow, Newest, Shadows;
    var res := LoadRow(slots, flash, n);
    var s := LoadRowEffect(slots, flash, n);
    hide FlashOk;
    ShadowsAfter(slots, res, flash, n, s);
    HoldsKept(slots, res, s);
  }

  lemma ShadowsAfter(slots: seq<Slot>, res: seq<Slot>, flash: seq<Row>, n: nat, s: nat)
    requires |slots| == |res| == SLOTS && n < |flash| && flash[n].Valid() && s < SLOTS
    requires Loaded(slots, flash, n)
    requires forall i :: 0 <= i < SLOTS && i != s ==> res[i] == slots[i]
    requires
      var e := flash[n];
      && e.sq >= 1 && res[s].used && res[s].name == e.name
      && (slots[s].used ==> slots[s].name == e.name)
      && (!slots[s].used ==> forall i :: 0 <= i < SLOTS && slots[i].used ==> slots[i].name != e.name)
      && (if e.sq > (if slots[s].used then slots[s].sq else 0)
          then res[s].row == n && res[s].sq == e.sq && res[s].len == e.len && res[s].data[..e.len] == e.Bytes()
          else slots[s].used ==> res[s] == slots[s])
    ensures forall i :: 0 <= i < SLOTS && res[i].used ==> Shadows(flash, n + 1, res[i])
  {
    hide EntryCrc, Newest, Shadows;
    var e := flash[n];
    forall i | 0 <= i < SLOTS && res[i].used
      ensures Shadows(flash, n + 1, res[i])
    {
      if i != s {
        ShadowKept(flash, n, slots[i]);
      } else if !slots[s].used {
        assert Newest(flash, e.name, n).Some? ==> Holds(slots, e.name);
        ShadowTaken(flash, n, res[s], None);
      } else if e.sq > slots[s].sq {
        ShadowTaken(flash, n, res[s], Some(slots[s]));
      } else {
        ShadowKept(flash, n, slots[s]);
      }
    }
  }

  lemma HoldsKept(slots: seq<Slot>, res: seq<Slot>, s: nat)
    requires |res| == |slots| && s < |slots|
    requires forall i :: 0 <= i < |slots| && i != s ==> res[i] == slots[i]
    requires res[s].used && (slots[s].used ==> slots[s].name == res[s].name)
    ensures Holds(res, res[s].name)
    ensures forall name :: Holds(slots, name) ==> Holds(res, name)
  {
    forall name | Holds(slots, name)
      ensures Holds(res, name)
    {
      var i :| 0 <= i < |slots| && slots[i].used && slots[i].name == name;
      assert res[i].used && res[i].name == name;
    }
  }

  lemma NoRoomLeft(slots: seq<Slot>, flash: seq<Row>, n: nat, names: set<Name>)
    requires |slots| == SLOTS && |flash| == ROWS && n < ROWS && flash[n].Valid()
    requires |names| <= SLOTS
    requires forall r: nat :: r < ROWS && flash[r].Valid() ==> flash[r].name in names
    requires Loaded(slots, flash, n)
    ensures Alloc(slots, flash[n].name).1 >= 0
  {
    hide EntryCrc;
    if Alloc(slots, flash[n].name).1 < 0 {
      NamesCount(slots);
      forall m | m in Names(slots) + {flash[n].name}
        ensures m in names
      {
        if m in Names(slots) {
          var i :| 0 <= i < |slots| && slots[i].used && slots[i].name == m;
          assert Shadows(flash, n, slots[i]);
        }
      }
      SubsetCount(Names(slots) + {flash[n].name}, names);
    }
  }

  /** The boot scan restores the invariant from any flash whose valid entries are numbered apart
      and whose names fit the slots; what it shadows is what the read-only reader sees. */
  lemma LoadRestores(st: Store, names: set<Name>)
    requires st.Shaped() && FlashOk(st.flash)
    requires |names| <= SLOTS
    requires forall r: nat :: r < ROWS && st.flash[r].Valid() ==> st.flash[r].name in names
    ensures Inv(Load(st)) && Load(st).flash == st.flash && Load(st).cursor == 0
    ensures ReadersAgree(Load(st))
  {
    hide EntryCrc;
    var l := Load(st);
    LoadsAll(st.slots, st.flash, ROWS, names);
    forall name: Name
      ensures Agree(l, name)
    {
      StoredIsLatest(st.flash, name);
    }
  }

  /** The RAM shadow and the flash scan give the same bytes for a name, or both give none. */
  ghost predicate Agree(st: Store, name: Name) {
    var s := Find(st.slots, name);
    && (s >= 0 ==> st.slots[s].len <= DATA_MAX)
    && Stored(st.flash, name) == if s < 0 then None else Some(st.slots[s].data[..st.slots[s].len])
  }

  ghost predicate ReadersAgree(st: Store) {
    forall name: Name :: Agree(st, name)
  }

  // ---- Writing one row ----------------------------------------------------------------

  lemma LatestUnique(flash: seq<Row>, name: Name, q: nat, r: nat)
    requires Latest(flash, name, q) && Latest(flash, name, r)
    ensures q == r
  {
  }

  /** The latest entry of a name is in the slot of that name. */
  lemma LatestIsLive(st: Store, p: nat, name: Name)
    requires Inv(st) && Latest(st.flash, name, p)
    ensures Live(st.slots, p)
  {
    hide EntryCrc;
    assert Holds(st.slots, st.flash[p].name);
    var i :| 0 <= i < SLOTS && st.slots[i].used && st.slots[i].name == name;
    assert Tracks(st.flash, st.slots[i]);
    assert Entry(st.flash, name, p);
    LatestUnique(st.flash, name, p, st.slots[i].row);
  }

  lemma NotLiveNotLatest(st: Store, p: nat, name: Name)
    requires Inv(st) && p < ROWS && !Live(st.slots, p)
    ensures !Latest(st.flash, name, p)
  {
    hide *;
    if Latest(st.flash, name, p) {
      LatestIsLive(st, p, name);
    }
  }

  /** Overwriting a row that is not the latest of a name with something that is no entry of that
      name leaves the name as it was. */
  lemma OverwriteKeeps(flash: seq<Row>, p: nat, t: Row, name: Name)
    requires p < |flash| && !Latest(flash, name, p) && !(t.Valid() && t.name == name)
    ensures Absent(flash, name) ==> Absent(flash[p := t], name)
    ensures forall r: nat :: Latest(flash, name, r) ==> Latest(flash[p := t], name, r)
  {
    hide EntryCrc;
    forall q: nat | q != p
      ensures Entry(flash[p := t], name, q) <==> Entry(flash, name, q)
    {
    }
    if Absent(flash, name) {
      forall q: nat {:trigger Entry(flash[p := t], name, q)}
        ensures !Entry(flash[p := t], name, q)
      {
        assert !Entry(flash, name, q);
      }
    }
  }

  lemma OthersKeepStored(st: Store, p: nat, t: Row, name: Name)
    requires Inv(st) && p < ROWS && !Live(st.slots, p)
    requires !(t.Valid() && t.name == name)
    ensures Stored(st.flash[p := t], name) == Stored(st.flash, name)
  {
    hide EntryCrc, Stored;
    NotLiveNotLatest(st, p, name);
    OverwriteKeeps(st.flash, p, t, name);
    LatestIsStored(st.flash, name);
    LatestIsStored(st.flash[p := t], name);
    LatestOrAbsent(st, name);
  }

  lemma LatestOrAbsent(st: Store, name: Name)
    requires Inv(st)
    ensures Absent(st.flash, name) || exists r: nat :: Latest(st.flash, name, r) && st.flash[r].Valid()
  {
    hide EntryCrc;
    StoredIsLatest(st.flash, name);
  }

  /** Writing something that is not an entry over a row that is not live. */
  lemma WriteNothing(st: Store, p: nat, t: Row)
    requires Inv(st) && p < ROWS && !Live(st.slots, p) && !t.Valid()
    ensures Inv(st.(flash := st.flash[p := t]))
  {
    hide EntryCrc;
    var flash := st.flash[p := t];
    forall i | 0 <= i < SLOTS && st.slots[i].used
      ensures Tracks(flash, st.slots[i])
    {
      var s := st.slots[i];
      assert Tracks(st.flash, s);
      NotLiveNotLatest(st, p, s.name);
      OverwriteKeeps(st.flash, p, t, s.name);
    }
  }

  /** Writing the next entry of a slot's name over a row that is not live. */
  lemma WriteEntry(st: Store, slot: nat, p: nat, t: Row)
    requires Inv(st) && p < ROWS && !Live(st.slots, p)
    requires slot < SLOTS && st.slots[slot].used
    requires t.Valid() && t.name == st.slots[slot].name && t.sq == st.slots[slot].sq + 1
    ensures Inv(st.(flash := st.flash[p := t], slots := st.slots[slot := st.slots[slot].(sq := t.sq, row := p)]))
    ensures Latest(st.flash[p := t], t.name, p)
  {
    hide EntryCrc;
    var flash := st.flash[p := t];
    var s := st.slots[slot];
    var slots := st.slots[slot := s.(sq := t.sq, row := p)];
    assert Tracks(st.flash, s);
    forall q: nat | q != p && Entry(flash, t.name, q)
      ensures flash[q].sq < t.sq
    {
      assert Entry(st.flash, t.name, q);
    }
    forall i | 0 <= i < SLOTS && slots[i].used && i != slot
      ensures Tracks(flash, slots[i])
    {
      assert Tracks(st.flash, st.slots[i]);
      assert st.slots[i].name != t.name;
      NotLiveNotLatest(st, p, slots[i].name);
      OverwriteKeeps(st.flash, p, t, slots[i].name);
    }
    forall r: nat | r < ROWS && flash[r].Valid()
      ensures Holds(slots, flash[r].name)
    {
      var i :| 0 <= i < SLOTS && st.slots[i].used && st.slots[i].name == flash[r].name;
      assert slots[i].used && slots[i].name == flash[r].name;
    }
  }

  // ---- Commits ------------------------------------------------------------------------

  /** The row a commit leaves when it stops after `steps` of its five flash operations. */
  function LeftBehind(s: Slot, steps: nat): Row
    requires s.len <= DATA_MAX && steps >= 1
  {
    Programmed(NewEntry(s), if steps >= 5 then 4 else steps - 1)
  }

  lemma WholeRow(s: Slot)
    requires s.len <= DATA_MAX
    ensures LeftBehind(s, 5) == NewEntry(s)
    ensures NewEntry(s).Bytes() == s.data[..s.len]
    ensures NewEntry(s).Valid() <==> s.name[0] != 0xFF
  {
    assert NewEntry(s).data[..240] == NewEntry(s).data;
  }

  lemma LeftBehindShape(s: Slot, steps: nat)
    requires s.len <= DATA_MAX && steps >= 1
    ensures var t := LeftBehind(s, steps);
      t.Valid() ==> t.name == s.name && t.sq == s.sq + 1
  {
  }

  /** The bytes of the committed name after a commit that stopped after `steps` operations. */
  function Outcome(st: Store, s: Slot, steps: nat): Option<seq<byte>>
    requires s.len <= DATA_MAX
  {
    if Unchanged(st.flash, s) || steps == 0 || !LeftBehind(s, steps).Valid() then Stored(st.flash, s.name)
    else Some(LeftBehind(s, steps).Bytes())
  }

  ghost predicate CanCommit(st: Store, slot: nat) {
    slot < |st.slots| && st.slots[slot].used
  }

  lemma NewEntryFields(s: Slot)
    requires s.len <= DATA_MAX
    ensures NewEntry(s).sq == s.sq + 1 && NewEntry(s).name == s.name
  {
  }

  ghost predicate Writes(st: Store, slot: nat) {
    CanCommit(st, slot) && !Unchanged(st.flash, st.slots[slot])
  }

  /** A commit that writes replaces the row it picks with what it leaves behind. */
  lemma CommitWrites(st: Store, slot: nat, steps: nat)
    requires st.Shaped() && Writes(st, slot)
    ensures Pick(st).Some? && Pick(st).value < ROWS && !Live(st.slots, Pick(st).value)
    ensures
      var c, s, p := Commit(st, slot, steps), st.slots[slot], Pick(st).value;
      && c.ok == (steps >= 5 && s.name[0] != 0xFF)
      && c.erased == (if steps == 0 then None else Some(p))
      && c.store == Store(if steps == 0 then st.flash else st.flash[p := LeftBehind(s, steps)],
                          if c.ok then st.slots[slot := s.(sq := s.sq + 1, row := p)] else st.slots,
                          (p + 1) % ROWS)
  {
    hide EntryCrc, Pick, Live, Row.Valid, NewEntry, Programmed, Unchanged;
    PickSucceeds(st);
    WholeRow(st.slots[slot]);
    NewEntryFields(st.slots[slot]);
  }

  lemma CommitSkips(st: Store, slot: nat, steps: nat)
    requires st.Shaped() && !Writes(st, slot)
    ensures Commit(st, slot, steps) == Committed(st, CanCommit(st, slot), None)
  {
    hide Row.Valid, NewEntry, Programmed, Unchanged, Pick;
  }

  /** What the writing of row p amounts to, for the row t it leaves. */
  ghost predicate Written(st: Store, slot: nat, p: nat, t: Row)
    requires slot < |st.slots| && p < |st.flash|
  {
    var s, flash := st.slots[slot], st.flash[p := t];
    && FlashOk(flash) && NamesHeld(st.slots, flash)
    && (if t.Valid() then Inv(st.(flash := flash, slots := st.slots[slot := s.(sq := s.sq + 1, row := p)]))
        else Inv(st.(flash := flash)))
    && Stored(flash, s.name) == (if t.Valid() then Some(t.Bytes()) else Stored(st.flash, s.name))
  }

  ghost predicate NamesHeld(slots: seq<Slot>, flash: seq<Row>)
    requires |flash| == ROWS
  {
    forall r: nat :: r < ROWS && flash[r].Valid() ==> Holds(slots, flash[r].name)
  }

  lemma InvParts(st: Store)
    requires Inv(st)
    ensures st.Shaped() && FlashOk(st.flash) && NamesHeld(st.slots, st.flash)
  {
    hide EntryCrc, FlashOk, Holds, Tracks, DistinctNames;
  }

  /** The slots with one of them renumbered hold the same names. */
  lemma SameNamesHeld(slots: seq<Slot>, slot: nat, s: Slot, flash: seq<Row>)
    requires slot < |slots| && slots[slot].used && s.used && s.name == slots[slot].name && |flash| == ROWS
    requires NamesHeld(slots[slot := s], flash)
    ensures NamesHeld(slots, flash)
  {
    hide EntryCrc, Row.Valid, Holds;
    HoldsKept(slots[slot := s], slots, slot);
  }

  lemma StoredIs(flash: seq<Row>, name: Name, p: nat)
    requires p < |flash| && Latest(flash, name, p) && flash[p].len <= DATA_MAX
    ensures Stored(flash, name) == Some(flash[p].Bytes())
  {
    LatestIsStored(flash, name);
  }

  lemma ValidFits(t: Row)
    requires t.Valid()
    ensures t.len <= DATA_MAX
  {
  }

  lemma WritePassing(st: Store, slot: nat, p: nat, t: Row)
    requires Inv(st) && CanCommit(st, slot) && p < ROWS && !Live(st.slots, p)
    requires t.Valid() && t.name == st.slots[slot].name && t.sq == st.slots[slot].sq + 1
    ensures Written(st, slot, p, t)
  {
    hide EntryCrc, Stored, Row.Valid, Inv, FlashOk, NamesHeld, Live, Latest;
    InvParts(st);
    var s, flash := st.slots[slot], st.flash[p := t];
    var s' := s.(sq := s.sq + 1, row := p);
    var q := st.(flash := flash, slots := st.slots[slot := s']);
    WriteEntry(st, slot, p, t);
    assert Inv(q);
    ValidFits(t);
    StoredIs(flash, s.name, p);
    InvParts(q);
    SameNamesHeld(st.slots, slot, s', flash);
  }

  lemma WriteTorn(st: Store, slot: nat, p: nat, t: Row)
    requires Inv(st) && CanCommit(st, slot) && p < ROWS && !Live(st.slots, p) && !t.Valid()
    ensures Written(st, slot, p, t)
  {
    hide EntryCrc, Stored, Row.Valid, Inv, FlashOk, NamesHeld, Live;
    InvParts(st);
    WriteNothing(st, p, t);
    InvParts(st.(flash := st.flash[p := t]));
    OthersKeepStored(st, p, t, st.slots[slot].name);
  }

  lemma WriteLaw(st: Store, slot: nat, p: nat, steps: nat)
    requires Inv(st) && CanCommit(st, slot) && p < ROWS && !Live(st.slots, p) && steps > 0
    ensures Written(st, slot, p, LeftBehind(st.slots[slot], steps))
    ensures var s, flash := st.slots[slot], st.flash[p := LeftBehind(st.slots[slot], steps)];
      forall name :: name != s.name ==> Stored(flash, name) == Stored(st.flash, name)
  {
    var s := st.slots[slot];
    hide EntryCrc, Stored, LeftBehind, Row.Valid, Inv, Written, Live;
    InvParts(st);
    var t := LeftBehind(s, steps);
    LeftBehindShape(s, steps);
    forall name: Name | name != s.name
      ensures Stored(st.flash[p := t], name) == Stored(st.flash, name)
    {
      OthersKeepStored(st, p, t, name);
    }
    if t.Valid() {
      WritePassing(st, slot, p, t);
    } else {
      WriteTorn(st, slot, p, t);
    }
  }

  lemma CursorFree(st: Store, cursor: nat)
    requires cursor < ROWS
    ensures Inv(st.(cursor := cursor)) <==> Inv(st.(cursor := 0))
  {
    hide EntryCrc, FlashOk, DistinctNames, Tracks, Holds, Row.Valid;
  }

  lemma WrittenInv(st: Store, slot: nat, p: nat, t: Row, cursor: nat)
    requires slot < |st.slots| && p < |st.flash| && Written(st, slot, p, t) && st.cursor < ROWS && cursor < ROWS
    ensures
      var s, flash := st.slots[slot], st.flash[p := t];
      Inv(Store(flash, if t.Valid() then st.slots[slot := s.(sq := s.sq + 1, row := p)] else st.slots, cursor))
  {
    hide EntryCrc, Stored, Inv, FlashOk, Holds, Row.Valid;
    var s, flash := st.slots[slot], st.flash[p := t];
    var slots := if t.Valid() then st.slots[slot := s.(sq := s.sq + 1, row := p)] else st.slots;
    CursorFree(Store(flash, slots, cursor), cursor);
    CursorFree(Store(flash, slots, cursor), st.cursor);
  }

  lemma WholeValid(s: Slot, steps: nat)
    requires s.len <= DATA_MAX && steps >= 5
    ensures LeftBehind(s, steps).Valid() <==> s.name[0] != 0xFF
  {
    WholeRow(s);
    hide Row.Valid, NewEntry, Programmed;
  }

  /** A commit that writes: the row it leaves decides. */
  lemma CommitLeaves(st: Store, slot: nat, steps: nat)
    requires Inv(st) && Writes(st, slot) && steps > 0 && Pick(st).Some? && Pick(st).value < ROWS
    ensures var c, p := Commit(st, slot, steps), Pick(st).value;
      && c.store.flash == st.flash[p := LeftBehind(st.slots[slot], steps)]
      && Written(st, slot, p, LeftBehind(st.slots[slot], steps))
      && (steps >= 5 ==> Inv(c.store))
      && forall name :: name != st.slots[slot].name ==> Stored(c.store.flash, name) == Stored(st.flash, name)
  {
    hide EntryCrc, Stored, Commit, Inv, FlashOk, Holds, LeftBehind, Row.Valid, Live, Unchanged, Pick, Written;
    InvParts(st);
    var c, p, s := Commit(st, slot, steps), Pick(st).value, st.slots[slot];
    CommitWrites(st, slot, steps);
    WriteLaw(st, slot, p, steps);
    if steps >= 5 {
      WholeValid(s, steps);
      WrittenInv(st, slot, p, LeftBehind(s, steps), c.store.cursor);
    }
  }

  /** Every commit, complete or cut short, leaves a flash the boot scan can restore, and changes
      what is stored for its own name only. */
  lemma CommitLaw(st: Store, slot: nat, steps: nat)
    requires Inv(st)
    ensures
      var c := Commit(st, slot, steps);
      && c.store.Shaped() && FlashOk(c.store.flash)
      && (forall r: nat :: r < ROWS && c.store.flash[r].Valid() ==> Holds(st.slots, c.store.flash[r].name))
      && (steps >= 5 ==> Inv(c.store))
      && (CanCommit(st, slot) ==>
            Stored(c.store.flash, st.slots[slot].name) == Outcome(st, st.slots[slot], steps))
      && forall name :: !(CanCommit(st, slot) && name == st.slots[slot].name) ==>
           Stored(c.store.flash, name) == Stored(st.flash, name)
  {
    hide EntryCrc, Stored, Programmed, NewEntry, Commit, Inv, FlashOk, Holds, LeftBehind, Row.Valid, Live;
    hide Unchanged, Pick;
    InvParts(st);
    if Writes(st, slot) {
      CommitWrites(st, slot, steps);
      if steps > 0 {
        CommitLeaves(st, slot, steps);
      }
    } else {
      CommitSkips(st, slot, steps);
    }
  }

  // ---- Power cuts and reboots ---------------------------------------------------------

  /** A torn row passes its own check although its tail reads erased. */
  ghost predicate TornPasses(s: Slot, pages: nat)
    requires s.len <= DATA_MAX && 1 <= pages <= 3
  {
    var torn := Programmed(NewEntry(s), pages);
    && s.name[0] != 0xFF && torn.Bytes() != s.data[..s.len]
    && EntryCrc(s.name, s.len, torn.data) == EntryCrc(s.name, s.len, s.data)
  }

  /** A cut that leaves a passing torn row which is not by chance the old contents. */
  ghost predicate Mixed(st: Store, slot: nat, steps: nat)
    requires Inv(st) && CanCommit(st, slot)
  {
    var s := st.slots[slot];
    && 2 <= steps <= 4 && !Unchanged(st.flash, s)
    && TornPasses(s, steps - 1)
    && Stored(st.flash, s.name) != Some(Programmed(NewEntry(s), steps - 1).Bytes())
  }

  /** Cut a commit anywhere and reboot: the store is sound again, both readers agree on every
      name, every other name keeps its bytes, and the committed name has its old bytes or its new
      ones exactly when the cut did not leave a torn row with a colliding checksum. */
  lemma CrashAtomic(st: Store, slot: nat, steps: nat)
    requires Inv(st) && CanCommit(st, slot)
    ensures
      var s, after := st.slots[slot], Load(Commit(st, slot, steps).store);
      && Inv(after) && ReadersAgree(after)
      && (forall name :: name != s.name ==> Stored(after.flash, name) == Stored(st.flash, name))
      && (Stored(after.flash, s.name) in {Stored(st.flash, s.name), Some(s.data[..s.len])}
          <==> !Mixed(st, slot, steps))
      && (steps >= 5 && s.name[0] != 0xFF ==> Stored(after.flash, s.name) == Some(s.data[..s.len]))
  {
    assert st.Shaped();
    hide EntryCrc, Stored, Commit, Inv, ReadersAgree, LoadRows, Mixed;
    CommitLaw(st, slot, steps);
    SlotNamesFit(st);
    LoadRestores(Commit(st, slot, steps).store, Names(st.slots));
    OutcomeOldOrNew(st, slot, steps);
  }

  lemma SlotNamesFit(st: Store)
    requires Inv(st)
    ensures |Names(st.slots)| <= SLOTS
    ensures forall name :: Holds(st.slots, name) ==> name in Names(st.slots)
  {
    NamesCount(st.slots);
  }

  lemma OutcomeOldOrNew(st: Store, slot: nat, steps: nat)
    requires Inv(st) && CanCommit(st, slot)
    ensures
      var s := st.slots[slot];
      && (Outcome(st, s, steps) in {Stored(st.flash, s.name), Some(s.data[..s.len])} <==> !Mixed(st, slot, steps))
      && (steps >= 5 && s.name[0] != 0xFF ==> Outcome(st, s, steps) == Some(s.data[..s.len]))
  {
    hide EntryCrc, Stored, NewEntry;
    var s := st.slots[slot];
    WholeRow(s);
    if Unchanged(st.flash, s) {
      LatestIsStored(st.flash, s.name);
      assert Tracks(st.flash, s);
    } else if 2 <= steps <= 4 {
      TornValid(s, steps - 1);
    }
  }

  lemma TornValid(s: Slot, pages: nat)
    requires s.len <= DATA_MAX && 1 <= pages <= 3
    ensures var torn := Programmed(NewEntry(s), pages);
      torn.Valid() <==> s.name[0] != 0xFF && EntryCrc(s.name, s.len, torn.data) == EntryCrc(s.name, s.len, s.data)
  {
    hide EntryCrc;
  }
}
