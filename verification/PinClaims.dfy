/** The pin-claim table: which slots own which physical pin, and in what mode. A slot mask is the
    set of the slots whose bits are on; port registers are not modelled. */
module PinClaims {
  import opened BoardPins

  const PINS := 64
  const SLOTS := 8

  datatype Mode = Unclaimed | GpioIn | GpioInUp | GpioInDown | GpioOut | AdcScan

  datatype Claim = Claim(owners: set<nat>, mode: Mode, okValue: nat, errValue: nat,
                         oversample: nat, shCyc: nat, channel: nat)

  datatype Status = ClaimOk | NoSuchPin | Reserved | Taken | BadMode | ValueMismatch

  /** One thing a slot asks of the table. */
  datatype Need =
    | NeedIn(phys: nat, mode: Mode)
    | NeedAdc(phys: nat, oversample: nat, shCyc: nat)
    | NeedOut(phys: nat, okValue: nat, errValue: nat)

  function Fresh(): Claim { Claim({}, Unclaimed, 0, 0, 0, 0, 0xFF) }

  // ---- The rules for one pin ----------------------------------------------------------

  function BoardRule(phys: nat): Status {
    if FindPin(phys).None? then NoSuchPin else if FindPin(phys).value.reserved then Reserved else ClaimOk
  }

  /** What the request must satisfy by itself, checked before ownership is looked at. */
  function StaticRule(n: Need): Status {
    if n.phys >= PINS then NoSuchPin
    else
      match n
      case NeedIn(p, mode) => if mode in {Unclaimed, GpioOut, AdcScan} then BadMode else BoardRule(p)
      case NeedAdc(p, o, sh) => if o > 7 || sh > 63 then BadMode else BoardRule(p)
      case NeedOut(p, ok, err) =>
        if ok > 1 || err > 1 then BadMode else if ok == err then ValueMismatch else BoardRule(p)
  }

  function OwnerRule(c: Claim, slot: nat, n: Need): Status {
    match n
    case NeedIn(_, _) => if c.owners != {} && c.owners != {slot} then Taken else ClaimOk
    case NeedAdc(_, _, _) =>
      if c.owners != {} && c.owners != {slot} then Taken
      else if c.owners == {slot} && c.mode != AdcScan then Taken
      else ClaimOk
    case NeedOut(_, ok, err) =>
      if c.owners == {} then ClaimOk
      else if c.mode != GpioOut then Taken
      else if c.okValue != ok || c.errValue != err then ValueMismatch
      else ClaimOk
  }

  /** The record of a pin after a request on it is granted. */
  function Granted(c: Claim, slot: nat, n: Need): Claim {
    match n
    case NeedIn(_, mode) => c.(owners := {slot}, mode := mode, okValue := 0, errValue := 0)
    case NeedAdc(p, o, sh) =>
      c.(owners := {slot}, mode := AdcScan, okValue := 0, errValue := 0, oversample := o, shCyc := sh,
         channel := if FindPin(p).Some? then FindPin(p).value.adcChannel else 0xFF)
    case NeedOut(_, ok, err) =>
      if c.owners != {} then c.(owners := c.owners + {slot})
      else c.(owners := {slot}, mode := GpioOut, okValue := ok, errValue := err)
  }

  function Dropped(c: Claim, slot: nat): Claim {
    if slot !in c.owners then c
    else if c.owners - {slot} == {} then c.(owners := {}, mode := Unclaimed, okValue := 0, errValue := 0)
    else c.(owners := c.owners - {slot})
  }

  // ---- The table ----------------------------------------------------------------------

  type Table = t: seq<Claim> | |t| == PINS witness seq(PINS, _ => Fresh())

  function ClaimStatus(t: Table, slot: nat, n: Need): Status {
    if StaticRule(n) != ClaimOk then StaticRule(n) else OwnerRule(t[n.phys], slot, n)
  }

  function ClaimOne(t: Table, slot: nat, n: Need): (r: (Table, Status)) {
    if ClaimStatus(t, slot, n) == ClaimOk then (t[n.phys := Granted(t[n.phys], slot, n)], ClaimOk)
    else (t, ClaimStatus(t, slot, n))
  }

  function Release(t: Table, slot: nat): (r: Table)
    ensures forall p :: 0 <= p < PINS ==> r[p] == Dropped(t[p], slot)
  {
    seq(PINS, p requires 0 <= p < PINS => Dropped(t[p], slot))
  }

  /** Claims a list of pins; at the first refusal everything the slot owns is released. */
  function ClaimAll(t: Table, slot: nat, needs: seq<Need>): (r: (Table, Status))
    decreases |needs|
  {
    if needs == [] then (t, ClaimOk)
    else
      var (u, st) := ClaimOne(t, slot, needs[0]);
      if st == ClaimOk then ClaimAll(u, slot, needs[1..]) else (Release(u, slot), st)
  }

  // ---- What the table means -----------------------------------------------------------

  /** What a list of requests asks of pin p. */
  function At(needs: seq<Need>, p: nat): (r: Option<Need>)
    ensures r.Some? ==> r.value in needs && r.value.phys == p
    ensures r.None? ==> forall i :: 0 <= i < |needs| ==> needs[i].phys != p
    decreases |needs|
  {
    if needs == [] then None else if needs[0].phys == p then Some(needs[0]) else At(needs[1..], p)
  }

  /** The record of a pin as one slot that asked for n sees it. */
  predicate Holds(c: Claim, slot: nat, n: Option<Need>) {
    match n
    case None => slot !in c.owners
    case Some(NeedIn(_, mode)) => c.owners == {slot} && c.mode == mode && c.okValue == 0 && c.errValue == 0
    case Some(NeedAdc(p, o, sh)) =>
      && c.owners == {slot} && c.mode == AdcScan && c.okValue == 0 && c.errValue == 0
      && c.oversample == o && c.shCyc == sh && FindPin(p).Some? && c.channel == FindPin(p).value.adcChannel
    case Some(NeedOut(_, ok, err)) => slot in c.owners && c.mode == GpioOut && c.okValue == ok && c.errValue == err
  }

  ghost predicate RecordOk(c: Claim, decl: seq<seq<Need>>, p: nat)
    requires |decl| == SLOTS
  {
    && (forall s :: s in c.owners ==> s < SLOTS)
    && (c.owners == {} ==> c.mode == Unclaimed && c.okValue == 0 && c.errValue == 0)
    && forall s :: 0 <= s < SLOTS ==> Holds(c, s, At(decl[s], p))
  }

  /** The table is exactly what the slots declare: the owners of each pin are the slots that asked
      for it, inputs have one owner, sharers of an output asked for the same two levels, and a pin
      nobody asked for is unclaimed. */
  ghost predicate TableIs(t: Table, decl: seq<seq<Need>>) {
    |decl| == SLOTS && forall p :: 0 <= p < PINS ==> RecordOk(t[p], decl, p)
  }

  predicate DistinctPins(needs: seq<Need>) {
    forall i, j :: 0 <= i < j < |needs| ==> needs[i].phys != needs[j].phys
  }

  /** Two requests on the same pin go together only when both drive it with the same levels. */
  predicate Compatible(a: Option<Need>, b: Option<Need>) {
    a.Some? && b.Some? ==>
      a.value.NeedOut? && b.value.NeedOut? && a.value.okValue == b.value.okValue && a.value.errValue == b.value.errValue
  }

  /** `needs` can be claimed next to everything the other slots declare. */
  ghost predicate Fits(needs: seq<Need>, slot: nat, decl: seq<seq<Need>>)
    requires |decl| == SLOTS
  {
    forall i, s :: 0 <= i < |needs| && 0 <= s < SLOTS && s != slot ==>
      Compatible(Some(needs[i]), At(decl[s], needs[i].phys))
  }

  ghost predicate Claimable(needs: seq<Need>) {
    forall i :: 0 <= i < |needs| ==> StaticRule(needs[i]) == ClaimOk
  }

  // ---- One claim ----------------------------------------------------------------------

  lemma RecordGrant(c: Claim, decl: seq<seq<Need>>, p: nat, slot: nat, n: Need, after: seq<seq<Need>>)
    requires |decl| == |after| == SLOTS && slot < SLOTS && n.phys == p && StaticRule(n) == ClaimOk
    requires RecordOk(c, decl, p) && At(decl[slot], p).None? && At(after[slot], p) == Some(n)
    requires forall s :: 0 <= s < SLOTS && s != slot ==> At(after[s], p) == At(decl[s], p)
    ensures (OwnerRule(c, slot, n) == ClaimOk) ==
            (forall s :: 0 <= s < SLOTS && s != slot ==> Compatible(Some(n), At(decl[s], p)))
    ensures OwnerRule(c, slot, n) == ClaimOk ==> RecordOk(Granted(c, slot, n), after, p)
  {
    hide At, FindPin;
    assert Holds(c, slot, At(decl[slot], p));
    if c.owners != {} {
      var s :| s in c.owners;
      assert Holds(c, s, At(decl[s], p));
    }
    if OwnerRule(c, slot, n) == ClaimOk {
      var g := Granted(c, slot, n);
      forall s | 0 <= s < SLOTS
        ensures Holds(g, s, At(after[s], p))
        ensures s != slot ==> Compatible(Some(n), At(decl[s], p))
      {
        assert Holds(c, s, At(decl[s], p));
      }
    }
  }

  lemma {:induction false} AtSnoc(needs: seq<Need>, n: Need, p: nat)
    ensures At(needs + [n], p) == if At(needs, p).Some? then At(needs, p) else if n.phys == p then Some(n) else None
    decreases |needs|
  {
    if needs == [] {
      assert needs + [n] == [n];
    } else {
      assert (needs + [n])[0] == needs[0] && (needs + [n])[1..] == needs[1..] + [n];
      AtSnoc(needs[1..], n, p);
    }
  }

  lemma OthersKeep(c: Claim, decl: seq<seq<Need>>, after: seq<seq<Need>>, p: nat)
    requires |decl| == |after| == SLOTS && RecordOk(c, decl, p)
    requires forall s :: 0 <= s < SLOTS ==> At(after[s], p) == At(decl[s], p)
    ensures RecordOk(c, after, p)
  {
    hide At, Holds;
  }

  lemma FitsOne(n: Need, slot: nat, decl: seq<seq<Need>>)
    requires |decl| == SLOTS
    ensures Fits([n], slot, decl) ==
            forall s :: 0 <= s < SLOTS && s != slot ==> Compatible(Some(n), At(decl[s], n.phys))
  {
    hide At, Compatible;
    assert [n][0] == n;
  }

  lemma GrantKeeps(t: Table, decl: seq<seq<Need>>, slot: nat, n: Need)
    requires TableIs(t, decl) && slot < SLOTS && At(decl[slot], n.phys).None?
    ensures var (u, st) := ClaimOne(t, slot, n);
      && (st == ClaimOk) == (StaticRule(n) == ClaimOk && Fits([n], slot, decl))
      && (st == ClaimOk ==> TableIs(u, decl[slot := decl[slot] + [n]]))
  {
    hide At, Granted, OwnerRule, BoardRule, Holds, Fits, RecordOk;
    if StaticRule(n) == ClaimOk {
      var after := decl[slot := decl[slot] + [n]];
      AtSnoc(decl[slot], n, n.phys);
      RecordGrant(t[n.phys], decl, n.phys, slot, n, after);
      FitsOne(n, slot, decl);
      if OwnerRule(t[n.phys], slot, n) == ClaimOk {
        forall p | 0 <= p < PINS
          ensures RecordOk(ClaimOne(t, slot, n).0[p], after, p)
        {
          if p != n.phys {
            AtSnoc(decl[slot], n, p);
            OthersKeep(t[p], decl, after, p);
          }
        }
      }
    }
  }

  /** When one claim is granted, and what its refusal says. */
  lemma GrantedExactly(t: Table, slot: nat, n: Need)
    ensures var (u, st) := ClaimOne(t, slot, n);
      && (st == ClaimOk <==>
            && n.phys < 64 && OnBoard(n.phys) && n.phys != 8 && n.phys != 9
            && var c := t[n.phys];
            match n
            case NeedIn(_, mode) =>
              (mode == GpioIn || mode == GpioInUp || mode == GpioInDown) && (c.owners == {} || c.owners == {slot})
            case NeedAdc(_, o, sh) =>
              o <= 7 && sh <= 63 && (c.owners == {} || (c.owners == {slot} && c.mode == AdcScan))
            case NeedOut(_, ok, err) =>
              && ok + err == 1
              && (c.owners == {} || (c.mode == GpioOut && c.okValue == ok && c.errValue == err)))
      && (st != ClaimOk ==> u == t)
      && (st == NoSuchPin ==> !OnBoard(n.phys)) && (st == Reserved ==> n.phys == 8 || n.phys == 9)
      && (st == Taken ==> n.phys < 64 && t[n.phys].owners != {})
  {
    BoardRuleIs(n.phys);
    hide FindPin, OnBoard, BoardRule, Granted;
  }

  lemma BoardRuleIs(p: nat)
    ensures BoardRule(p) == if !OnBoard(p) then NoSuchPin else if p == 8 || p == 9 then Reserved else ClaimOk
    ensures OnBoard(p) ==> p < 64
  {
    OnBoardFinds(p);
    OnBoardBound(p);
    if OnBoard(p) {
      ReservedPins(p);
    }
    hide FindPin, OnBoard;
  }

  /** What a granted claim leaves: the pin as asked for, shared outputs with one owner more, and every
      other pin as it was. */
  lemma GrantedRecord(t: Table, slot: nat, n: Need)
    requires ClaimOne(t, slot, n).1 == ClaimOk
    ensures n.phys < PINS
    ensures var u, c, d := ClaimOne(t, slot, n).0, t[n.phys], ClaimOne(t, slot, n).0[n.phys];
      && u == t[n.phys := d]
      && match n
         case NeedIn(_, mode) => d.owners == {slot} && d.mode == mode && d.okValue == 0 && d.errValue == 0
         case NeedAdc(p, o, sh) =>
           && d.owners == {slot} && d.mode == AdcScan && d.okValue == 0 && d.errValue == 0
           && d.oversample == o && d.shCyc == sh && FindPin(p).Some? && d.channel == FindPin(p).value.adcChannel
         case NeedOut(_, ok, err) =>
           d.owners == c.owners + {slot} && d.mode == GpioOut && d.okValue == ok && d.errValue == err
  {
    hide FindPin;
  }

  // ---- Release ------------------------------------------------------------------------

  lemma RecordDropped(c: Claim, decl: seq<seq<Need>>, p: nat, slot: nat)
    requires |decl| == SLOTS && slot < SLOTS && RecordOk(c, decl, p)
    ensures RecordOk(Dropped(c, slot), decl[slot := []], p)
  {
    hide At, FindPin;
    assert At([], p) == None by { AtEmpty(p); }
    var d, after := Dropped(c, slot), decl[slot := []];
    if slot in c.owners && c.owners - {slot} != {} {
      var o :| o in c.owners - {slot};
      assert o in c.owners;
      assert Holds(c, o, At(decl[o], p));
    }
    forall s | 0 <= s < SLOTS
      ensures Holds(d, s, At(after[s], p))
    {
      assert Holds(c, s, At(decl[s], p));
    }
  }

  lemma AtEmpty(p: nat)
    ensures At([], p) == None
  {
  }

  /** Releasing a slot leaves the table as if the slot had never asked for anything. */
  lemma ReleaseLaw(t: Table, decl: seq<seq<Need>>, slot: nat)
    requires TableIs(t, decl) && slot < SLOTS
    ensures TableIs(Release(t, slot), decl[slot := []])
  {
    hide RecordOk, Dropped;
    forall p | 0 <= p < PINS
      ensures RecordOk(Release(t, slot)[p], decl[slot := []], p)
    {
      RecordDropped(t[p], decl, p, slot);
    }
  }

  // ---- A list of claims ---------------------------------------------------------------

  lemma {:induction false} AtAppend(a: seq<Need>, b: seq<Need>, p: nat)
    ensures At(a + b, p) == if At(a, p).Some? then At(a, p) else At(b, p)
    decreases |a|
  {
    if a == [] {
      assert a + b == b;
    } else {
      assert (a + b)[0] == a[0] && (a + b)[1..] == a[1..] + b;
      AtAppend(a[1..], b, p);
    }
  }

  lemma FitsSplit(needs: seq<Need>, slot: nat, decl: seq<seq<Need>>, after: seq<seq<Need>>)
    requires needs != [] && |decl| == |after| == SLOTS
    requires forall s :: 0 <= s < SLOTS && s != slot ==> after[s] == decl[s]
    ensures Fits(needs, slot, decl) == (Fits([needs[0]], slot, decl) && Fits(needs[1..], slot, after))
  {
    hide At, Compatible;
    FitsOne(needs[0], slot, decl);
    var rest := needs[1..];
    if Fits([needs[0]], slot, decl) && Fits(rest, slot, after) {
      forall i, s | 0 <= i < |needs| && 0 <= s < SLOTS && s != slot
        ensures Compatible(Some(needs[i]), At(decl[s], needs[i].phys))
      {
        if i > 0 {
          assert needs[i] == rest[i - 1];
        }
      }
    }
  }

  lemma ClaimAllStep(t: Table, slot: nat, needs: seq<Need>)
    requires needs != []
    ensures var (u, st) := ClaimOne(t, slot, needs[0]);
      ClaimAll(t, slot, needs) == if st == ClaimOk then ClaimAll(u, slot, needs[1..]) else (Release(u, slot), st)
  {
    hide ClaimOne, Release;
  }

  lemma ClaimAllNone(t: Table, slot: nat, decl: seq<seq<Need>>)
    requires TableIs(t, decl) && slot < SLOTS
    ensures |decl| == SLOTS && ClaimAll(t, slot, []) == (t, ClaimOk) && Claimable([]) && Fits([], slot, decl)
    ensures decl[slot := decl[slot] + []] == decl
  {
    hide RecordOk;
    assert decl[slot] + [] == decl[slot];
  }

  lemma Together(decl: seq<seq<Need>>, slot: nat, needs: seq<Need>)
    requires |decl| == SLOTS && slot < SLOTS && needs != []
    ensures var after := decl[slot := decl[slot] + [needs[0]]];
      && after[slot] + needs[1..] == decl[slot] + needs
      && after[slot := decl[slot] + needs] == decl[slot := decl[slot] + needs]
      && after[slot := []] == decl[slot := []]
  {
  }

  /** A list of claims is granted exactly when each request is acceptable by itself and next to what
      the other slots declare; granted, the table shows it; refused, the slot owns nothing. */
  lemma {:induction false} ClaimAllLaw(t: Table, decl: seq<seq<Need>>, slot: nat, needs: seq<Need>)
    requires TableIs(t, decl) && slot < SLOTS && DistinctPins(decl[slot] + needs)
    ensures var (u, st) := ClaimAll(t, slot, needs);
      && (st == ClaimOk) == (Claimable(needs) && Fits(needs, slot, decl))
      && TableIs(u, decl[slot := if st == ClaimOk then decl[slot] + needs else []])
    decreases |needs|
  {
    hide *;
    if needs == [] {
      ClaimAllNone(t, slot, decl);
    } else {
      TableSize(t, decl);
      var n := needs[0];
      NotBefore(decl[slot], needs);
      GrantOrRelease(t, decl, slot, n);
      var (u, st) := ClaimOne(t, slot, n);
      var after := decl[slot := decl[slot] + [n]];
      FitsSplit(needs, slot, decl, after);
      ClaimableSplit(needs);
      ClaimAllStep(t, slot, needs);
      if st == ClaimOk {
        Together(decl, slot, needs);
        ClaimAllLaw(u, after, slot, needs[1..]);
      }
    }
  }

  lemma TableSize(t: Table, decl: seq<seq<Need>>)
    requires TableIs(t, decl)
    ensures |decl| == SLOTS
  {
    hide RecordOk;
  }

  lemma NotBefore(done: seq<Need>, needs: seq<Need>)
    requires needs != [] && DistinctPins(done + needs)
    ensures At(done, needs[0].phys).None?
  {
    forall i | 0 <= i < |done|
      ensures done[i].phys != needs[0].phys
    {
      assert (done + needs)[i].phys != (done + needs)[|done|].phys;
    }
  }

  lemma ClaimableSplit(needs: seq<Need>)
    requires needs != []
    ensures Claimable(needs) == (StaticRule(needs[0]) == ClaimOk && Claimable(needs[1..]))
  {
    hide StaticRule;
    if StaticRule(needs[0]) == ClaimOk && Claimable(needs[1..]) {
      forall i | 0 <= i < |needs|
        ensures StaticRule(needs[i]) == ClaimOk
      {
        if i > 0 {
          assert needs[i] == needs[1..][i - 1];
        }
      }
    }
  }

  lemma GrantOrRelease(t: Table, decl: seq<seq<Need>>, slot: nat, n: Need)
    requires TableIs(t, decl) && slot < SLOTS && At(decl[slot], n.phys).None?
    ensures var (u, st) := ClaimOne(t, slot, n);
      && (st == ClaimOk) == (StaticRule(n) == ClaimOk && Fits([n], slot, decl))
      && (st == ClaimOk ==> TableIs(u, decl[slot := decl[slot] + [n]]))
      && (st != ClaimOk ==> TableIs(Release(u, slot), decl[slot := []]))
  {
    hide TableIs, Fits, Release;
    GrantKeeps(t, decl, slot, n);
    ReleaseLaw(t, decl, slot);
  }

  // ---- The table is determined by the declarations ------------------------------------

  /** What a record says while the pin is unclaimed or a digital one. */
  function View(c: Claim): (set<nat>, Mode, nat, nat) { (c.owners, c.mode, c.okValue, c.errValue) }

  /** Two records that show the same declarations have the same owners, mode and levels. */
  lemma ViewUnique(c: Claim, d: Claim, decl: seq<seq<Need>>, p: nat)
    requires |decl| == SLOTS && RecordOk(c, decl, p) && RecordOk(d, decl, p)
    ensures View(c) == View(d)
  {
    hide At, FindPin;
    forall s | 0 <= s < SLOTS
      ensures s in c.owners <==> s in d.owners
    {
      assert Holds(c, s, At(decl[s], p)) && Holds(d, s, At(decl[s], p));
    }
    assert c.owners == d.owners;
    if c.owners != {} {
      var s :| s in c.owners;
      assert Holds(c, s, At(decl[s], p)) && Holds(d, s, At(decl[s], p));
    }
  }

  /** The slots' declarations never clash with one another. */
  lemma JointlyCompatible(t: Table, decl: seq<seq<Need>>, slot: nat)
    requires TableIs(t, decl) && slot < SLOTS
    requires forall i :: 0 <= i < |decl[slot]| ==> decl[slot][i].phys < PINS
    requires DistinctPins(decl[slot])
    ensures Fits(decl[slot], slot, decl)
  {
    hide FindPin;
    forall i, s | 0 <= i < |decl[slot]| && 0 <= s < SLOTS && s != slot
      ensures Compatible(Some(decl[slot][i]), At(decl[s], decl[slot][i].phys))
    {
      var n := decl[slot][i];
      AtItself(decl[slot], i);
      assert RecordOk(t[n.phys], decl, n.phys);
      assert Holds(t[n.phys], slot, At(decl[slot], n.phys));
      assert Holds(t[n.phys], s, At(decl[s], n.phys));
    }
  }

  lemma {:induction false} AtItself(needs: seq<Need>, i: nat)
    requires i < |needs| && DistinctPins(needs)
    ensures At(needs, needs[i].phys) == Some(needs[i])
    decreases i
  {
    if i > 0 {
      assert needs[0].phys != needs[i].phys && needs[1..][i - 1] == needs[i];
      AtItself(needs[1..], i - 1);
    }
  }

  // ---- The table as the program keeps it ----------------------------------------------

  /** Whether every input-mode pin has at most one owner. */
  predicate Consistent(t: Table) {
    forall p :: 0 <= p < PINS ==> t[p].owners != {} && t[p].mode != GpioOut ==> |t[p].owners| <= 1
  }

  /** The level of every pin after the drive phase: a claimed output with a managed owner carries its
      error level when an owner vetoes, its good level otherwise; all other pins keep theirs. */
  function Driven(c: Claim, level: nat, veto: set<nat>, managed: set<nat>): nat {
    if c.owners == {} || c.mode != GpioOut || c.owners * managed == {} then level
    else if c.owners * veto != {} then c.errValue
    else c.okValue
  }

  class PinTable {
    var claims: array<Claim>
    var levels: array<nat>

    ghost predicate Valid()
      reads this
    {
      claims.Length == PINS && levels.Length == PINS
    }

    constructor ()
      ensures Valid() && fresh(claims) && fresh(levels)
      ensures forall p :: 0 <= p < PINS ==> claims[p] == Fresh() && levels[p] == 0
    {
      claims := new Claim[PINS](_ => Fresh());
      levels := new nat[PINS](_ => 0);
    }

    method ClaimInput(phys: nat, slot: nat, mode: Mode) returns (st: Status)
      requires Valid()
      modifies claims
      ensures (claims[..], st) == ClaimOne(old(claims[..]), slot, NeedIn(phys, mode))
    {
      if phys >= PINS {
        return NoSuchPin;
      }
      if mode == Unclaimed || mode == GpioOut || mode == AdcScan {
        return BadMode;
      }
      var bp := FindPin(phys);
      if bp.None? {
        return NoSuchPin;
      }
      if bp.value.reserved {
        return Reserved;
      }
      if claims[phys].owners != {} && claims[phys].owners != {slot} {
        return Taken;
      }
      claims[phys] := claims[phys].(owners := {slot}, mode := mode, okValue := 0, errValue := 0);
      st := ClaimOk;
    }

    method ClaimAdc(phys: nat, slot: nat, oversample: nat, shCyc: nat) returns (st: Status)
      requires Valid()
      modifies claims
      ensures (claims[..], st) == ClaimOne(old(claims[..]), slot, NeedAdc(phys, oversample, shCyc))
    {
      if phys >= PINS {
        return NoSuchPin;
      }
      if oversample > 7 || shCyc > 63 {
        return BadMode;
      }
      var bp := FindPin(phys);
      if bp.None? {
        return NoSuchPin;
      }
      if bp.value.reserved {
        return Reserved;
      }
      if claims[phys].owners != {} && claims[phys].owners != {slot} {
        return Taken;
      }
      if claims[phys].owners == {slot} && claims[phys].mode != AdcScan {
        return Taken;
      }
      claims[phys] := Claim({slot}, AdcScan, 0, 0, oversample, shCyc, bp.value.adcChannel);
      st := ClaimOk;
    }

    method ClaimOutput(phys: nat, slot: nat, ok: nat, err: nat) returns (st: Status)
      requires Valid()
      modifies claims
      ensures (claims[..], st) == ClaimOne(old(claims[..]), slot, NeedOut(phys, ok, err))
    {
      if phys >= PINS {
        return NoSuchPin;
      }
      if ok > 1 || err > 1 {
        return BadMode;
      }
      if ok == err {
        return ValueMismatch;
      }
      var bp := FindPin(phys);
      if bp.None? {
        return NoSuchPin;
      }
      if bp.value.reserved {
        return Reserved;
      }
      var c := claims[phys];
      if c.owners != {} {
        if c.mode != GpioOut {
          return Taken;
        }
        if c.okValue != ok || c.errValue != err {
          return ValueMismatch;
        }
        claims[phys] := c.(owners := c.owners + {slot});
        return ClaimOk;
      }
      claims[phys] := c.(owners := {slot}, mode := GpioOut, okValue := ok, errValue := err);
      st := ClaimOk;
    }

    method ReleaseSlot(slot: nat)
      requires Valid()
      modifies claims
      ensures claims[..] == Release(old(claims[..]), slot)
    {
      var id := 0;
      while id < PINS
        invariant 0 <= id <= PINS
        invariant forall p :: 0 <= p < id ==> claims[p] == Dropped(old(claims[p]), slot)
        invariant forall p :: id <= p < PINS ==> claims[p] == old(claims[p])
      {
        if slot in claims[id].owners {
          claims[id] := claims[id].(owners := claims[id].owners - {slot});
          if claims[id].owners == {} {
            claims[id] := claims[id].(mode := Unclaimed, okValue := 0, errValue := 0);
          }
        }
        id := id + 1;
      }
    }

    method CheckConsistency() returns (ok: bool)
      requires Valid()
      ensures ok == Consistent(claims[..])
    {
      var id := 0;
      while id < PINS
        invariant 0 <= id <= PINS
        invariant forall p :: 0 <= p < id ==>
          claims[p].owners != {} && claims[p].mode != GpioOut ==> |claims[p].owners| <= 1
      {
        var c := claims[id];
        if c.owners != {} && c.mode != GpioOut && |c.owners| > 1 {
          assert claims[..][id] == c;
          return false;
        }
        id := id + 1;
      }
      ok := true;
    }

    method DriveOutputs(veto: set<nat>, managed: set<nat>)
      requires Valid() && claims != levels as object
      modifies levels
      ensures forall p :: 0 <= p < PINS ==> levels[p] == Driven(claims[p], old(levels[p]), veto, managed)
    {
      var id := 0;
      while id < PINS
        invariant 0 <= id <= PINS
        invariant forall p :: 0 <= p < id ==> levels[p] == Driven(claims[p], old(levels[p]), veto, managed)
        invariant forall p :: id <= p < PINS ==> levels[p] == old(levels[p])
      {
        var c := claims[id];
        if c.owners != {} && c.mode == GpioOut && c.owners * managed != {} {
          levels[id] := if c.owners * veto != {} then c.errValue else c.okValue;
        }
        id := id + 1;
      }
    }
  }

  /** A table that shows its declarations passes the self check. */
  lemma ShownIsConsistent(t: Table, decl: seq<seq<Need>>)
    requires TableIs(t, decl)
    ensures Consistent(t)
  {
    hide At, FindPin;
    forall p | 0 <= p < PINS && t[p].owners != {} && t[p].mode != GpioOut
      ensures |t[p].owners| <= 1
    {
      assert RecordOk(t[p], decl, p);
      var s :| s in t[p].owners;
      assert Holds(t[p], s, At(decl[s], p));
      assert t[p].owners == {s};
    }
  }
}
