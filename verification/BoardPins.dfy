/** The board's pin table: labels D0..D10 and their aliases A0..A10. */
module BoardPins {
  datatype Option<T> = None | Some(value: T)

  datatype BoardPin = BoardPin(name: string, port: nat, pin: nat, adcChannel: nat, reserved: bool)

  function Port(k: nat): nat
    requires k < 11
  {
    [0, 0, 0, 0, 0, 0, 1, 1, 0, 0, 0][k]
  }

  function PinNo(k: nat): nat
    requires k < 11
  {
    [2, 4, 10, 11, 8, 9, 8, 9, 7, 5, 6][k]
  }

  function Channel(k: nat): nat
    requires k < 11
  {
    [0, 4, 18, 19, 16, 17, 2, 3, 7, 5, 6][k]
  }

  function Digits(k: nat): string
    requires k < 11
  {
    if k == 10 then "10" else [['0', '1', '2', '3', '4', '5', '6', '7', '8', '9'][k]]
  }

  /** Entry i of the table: the D labels, then the A labels for the same pins. Every pin can be a
      GPIO and has an ADC channel; only the two I2C pins are reserved. */
  function Entry(i: nat): BoardPin
    requires i < 22
  {
    var k := if i < 11 then i else i - 11;
    BoardPin((if i < 11 then "D" else "A") + Digits(k), Port(k), PinNo(k), Channel(k), k == 4 || k == 5)
  }

  function PhysId(p: BoardPin): nat { p.port * 32 + p.pin % 32 }

  function LookupFrom(text: string, i: nat): (r: Option<BoardPin>)
    requires i <= 22
    ensures r.Some? ==> exists k :: i <= k < 22 && r.value == Entry(k) && Entry(k).name == text
    decreases 22 - i
  {
    if i == 22 then None else if Entry(i).name == text then Some(Entry(i)) else LookupFrom(text, i + 1)
  }

  function Lookup(text: string): Option<BoardPin> {
    if text == "" || |text| >= 4 then None else LookupFrom(text, 0)
  }

  function FindFrom(phys: nat, i: nat): (r: Option<BoardPin>)
    requires i <= 22
    ensures r.Some? ==> PhysId(r.value) == phys
    decreases 22 - i
  {
    if i == 22 then None else if PhysId(Entry(i)) == phys then Some(Entry(i)) else FindFrom(phys, i + 1)
  }

  /** The record of a physical pin, if the board has it. */
  function FindPin(phys: nat): Option<BoardPin> { FindFrom(phys, 0) }

  function PhysAt(k: nat): nat
    requires k < 11
  {
    Port(k) * 32 + PinNo(k)
  }

  predicate OnBoard(phys: nat) { exists k: nat :: k < 11 && PhysAt(k) == phys }

  method LookupLabel(text: string) returns (r: Option<BoardPin>)
    ensures r == Lookup(text)
  {
    if text == "" || |text| >= 4 {
      return None;
    }
    var i := 0;
    while i < 22
      invariant i <= 22
      invariant LookupFrom(text, i) == LookupFrom(text, 0)
    {
      if Entry(i).name == text {
        return Some(Entry(i));
      }
      i := i + 1;
    }
    r := None;
  }

  lemma PhysIdBound(k: nat)
    requires k < 22
    ensures PhysId(Entry(k)) < 64
  {
  }

  lemma {:induction false} FindFinds(k: nat, i: nat)
    requires i <= k < 22
    ensures FindFrom(PhysId(Entry(k)), i).Some?
    decreases k - i
  {
    if i < k {
      FindFinds(k, i + 1);
    }
  }

  /** The label the printer uses for a pin. */
  function LabelOf(phys: nat): string {
    if FindPin(phys).Some? then FindPin(phys).value.name else ""
  }

  lemma EntryPhys(k: nat)
    requires k < 22
    ensures PhysId(Entry(k)) == PhysAt(if k < 11 then k else k - 11)
  {
  }

  /** The scan of the table finds exactly the pins of the board. */
  lemma OnBoardFinds(phys: nat)
    ensures OnBoard(phys) <==> FindPin(phys).Some?
    ensures FindPin(phys).Some? ==> PhysId(FindPin(phys).value) == phys
  {
    hide Entry, PhysAt;
    if OnBoard(phys) {
      var k: nat :| k < 11 && PhysAt(k) == phys;
      EntryPhys(k);
      FindFinds(k, 0);
    }
    if FindPin(phys).Some? {
      FindIsEntry(phys, 0);
      var k: nat :| k < 22 && FindFrom(phys, 0) == Some(Entry(k));
      EntryPhys(k);
    }
  }

  lemma LabelsDistinct(i: nat, j: nat)
    requires i < j < 22
    ensures Entry(i).name != Entry(j).name
  {
    var a, b := Entry(i).name, Entry(j).name;
    if (i < 11) == (j < 11) {
      DigitsDistinct(if i < 11 then i else i - 11, if j < 11 then j else j - 11);
      assert a[1..] != b[1..];
    } else {
      assert a[0] != b[0];
    }
  }

  lemma DigitsDistinct(i: nat, j: nat)
    requires i < j < 11
    ensures Digits(i) != Digits(j)
  {
    if j < 10 {
      assert Digits(i)[0] != Digits(j)[0];
    }
  }

  lemma {:induction false} LookupEntry(k: nat, i: nat)
    requires i <= k < 22
    ensures LookupFrom(Entry(k).name, i) == Some(Entry(k))
    decreases k - i
  {
    if i < k {
      LabelsDistinct(i, k);
      LookupEntry(k, i + 1);
    }
  }

  lemma Named(k: nat, text: string)
    requires k < 11 && text == "D" + Digits(k)
    ensures Lookup(text) == Some(BoardPin(text, Port(k), PinNo(k), Channel(k), k == 4 || k == 5))
    ensures Lookup("A" + Digits(k)) == Some(Lookup(text).value.(name := "A" + Digits(k)))
  {
    hide Port, PinNo, Channel;
    LookupEntry(k, 0);
    LookupEntry(k + 11, 0);
    DigitsShape(k);
    hide LookupFrom, Digits;
  }

  lemma DigitsAre()
    ensures Digits(0) == "0" && Digits(1) == "1" && Digits(2) == "2" && Digits(3) == "3" && Digits(4) == "4"
    ensures Digits(5) == "5" && Digits(6) == "6" && Digits(7) == "7" && Digits(8) == "8" && Digits(9) == "9"
    ensures Digits(10) == "10"
  {
  }

  /** The first half of the table, pin by pin; D4 and D5 are the I2C bus. */
  lemma LowPins()
    ensures Lookup("D0") == Some(BoardPin("D0", 0, 2, 0, false))
    ensures Lookup("D1") == Some(BoardPin("D1", 0, 4, 4, false))
    ensures Lookup("D2") == Some(BoardPin("D2", 0, 10, 18, false))
    ensures Lookup("D3") == Some(BoardPin("D3", 0, 11, 19, false))
    ensures Lookup("D4") == Some(BoardPin("D4", 0, 8, 16, true))
    ensures Lookup("D5") == Some(BoardPin("D5", 0, 9, 17, true))
  {
    DigitsAre();
    hide Digits, Lookup;
    Named(0, "D0");
    Named(1, "D1");
    Named(2, "D2");
    Named(3, "D3");
    Named(4, "D4");
    Named(5, "D5");
  }

  lemma HighPins()
    ensures Lookup("D6") == Some(BoardPin("D6", 1, 8, 2, false))
    ensures Lookup("D7") == Some(BoardPin("D7", 1, 9, 3, false))
    ensures Lookup("D8") == Some(BoardPin("D8", 0, 7, 7, false))
    ensures Lookup("D9") == Some(BoardPin("D9", 0, 5, 5, false))
    ensures Lookup("D10") == Some(BoardPin("D10", 0, 6, 6, false))
  {
    DigitsAre();
    hide Digits, Lookup;
    Named(6, "D6");
    Named(7, "D7");
    Named(8, "D8");
    Named(9, "D9");
    Named(10, "D10");
  }

  lemma {:induction false} FindIsEntry(phys: nat, i: nat)
    requires i <= 22 && FindFrom(phys, i).Some?
    ensures exists k :: i <= k < 22 && FindFrom(phys, i) == Some(Entry(k))
    decreases 22 - i
  {
    if PhysId(Entry(i)) != phys {
      FindIsEntry(phys, i + 1);
    }
  }

  lemma NameShape(k: nat)
    requires k < 22
    ensures var n := Entry(k).name;
      2 <= |n| <= 3 && n[0] in {'A', 'D'} && forall c :: c in n[1..] ==> '0' <= c <= '9'
  {
    var d := Digits(if k < 11 then k else k - 11);
    DigitsShape(if k < 11 then k else k - 11);
    assert Entry(k).name[1..] == d;
  }

  lemma DigitsShape(k: nat)
    requires k < 11
    ensures 1 <= |Digits(k)| <= 2 && forall c :: c in Digits(k) ==> '0' <= c <= '9'
  {
  }

  /** Looking up the label of a board pin gives that pin back. */
  lemma LabelRoundTrip(phys: nat)
    requires OnBoard(phys)
    ensures var n := LabelOf(phys);
      && Lookup(n).Some? && PhysId(Lookup(n).value) == phys
      && 2 <= |n| <= 3 && n[0] in {'A', 'D'} && forall c :: c in n[1..] ==> '0' <= c <= '9'
  {
    hide Entry, LookupFrom, OnBoard;
    OnBoardFinds(phys);
    FindIsEntry(phys, 0);
    var k: nat :| k < 22 && FindFrom(phys, 0) == Some(Entry(k));
    hide FindFrom;
    LookupEntry(k, 0);
    NameShape(k);
  }

  /** Every label of the table names a board pin. */
  lemma LookupOnBoard(text: string)
    requires Lookup(text).Some?
    ensures OnBoard(PhysId(Lookup(text).value)) && PhysId(Lookup(text).value) < 64
  {
    var k :| 0 <= k < 22 && Lookup(text).value == Entry(k);
    hide Entry, LookupFrom;
    EntryPhys(k);
    PhysIdBound(k);
  }

  lemma OnBoardBound(phys: nat)
    ensures OnBoard(phys) ==> phys < 64
  {
  }

  lemma ReservedEntry(k: nat)
    requires k < 22
    ensures Entry(k).reserved <==> PhysId(Entry(k)) == 8 || PhysId(Entry(k)) == 9
  {
    hide Digits;
    EntryPhys(k);
    var j := if k < 11 then k else k - 11;
    assert PhysAt(j) == 8 <==> j == 4;
    assert PhysAt(j) == 9 <==> j == 5;
  }

  /** The reserved pins are the two of the I2C bus. */
  lemma ReservedPins(phys: nat)
    requires OnBoard(phys)
    ensures FindPin(phys).Some? && (FindPin(phys).value.reserved <==> phys == 8 || phys == 9)
  {
    hide FindFrom, OnBoard, Entry, PhysId;
    OnBoardFinds(phys);
    FindIsEntry(phys, 0);
    var k :| 0 <= k < 22 && FindFrom(phys, 0) == Some(Entry(k));
    ReservedEntry(k);
  }
}
