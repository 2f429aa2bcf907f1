/** Reading back single tokens: words, separators, numbers and modifiers with a number. */
module DslTokens {
  import opened BoardPins
  import opened Dsl
  import opened DslPrint

  /** A text at which a word or a number has ended, and which starts with no white space. */
  predicate Ends(k: string) { k == "" || (!IsCont(k[0]) && !IsSpace(k[0])) }

  lemma {:induction false} RunOfWord(w: string, k: string)
    requires (forall i :: 0 <= i < |w| ==> IsCont(w[i])) && Ends(k)
    ensures RunLength(w + k) == |w|
    decreases |w|
  {
    if w == "" {
      assert w + k == k;
    } else {
      assert (w + k)[0] == w[0] && (w + k)[1..] == w[1..] + k;
      RunOfWord(w[1..], k);
    }
  }

  lemma NoSkip(s: string)
    ensures s == "" || !IsSpace(s[0]) ==> SkipWs(s) == s
  {
  }

  lemma IdentHere(s: string, n: nat)
    requires s != "" && IsStart(s[0]) && !IsSpace(s[0]) && RunLength(s) == n < 256
    ensures ReadIdent(s) == Some((Ident(s[0], s[..n]), s[n..]))
  {
    hide SkipWs, RunLength, IsStart, IsSpace;
    NoSkip(s);
    SmallCut(n);
  }

  lemma SmallCut(n: nat)
    requires n < 256
    ensures n % 256 == n
  {
  }

  lemma Parts(w: string, k: string)
    requires w != ""
    ensures (w + k)[..|w|] == w && (w + k)[|w|..] == k && (w + k)[0] == w[0] && w + k != ""
  {
  }

  /** A word is read back whole. */
  lemma WordRead(w: string, k: string)
    requires Word(w) && Ends(k)
    ensures ReadIdent(w + k) == Some((Ident(w[0], w), k))
    ensures SkipWs(w + k) == w + k && Peek(w + k) == w[0]
  {
    Parts(w, k);
    RunOfWord(w, k);
    StartNoSpace(w[0]);
    assert |w| < 256 && IsStart(w[0]);
    hide *;
    NoSkip(w + k);
    IdentHere(w + k, |w|);
    PeekFirst(w + k);
  }

  lemma PeekFirst(s: string)
    requires s != ""
    ensures Peek(s) == s[0]
  {
  }

  lemma StartNoSpace(c: char)
    requires IsCont(c)
    ensures !IsSpace(c)
  {
  }

  lemma Hit(c: char, k: string)
    requires !IsSpace(c)
    ensures Consume([c] + k, c) == (true, k)
  {
    hide SkipWs;
    NoSkip([c] + k);
    assert ([c] + k)[1..] == k;
  }

  lemma Miss(s: string, c: char)
    requires s == "" || (!IsSpace(s[0]) && s[0] != c)
    ensures Consume(s, c) == (false, s)
  {
    hide SkipWs;
    NoSkip(s);
  }

  // ---- Numbers ------------------------------------------------------------------------

  lemma DecStep(c: char, k: string, v: nat, some: bool)
    requires IsDigit(c)
    ensures DecRun([c] + k, v, some) == DecRun(k, (v * 10 + (c as nat - '0' as nat)) % 0x1_0000_0000, true)
  {
    assert ([c] + k)[1..] == k;
  }

  lemma {:induction false} DecRead(n: nat, k: string)
    requires n < 0x1_0000_0000
    ensures DecRun(Dec(n) + k, 0, false) == DecRun(k, n, true)
    decreases n
  {
    hide DecRun;
    if n < 10 {
      DecStep(Digit(n), k, 0, false);
    } else {
      var c := Digit(n % 10);
      DecRead(n / 10, [c] + k);
      assert Dec(n) + k == Dec(n / 10) + ([c] + k);
      DecStep(c, k, n / 10, true);
    }
  }

  lemma {:induction false} DecFirst(n: nat)
    requires n >= 1
    ensures Dec(n)[0] != '0'
    decreases n
  {
    if n >= 10 {
      DecFirst(n / 10);
    }
  }

  lemma NumberHere(s: string)
    requires s != "" && !IsSpace(s[0]) && (|s| >= 2 && s[0] == '0' ==> s[1] != 'x' && s[1] != 'X')
    ensures var r := DecRun(s, 0, false);
      ReadNumber(s) == if r.1 then Ok(r.0 % 0x10000, r.2) else Err(BadNumber, r.2)
  {
    hide SkipWs, DecRun, HexRun;
    NoSkip(s);
  }

  lemma DecNotHex(n: nat, k: string)
    requires Ends(k)
    ensures var s := Dec(n) + k;
      s != "" && IsDigit(s[0]) && !IsSpace(s[0]) && (|s| >= 2 && s[0] == '0' ==> s[1] != 'x' && s[1] != 'X')
  {
    var d := Dec(n);
    if n == 0 {
      assert d == "0";
    } else {
      DecFirst(n);
    }
    hide Dec;
    assert (d + k)[0] == d[0];
    assert |d| == 1 && k != "" ==> (d + k)[1] == k[0];
  }

  /** A decimal number is read back, unless an x follows that would make it hexadecimal. */
  lemma NumberRead(n: nat, k: string)
    requires n < 0x10000 && Ends(k)
    ensures ReadNumber(Dec(n) + k) == Ok(n, k)
    ensures IsDigit(Peek(Dec(n) + k)) && SkipWs(Dec(n) + k) == Dec(n) + k
  {
    DecNotHex(n, k);
    hide *;
    var s := Dec(n) + k;
    PeekFirst(s);
    NoSkip(s);
    NumberHere(s);
    DecRead(n, k);
    DecStop(k, n);
  }

  lemma DecStop(k: string, n: nat)
    requires Ends(k)
    ensures DecRun(k, n, true) == (n, true, k)
  {
  }

  // ---- Hexadecimal numbers ------------------------------------------------------------

  /** The digits stand for their places, in either case. */
  lemma HexCharRead(d: nat, upper: bool)
    requires d < 16
    ensures HexDigit(HexChar(d, upper)) == Some(d)
  {
  }

  lemma HexStep(d: nat, upper: bool, k: string, v: nat, some: bool)
    requires d < 16
    ensures HexRun([HexChar(d, upper)] + k, v, some) == HexRun(k, (v * 16 + d) % 0x1_0000_0000, true)
  {
    HexCharRead(d, upper);
    assert ([HexChar(d, upper)] + k)[1..] == k;
    hide HexDigit, HexChar;
  }

  lemma {:induction false} HexRead(n: nat, upper: bool, k: string)
    requires n < 0x1_0000_0000
    ensures HexRun(Hex(n, upper) + k, 0, false) == HexRun(k, n, true)
    decreases n
  {
    hide HexRun, HexChar;
    if n < 16 {
      HexStep(n, upper, k, 0, false);
    } else {
      var c := HexChar(n % 16, upper);
      HexRead(n / 16, upper, [c] + k);
      assert Hex(n, upper) + k == Hex(n / 16, upper) + ([c] + k);
      HexStep(n % 16, upper, k, n / 16, true);
    }
  }

  lemma HexStart(t: string)
    requires |t| >= 2 && t[0] == '0' && (t[1] == 'x' || t[1] == 'X') && SkipWs(t) == t
    ensures var r := HexRun(t[2..], 0, false);
      ReadNumber(t) == if r.1 then Ok(r.0 % 0x10000, r.2) else Err(BadNumber, r.2)
  {
    hide SkipWs, DecRun, HexRun;
  }

  lemma HexHere(s: string, x: char)
    requires x == 'x' || x == 'X'
    ensures var r := HexRun(s, 0, false);
      ReadNumber(['0', x] + s) == if r.1 then Ok(r.0 % 0x10000, r.2) else Err(BadNumber, r.2)
  {
    ZeroFirst(s, x);
    hide *;
    var t := ['0', x] + s;
    assert t[0] == '0' && t[1] == x && t[2..] == s;
    HexStart(t);
  }

  lemma HexStop(k: string, n: nat)
    requires k == "" || k[0] !in "0123456789abcdefABCDEF"
    ensures HexRun(k, n, true) == (n, true, k)
  {
    if k != "" {
      NoHexDigit(k[0]);
    }
    hide HexDigit;
  }

  lemma NoHexDigit(c: char)
    requires c !in "0123456789abcdefABCDEF"
    ensures HexDigit(c) == None
  {
  }

  /** A hexadecimal number is read back, in either case and after either x, up to the first character
      that is no digit of it. */
  lemma HexNumberRead(n: nat, upper: bool, x: char, k: string)
    requires n < 0x10000 && (x == 'x' || x == 'X') && (k == "" || k[0] !in "0123456789abcdefABCDEF")
    ensures ReadNumber(['0', x] + (Hex(n, upper) + k)) == Ok(n, k)
  {
    hide *;
    HexHere(Hex(n, upper) + k, x);
    HexRead(n, upper, k);
    HexStop(k, n);
  }

  lemma EndsHex(k: string)
    requires Ends(k)
    ensures k == "" || k[0] !in "0123456789abcdefABCDEF"
  {
    if k != "" {
      var all := "0123456789abcdefABCDEF";
      assert forall i :: 0 <= i < |all| ==> IsCont(all[i]);
    }
  }

  lemma ZeroFirst(s: string, x: char)
    ensures IsDigit(Peek(['0', x] + s)) && SkipWs(['0', x] + s) == ['0', x] + s
  {
    hide SkipWs;
    NoSkip(['0', x] + s);
  }

  lemma Prefixed(x: char, h: string, k: string)
    ensures ['0', x] + h + k == ['0', x] + (h + k)
  {
  }

  lemma NumberIs(radix: Radix, n: nat)
    ensures radix == Decimal ==> Number(radix, n) == Dec(n)
    ensures radix == LowerHex ==> Number(radix, n) == ['0', 'x'] + Hex(n, false)
    ensures radix == UpperHex ==> Number(radix, n) == ['0', 'X'] + Hex(n, true)
  {
    hide Dec, Hex;
  }

  lemma HexTextRead(n: nat, upper: bool, x: char, k: string)
    requires n < 0x10000 && Ends(k) && (x == 'x' || x == 'X')
    ensures var s := ['0', x] + Hex(n, upper) + k;
      ReadNumber(s) == Ok(n, k) && IsDigit(Peek(s)) && SkipWs(s) == s
  {
    hide *;
    EndsHex(k);
    HexNumberRead(n, upper, x, k);
    ZeroFirst(Hex(n, upper) + k, x);
    Prefixed(x, Hex(n, upper), k);
  }

  /** A number is read back from however it is written. */
  lemma AnyNumberRead(radix: Radix, n: nat, k: string)
    requires n < 0x10000 && Ends(k)
    ensures ReadNumber(Number(radix, n) + k) == Ok(n, k)
    ensures IsDigit(Peek(Number(radix, n) + k)) && SkipWs(Number(radix, n) + k) == Number(radix, n) + k
  {
    hide *;
    NumberIs(radix, n);
    match radix
    case Decimal => NumberRead(n, k);
    case LowerHex => HexTextRead(n, false, 'x', k);
    case UpperHex => HexTextRead(n, true, 'X', k);
  }

  // ---- Any digits, leading zeros and overflow included --------------------------------

  /** What digits of a base stand for. */
  function Worth(ds: seq<nat>, base: nat): nat {
    if ds == [] then 0 else Worth(ds[..|ds| - 1], base) * base + ds[|ds| - 1]
  }

  predicate Below(ds: seq<nat>, base: nat) { forall i :: 0 <= i < |ds| ==> ds[i] < base }

  /** The digits written down, each in the case it is given. */
  function Written(ds: seq<nat>, upper: seq<bool>): (s: string)
    requires Below(ds, 16) && |upper| == |ds|
    ensures |s| == |ds|
  {
    if ds == [] then ""
    else
      var n := |ds| - 1;
      Written(ds[..n], upper[..n]) + [HexChar(ds[n], upper[n])]
  }

  lemma WorthCut(v: nat, base: nat, d: nat)
    ensures ((v % 0x1_0000_0000) * base + d) % 0x1_0000_0000 == (v * base + d) % 0x1_0000_0000
  {
    var q, r := v / 0x1_0000_0000, v % 0x1_0000_0000;
    assert v == q * 0x1_0000_0000 + r;
    assert v * base + d == (q * base) * 0x1_0000_0000 + (r * base + d);
    AddMultiple(r * base + d, q * base);
  }

  lemma WorthStep(ds: seq<nat>, base: nat)
    requires ds != []
    ensures var n := |ds| - 1;
      ((Worth(ds[..n], base) % 0x1_0000_0000) * base + ds[n]) % 0x1_0000_0000 == Worth(ds, base) % 0x1_0000_0000
  {
    WorthCut(Worth(ds[..|ds| - 1], base), base, ds[|ds| - 1]);
  }

  lemma WorthNone(base: nat)
    ensures Worth([], base) % 0x1_0000_0000 == 0
  {
  }

  lemma AddMultiple(x: nat, q: nat)
    ensures (q * 0x1_0000_0000 + x) % 0x1_0000_0000 == x % 0x1_0000_0000
  {
  }

  lemma Associates(a: string, b: string, c: string)
    ensures a + b + c == a + (b + c)
  {
  }

  lemma WrittenSnoc(ds: seq<nat>, upper: seq<bool>, k: string)
    requires ds != [] && Below(ds, 16) && |upper| == |ds|
    ensures var n := |ds| - 1;
      && Below(ds[..n], 16) && ds[n] < 16
      && Written(ds, upper) + k == Written(ds[..n], upper[..n]) + ([HexChar(ds[n], upper[n])] + k)
  {
    hide HexChar;
    var n := |ds| - 1;
    Associates(Written(ds[..n], upper[..n]), [HexChar(ds[n], upper[n])], k);
  }

  lemma {:induction false} WrittenRead(ds: seq<nat>, upper: seq<bool>, k: string)
    requires Below(ds, 16) && |upper| == |ds|
    ensures HexRun(Written(ds, upper) + k, 0, false) == HexRun(k, Worth(ds, 16) % 0x1_0000_0000, ds != [])
    decreases |ds|
  {
    hide *;
    if ds == [] {
      assert Written(ds, upper) + k == k;
      WorthNone(16);
    } else {
      var n := |ds| - 1;
      WrittenSnoc(ds, upper, k);
      WrittenRead(ds[..n], upper[..n], [HexChar(ds[n], upper[n])] + k);
      HexStep(ds[n], upper[n], k, Worth(ds[..n], 16) % 0x1_0000_0000, ds[..n] != []);
      WorthStep(ds, 16);
    }
  }

  lemma LowBits(v: nat)
    ensures v % 0x1_0000_0000 % 0x10000 == v % 0x10000
  {
  }

  /** Any hexadecimal digits at all, in any mixture of cases, mean their worth modulo 2^16. */
  lemma HexMeans(ds: seq<nat>, upper: seq<bool>, x: char, k: string)
    requires ds != [] && Below(ds, 16) && |upper| == |ds| && (x == 'x' || x == 'X')
    requires k == "" || k[0] !in "0123456789abcdefABCDEF"
    ensures ReadNumber(['0', x] + (Written(ds, upper) + k)) == Ok(Worth(ds, 16) % 0x10000, k)
  {
    hide *;
    HexHere(Written(ds, upper) + k, x);
    WrittenRead(ds, upper, k);
    HexStop(k, Worth(ds, 16) % 0x1_0000_0000);
    LowBits(Worth(ds, 16));
  }

  function DecChar(d: nat): char
    requires d < 10
  {
    "0123456789"[d]
  }

  /** Decimal digits written down. */
  function WrittenDec(ds: seq<nat>): (s: string)
    requires Below(ds, 10)
    ensures |s| == |ds|
  {
    if ds == [] then "" else WrittenDec(ds[..|ds| - 1]) + [DecChar(ds[|ds| - 1])]
  }

  lemma DigitIs(d: nat)
    requires d < 10
    ensures DecChar(d) as nat - '0' as nat == d && IsDigit(DecChar(d))
  {
  }

  lemma WrittenDecSnoc(ds: seq<nat>, k: string)
    requires ds != [] && Below(ds, 10)
    ensures var n := |ds| - 1;
      && Below(ds[..n], 10) && ds[n] < 10
      && WrittenDec(ds) + k == WrittenDec(ds[..n]) + ([DecChar(ds[n])] + k)
  {
    hide DecChar;
    Associates(WrittenDec(ds[..|ds| - 1]), [DecChar(ds[|ds| - 1])], k);
  }

  lemma {:induction false} WrittenDecRead(ds: seq<nat>, k: string)
    requires Below(ds, 10)
    ensures DecRun(WrittenDec(ds) + k, 0, false) == DecRun(k, Worth(ds, 10) % 0x1_0000_0000, ds != [])
    decreases |ds|
  {
    hide *;
    if ds == [] {
      assert WrittenDec(ds) + k == k;
      WorthNone(10);
    } else {
      var n := |ds| - 1;
      WrittenDecSnoc(ds, k);
      var c := DecChar(ds[n]);
      DigitIs(ds[n]);
      WrittenDecRead(ds[..n], [c] + k);
      DecStep(c, k, Worth(ds[..n], 10) % 0x1_0000_0000, ds[..n] != []);
      WorthStep(ds, 10);
    }
  }

  lemma {:induction false} WrittenDecFirst(ds: seq<nat>)
    requires ds != [] && Below(ds, 10)
    ensures WrittenDec(ds)[0] == DecChar(ds[0]) && forall i :: 0 <= i < |ds| ==> IsDigit(WrittenDec(ds)[i])
    decreases |ds|
  {
    hide DecChar;
    DigitIs(ds[|ds| - 1]);
    if |ds| > 1 {
      WrittenDecFirst(ds[..|ds| - 1]);
    }
  }

  lemma DecStopAny(k: string, v: nat)
    requires k == "" || !IsDigit(k[0])
    ensures DecRun(k, v, true) == (v, true, k)
  {
  }

  lemma DecSafe(ds: seq<nat>, k: string)
    requires ds != [] && Below(ds, 10) && (k == "" || k[0] !in "0123456789xX")
    ensures var s := WrittenDec(ds) + k;
      s != "" && !IsSpace(s[0]) && (|s| >= 2 && s[0] == '0' ==> s[1] != 'x' && s[1] != 'X')
    ensures k == "" || !IsDigit(k[0])
  {
    WrittenDecFirst(ds);
    hide WrittenDec;
    var w := WrittenDec(ds);
    assert (w + k)[0] == w[0];
    if |ds| >= 2 {
      assert (w + k)[1] == w[1];
    } else if k != "" {
      assert (w + k)[1] == k[0];
    }
  }

  /** Any decimal digits, leading zeros included, mean their worth modulo 2^16. */
  lemma DecMeans(ds: seq<nat>, k: string)
    requires ds != [] && Below(ds, 10) && (k == "" || k[0] !in "0123456789xX")
    ensures ReadNumber(WrittenDec(ds) + k) == Ok(Worth(ds, 10) % 0x10000, k)
  {
    hide *;
    DecSafe(ds, k);
    NumberHere(WrittenDec(ds) + k);
    WrittenDecRead(ds, k);
    DecStopAny(k, Worth(ds, 10) % 0x1_0000_0000);
    LowBits(Worth(ds, 10));
  }

  // ---- Modifiers with a number --------------------------------------------------------

  lemma {:induction false} DigitsRead(n: nat, ds: string)
    requires n <= 65535 && AllDigits(ds)
    ensures AllDigits(Dec(n) + ds) && DigitsValue(Dec(n) + ds, 0) == DigitsValue(ds, n)
    decreases n
  {
    hide DigitsValue;
    if n < 10 {
      DigitStep(Digit(n), ds, 0);
    } else {
      var c := Digit(n % 10);
      assert AllDigits([c] + ds);
      DigitsRead(n / 10, [c] + ds);
      assert Dec(n) + ds == Dec(n / 10) + ([c] + ds);
      DigitStep(c, ds, n / 10);
    }
  }

  lemma DigitStep(c: char, ds: string, v: nat)
    requires IsDigit(c) && AllDigits(ds)
    ensures AllDigits([c] + ds)
    ensures var w := v * 10 + (c as nat - '0' as nat);
      DigitsValue([c] + ds, v) == if w > 65535 then None else DigitsValue(ds, w)
  {
    assert ([c] + ds)[1..] == ds;
  }

  /** The modifier made of a prefix and a number has that number. */
  lemma ParamRead(prefix: string, n: nat)
    requires n <= 65535
    ensures IsParam(prefix + Dec(n), prefix) && ParamValue(prefix + Dec(n), prefix) == Some(n)
  {
    var s := prefix + Dec(n);
    assert s[|prefix|..] == Dec(n) && s[..|prefix|] == prefix;
    DigitsRead(n, "");
    assert Dec(n) + "" == Dec(n);
  }

  lemma NotParam(m: string, prefix: string)
    requires m != "" && prefix != "" && m[0] != prefix[0]
    ensures !IsParam(m, prefix)
  {
    if |m| > |prefix| {
      assert m[..|prefix|][0] == m[0];
    }
  }

  lemma DecLength(n: nat)
    requires n <= 65535
    ensures |Dec(n)| <= 5
  {
    assert n / 10 / 10 / 10 / 10 < 10;
    Length1(n / 10 / 10 / 10 / 10);
    LengthStep(n / 10 / 10 / 10);
    LengthStep(n / 10 / 10);
    LengthStep(n / 10);
    LengthStep(n);
  }

  lemma Length1(n: nat)
    requires n < 10
    ensures |Dec(n)| == 1
  {
  }

  lemma LengthStep(n: nat)
    ensures |Dec(n)| <= 1 + |Dec(n / 10)|
  {
  }

  lemma ParamWord(prefix: string, n: nat)
    requires n <= 65535 && Word(prefix) && |prefix| < 200
    ensures Word(prefix + Dec(n)) && (prefix + Dec(n))[0] == prefix[0] && |prefix + Dec(n)| > |prefix|
  {
    DecLength(n);
    var s, d := prefix + Dec(n), Dec(n);
    hide Dec;
    forall i | 0 <= i < |s|
      ensures IsCont(s[i])
    {
      if i < |prefix| {
        assert s[i] == prefix[i];
      } else {
        assert s[i] == d[i - |prefix|];
      }
    }
  }
}
