/** What hexadecimal and escaped text stands for. */
module JsonHex {
  import opened Numbers
  import opened JsonText
  import opened JsonWriter
  import opened JsonParser

  /** The number hexadecimal text stands for, most significant digit first. */
  function HexNumber(t: string): int {
    if t == [] then 0 else 16 * HexNumber(t[..|t| - 1]) + HexValue(t[|t| - 1])
  }

  lemma HexSnoc(t: string, c: char)
    ensures HexNumber(t + [c]) == 16 * HexNumber(t) + HexValue(c)
  {
    assert (t + [c])[..|t|] == t;
  }

  lemma {:induction false} ZerosCountNothing(k: nat)
    ensures HexNumber(Zeros(k)) == 0
  {
    if k > 0 {
      ZerosCountNothing(k - 1);
      assert Zeros(k) == Zeros(k - 1) + ['0'];
      HexSnoc(Zeros(k - 1), '0');
    }
  }

  /** Hexadecimal text reads back as its number and has at least the width asked for. */
  lemma {:induction false} HexReadsBack(n: nat, width: nat)
    ensures HexNumber(HexDigits(n, width)) == n
    ensures |HexDigits(n, width)| >= width && |HexDigits(n, width)| > 0
    decreases n
  {
    hide HexNumber, HexDigits, HexValue;
    HexStep(n, width);
    HexRoundTrip(n % 16);
    if n < 16 {
      var zeros := Zeros(if width <= 1 then 0 else width - 1);
      ZerosCountNothing(|zeros|);
      HexSnoc(zeros, HEX[n]);
    } else {
      var w := if width == 0 then 0 else width - 1;
      HexReadsBack(n / 16, w);
      HexSnoc(HexDigits(n / 16, w), HEX[n % 16]);
    }
  }

  lemma HexStep(n: nat, width: nat)
    ensures n < 16 ==> HexDigits(n, width) == Zeros(if width <= 1 then 0 else width - 1) + [HEX[n]]
    ensures n >= 16 ==> HexDigits(n, width) == HexDigits(n / 16, if width == 0 then 0 else width - 1) + [HEX[n % 16]]
  {
    assert Zeros(0) + [HEX[n % 16]] == [HEX[n % 16]];
  }

  function Pow16(k: nat): nat {
    if k == 0 then 1 else 16 * Pow16(k - 1)
  }

  /** A number that fits in the width has exactly that many digits. */
  lemma {:induction false} HexFits(n: nat, width: nat)
    requires width > 0 && n < Pow16(width)
    ensures |HexDigits(n, width)| == width
    decreases width
  {
    hide HexDigits;
    HexStep(n, width);
    if n >= 16 {
      assert Pow16(1) == 16 * Pow16(0);
      HexFits(n / 16, width - 1);
    }
  }

  /** Without a width there is no leading zero but for zero itself. */
  lemma {:induction false} HexLeads(n: nat, width: nat)
    requires width <= 1
    ensures HexDigits(n, width) != [] && (HexDigits(n, width)[0] == '0' <==> n == 0)
    decreases n
  {
    hide HexDigits;
    HexStep(n, width);
    if n >= 16 {
      HexLeads(n / 16, 0);
    }
  }

  /** A 64-bit address takes sixteen digits, and they read back as the address; zero is no address. */
  lemma AddressText(value: nat)
    requires value <= U64_MAX
    ensures value == 0 ==> Pointer(value) == Null
    ensures value > 0 ==>
              && Pointer(value).Str? && |Pointer(value).s| == 2 + 16 && Pointer(value).s[..2] == "0x"
              && HexNumber(Pointer(value).s[2..]) == value
  {
    hide HexDigits, HexNumber;
    assert Pow16(16) == 0x1_0000_0000_0000_0000 by { PowersOf16(); }
    HexReadsBack(value, 16);
    HexFits(value, 16);
    assert value > 0 ==> Pointer(value).s[2..] == HexDigits(value, 16);
  }

  lemma PowersOf16()
    ensures Pow16(16) == 0x1_0000_0000_0000_0000
  {
    assert Pow16(4) == 0x1_0000;
    assert Pow16(8) == 0x1_0000_0000;
    assert Pow16(12) == 0x1_0000_0000_0000;
  }

  // ---- strings -----------------------------------------------------------------------------

  /** A byte is escaped exactly when RFC 8259 section 7 demands it, and how. */
  lemma EscapedOnlyWhenNeeded(c: char)
    ensures Escape(c) == [c] <==> c >= ' ' && c != '"' && c != '\\'
    ensures c == '"' || c == '\\' ==> Escape(c) == ['\\', c]
    ensures c < ' ' ==>
              && |Escape(c)| == 6 && Escape(c)[..4] == ['\\', 'u', '0', '0']
              && HexNumber(Escape(c)[4..]) == c as int
              && forall i :: 4 <= i < 6 ==> Escape(c)[i] in HEX
  {
    if c < ' ' {
      var t := Escape(c)[4..];
      assert t == [] + [HEX[c as int / 16]] + [HEX[c as int % 16]];
      HexSnoc([], HEX[c as int / 16]);
      HexSnoc([] + [HEX[c as int / 16]], HEX[c as int % 16]);
      HexRoundTrip(c as int / 16);
      HexRoundTrip(c as int % 16);
    }
  }

  /** What is visible of a C string: its longest start without a terminator, within the limit. */
  lemma {:induction false} VisibleIsLongestStart(value: string, max: nat)
    ensures var v := Visible(value, max);
            && v <= value && |v| <= max && '\0' !in v
            && (|v| == max || |v| == |value| || value[|v|] == '\0')
  {
    if value != [] && max > 0 && value[0] != '\0' {
      VisibleIsLongestStart(value[1..], max - 1);
      assert value == [value[0]] + value[1..];
    }
  }

  // ---- nothing but the values ----------------------------------------------------------------

  /** No name and no string of the value holds a space. */
  predicate Spaceless(v: Json)
    decreases v
  {
    match v
    case Str(s) => ' ' !in s
    case Arr(items) => forall i :: 0 <= i < |items| ==> Spaceless(items[i])
    case Obj(fields) => forall i :: 0 <= i < |fields| ==> ' ' !in fields[i].name && Spaceless(fields[i].value)
    case _ => true
  }

  /** The text of a value has no spaces of its own: each comes from a name or a string. */
  lemma {:induction false} PrintCompact(v: Json)
    requires Spaceless(v)
    ensures ' ' !in Print(v)
    decreases v
  {
    hide Escaped, Escape, Digits, Join;
    match v
    case Num(n) => DigitsAreDigits(if n < 0 then -n else n);
    case Str(s) => EscapedCompact(s);
    case Arr(items) =>
      forall i | 0 <= i < |items| ensures ' ' !in ItemTexts(items)[i] { PrintCompact(items[i]); }
      JoinCompact(ItemTexts(items));
    case Obj(fields) =>
      forall i | 0 <= i < |fields| ensures ' ' !in FieldTexts(fields)[i] { FieldCompact(fields[i]); }
      JoinCompact(FieldTexts(fields));
    case _ =>
  }

  lemma {:induction false} FieldCompact(f: Field)
    requires ' ' !in f.name && Spaceless(f.value)
    ensures ' ' !in PrintField(f)
    decreases f
  {
    hide Escaped, Print;
    PrintCompact(f.value);
    EscapedCompact(f.name);
  }

  lemma {:induction false} EscapedCompact(s: string)
    requires ' ' !in s
    ensures ' ' !in Escaped(s)
  {
    hide Escape;
    if s != [] {
      EscapeCompact(s[0]);
      EscapedCompact(s[1..]);
    }
  }

  lemma EscapeCompact(c: char)
    requires c != ' '
    ensures ' ' !in Escape(c)
  {
  }

  lemma {:induction false} JoinCompact(texts: seq<string>)
    requires forall i :: 0 <= i < |texts| ==> ' ' !in texts[i]
    ensures ' ' !in Join(texts)
  {
    if |texts| > 1 {
      JoinCompact(texts[1..]);
    }
  }
}
