/**
 JSON values, their reference text (RFC 8259 sections 4, 5 and 7), and the output stream
 a writer appends to.  A char stands for one byte.
 */
module JsonText {
  import opened Numbers

  datatype Json =
    | Null
    | Bool(b: bool)
    | Num(n: int)
    | Str(s: string)
    | Arr(items: seq<Json>)
    | Obj(fields: seq<Field>)

  datatype Field = Field(name: string, value: Json)

  const HEX: string := "0123456789abcdef"

  function Digits(n: nat): (r: string)
    ensures r != []
  {
    if n < 10 then [HEX[n]] else Digits(n / 10) + [HEX[n % 10]]
  }

  function Decimal(n: int): string {
    if n < 0 then "-" + Digits(-n) else Digits(n)
  }

  /** The bytes a string may not hold as they are: quote, backslash, and control characters. */
  function Escape(c: char): string {
    if c == '"' || c == '\\' then ['\\', c]
    else if c < ' ' then ['\\', 'u', '0', '0', HEX[c as int / 16], HEX[c as int % 16]]
    else [c]
  }

  function Escaped(s: string): string {
    if s == [] then [] else Escape(s[0]) + Escaped(s[1..])
  }

  function Quote(s: string): string {
    ['"'] + Escaped(s) + ['"']
  }

  function Join(texts: seq<string>): string {
    if texts == [] then []
    else if |texts| == 1 then texts[0]
    else texts[0] + [','] + Join(texts[1..])
  }

  function Print(v: Json): string
    decreases v, 1
  {
    match v
    case Null => "null"
    case Bool(b) => if b then "true" else "false"
    case Num(n) => Decimal(n)
    case Str(s) => Quote(s)
    case Arr(items) => ['['] + Join(ItemTexts(items)) + [']']
    case Obj(fields) => ['{'] + Join(FieldTexts(fields)) + ['}']
  }

  function ItemTexts(items: seq<Json>): (r: seq<string>)
    ensures |r| == |items| && forall i :: 0 <= i < |items| ==> r[i] == Print(items[i])
    decreases items, 0
  {
    if items == [] then [] else [Print(items[0])] + ItemTexts(items[1..])
  }

  function FieldTexts(fields: seq<Field>): (r: seq<string>)
    ensures |r| == |fields| && forall i :: 0 <= i < |fields| ==> r[i] == PrintField(fields[i])
    decreases fields, 0
  {
    if fields == [] then [] else [PrintField(fields[0])] + FieldTexts(fields[1..])
  }

  function PrintField(f: Field): string
    decreases f, 2
  {
    Quote(f.name) + [':'] + Print(f.value)
  }

  /** How many containers deep a value is. */
  function Height(v: Json): nat
    decreases v, 1
  {
    match v
    case Arr(items) => 1 + ItemsHeight(items)
    case Obj(fields) => 1 + FieldsHeight(fields)
    case _ => 0
  }

  function ItemsHeight(items: seq<Json>): (h: nat)
    ensures forall i :: 0 <= i < |items| ==> Height(items[i]) <= h
    ensures h > 0 ==> exists i :: 0 <= i < |items| && Height(items[i]) == h
    decreases items, 0
  {
    if items == [] then 0 else
      var rest := ItemsHeight(items[1..]);
      assert forall i :: 0 < i < |items| ==> items[i] == items[1..][i - 1];
      assert rest > 0 ==> exists i :: 0 <= i < |items| && Height(items[i]) == rest by {
        if rest > 0 {
          var k :| 0 <= k < |items[1..]| && Height(items[1..][k]) == rest;
          assert Height(items[k + 1]) == rest;
        }
      }
      Max(Height(items[0]), rest)
  }

  function FieldsHeight(fields: seq<Field>): (h: nat)
    ensures forall i :: 0 <= i < |fields| ==> Height(fields[i].value) <= h
    ensures h > 0 ==> exists i :: 0 <= i < |fields| && Height(fields[i].value) == h
    decreases fields, 0
  {
    if fields == [] then 0 else
      var rest := FieldsHeight(fields[1..]);
      assert forall i :: 0 < i < |fields| ==> fields[i] == fields[1..][i - 1];
      assert rest > 0 ==> exists i :: 0 <= i < |fields| && Height(fields[i].value) == rest by {
        if rest > 0 {
          var k :| 0 <= k < |fields[1..]| && Height(fields[1..][k].value) == rest;
          assert Height(fields[k + 1].value) == rest;
        }
      }
      Max(Height(fields[0].value), rest)
  }

  // ---- joining -----------------------------------------------------------------------

  lemma {:induction false} JoinSnoc(texts: seq<string>, t: string)
    ensures Join(texts + [t]) == Join(texts) + (if texts == [] then [] else [',']) + t
  {
    if |texts| <= 1 {
      assert texts == [] ==> texts + [t] == [t];
      assert |texts| == 1 ==> (texts + [t])[1..] == [t];
    } else {
      assert (texts + [t])[1..] == texts[1..] + [t];
      JoinSnoc(texts[1..], t);
    }
  }

  // ---- no line breaks ------------------------------------------------------------------

  /** Text made of printable bytes only. */
  predicate Printable(s: string) {
    forall i :: 0 <= i < |s| ==> s[i] >= ' '
  }

  lemma {:induction false} DigitsPrintable(n: nat)
    ensures Printable(Digits(n))
  {
    if n >= 10 {
      DigitsPrintable(n / 10);
    }
  }

  lemma {:induction false} EscapedPrintable(s: string)
    ensures Printable(Escaped(s))
  {
    hide Escape;
    if s != [] {
      EscapedPrintable(s[1..]);
      EscapePrintable(s[0]);
    }
  }

  lemma EscapePrintable(c: char)
    ensures Printable(Escape(c))
  {
  }

  lemma {:induction false} JoinPrintable(texts: seq<string>)
    requires forall i :: 0 <= i < |texts| ==> Printable(texts[i])
    ensures Printable(Join(texts))
  {
    if |texts| > 1 {
      JoinPrintable(texts[1..]);
    }
  }

  /** Whatever the names and strings hold, the text of a value has no control byte. */
  lemma {:induction false} PrintPrintable(v: Json)
    ensures Printable(Print(v))
    decreases v
  {
    hide Escaped, Escape, Digits, Join, Printable;
    match v
    case Num(n) => DecimalPrintable(n);
    case Str(s) => QuotePrintable(s);
    case Arr(items) =>
      forall i | 0 <= i < |items| ensures Printable(ItemTexts(items)[i]) { PrintPrintable(items[i]); }
      JoinPrintable(ItemTexts(items));
      PartsPrintable(['['], Join(ItemTexts(items)), [']']);
    case Obj(fields) =>
      forall i | 0 <= i < |fields|
        ensures Printable(FieldTexts(fields)[i])
      {
        PrintPrintable(fields[i].value);
        QuotePrintable(fields[i].name);
        PartsPrintable(Quote(fields[i].name), [':'], Print(fields[i].value));
      }
      JoinPrintable(FieldTexts(fields));
      PartsPrintable(['{'], Join(FieldTexts(fields)), ['}']);
    case _ => WordPrintable(v);
  }

  lemma WordPrintable(v: Json)
    requires v.Null? || v.Bool?
    ensures Printable(Print(v))
  {
  }

  lemma DecimalPrintable(n: int)
    ensures Printable(Decimal(n))
  {
    DigitsPrintable(if n < 0 then -n else n);
  }

  lemma QuotePrintable(s: string)
    ensures Printable(Quote(s))
  {
    EscapedPrintable(s);
  }

  lemma PartsPrintable(a: string, b: string, c: string)
    ensures Printable(a) && Printable(b) && Printable(c) ==> Printable(a + b + c)
    ensures Printable(['[']) && Printable([']']) && Printable(['{']) && Printable(['}']) && Printable([':'])
  {
  }

  // ---- the output stream ---------------------------------------------------------------

  /** What has been written, how much the stream still takes, and the writer's sticky flag. */
  datatype Stream = Stream(out: string, room: nat, error: bool)

  /** Append text; once something does not fit, nothing is written ever again. */
  function Emit(s: Stream, text: string): Stream {
    if s.error then s
    else if |text| <= s.room then Stream(s.out + text, s.room - |text|, false)
    else Stream(s.out + text[..s.room], 0, true)
  }

  lemma EmitJoin(s: Stream, a: string, b: string)
    ensures Emit(Emit(s, a), b) == Emit(s, a + b)
  {
    if !s.error {
      if |a| <= s.room {
        assert s.out + a + b == s.out + (a + b);
        if |a + b| > s.room {
          assert (a + b)[..s.room] == a + b[..s.room - |a|];
          assert s.out + a + b[..s.room - |a|] == s.out + (a + b)[..s.room];
        }
      } else {
        assert (a + b)[..s.room] == a[..s.room];
      }
    }
  }

  lemma EmitNothing(s: Stream)
    ensures Emit(s, []) == s
  {
    assert s.out + [] == s.out;
  }
}
