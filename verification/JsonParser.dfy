/**
 A strict recursive-descent parser for RFC 8259 text (sections 2 to 7) over bytes, written without
 reference to the printer, and the proof that it recovers every printed value.
 */
module JsonParser {
  import opened JsonText

  datatype Parsed<T> = Good(value: T, rest: string) | Bad

  /** Space, tab, line feed and carriage return may surround any token (section 2). */
  predicate Blank(c: char) {
    c == ' ' || c == '\t' || c == '\n' || c == '\r'
  }

  function Skip(t: string): (r: string)
    ensures |r| <= |t|
  {
    if t != [] && Blank(t[0]) then Skip(t[1..]) else t
  }

  predicate Digit(c: char) {
    '0' <= c <= '9'
  }

  function HexValue(c: char): (r: int)
    ensures r < 16
  {
    if '0' <= c <= '9' then c as int - '0' as int
    else if 'a' <= c <= 'f' then c as int - 'a' as int + 10
    else if 'A' <= c <= 'F' then c as int - 'A' as int + 10
    else -1
  }

  /** The character after a backslash; a \u escape must name a single byte. */
  function ParseEscape(t: string): (r: Parsed<char>)
    ensures r.Good? ==> |r.rest| < |t|
  {
    if t == [] then Bad
    else match t[0]
      case '"' => Good('"', t[1..])
      case '\\' => Good('\\', t[1..])
      case '/' => Good('/', t[1..])
      case 'b' => Good(8 as char, t[1..])
      case 'f' => Good(12 as char, t[1..])
      case 'n' => Good('\n', t[1..])
      case 'r' => Good('\r', t[1..])
      case 't' => Good('\t', t[1..])
      case 'u' => ParseUnicode(t[1..])
      case _ => Bad
  }

  function ParseUnicode(t: string): (r: Parsed<char>)
    ensures r.Good? ==> |r.rest| <= |t|
  {
    if |t| < 4 || (exists i :: 0 <= i < 4 && HexValue(t[i]) < 0) then Bad
    else
      var code := HexValue(t[0]) * 4096 + HexValue(t[1]) * 256 + HexValue(t[2]) * 16 + HexValue(t[3]);
      if code < 128 then Good(code as char, t[4..]) else Bad
  }

  /** The rest of a string after its opening quote (section 7). */
  function ParseString(t: string): (r: Parsed<string>)
    ensures r.Good? ==> |r.rest| < |t|
  {
    if t == [] || t[0] < ' ' then Bad
    else if t[0] == '"' then Good([], t[1..])
    else if t[0] == '\\' then
      match ParseEscape(t[1..])
      case Bad => Bad
      case Good(c, u) => Prepend(c, ParseString(u))
    else Prepend(t[0], ParseString(t[1..]))
  }

  function Prepend<T>(x: T, p: Parsed<seq<T>>): Parsed<seq<T>> {
    if p.Good? then Good([x] + p.value, p.rest) else Bad
  }

  function ParseDigits(t: string, acc: nat): (r: Parsed<nat>)
    ensures r.Good? && |r.rest| <= |t|
  {
    if t != [] && Digit(t[0]) then ParseDigits(t[1..], acc * 10 + (t[0] as int - '0' as int)) else Good(acc, t)
  }

  /** An integer without leading zeros, not followed by a fraction or exponent (section 6). */
  function ParseNatural(t: string): (r: Parsed<nat>)
    ensures r.Good? ==> |r.rest| < |t|
  {
    if t == [] || !Digit(t[0]) then Bad
    else
      var r := if t[0] == '0' then Good(0, t[1..]) else ParseDigits(t[1..], t[0] as int - '0' as int);
      if r.rest != [] && r.rest[0] in {'.', 'e', 'E'} then Bad else r
  }

  function ParseValue(t: string): (r: Parsed<Json>)
    ensures r.Good? ==> |r.rest| < |t|
    decreases |t|, 1
  {
    var u := Skip(t);
    if u == [] then Bad
    else match u[0]
      case '"' =>
        var p := ParseString(u[1..]);
        if p.Good? then Good(Str(p.value), p.rest) else Bad
      case '[' =>
        var w := Skip(u[1..]);
        if w != [] && w[0] == ']' then Good(Arr([]), w[1..])
        else
          var p := ParseElements(u[1..]);
          if p.Good? then Good(Arr(p.value), p.rest) else Bad
      case '{' =>
        var w := Skip(u[1..]);
        if w != [] && w[0] == '}' then Good(Obj([]), w[1..])
        else
          var p := ParseMembers(u[1..]);
          if p.Good? then Good(Obj(p.value), p.rest) else Bad
      case '-' =>
        var p := ParseNatural(u[1..]);
        if p.Good? then Good(Num(0 - p.value), p.rest) else Bad
      case _ =>
        if Digit(u[0]) then
          var p := ParseNatural(u);
          if p.Good? then Good(Num(p.value), p.rest) else Bad
        else if "null" <= u then Good(Null, u[4..])
        else if "true" <= u then Good(Bool(true), u[4..])
        else if "false" <= u then Good(Bool(false), u[5..])
        else Bad
  }

  /** One or more values separated by commas, and the closing bracket (section 5). */
  function ParseElements(t: string): (r: Parsed<seq<Json>>)
    ensures r.Good? ==> |r.rest| < |t|
    decreases |t|, 2
  {
    match ParseValue(t)
    case Bad => Bad
    case Good(v, u) =>
      var w := Skip(u);
      if w == [] then Bad
      else if w[0] == ']' then Good([v], w[1..])
      else if w[0] == ',' then Prepend(v, ParseElements(w[1..]))
      else Bad
  }

  /** One or more members separated by commas, and the closing brace (section 4). */
  function ParseMembers(t: string): (r: Parsed<seq<Field>>)
    ensures r.Good? ==> |r.rest| < |t|
    decreases |t|, 2
  {
    match ParseMember(t)
    case Bad => Bad
    case Good(f, u) =>
      var w := Skip(u);
      if w == [] then Bad
      else if w[0] == '}' then Good([f], w[1..])
      else if w[0] == ',' then Prepend(f, ParseMembers(w[1..]))
      else Bad
  }

  function ParseMember(t: string): (r: Parsed<Field>)
    ensures r.Good? ==> |r.rest| < |t|
    decreases |t|, 1
  {
    var u := Skip(t);
    if u == [] || u[0] != '"' then Bad
    else match ParseString(u[1..])
      case Bad => Bad
      case Good(name, w) =>
        var x := Skip(w);
        if x == [] || x[0] != ':' then Bad
        else match ParseValue(x[1..])
          case Bad => Bad
          case Good(v, y) => Good(Field(name, v), y)
  }

  /** A whole text: one value and nothing else but blanks. */
  function Parse(t: string): Parsed<Json> {
    var p := ParseValue(t);
    if p.Good? && Skip(p.rest) == [] then Good(p.value, []) else Bad
  }

  // ---- round trip: strings and numbers ---------------------------------------------------

  lemma HexRoundTrip(k: nat)
    requires k < 16
    ensures HexValue(HEX[k]) == k
  {
  }

  lemma UnicodeRoundTrip(c: char, rest: string)
    requires c < ' '
    ensures ParseUnicode(['0', '0', HEX[c as int / 16], HEX[c as int % 16]] + rest) == Good(c, rest)
  {
    var t := ['0', '0', HEX[c as int / 16], HEX[c as int % 16]] + rest;
    HexRoundTrip(c as int / 16);
    HexRoundTrip(c as int % 16);
    assert t[4..] == rest;
  }

  /** One escaped byte is read back as that byte. */
  lemma EscapeRoundTrip(c: char, rest: string)
    ensures ParseString(Escape(c) + rest) == Prepend(c, ParseString(rest))
  {
    hide ParseUnicode;
    var t := Escape(c) + rest;
    if c == '"' || c == '\\' {
      assert t[1..] == [c] + rest && t[1..][1..] == rest;
    } else if c < ' ' {
      var code := ['0', '0', HEX[c as int / 16], HEX[c as int % 16]] + rest;
      assert t[1..][1..] == code;
      UnicodeRoundTrip(c, rest);
      assert ParseEscape(t[1..]) == Good(c, rest);
    } else {
      assert t[1..] == rest;
    }
  }

  lemma {:induction false} StringRoundTrip(s: string, rest: string)
    ensures ParseString(Escaped(s) + ['"'] + rest) == Good(s, rest)
  {
    var t := Escaped(s) + ['"'] + rest;
    if s == [] {
      assert t == ['"'] + rest && t[1..] == rest;
    } else {
      hide ParseString, Escape;
      StringRoundTrip(s[1..], rest);
      var u := Escaped(s[1..]) + ['"'] + rest;
      assert t == Escape(s[0]) + u;
      EscapeRoundTrip(s[0], u);
      assert [s[0]] + s[1..] == s;
    }
  }

  lemma {:induction false} DigitsAreDigits(n: nat)
    ensures forall i :: 0 <= i < |Digits(n)| ==> Digit(Digits(n)[i])
    ensures Digits(n)[0] == '0' <==> n == 0
  {
    if n >= 10 {
      DigitsAreDigits(n / 10);
    }
  }

  /** Reading the digits of n leaves n in the accumulator, whatever follows. */
  lemma {:induction false} DigitsRoundTrip(n: nat, rest: string)
    ensures ParseDigits(Digits(n) + rest, 0) == ParseDigits(rest, n)
  {
    hide ParseDigits;
    var d := [HEX[n % 10]];
    if n < 10 {
      DigitStep(n, 0, rest);
    } else {
      DigitsRoundTrip(n / 10, d + rest);
      assert Digits(n) + rest == Digits(n / 10) + (d + rest);
      DigitStep(n % 10, n / 10, rest);
      assert n / 10 * 10 + n % 10 == n;
    }
  }

  lemma DigitStep(k: nat, acc: nat, rest: string)
    requires k < 10
    ensures ParseDigits([HEX[k]] + rest, acc) == ParseDigits(rest, acc * 10 + k)
  {
    var t := [HEX[k]] + rest;
    assert t[1..] == rest;
    assert Digit(t[0]) && t[0] as int - '0' as int == k;
  }

  /** What may follow a value without changing how it is read. */
  predicate Ends(rest: string) {
    rest == [] || !(Digit(rest[0]) || rest[0] in {'.', 'e', 'E'})
  }

  lemma NaturalRoundTrip(n: nat, rest: string)
    requires Ends(rest)
    ensures ParseNatural(Digits(n) + rest) == Good(n, rest)
  {
    hide Digits;
    var t := Digits(n) + rest;
    DigitsAreDigits(n);
    DigitsRoundTrip(n, rest);
    assert t[0] == Digits(n)[0];
    if n == 0 {
      ZeroText();
      assert t[1..] == rest;
    } else {
      assert ParseDigits(t, 0) == ParseDigits(t[1..], t[0] as int - '0' as int);
    }
  }

  lemma ZeroText()
    ensures Digits(0) == "0"
  {
  }

  // ---- round trip: values ------------------------------------------------------------------

  /** A printed value starts with neither a blank nor a closing bracket. */
  lemma PrintStarts(v: Json)
    ensures Print(v) != []
    ensures !Blank(Print(v)[0]) && Print(v)[0] != ']' && Print(v)[0] != '}'
  {
    hide Digits, Join, ItemTexts, FieldTexts, Escaped;
    if v.Num? {
      DigitsAreDigits(if v.n < 0 then -v.n else v.n);
    }
  }

  lemma NumberRoundTrip(n: int, rest: string)
    requires Ends(rest)
    ensures ParseValue(Decimal(n) + rest) == Good(Num(n), rest)
  {
    hide Digits, ParseNatural, ParseElements, ParseMembers, ParseString;
    var t := Decimal(n) + rest;
    var m := if n < 0 then -n else n;
    DigitsAreDigits(m);
    NaturalRoundTrip(m, rest);
    if n < 0 {
      assert t[1..] == Digits(m) + rest;
    }
  }

  lemma QuoteRoundTrip(s: string, rest: string)
    ensures ParseValue(Quote(s) + rest) == Good(Str(s), rest)
  {
    hide Escaped, ParseString, ParseNatural, ParseElements, ParseMembers;
    var t := Quote(s) + rest;
    StringRoundTrip(s, rest);
    assert t[1..] == Escaped(s) + ['"'] + rest;
  }

  lemma WordRoundTrip(v: Json, rest: string)
    requires v.Null? || v.Bool?
    ensures ParseValue(Print(v) + rest) == Good(v, rest)
  {
    hide ParseString, ParseNatural, ParseElements, ParseMembers;
    var t := Print(v) + rest;
    assert Print(v) <= t && t[|Print(v)|..] == rest;
    assert t[0] == Print(v)[0];
  }

  /** Printed text, read by the parser, is the value it was printed from. */
  lemma {:induction false} PrintParse(v: Json, rest: string)
    requires Ends(rest)
    ensures ParseValue(Print(v) + rest) == Good(v, rest)
    decreases v, 1
  {
    hide *;
    match v
    case Null => WordRoundTrip(v, rest);
    case Bool(_) => WordRoundTrip(v, rest);
    case Num(n) => PrintOf(v); NumberRoundTrip(n, rest);
    case Str(s) => PrintOf(v); QuoteRoundTrip(s, rest);
    case Arr(items) =>
      if items != [] {
        ItemsParse(items, rest);
      }
      ArrayRoundTrip(items, rest);
    case Obj(fields) =>
      if fields != [] {
        FieldsParse(fields, rest);
      }
      ObjectRoundTrip(fields, rest);
  }

  lemma PrintOf(v: Json)
    ensures v.Num? ==> Print(v) == Decimal(v.n)
    ensures v.Str? ==> Print(v) == Quote(v.s)
  {
  }

  lemma JoinStarts(texts: seq<string>, t: string)
    requires texts != [] && texts[0] == t && t != []
    ensures Join(texts) != [] && Join(texts)[0] == t[0]
  {
  }

  lemma ArrayRoundTrip(items: seq<Json>, rest: string)
    requires items != [] ==> ParseElements(Join(ItemTexts(items)) + ([']'] + rest)) == Good(items, rest)
    ensures ParseValue(Print(Arr(items)) + rest) == Good(Arr(items), rest)
  {
    hide ParseElements, ParseString, ParseMembers, ParseNatural, Join;
    var t := Print(Arr(items)) + rest;
    var u := Join(ItemTexts(items)) + ([']'] + rest);
    assert t[0] == '[' && t[1..] == u;
    if items == [] {
      EmptyJoin();
      assert ItemTexts(items) == [];
      assert u == [']'] + rest && u[1..] == rest;
    } else {
      PrintStarts(items[0]);
      JoinStarts(ItemTexts(items), Print(items[0]));
      assert u[0] == Print(items[0])[0];
    }
  }

  lemma ObjectRoundTrip(fields: seq<Field>, rest: string)
    requires fields != [] ==> ParseMembers(Join(FieldTexts(fields)) + (['}'] + rest)) == Good(fields, rest)
    ensures ParseValue(Print(Obj(fields)) + rest) == Good(Obj(fields), rest)
  {
    hide ParseElements, ParseString, ParseMembers, ParseNatural, Join, Escaped, FieldTexts;
    var t := Print(Obj(fields)) + rest;
    var u := Join(FieldTexts(fields)) + (['}'] + rest);
    assert t[0] == '{' && t[1..] == u;
    if fields == [] {
      EmptyJoin();
      assert FieldTexts(fields) == [];
      assert u == ['}'] + rest && u[1..] == rest;
    } else {
      var text := PrintField(fields[0]);
      assert text[0] == '"';
      JoinStarts(FieldTexts(fields), text);
      assert u[0] == '"';
    }
  }

  lemma EmptyJoin()
    ensures Join([]) == []
  {
  }

  /** Splitting the first text off a join. */
  lemma JoinSplit(texts: seq<string>, tail: string)
    requires |texts| > 0
    ensures Join(texts) + tail == texts[0] + (if |texts| == 1 then tail else [','] + (Join(texts[1..]) + tail))
  {
  }

  lemma LastElement(t: string, v: Json, rest: string)
    requires ParseValue(t) == Good(v, [']'] + rest)
    ensures ParseElements(t) == Good([v], rest)
  {
    hide ParseValue;
    assert ([']'] + rest)[1..] == rest;
  }

  lemma NextElement(t: string, v: Json, more: string)
    requires ParseValue(t) == Good(v, [','] + more)
    ensures ParseElements(t) == Prepend(v, ParseElements(more))
  {
    hide ParseValue;
    assert ([','] + more)[1..] == more;
  }

  lemma LastMember(t: string, v: Field, rest: string)
    requires ParseMember(t) == Good(v, ['}'] + rest)
    ensures ParseMembers(t) == Good([v], rest)
  {
    hide ParseMember;
    assert (['}'] + rest)[1..] == rest;
  }

  lemma NextMember(t: string, v: Field, more: string)
    requires ParseMember(t) == Good(v, [','] + more)
    ensures ParseMembers(t) == Prepend(v, ParseMembers(more))
  {
    hide ParseMember;
    assert ([','] + more)[1..] == more;
  }

  lemma ItemTextsSplit(items: seq<Json>)
    requires items != []
    ensures |ItemTexts(items)| == |items|
    ensures ItemTexts(items)[0] == Print(items[0]) && ItemTexts(items)[1..] == ItemTexts(items[1..])
  {
    hide Print;
  }

  lemma FieldTextsSplit(fields: seq<Field>)
    requires fields != []
    ensures |FieldTexts(fields)| == |fields|
    ensures FieldTexts(fields)[0] == PrintField(fields[0]) && FieldTexts(fields)[1..] == FieldTexts(fields[1..])
  {
    hide PrintField;
  }

  lemma {:induction false} ItemsParse(items: seq<Json>, rest: string)
    requires items != []
    ensures ParseElements(Join(ItemTexts(items)) + ([']'] + rest)) == Good(items, rest)
    decreases items, 0
  {
    hide Join, Print, ItemTexts, ParseValue, ParseElements;
    var texts := ItemTexts(items);
    ItemTextsSplit(items);
    var tail := [']'] + rest;
    JoinSplit(texts, tail);
    if |items| == 1 {
      assert items == [items[0]];
      PrintParse(items[0], tail);
      LastElement(Print(items[0]) + tail, items[0], rest);
    } else {
      var more := Join(ItemTexts(items[1..])) + tail;
      PrintParse(items[0], [','] + more);
      NextElement(Print(items[0]) + ([','] + more), items[0], more);
      ItemsParse(items[1..], rest);
      assert [items[0]] + items[1..] == items;
    }
  }

  lemma MemberParse(f: Field, rest: string)
    requires ParseValue(Print(f.value) + rest) == Good(f.value, rest)
    ensures ParseMember(PrintField(f) + rest) == Good(f, rest)
  {
    hide *;
    var body := Print(f.value) + rest;
    FieldSplit(f, rest);
    StringRoundTrip(f.name, [':'] + body);
    MemberStep(Escaped(f.name) + ['"'] + ([':'] + body), f.name, body);
  }

  lemma FieldSplit(f: Field, rest: string)
    ensures PrintField(f) + rest == ['"'] + (Escaped(f.name) + ['"'] + ([':'] + (Print(f.value) + rest)))
  {
    hide Print, Escaped;
  }

  lemma MemberStep(t: string, name: string, body: string)
    requires ParseString(t) == Good(name, [':'] + body)
    ensures ParseMember(['"'] + t) ==
            match ParseValue(body) case Bad => Bad case Good(v, rest) => Good(Field(name, v), rest)
  {
    hide ParseString, ParseValue;
    assert (['"'] + t)[1..] == t && ([':'] + body)[1..] == body;
  }

  lemma {:induction false} FieldsParse(fields: seq<Field>, rest: string)
    requires fields != []
    ensures ParseMembers(Join(FieldTexts(fields)) + (['}'] + rest)) == Good(fields, rest)
    decreases fields, 0
  {
    hide Join, PrintField, FieldTexts, Print, ParseValue, ParseMember, ParseMembers;
    var texts := FieldTexts(fields);
    FieldTextsSplit(fields);
    var tail := ['}'] + rest;
    JoinSplit(texts, tail);
    if |fields| == 1 {
      assert fields == [fields[0]];
      PrintParse(fields[0].value, tail);
      MemberParse(fields[0], tail);
      LastMember(PrintField(fields[0]) + tail, fields[0], rest);
    } else {
      var more := Join(FieldTexts(fields[1..])) + tail;
      PrintParse(fields[0].value, [','] + more);
      MemberParse(fields[0], [','] + more);
      NextMember(PrintField(fields[0]) + ([','] + more), fields[0], more);
      FieldsParse(fields[1..], rest);
      assert [fields[0]] + fields[1..] == fields;
    }
  }

  /** The whole text of a value parses to exactly that value. */
  lemma RoundTrip(v: Json)
    ensures Parse(Print(v)) == Good(v, [])
  {
    hide ParseValue, Print;
    PrintParse(v, []);
    assert Print(v) + [] == Print(v);
  }

  /** So no two values have the same text. */
  lemma PrintInjective(v: Json, v': Json)
    requires Print(v) == Print(v')
    ensures v == v'
  {
    RoundTrip(v);
    RoundTrip(v');
  }
}
