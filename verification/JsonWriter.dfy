/** The streaming writer: a stack of first-item flags, a depth, and an output stream. */
module JsonWriter {
  import opened JsonText

  const MAX_DEPTH: nat := 32
  const SIZE_MAX: nat := 0xffff_ffff_ffff_ffff
  const I64_MIN: int := -0x8000_0000_0000_0000
  const U64_MAX: int := 0xffff_ffff_ffff_ffff

  /** A C string argument: what precedes its terminator, at most max bytes of it. */
  function Visible(value: string, max: nat): string {
    if value == [] || max == 0 || value[0] == '\0' then [] else [value[0]] + Visible(value[1..], max - 1)
  }

  function Label(name: string): string {
    Quote(Visible(name, SIZE_MAX)) + [':']
  }

  /** The digits of n in base 16, at least width of them. */
  function HexDigits(n: nat, width: nat): string
    decreases n, width
  {
    if n < 16 then (if width <= 1 then [HEX[n]] else Zeros(width - 1) + [HEX[n]])
    else HexDigits(n / 16, if width == 0 then 0 else width - 1) + [HEX[n % 16]]
  }

  function Zeros(k: nat): string {
    seq(k, _ => '0')
  }

  /** What a kernel address is shown as: sixteen hexadecimal digits, and null for zero. */
  function Pointer(value: nat): Json {
    if value == 0 then Null else Str("0x" + HexDigits(value, 16))
  }

  /** What the writer can be given: C strings, and numbers of 64 bits. */
  predicate Writable(v: Json)
    decreases v, 1
  {
    match v
    case Num(n) => I64_MIN <= n <= U64_MAX
    case Str(s) => CString(s)
    case Arr(items) => forall i :: 0 <= i < |items| ==> Writable(items[i])
    case Obj(fields) => forall i :: 0 <= i < |fields| ==> CString(fields[i].name) && Writable(fields[i].value)
    case _ => true
  }

  predicate CString(s: string) {
    '\0' !in s && |s| <= SIZE_MAX
  }

  // ---- the writer's state --------------------------------------------------------------

  /** The stream, the number of open containers, and a flag for each level. */
  datatype State = State(s: Stream, depth: nat, first: seq<bool>)

  predicate Nested(st: State) {
    st.depth <= MAX_DEPTH && |st.first| == MAX_DEPTH
  }

  /** A comma is due: the current container already holds an item. */
  predicate CommaDue(st: State)
    requires Nested(st)
  {
    st.depth > 0 && !st.first[st.depth - 1]
  }

  /** The separator that must precede the next item. */
  function Lead(st: State): string
    requires Nested(st)
  {
    if CommaDue(st) then [','] else []
  }

  /** The flags of the levels below level d agree. */
  predicate SameBelow(st: State, st': State, d: nat)
    requires Nested(st) && Nested(st')
  {
    forall i :: 0 <= i < d && i < MAX_DEPTH ==> st.first[i] == st'.first[i]
  }

  /** An item was added to the current container; the containers around it are as they were. */
  predicate Added(st: State, st': State, text: string)
    requires Nested(st)
  {
    && Nested(st') && st'.s == Emit(st.s, text) && st'.depth == st.depth
    && (st.depth > 0 ==> SameBelow(st, st', st.depth - 1) && !st'.first[st.depth - 1])
  }

  /** As many bytes of text as fit were written, nothing else changed. */
  predicate Put(st: State, st': State, text: string) {
    st' == st.(s := Emit(st.s, text))
  }

  /** Text was written and an empty container opened, or there was no level left for it. */
  predicate Opened(st: State, st': State, text: string)
    requires Nested(st)
  {
    && Nested(st')
    && (st.depth < MAX_DEPTH ==>
          && st'.s == Emit(st.s, text) && st'.depth == st.depth + 1 && st'.first[st.depth]
          && (st.depth > 0 ==> SameBelow(st, st', st.depth - 1) && !st'.first[st.depth - 1]))
    && (st.depth == MAX_DEPTH ==> st'.s == Emit(st.s, text).(error := true) && st'.depth == MAX_DEPTH)
  }

  predicate Closed(st: State, st': State, text: string) {
    st' == st.(s := Emit(st.s, text), depth := if st.depth > 0 then st.depth - 1 else 0)
  }

  class Writer {
    var out: string
    var room: nat
    var error: bool
    var depth: nat
    const first: array<bool>

    /** A writer on a stream that accepts room more bytes before it fails. */
    constructor (room: nat)
      ensures fresh(first) && Valid()
      ensures St().s == Stream([], room, false) && St().depth == 0
    {
      out, this.room, error, depth := [], room, false, 0;
      first := new bool[MAX_DEPTH](_ => false);
    }

    ghost function St(): State
      reads this, first
    {
      State(Stream(out, room, error), depth, first[..])
    }

    ghost predicate Valid()
      reads this, first
    {
      Nested(St())
    }

    predicate Ok()
      reads this
    {
      !error
    }

    // ---- bytes -------------------------------------------------------------------------

    method Putc(c: char)
      modifies this`out, this`room, this`error
      ensures Put(old(St()), St(), [c])
    {
      if error {
        return;
      }
      if room == 0 {
        error := true;
        assert [c][..0] == [] && out + [] == out;
      } else {
        out, room := out + [c], room - 1;
      }
    }

    method Puts(text: string)
      modifies this`out, this`room, this`error
      ensures Put(old(St()), St(), text)
    {
      if error {
        return;
      }
      if |text| <= room {
        out, room := out + text, room - |text|;
      } else {
        out, room, error := out + text[..room], 0, true;
      }
    }

    /** The separator before an item; the container is no longer empty afterwards. */
    method Comma()
      requires Valid()
      modifies this`out, this`room, this`error, first
      ensures Added(old(St()), St(), Lead(old(St())))
    {
      EmitNothing(St().s);
      if depth == 0 {
        return;
      }
      if first[depth - 1] {
        first[depth - 1] := false;
      } else {
        Putc(',');
      }
    }

    /** One byte of a string: quotes, backslashes and control bytes need an escape. */
    method PutByte(c: char)
      modifies this`out, this`room, this`error
      ensures Put(old(St()), St(), Escape(c))
    {
      hide Emit;
      if c == '"' || c == '\\' {
        EmitJoin(St().s, ['\\'], [c]);
        assert ['\\'] + [c] == ['\\', c];
        Putc('\\');
        Putc(c);
      } else if c < ' ' {
        Puts(['\\', 'u', '0', '0', HEX[c as int / 16], HEX[c as int % 16]]);
      } else {
        Putc(c);
      }
    }

    /** Quoted and escaped, up to the terminator or max bytes. */
    method PutEscaped(value: string, max: nat)
      modifies this`out, this`room, this`error
      ensures Put(old(St()), St(), Quote(Visible(value, max)))
    {
      hide Emit, Escape, Escaped, Visible;
      ghost var start := St();
      Putc('"');
      var i := 0;
      ghost var done := ['"'];
      assert value[0..] == value;
      while i < max && i < |value| && value[i] != '\0'
        invariant 0 <= i <= |value| && i <= max
        invariant Put(start, St(), done)
        invariant done + Escaped(Visible(value[i..], max - i)) == ['"'] + Escaped(Visible(value, max))
      {
        EmitJoin(start.s, done, Escape(value[i]));
        StepVisible(value[i..], max - i, done);
        assert value[i..][1..] == value[i + 1..];
        done := done + Escape(value[i]);
        PutByte(value[i]);
        i := i + 1;
      }
      NothingVisible(value[i..], max - i, done);
      EmitJoin(start.s, done, ['"']);
      Putc('"');
    }

    method Name(name: string)
      modifies this`out, this`room, this`error
      ensures Put(old(St()), St(), Label(name))
    {
      hide Emit, Quote, Visible;
      EmitJoin(St().s, Quote(Visible(name, SIZE_MAX)), [':']);
      PutEscaped(name, SIZE_MAX);
      Putc(':');
    }

    method CommaName(name: string)
      requires Valid()
      modifies this`out, this`room, this`error, first
      ensures Added(old(St()), St(), Lead(old(St())) + Label(name))
    {
      hide Emit, Label, Lead;
      EmitJoin(St().s, Lead(St()), Label(name));
      Comma();
      Name(name);
    }

    // ---- containers --------------------------------------------------------------------

    /** One more level with nothing in it, or an error at the limit. */
    method Push()
      requires Valid()
      modifies this`error, this`depth, first
      ensures St() == if old(depth) < MAX_DEPTH
                      then old(St()).(depth := old(depth) + 1, first := old(first[..])[old(depth) := true])
                      else old(St()).(s := old(St()).s.(error := true))
    {
      if depth < MAX_DEPTH {
        first[depth] := true;
        depth := depth + 1;
      } else {
        error := true;
      }
    }

    method ObjectBegin()
      requires Valid()
      modifies this`out, this`room, this`error, this`depth, first
      ensures Opened(old(St()), St(), Lead(old(St())) + ['{'])
    {
      hide Emit, Lead;
      EmitJoin(St().s, Lead(St()), ['{']);
      Comma();
      Putc('{');
      Push();
    }

    method ObjectBeginField(name: string)
      requires Valid()
      modifies this`out, this`room, this`error, this`depth, first
      ensures Opened(old(St()), St(), Lead(old(St())) + Label(name) + ['{'])
    {
      hide Emit, Lead, Label;
      EmitJoin(St().s, Lead(St()) + Label(name), ['{']);
      CommaName(name);
      Putc('{');
      Push();
    }

    method ObjectEnd()
      requires Valid()
      modifies this`out, this`room, this`error, this`depth
      ensures Closed(old(St()), St(), ['}'])
    {
      Putc('}');
      if depth > 0 {
        depth := depth - 1;
      }
    }

    method ArrayBegin()
      requires Valid()
      modifies this`out, this`room, this`error, this`depth, first
      ensures Opened(old(St()), St(), Lead(old(St())) + ['['])
    {
      hide Emit, Lead;
      EmitJoin(St().s, Lead(St()), ['[']);
      Comma();
      Putc('[');
      Push();
    }

    method ArrayBeginField(name: string)
      requires Valid()
      modifies this`out, this`room, this`error, this`depth, first
      ensures Opened(old(St()), St(), Lead(old(St())) + Label(name) + ['['])
    {
      hide Emit, Lead, Label;
      EmitJoin(St().s, Lead(St()) + Label(name), ['[']);
      CommaName(name);
      Putc('[');
      Push();
    }

    method ArrayEnd()
      requires Valid()
      modifies this`out, this`room, this`error, this`depth
      ensures Closed(old(St()), St(), [']'])
    {
      Putc(']');
      if depth > 0 {
        depth := depth - 1;
      }
    }

    // ---- scalars -----------------------------------------------------------------------

    /** A member whose text is formatted first. */
    method PlainField(name: string, text: string)
      requires Valid()
      modifies this`out, this`room, this`error, first
      ensures Added(old(St()), St(), Lead(old(St())) + Label(name) + text)
    {
      hide Emit, Lead, Label;
      EmitJoin(St().s, Lead(St()) + Label(name), text);
      CommaName(name);
      Puts(text);
    }

    method PlainValue(text: string)
      requires Valid()
      modifies this`out, this`room, this`error, first
      ensures Added(old(St()), St(), Lead(old(St())) + text)
    {
      hide Emit, Lead;
      EmitJoin(St().s, Lead(St()), text);
      Comma();
      Puts(text);
    }

    method StringField(name: string, value: string, max: nat)
      requires Valid()
      modifies this`out, this`room, this`error, first
      ensures Added(old(St()), St(), Lead(old(St())) + Label(name) + Quote(Visible(value, max)))
    {
      hide Emit, Lead, Label, Quote, Visible;
      EmitJoin(St().s, Lead(St()) + Label(name), Quote(Visible(value, max)));
      CommaName(name);
      PutEscaped(value, max);
    }

    method StringValue(value: string, max: nat)
      requires Valid()
      modifies this`out, this`room, this`error, first
      ensures Added(old(St()), St(), Lead(old(St())) + Quote(Visible(value, max)))
    {
      hide Emit, Lead, Quote, Visible;
      EmitJoin(St().s, Lead(St()), Quote(Visible(value, max)));
      Comma();
      PutEscaped(value, max);
    }

    /** Unsigned and signed integers print alike: the widths differ only in what fits. */
    method NumberField(name: string, value: int)
      requires Valid() && I64_MIN <= value <= U64_MAX
      modifies this`out, this`room, this`error, first
      ensures Added(old(St()), St(), Lead(old(St())) + Label(name) + Print(Num(value)))
    {
      hide Emit, Lead, Label, Added;
      PlainField(name, Decimal(value));
    }

    method BoolField(name: string, value: bool)
      requires Valid()
      modifies this`out, this`room, this`error, first
      ensures Added(old(St()), St(), Lead(old(St())) + Label(name) + Print(Bool(value)))
    {
      hide Emit, Lead, Label, Added;
      PlainField(name, if value then "true" else "false");
    }

    method NullField(name: string)
      requires Valid()
      modifies this`out, this`room, this`error, first
      ensures Added(old(St()), St(), Lead(old(St())) + Label(name) + Print(Null))
    {
      hide Emit, Lead, Label, Added;
      PlainField(name, "null");
    }

    method NumberValue(value: int)
      requires Valid() && I64_MIN <= value <= U64_MAX
      modifies this`out, this`room, this`error, first
      ensures Added(old(St()), St(), Lead(old(St())) + Print(Num(value)))
    {
      hide Emit, Lead, Label, Added;
      PlainValue(Decimal(value));
    }

    method BoolValue(value: bool)
      requires Valid()
      modifies this`out, this`room, this`error, first
      ensures Added(old(St()), St(), Lead(old(St())) + Print(Bool(value)))
    {
      hide Emit, Lead, Label, Added;
      PlainValue(if value then "true" else "false");
    }

    method NullValue()
      requires Valid()
      modifies this`out, this`room, this`error, first
      ensures Added(old(St()), St(), Lead(old(St())) + Print(Null))
    {
      hide Emit, Lead, Label, Added;
      PlainValue("null");
    }

    /** A hexadecimal member, without leading zeros. */
    method HexField(name: string, value: nat)
      requires Valid() && value <= U64_MAX
      modifies this`out, this`room, this`error, first
      ensures Added(old(St()), St(), Lead(old(St())) + Label(name) + Print(Str("0x" + HexDigits(value, 1))))
    {
      hide Emit, Lead, Label, HexDigits;
      HexText(value, 1);
      PlainField(name, ['"', '0', 'x'] + HexDigits(value, 1) + ['"']);
    }

    /** An address: sixteen digits, or null for zero. */
    method PtrField(name: string, value: nat)
      requires Valid() && value <= U64_MAX
      modifies this`out, this`room, this`error, first
      ensures Added(old(St()), St(), Lead(old(St())) + Label(name) + Print(Pointer(value)))
    {
      hide Emit, Lead, Label, HexDigits;
      if value != 0 {
        HexText(value, 16);
        PlainField(name, ['"', '0', 'x'] + HexDigits(value, 16) + ['"']);
      } else {
        PlainField(name, "null");
      }
    }

    method Newline()
      modifies this`out, this`room, this`error
      ensures Put(old(St()), St(), ['\n'])
    {
      Putc('\n');
    }
  }

  lemma StepVisible(value: string, max: nat, done: string)
    requires max > 0 && value != [] && value[0] != '\0'
    ensures done + Escape(value[0]) + Escaped(Visible(value[1..], max - 1)) == done + Escaped(Visible(value, max))
  {
    var v := Visible(value, max);
    assert v[0] == value[0] && v[1..] == Visible(value[1..], max - 1);
  }

  lemma NothingVisible(value: string, max: nat, done: string)
    requires max == 0 || value == [] || value[0] == '\0'
    ensures done + Escaped(Visible(value, max)) == done
  {
  }

  /** Hexadecimal digits need no escape. */
  lemma {:induction false} HexPlain(n: nat, width: nat)
    ensures forall i :: 0 <= i < |HexDigits(n, width)| ==> HexDigits(n, width)[i] in HEX
    decreases n, width
  {
    if n >= 16 {
      HexPlain(n / 16, if width == 0 then 0 else width - 1);
    }
  }

  lemma {:induction false} PlainEscaped(s: string)
    requires forall i :: 0 <= i < |s| ==> Escape(s[i]) == [s[i]]
    ensures Escaped(s) == s
  {
    if s != [] {
      PlainEscaped(s[1..]);
    }
  }

  lemma HexText(value: nat, width: nat)
    ensures Print(Str("0x" + HexDigits(value, width))) == ['"', '0', 'x'] + HexDigits(value, width) + ['"']
  {
    hide HexDigits, Escaped, Escape;
    var digits := HexDigits(value, width);
    var text := "0x" + digits;
    HexPlain(value, width);
    forall i | 0 <= i < |text|
      ensures Escape(text[i]) == [text[i]]
    {
      assert i >= 2 ==> text[i] == digits[i - 2];
      HexNeedsNoEscape(text[i]);
    }
    PlainEscaped(text);
    assert ['"'] + text + ['"'] == ['"', '0', 'x'] + digits + ['"'];
  }

  lemma HexNeedsNoEscape(c: char)
    ensures c in HEX || c == 'x' ==> Escape(c) == [c]
  {
  }
}
