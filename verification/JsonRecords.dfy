/** Driving the writer over whole values and over streams of newline-ended records. */
module JsonRecords {
  import opened JsonText
  import opened JsonWriter
  import opened JsonParser

  /**
   Where the nesting stands after something of height h: inside the 32 levels, where it was; beyond them,
   lower than that, because every close counts and not every open did; but never below the top level.
   */
  predicate Sinks(st: State, st': State, h: nat) {
    && st'.depth <= st.depth
    && (st.depth + h > MAX_DEPTH && st.depth > 0 ==> st'.depth < st.depth)
  }

  /** What came out is part of the text, from its start. */
  predicate Within(s: Stream, s': Stream, text: string) {
    s.out <= s'.out && s'.out <= s.out + text
  }

  /**
   What writing a value of height h with reference text does: inside the 32 levels exactly the text is
   added and the nesting is restored; beyond them the error flag is up, after a part of the text; and a
   writer already in error writes nothing.
   */
  predicate Wrote(st: State, st': State, h: nat, text: string)
    requires Nested(st)
  {
    && Nested(st')
    && Sinks(st, st', h) && Within(st.s, st'.s, text)
    && (st.depth + h <= MAX_DEPTH ==> Added(st, st', text))
    && (st.depth + h > MAX_DEPTH ==> st'.s.error)
    && (st.s.error ==> st'.s == st.s)
  }

  /** The same for the contents of a container that was just opened. */
  predicate Filled(st: State, st': State, h: nat, text: string)
    requires Nested(st)
  {
    && Nested(st') && Sinks(st, st', h)
    && (st.s.error || (0 < st.depth && st.first[st.depth - 1]) ==> Within(st.s, st'.s, text))
    && (0 < st.depth && st.depth + h <= MAX_DEPTH && st.first[st.depth - 1] ==>
          && st'.s == Emit(st.s, text) && st'.depth == st.depth && SameBelow(st, st', st.depth - 1))
    && (st.depth + h > MAX_DEPTH ==> st'.s.error)
    && (st.s.error ==> st'.s == st.s)
  }

  // ---- the drivers ---------------------------------------------------------------------

  /** A value in value position: at the top level or as one element of an array. */
  method WriteValue(w: Writer, v: Json)
    requires w.Valid() && Writable(v)
    modifies w, w.first
    ensures w.Valid()
    ensures Wrote(old(w.St()), w.St(), Height(v), Lead(old(w.St())) + Print(v))
    decreases v, 1
  {
    hide Emit, Lead, Join, Quote, Decimal, Added, Opened, Closed, Filled, Wrote;
    ghost var st0 := w.St();
    match v
    case Null =>
      w.NullValue();
      AddedWrote(st0, w.St(), Lead(st0) + Print(v));
    case Bool(b) =>
      w.BoolValue(b);
      AddedWrote(st0, w.St(), Lead(st0) + Print(v));
    case Num(n) =>
      w.NumberValue(n);
      AddedWrote(st0, w.St(), Lead(st0) + Print(v));
    case Str(t) =>
      AllVisible(t, SIZE_MAX);
      w.StringValue(t, SIZE_MAX);
      AddedWrote(st0, w.St(), Lead(st0) + Print(v));
    case Arr(items) =>
      w.ArrayBegin();
      ghost var st1 := w.St();
      OpenedNested(st0, st1, Lead(st0) + ['[']);
      WriteItems(w, items);
      ghost var st2 := w.St();
      w.ArrayEnd();
      Container(st0, st1, st2, w.St(), ItemsHeight(items), Lead(st0), ['['], Join(ItemTexts(items)), [']']);
    case Obj(fields) =>
      w.ObjectBegin();
      ghost var st1 := w.St();
      OpenedNested(st0, st1, Lead(st0) + ['{']);
      WriteFields(w, fields);
      ghost var st2 := w.St();
      w.ObjectEnd();
      Container(st0, st1, st2, w.St(), FieldsHeight(fields), Lead(st0), ['{'], Join(FieldTexts(fields)), ['}']);
  }

  /** A named member of the object that is open. */
  method WriteField(w: Writer, f: Field)
    requires w.Valid() && CString(f.name) && Writable(f.value)
    modifies w, w.first
    ensures w.Valid()
    ensures Wrote(old(w.St()), w.St(), Height(f.value), Lead(old(w.St())) + PrintField(f))
    decreases f, 2
  {
    hide Emit, Lead, Join, Quote, Decimal, Added, Opened, Closed, Filled, Wrote, Label, PrintField;
    ghost var st0 := w.St();
    FieldText(Lead(st0), f);
    ghost var lead := Lead(st0) + Label(f.name);
    match f.value
    case Null =>
      w.NullField(f.name);
      AddedWrote(st0, w.St(), lead + Print(f.value));
    case Bool(b) =>
      w.BoolField(f.name, b);
      AddedWrote(st0, w.St(), lead + Print(f.value));
    case Num(n) =>
      w.NumberField(f.name, n);
      AddedWrote(st0, w.St(), lead + Print(f.value));
    case Str(t) =>
      AllVisible(t, SIZE_MAX);
      w.StringField(f.name, t, SIZE_MAX);
      AddedWrote(st0, w.St(), lead + Print(f.value));
    case Arr(items) =>
      w.ArrayBeginField(f.name);
      ghost var st1 := w.St();
      OpenedNested(st0, st1, lead + ['[']);
      WriteItems(w, items);
      ghost var st2 := w.St();
      w.ArrayEnd();
      Container(st0, st1, st2, w.St(), ItemsHeight(items), lead, ['['], Join(ItemTexts(items)), [']']);
    case Obj(fields) =>
      w.ObjectBeginField(f.name);
      ghost var st1 := w.St();
      OpenedNested(st0, st1, lead + ['{']);
      WriteFields(w, fields);
      ghost var st2 := w.St();
      w.ObjectEnd();
      Container(st0, st1, st2, w.St(), FieldsHeight(fields), lead, ['{'], Join(FieldTexts(fields)), ['}']);
  }

  method WriteItems(w: Writer, items: seq<Json>)
    requires w.Valid() && forall i :: 0 <= i < |items| ==> Writable(items[i])
    modifies w, w.first
    ensures w.Valid()
    ensures Filled(old(w.St()), w.St(), ItemsHeight(items), Join(ItemTexts(items)))
    decreases items, 0
  {
    hide Emit, Lead, Join, Wrote, Filling, Filled, Print, Height, ItemsHeight, ItemTexts, Writable;
    ghost var st, texts := w.St(), ItemTexts(items);
    ghost var heights := seq(|items|, i requires 0 <= i < |items| => Height(items[i]));
    FillingStarts(st, texts, heights);
    for i := 0 to |items|
      invariant Nested(w.St()) && Filling(st, w.St(), texts, heights, i)
    {
      ghost var before := w.St();
      WriteValue(w, items[i]);
      FillingStep(st, before, w.St(), texts, heights, i);
    }
    assert ItemsHeight(items) > 0 ==> ItemsHeight(items) in heights by {
      HighestItem(items);
      if ItemsHeight(items) > 0 {
        var k :| 0 <= k < |items| && Height(items[k]) == ItemsHeight(items);
        assert heights[k] == ItemsHeight(items);
      }
    }
    FillingEnds(st, w.St(), texts, heights, ItemsHeight(items));
  }

  method WriteFields(w: Writer, fields: seq<Field>)
    requires w.Valid() && forall i :: 0 <= i < |fields| ==> CString(fields[i].name) && Writable(fields[i].value)
    modifies w, w.first
    ensures w.Valid()
    ensures Filled(old(w.St()), w.St(), FieldsHeight(fields), Join(FieldTexts(fields)))
    decreases fields, 0
  {
    hide Emit, Lead, Join, Wrote, Filling, Filled, PrintField, Height, FieldsHeight, FieldTexts, Writable;
    ghost var st, texts := w.St(), FieldTexts(fields);
    ghost var heights := seq(|fields|, i requires 0 <= i < |fields| => Height(fields[i].value));
    FillingStarts(st, texts, heights);
    for i := 0 to |fields|
      invariant Nested(w.St()) && Filling(st, w.St(), texts, heights, i)
    {
      ghost var before := w.St();
      WriteField(w, fields[i]);
      FillingStep(st, before, w.St(), texts, heights, i);
    }
    assert FieldsHeight(fields) > 0 ==> FieldsHeight(fields) in heights by {
      HighestField(fields);
      if FieldsHeight(fields) > 0 {
        var k :| 0 <= k < |fields| && Height(fields[k].value) == FieldsHeight(fields);
        assert heights[k] == FieldsHeight(fields);
      }
    }
    FillingEnds(st, w.St(), texts, heights, FieldsHeight(fields));
  }

  // ---- why they work -------------------------------------------------------------------

  /** Where the loop over a container's items stands before item i. */
  ghost predicate Filling(st: State, now: State, texts: seq<string>, heights: seq<nat>, i: nat)
    requires Nested(st) && Nested(now) && |texts| == |heights| && i <= |texts|
  {
    && (st.s.error ==> now.s == st.s)
    && now.depth <= st.depth && (now.s.error || now.depth == st.depth)
    && (st.depth > 0 && (exists k :: 0 <= k < i && st.depth + heights[k] > MAX_DEPTH) ==> now.depth < st.depth)
    && ((exists k :: 0 <= k < i && st.depth + heights[k] > MAX_DEPTH) ==> now.s.error)
    && (0 < st.depth && st.first[st.depth - 1] && (forall k :: 0 <= k < i ==> st.depth + heights[k] <= MAX_DEPTH) ==>
          && now.s == Emit(st.s, Join(texts[..i])) && now.depth == st.depth
          && SameBelow(st, now, st.depth - 1) && now.first[st.depth - 1] == (i == 0))
    && (st.s.error || (0 < st.depth && st.first[st.depth - 1]) ==> Within(st.s, now.s, Join(texts[..i])))
  }

  lemma FillingStarts(st: State, texts: seq<string>, heights: seq<nat>)
    requires Nested(st) && |texts| == |heights|
    ensures Filling(st, st, texts, heights, 0)
  {
    EmitNothing(st.s);
  }

  lemma FillingStep(st: State, now: State, next: State, texts: seq<string>, heights: seq<nat>, i: nat)
    requires Nested(st) && Nested(now) && |texts| == |heights| && i < |texts|
    requires Filling(st, now, texts, heights, i)
    requires Wrote(now, next, heights[i], Lead(now) + texts[i])
    ensures Nested(next) && Filling(st, next, texts, heights, i + 1)
  {
    hide Emit, Join;
    EmitStuck(now.s, Lead(now) + texts[i]);
    if forall k :: 0 <= k < i + 1 ==> st.depth + heights[k] <= MAX_DEPTH {
      OneMore(st.s, texts, i);
    }
    if st.s.error || (0 < st.depth && st.first[st.depth - 1]) {
      JoinMore(texts, i);
      if now.s.error {
        assert next.s == now.s;
        WithinLonger(st.s, now.s, Join(texts[..i]), (if i > 0 then [','] else []) + texts[i]);
      } else {
        assert now.s == Emit(st.s, Join(texts[..i]));
        EmitWhole(st.s, Join(texts[..i]));
        WithinAfter(st.s, now.s, next.s, Join(texts[..i]), Lead(now) + texts[i]);
      }
    }
  }

  lemma JoinMore(texts: seq<string>, i: nat)
    requires i < |texts|
    ensures Join(texts[..i + 1]) == Join(texts[..i]) + ((if i > 0 then [','] else []) + texts[i])
  {
    hide Join;
    assert texts[..i + 1] == texts[..i] + [texts[i]];
    JoinSnoc(texts[..i], texts[i]);
    assert forall a: string, b: string, c: string :: a + b + c == a + (b + c);
  }

  lemma EmitWithin(s: Stream, text: string)
    ensures Within(s, Emit(s, text), text)
  {
    assert s.out + text[..if s.error then 0 else if |text| <= s.room then |text| else s.room] <= s.out + text;
  }

  lemma EmitWhole(s: Stream, text: string)
    ensures !Emit(s, text).error ==> Emit(s, text).out == s.out + text
  {
  }

  lemma WithinLonger(s: Stream, s': Stream, text: string, more: string)
    requires Within(s, s', text)
    ensures Within(s, s', text + more)
  {
    assert s.out + text <= s.out + (text + more);
  }

  lemma WithinAfter(s: Stream, s1: Stream, s2: Stream, text: string, more: string)
    requires s1.out == s.out + text && Within(s1, s2, more)
    ensures Within(s, s2, text + more)
  {
    assert s.out + text + more == s.out + (text + more);
  }

  lemma FillingEnds(st: State, now: State, texts: seq<string>, heights: seq<nat>, h: nat)
    requires Nested(st) && Nested(now) && |texts| == |heights|
    requires Filling(st, now, texts, heights, |texts|)
    requires forall k :: 0 <= k < |heights| ==> heights[k] <= h
    requires h > 0 ==> h in heights
    ensures Filled(st, now, h, Join(texts))
  {
    hide Emit, Join;
    assert texts[..|texts|] == texts;
    if st.depth + h > MAX_DEPTH {
      var k :| 0 <= k < |heights| && heights[k] == h;
      assert st.depth + heights[k] > MAX_DEPTH;
    }
  }

  lemma HighestItem(items: seq<Json>)
    ensures forall i :: 0 <= i < |items| ==> Height(items[i]) <= ItemsHeight(items)
    ensures ItemsHeight(items) > 0 ==> exists i :: 0 <= i < |items| && Height(items[i]) == ItemsHeight(items)
  {
  }

  lemma HighestField(fields: seq<Field>)
    ensures forall i :: 0 <= i < |fields| ==> Height(fields[i].value) <= FieldsHeight(fields)
    ensures FieldsHeight(fields) > 0 ==>
              exists i :: 0 <= i < |fields| && Height(fields[i].value) == FieldsHeight(fields)
  {
  }

  lemma AddedWrote(st: State, st': State, text: string)
    requires Nested(st) && Added(st, st', text)
    ensures Nested(st') && Wrote(st, st', 0, text)
  {
    hide Emit;
    EmitWithin(st.s, text);
    EmitStuck(st.s, text);
  }

  lemma OpenedNested(st: State, st': State, text: string)
    requires Nested(st) && Opened(st, st', text)
    ensures Nested(st')
  {
  }

  /** Opening, filling and closing a container is adding one item. */
  lemma Container(st0: State, st1: State, st2: State, st3: State, h: nat,
                  lead: string, open: string, body: string, close: string)
    requires Nested(st0) && Opened(st0, st1, lead + open)
    requires Filled(st1, st2, h, body) && Closed(st2, st3, close)
    ensures Nested(st3) && Wrote(st0, st3, 1 + h, lead + (open + body + close))
  {
    hide Emit, Within;
    EmitStuck(st0.s, lead + open);
    EmitStuck(st2.s, close);
    Enclosed(st0.s, lead, open, body, close);
    ContainerWithin(st0, st1, st2, st3, h, lead, open, body, close);
  }

  lemma ContainerWithin(st0: State, st1: State, st2: State, st3: State, h: nat,
                        lead: string, open: string, body: string, close: string)
    requires Nested(st0) && Opened(st0, st1, lead + open)
    requires Filled(st1, st2, h, body) && Closed(st2, st3, close)
    ensures Within(st0.s, st3.s, lead + (open + body + close))
  {
    hide Emit, Within;
    var whole := lead + (open + body + close);
    assert lead + open + body + close == whole && lead + open + (body + close) == whole;
    EmitWithin(st0.s, lead + open);
    EmitWhole(st0.s, lead + open);
    EmitStuck(st2.s, close);
    if st2.s.error {
      if st1.s.error {
        OutWithin(st0.s, Emit(st0.s, lead + open), st3.s, lead + open);
        WithinLonger(st0.s, st3.s, lead + open, body + close);
      } else {
        WithinAfter(st0.s, st1.s, st2.s, lead + open, body);
        WithinLonger(st0.s, st2.s, lead + open + body, close);
      }
    } else {
      Enclosed(st0.s, lead, open, body, close);
      EmitWithin(st0.s, whole);
    }
  }

  lemma OutWithin(s: Stream, s': Stream, s'': Stream, text: string)
    requires Within(s, s', text) && s''.out == s'.out
    ensures Within(s, s'', text)
  {
  }

  lemma OneMore(s: Stream, texts: seq<string>, i: nat)
    requires i < |texts|
    ensures Emit(Emit(s, Join(texts[..i])), (if i > 0 then [','] else []) + texts[i]) == Emit(s, Join(texts[..i + 1]))
  {
    hide Emit, Join;
    assert texts[..i + 1] == texts[..i] + [texts[i]];
    JoinSnoc(texts[..i], texts[i]);
    var more := (if i > 0 then [','] else []) + texts[i];
    assert Join(texts[..i]) + more == Join(texts[..i + 1]);
    EmitJoin(s, Join(texts[..i]), more);
  }

  lemma EmitStuck(s: Stream, text: string)
    ensures s.error ==> Emit(s, text) == s
  {
  }

  lemma Enclosed(s: Stream, lead: string, open: string, body: string, close: string)
    ensures Emit(Emit(Emit(s, lead + open), body), close) == Emit(s, lead + (open + body + close))
  {
    hide Emit;
    EmitJoin(s, lead + open, body);
    EmitJoin(s, lead + open + body, close);
    assert lead + open + body + close == lead + (open + body + close);
  }

  lemma {:induction false} AllVisible(t: string, max: nat)
    requires '\0' !in t && |t| <= max
    ensures Visible(t, max) == t
  {
    if t != [] {
      AllVisible(t[1..], max - 1);
    }
  }

  lemma FieldText(lead: string, f: Field)
    requires CString(f.name)
    ensures lead + PrintField(f) == lead + Label(f.name) + Print(f.value)
  {
    hide Quote, Visible, Print;
    AllVisible(f.name, SIZE_MAX);
  }

  // ---- newline-ended records -------------------------------------------------------------

  /** A capture: each record's text and a line feed. */
  function Lines(records: seq<Json>): string {
    if records == [] then [] else Lines(records[..|records| - 1]) + (Print(records[|records| - 1]) + ['\n'])
  }

  /** What a reader sees between line feeds, the part after the last one included. */
  function Split(t: string): (r: seq<string>)
    ensures r != []
  {
    if t == [] then [[]]
    else
      var rest := Split(t[1..]);
      if t[0] == '\n' then [[]] + rest else [[t[0]] + rest[0]] + rest[1..]
  }

  predicate AllFit(records: seq<Json>) {
    forall i :: 0 <= i < |records| ==> Height(records[i]) <= MAX_DEPTH
  }

  /** A record at the top level, and the line feed after it. */
  method WriteRecord(w: Writer, v: Json)
    requires w.Valid() && Writable(v) && (w.depth == 0 || w.error)
    modifies w, w.first
    ensures w.Valid() && (w.depth == 0 || w.error)
    ensures !old(w.error) && Height(v) <= MAX_DEPTH ==>
              w.depth == 0 && w.St().s == Emit(old(w.St()).s, Print(v) + ['\n'])
    ensures !old(w.error) && Height(v) > MAX_DEPTH ==> w.error
    ensures old(w.error) ==> w.St().s == old(w.St()).s
    ensures Within(old(w.St()).s, w.St().s, Print(v) + ['\n'])
  {
    hide Emit, Print, Height, Within;
    ghost var s, lead := w.St().s, Lead(w.St());
    assert w.depth == 0 ==> lead + Print(v) == Print(v);
    WriteValue(w, v);
    EmitStuck(w.St().s, ['\n']);
    EmitStuck(s, Print(v) + ['\n']);
    EmitJoin(s, Print(v), ['\n']);
    EmitWithin(s, Print(v) + ['\n']);
    if w.error {
      WithinLonger(s, w.St().s, if s.error then [] else Print(v), if s.error then Print(v) + ['\n'] else ['\n']);
      assert [] + (Print(v) + ['\n']) == Print(v) + ['\n'];
    }
    w.Newline();
  }

  /**
   A whole capture of complete records.  It is reported good exactly when every record stays within
   the nesting limit and the stream has room, and then it is exactly the reference text; in every case
   it is the start of that text.
   */
  method Capture(records: seq<Json>, room: nat) returns (text: string, ok: bool)
    requires forall i :: 0 <= i < |records| ==> Writable(records[i])
    ensures ok <==> AllFit(records) && |Lines(records)| <= room
    ensures ok ==> text == Lines(records)
    ensures AllFit(records) && !ok ==> text == Lines(records)[..room]
    ensures text <= Lines(records)
  {
    hide Print, Height, Writable, Emit, Lines, Within, AllFit;
    var w := new Writer(room);
    ghost var s := w.St().s;
    NoLines(s);
    for i := 0 to |records|
      invariant w.Valid() && fresh(w) && fresh(w.first)
      invariant w.depth == 0 || w.error
      invariant AllFit(records[..i]) ==> w.St().s == Emit(s, Lines(records[..i]))
      invariant !AllFit(records[..i]) ==> w.error
      invariant Within(s, w.St().s, Lines(records[..i]))
    {
      ghost var before := w.St().s;
      MoreLines(s, records, i);
      EmitStuck(w.St().s, Print(records[i]) + ['\n']);
      WriteRecord(w, records[i]);
      if before.error {
        WithinLonger(s, before, Lines(records[..i]), Print(records[i]) + ['\n']);
      } else {
        EmitWhole(s, Lines(records[..i]));
        WithinAfter(s, before, w.St().s, Lines(records[..i]), Print(records[i]) + ['\n']);
      }
    }
    assert records[..|records|] == records;
    Emitted(s, Lines(records));
    StartOfText(s, w.St().s, Lines(records));
    text, ok := w.out, w.Ok();
  }

  lemma NoLines(s: Stream)
    ensures Emit(s, Lines([])) == s && Within(s, s, Lines([])) && AllFit([])
  {
    EmitNothing(s);
  }

  lemma StartOfText(s: Stream, s': Stream, text: string)
    requires s.out == [] && Within(s, s', text)
    ensures s'.out <= text
  {
    assert [] + text == text;
  }

  lemma MoreLines(s: Stream, records: seq<Json>, i: nat)
    requires i < |records|
    ensures Emit(Emit(s, Lines(records[..i])), Print(records[i]) + ['\n']) == Emit(s, Lines(records[..i + 1]))
    ensures AllFit(records[..i + 1]) <==> AllFit(records[..i]) && Height(records[i]) <= MAX_DEPTH
    ensures Lines(records[..i + 1]) == Lines(records[..i]) + (Print(records[i]) + ['\n'])
  {
    hide Emit, Print, Height;
    var now := records[..i + 1];
    assert now[..i] == records[..i] && now[i] == records[i];
    EmitJoin(s, Lines(records[..i]), Print(records[i]) + ['\n']);
  }

  lemma Emitted(s: Stream, text: string)
    requires s.out == [] && !s.error
    ensures Emit(s, text).error <==> |text| > s.room
    ensures Emit(s, text).out == if |text| <= s.room then text else text[..s.room]
  {
  }

  /** Text before a line feed is one line. */
  lemma {:induction false} SplitLine(line: string, rest: string)
    requires Printable(line)
    ensures Split(line + (['\n'] + rest)) == [line] + Split(rest)
  {
    var t := line + (['\n'] + rest);
    if line == [] {
      assert t == ['\n'] + rest && t[1..] == rest;
    } else {
      assert t[1..] == line[1..] + (['\n'] + rest);
      SplitLine(line[1..], rest);
      assert [line[0]] + line[1..] == line;
    }
  }

  lemma {:induction false} SplitLines(records: seq<Json>, rest: string)
    ensures Split(Lines(records) + rest) == ItemTexts(records) + Split(rest)
  {
    hide Split, Print, ItemTexts, Lines;
    NoTexts();
    if records != [] {
      var n := |records| - 1;
      var last := Print(records[n]);
      assert records == records[..n] + [records[n]];
      LinesSnoc(records[..n], records[n]);
      ItemTextsSnoc(records[..n], records[n]);
      var more := last + (['\n'] + rest);
      SplitLines(records[..n], more);
      assert Lines(records[..n]) + (last + ['\n']) + rest == Lines(records[..n]) + more;
      PrintPrintable(records[n]);
      SplitLine(last, rest);
      assert ItemTexts(records[..n]) + ([last] + Split(rest)) == ItemTexts(records[..n]) + [last] + Split(rest);
    } else {
      assert [] + rest == rest && [] + Split(rest) == Split(rest);
    }
  }

  lemma LinesSnoc(records: seq<Json>, last: Json)
    ensures Lines(records + [last]) == Lines(records) + (Print(last) + ['\n'])
  {
    hide Print;
    assert (records + [last])[..|records|] == records;
  }

  lemma NoTexts()
    ensures Lines([]) == [] && ItemTexts([]) == []
  {
  }

  lemma ItemTextsSnoc(items: seq<Json>, last: Json)
    ensures ItemTexts(items + [last]) == ItemTexts(items) + [Print(last)]
  {
    hide Print, ItemTexts;
    var all, texts := ItemTexts(items + [last]), ItemTexts(items) + [Print(last)];
    forall i | 0 <= i < |texts| ensures all[i] == texts[i] {
      assert i < |items| ==> (items + [last])[i] == items[i];
    }
  }

  /** Splitting a capture on line feeds and parsing the lines gives back exactly the records. */
  lemma CaptureRoundTrip(records: seq<Json>)
    ensures |Split(Lines(records))| == |records| + 1 && Split(Lines(records))[|records|] == []
    ensures forall i :: 0 <= i < |records| ==> Parse(Split(Lines(records))[i]) == Good(records[i], [])
  {
    hide Split, Print, Lines, Parse;
    SplitLines(records, []);
    assert Lines(records) + [] == Lines(records);
    SplitNothing();
    forall i | 0 <= i < |records|
      ensures Parse(Split(Lines(records))[i]) == Good(records[i], [])
    {
      RoundTrip(records[i]);
    }
  }

  /**
   The same for a stream that was cut off: its complete lines parse to the first records, and what follows
   the last line feed is the start of the next record's text, or nothing.
   */
  lemma {:induction false} PrefixRoundTrip(records: seq<Json>, text: string) returns (n: nat)
    requires text <= Lines(records)
    ensures n <= |records| && |Split(text)| == n + 1
    ensures forall i :: 0 <= i < n ==> Parse(Split(text)[i]) == Good(records[i], [])
    ensures Split(text)[n] <= if n < |records| then Print(records[n]) else []
  {
    hide Split, Print, Lines, Parse;
    NoTexts();
    SplitNothing();
    if records == [] {
      n := 0;
    } else {
      var k := |records| - 1;
      var init, last := records[..k], records[k];
      assert records == init + [last];
      LinesSnoc(init, last);
      if text <= Lines(init) {
        n := PrefixRoundTrip(init, text);
      } else if text == Lines(records) {
        n := k + 1;
        CaptureRoundTrip(records);
      } else {
        n := k;
        var rest := text[|Lines(init)|..];
        assert text == Lines(init) + rest;
        assert rest <= Print(last) + ['\n'] && rest != Print(last) + ['\n'];
        assert rest == (Print(last) + ['\n'])[..|rest|] == Print(last)[..|rest|];
        PrintPrintable(last);
        SplitPart(rest);
        SplitLines(init, rest);
        forall i | 0 <= i < n ensures Parse(Split(text)[i]) == Good(records[i], []) {
          RoundTrip(init[i]);
        }
      }
    }
  }

  lemma {:induction false} SplitPart(line: string)
    requires Printable(line)
    ensures Split(line) == [line]
  {
    if line != [] {
      SplitPart(line[1..]);
      assert [line[0]] + line[1..] == line;
    }
  }

  lemma SplitNothing()
    ensures Split([]) == [[]]
  {
  }
}
