/**
 The bytes of a written record: prefix, encoded value and postfix (src/json.c, src/writer.c), how
 the record list is recovered from them.
 */
module Framing {
  import opened Bytes
  import opened LineSplitting
  import opened JsonString
  import opened JsonPrefix
  import opened Fields

  const POSTFIX: Text := [QUOTE, CLOSE_BRACE, NEWLINE]

  /** A record's line, without its newline. */
  function Body(prefix: Text, r: Text): Text {
    prefix + Encoding(r) + [QUOTE, CLOSE_BRACE]
  }

  function Frame(prefix: Text, r: Text): Text {
    prefix + Encoding(r) + POSTFIX
  }

  function Framed(prefix: Text, records: seq<Text>): Text {
    if records == [] then []
    else Framed(prefix, records[..|records| - 1]) + Frame(prefix, records[|records| - 1])
  }

  /** The postfix, in bytes. */
  lemma PostfixBytes()
    ensures POSTFIX == Ascii("\"}\n")
  {
  }

  // ---------------------------------------------------------------- recovering the records

  function RecoverRecord(prefix: Text, line: Text): Option<Text> {
    if |line| < |prefix| + 2 || line[..|prefix|] != prefix || line[|line| - 2..] != [QUOTE, CLOSE_BRACE] then None
    else
      match ScanString(line[|prefix|..|line| - 1])
      case None => None
      case Some(s) => if s.rest == [] then Some(s.value) else None
  }

  function RecoverAll(prefix: Text, lines: seq<Text>): Option<seq<Text>> {
    if lines == [] then Some([])
    else
      var init, last := RecoverAll(prefix, lines[..|lines| - 1]), RecoverRecord(prefix, lines[|lines| - 1]);
      if init.None? || last.None? then None else Some(init.value + [last.value])
  }

  /** Split at newlines, strip the prefix and the postfix, unescape. */
  function Recover(prefix: Text, output: Text): Option<seq<Text>> {
    if Trail(output) == [] then RecoverAll(prefix, Lines(output)) else None
  }

  lemma FrameIsBody(prefix: Text, r: Text)
    ensures Frame(prefix, r) == Body(prefix, r) + [NEWLINE]
  {
    assert POSTFIX == [QUOTE, CLOSE_BRACE] + [NEWLINE];
    Assoc(prefix + Encoding(r), [QUOTE, CLOSE_BRACE], [NEWLINE]);
  }

  /** The only newline of a frame is its last byte. */
  lemma FrameHasOneNewline(prefix: Text, r: Text)
    requires NEWLINE !in prefix
    ensures NEWLINE !in Body(prefix, r)
    ensures Frame(prefix, r) == Body(prefix, r) + [NEWLINE]
  {
    EncodingShape(r);
    FrameIsBody(prefix, r);
  }

  lemma {:induction false} LinesOfOpenLine(s: Text, body: Text)
    requires Trail(s) == [] && NEWLINE !in body
    ensures Lines(s + body) == Lines(s) && Trail(s + body) == body
  {
    if body == [] {
      assert s + body == s;
    } else {
      var init := body[..|body| - 1];
      assert (s + body)[..|s + body| - 1] == s + init;
      assert body[|body| - 1] in body;
      LinesOfOpenLine(s, init);
      assert init + [body[|body| - 1]] == body;
    }
  }

  lemma LinesOfLine(s: Text, body: Text)
    requires Trail(s) == [] && NEWLINE !in body
    ensures Lines(s + (body + [NEWLINE])) == Lines(s) + [body] && Trail(s + (body + [NEWLINE])) == []
  {
    LinesOfOpenLine(s, body);
    var t := s + (body + [NEWLINE]);
    assert t[..|t| - 1] == s + body;
  }

  lemma RecoverBody(prefix: Text, r: Text)
    ensures RecoverRecord(prefix, Body(prefix, r)) == Some(r)
  {
    var e := Encoding(r);
    var line := Body(prefix, r);
    BodySlices(prefix, e);
    StringRoundTrip(r, []);
    assert e + [QUOTE] + [] == e + [QUOTE];
  }

  lemma BodySlices(prefix: Text, e: Text)
    ensures var line := prefix + e + [QUOTE, CLOSE_BRACE];
      && line[..|prefix|] == prefix
      && line[|line| - 2..] == [QUOTE, CLOSE_BRACE]
      && line[|prefix|..|line| - 1] == e + [QUOTE]
  {
  }

  /** The output ends with a line, and its lines are those of the records. */
  ghost predicate Recovers(prefix: Text, output: Text, records: seq<Text>) {
    Trail(output) == [] && RecoverAll(prefix, Lines(output)) == Some(records)
  }

  lemma NextLine(prefix: Text, output: Text, records: seq<Text>, r: Text)
    requires NEWLINE !in prefix && Recovers(prefix, output, records)
    ensures Recovers(prefix, output + Frame(prefix, r), records + [r])
  {
    var body := Body(prefix, r);
    FrameHasOneNewline(prefix, r);
    RecoverBody(prefix, r);
    LinesOfLine(output, body);
    RecoverSnoc(prefix, Lines(output), body);
  }

  lemma {:induction false} FramedLines(prefix: Text, records: seq<Text>)
    requires NEWLINE !in prefix
    ensures Recovers(prefix, Framed(prefix, records), records)
  {
    if records != [] {
      var init, r := records[..|records| - 1], records[|records| - 1];
      FramedLines(prefix, init);
      NextLine(prefix, Framed(prefix, init), init, r);
      assert init + [r] == records;
    }
  }

  lemma RecoverSnoc(prefix: Text, lines: seq<Text>, line: Text)
    ensures RecoverAll(prefix, lines + [line]) ==
      if RecoverAll(prefix, lines).None? || RecoverRecord(prefix, line).None? then None
      else Some(RecoverAll(prefix, lines).value + [RecoverRecord(prefix, line).value])
  {
    assert (lines + [line])[..|lines|] == lines;
  }

  lemma ValueHasNoNewline(v: Text)
    ensures NEWLINE !in ValueText(v)
  {
    EncodingShape(v);
  }

  lemma {:induction false} MembersHaveNoNewline(fields: seq<Field>)
    requires forall i :: 0 <= i < |fields| ==> IsKey(fields[i].key)
    ensures NEWLINE !in Members(fields)
  {
    if fields != [] {
      MembersHaveNoNewline(fields[1..]);
      ValueHasNoNewline(fields[0].val);
      assert NEWLINE !in fields[0].key;
      assert NEWLINE !in Member(fields[0]);
    }
  }

  /** For every field set and every list of records, the output determines the records. */
  lemma {:induction false} OutputDeterminesRecords(fields: seq<Field>, records: seq<Text>)
    requires forall i :: 0 <= i < |fields| ==> IsKey(fields[i].key)
    ensures Recover(Prefix(fields), Framed(Prefix(fields), records)) == Some(records)
  {
    MembersHaveNoNewline(fields);
    assert NEWLINE !in KeyText(MSG);
    FramedLines(Prefix(fields), records);
  }
}
