/** The record prefix of src/json.c, built once from the metadata fields, and a parser that reads it back. */
module JsonPrefix {
  import opened Bytes
  import opened JsonString
  import opened JsonNumber
  import opened Fields

  const OPEN_BRACE: byte := 123
  const CLOSE_BRACE: byte := 125
  const COLON: byte := 58
  const COMMA: byte := 44
  const MSG: Text := [109, 115, 103]

  // ---------------------------------------------------------------- the prefix as a value

  ghost function ValueText(v: Text): Text {
    if IsLiteral(v) then Encoding(v) else [QUOTE] + Encoding(v) + [QUOTE]
  }

  function KeyText(key: Text): Text {
    [QUOTE] + key + [QUOTE, COLON]
  }

  ghost function Member(f: Field): Text {
    KeyText(f.key) + ValueText(f.val) + [COMMA]
  }

  ghost function Members(fields: seq<Field>): Text {
    if fields == [] then [] else Member(fields[0]) + Members(fields[1..])
  }

  ghost function Prefix(fields: seq<Field>): Text {
    [OPEN_BRACE] + Members(fields) + KeyText(MSG)
  }

  /** The text around the keys and the values, in bytes. */
  lemma PrefixBytes(f: Field)
    ensures Prefix([]) == Ascii("{\"msg\":")
    ensures Member(f) == Ascii("\"") + f.key + Ascii("\":") + ValueText(f.val) + Ascii(",")
    ensures ValueText(f.val) == Encoding(f.val) || ValueText(f.val) == Ascii("\"") + Encoding(f.val) + Ascii("\"")
    ensures MemberBound(f) == |f.key| + 6 * |f.val| + 6
  {
    assert Ascii("{\"msg\":") == [123, 34, 109, 115, 103, 34, 58];
    assert [OPEN_BRACE] + [] + ([QUOTE] + MSG + [QUOTE, COLON]) == [123, 34, 109, 115, 103, 34, 58];
    assert Ascii("\"") == [QUOTE] && Ascii("\":") == [QUOTE, COLON] && Ascii(",") == [COMMA];
  }

  lemma {:induction false} MembersSnoc(fields: seq<Field>, f: Field)
    ensures Members(fields + [f]) == Members(fields) + Member(f)
  {
    if fields == [] {
      assert ([] + [f])[1..] == [];
    } else {
      assert (fields + [f])[1..] == fields[1..] + [f];
      MembersSnoc(fields[1..], f);
    }
  }

  // ---------------------------------------------------------------- the allocated bound

  function MemberBound(f: Field): nat {
    |f.key| + |f.val| * ESCAPE_MUL + 6
  }

  function MemberBounds(fields: seq<Field>): nat {
    if fields == [] then 0 else MemberBounds(fields[..|fields| - 1]) + MemberBound(fields[|fields| - 1])
  }

  lemma {:induction false} BoundsGrow(fields: seq<Field>, i: nat)
    requires i <= |fields|
    ensures MemberBounds(fields[..i]) <= MemberBounds(fields)
  {
    if i < |fields| {
      BoundsGrow(fields[..|fields| - 1], i);
      assert fields[..|fields| - 1][..i] == fields[..i];
    } else {
      assert fields[..i] == fields;
    }
  }

  lemma BoundsNext(fields: seq<Field>, i: nat)
    requires i < |fields|
    ensures MemberBounds(fields[..i]) + MemberBound(fields[i]) == MemberBounds(fields[..i + 1]) <= MemberBounds(fields)
  {
    assert fields[..i + 1][..i] == fields[..i];
    BoundsGrow(fields, i + 1);
  }

  /** Writes one member with its comma; the value is never truncated. */
  method PutMember(buf: array<byte>, at: nat, f: Field) returns (end: nat)
    requires at + MemberBound(f) <= buf.Length
    modifies buf
    ensures end <= at + MemberBound(f)
    ensures buf[..end] == old(buf[..at]) + Member(f)
  {
    ghost var pre := buf[..at];
    end := PutKey(buf, at, f.key);
    ghost var key := KeyText(f.key);
    end := PutValue(buf, end, f.val);
    end := Append(buf, end, [COMMA]);
    Assoc(pre, key, ValueText(f.val));
    Assoc(pre, key + ValueText(f.val), [COMMA]);
  }

  method PutKey(buf: array<byte>, at: nat, key: Text) returns (end: nat)
    requires at + |key| + 3 <= buf.Length
    modifies buf
    ensures end == at + |key| + 3
    ensures buf[..end] == old(buf[..at]) + KeyText(key)
  {
    ghost var pre := buf[..at];
    end := Append(buf, at, [QUOTE]);
    end := Append(buf, end, key);
    end := Append(buf, end, [QUOTE, COLON]);
    Assoc(pre, [QUOTE], key);
    Assoc(pre, [QUOTE] + key, [QUOTE, COLON]);
  }

  method PutValue(buf: array<byte>, at: nat, v: Text) returns (end: nat)
    requires at + |v| * ESCAPE_MUL + 2 <= buf.Length
    modifies buf
    ensures end <= at + |v| * ESCAPE_MUL + 2
    ensures buf[..end] == old(buf[..at]) + ValueText(v)
  {
    var quoted := IsStringLiteral(v);
    if quoted {
      end := PutQuoted(buf, at, v);
    } else {
      end := AppendEncoding(buf, at, v);
    }
  }

  method PutQuoted(buf: array<byte>, at: nat, v: Text) returns (end: nat)
    requires at + |v| * ESCAPE_MUL + 2 <= buf.Length
    modifies buf
    ensures end <= at + |v| * ESCAPE_MUL + 2
    ensures buf[..end] == old(buf[..at]) + ([QUOTE] + Encoding(v) + [QUOTE])
  {
    ghost var pre := buf[..at];
    end := Append(buf, at, [QUOTE]);
    end := AppendEncoding(buf, end, v);
    end := Append(buf, end, [QUOTE]);
    Assoc(pre, [QUOTE], Encoding(v));
    Assoc(pre, [QUOTE] + Encoding(v), [QUOTE]);
  }

  method AppendEncoding(buf: array<byte>, at: nat, v: Text) returns (end: nat)
    requires at + |v| * ESCAPE_MUL <= buf.Length
    modifies buf
    ensures end == at + |Encoding(v)| <= at + |v| * ESCAPE_MUL
    ensures buf[..end] == old(buf[..at]) + Encoding(v)
  {
    AllFits(v, |v| * ESCAPE_MUL);
    assert v[..|v|] == v;
    var n := EncodeValue(v, buf, at, |v| * ESCAPE_MUL);
    end := at + n;
  }

  method PrefixSize(fields: seq<Field>) returns (size: nat)
    ensures size == 64 + MemberBounds(fields)
  {
    size := 64;
    for i := 0 to |fields|
      invariant size == 64 + MemberBounds(fields[..i])
    {
      BoundsNext(fields, i);
      size := size + |fields[i].key| + |fields[i].val| * ESCAPE_MUL + 6;
    }
    assert fields[..|fields|] == fields;
  }

  /** The precomputed size is never exceeded, not even by the terminating zero byte. */
  method PrefixEncoder(fields: seq<Field>) returns (buf: array<byte>, len: nat)
    ensures fresh(buf) && len < buf.Length
    ensures buf[..len] == Prefix(fields) && buf[len] == 0
  {
    var size := PrefixSize(fields);
    buf := new byte[size];
    len := Append(buf, 0, [OPEN_BRACE]);
    assert buf[..len] == [OPEN_BRACE];
    len := PutMembers(buf, len, fields);
    len := Append(buf, len, KeyText(MSG));
    ghost var text := buf[..len];
    buf[len] := 0;
    assert buf[..len] == text;
  }

  method PutMembers(buf: array<byte>, at: nat, fields: seq<Field>) returns (end: nat)
    requires at + MemberBounds(fields) <= buf.Length
    modifies buf
    ensures end <= at + MemberBounds(fields)
    ensures buf[..end] == old(buf[..at]) + Members(fields)
  {
    end := at;
    ghost var done := [];
    for i := 0 to |fields|
      invariant end <= at + MemberBounds(fields[..i])
      invariant end <= buf.Length
      invariant done == Members(fields[..i])
      invariant buf[..end] == old(buf[..at]) + done
    {
      BoundsNext(fields, i);
      end := PutMember(buf, end, fields[i]);
      Assoc(old(buf[..at]), done, Member(fields[i]));
      done := MembersNext(fields, i);
    }
    assert fields[..|fields|] == fields;
  }

  lemma MembersNext(fields: seq<Field>, i: nat) returns (done: Text)
    requires i < |fields|
    ensures done == Members(fields[..i]) + Member(fields[i]) == Members(fields[..i + 1])
  {
    assert fields[..i + 1] == fields[..i] + [fields[i]];
    MembersSnoc(fields[..i], fields[i]);
    done := Members(fields[..i + 1]);
  }

  // ---------------------------------------------------------------- reading it back

  datatype Value = Quoted(text: Text) | Verbatim(text: Text)

  datatype Entry = Entry(key: Text, value: Value)

  function PlainLength(t: Text): (n: nat)
    ensures n <= |t|
  {
    if t == [] || !IsPlain(t[0]) then 0 else 1 + PlainLength(t[1..])
  }

  datatype ScannedValue = ScannedValue(value: Value, rest: Text)

  /** A member value: a string, or one of the literals that need no quotes. */
  ghost function ScanValue(t: Text): (r: Option<ScannedValue>)
    ensures r.Some? ==> |r.value.rest| <= |t|
  {
    if t != [] && t[0] == QUOTE then
      var s := ScanString(t[1..]);
      if s.None? then None else Some(ScannedValue(Quoted(s.value.value), s.value.rest))
    else
      var n := PlainLength(t);
      if IsLiteral(t[..n]) then Some(ScannedValue(Verbatim(t[..n]), t[n..])) else None
  }

  /** A flat JSON object without white space, after its opening brace. */
  ghost function ParseEntries(t: Text): Option<seq<Entry>>
    decreases |t|
  {
    if t == [] || t[0] != QUOTE || ScanString(t[1..]).None? then None
    else
      var key := ScanString(t[1..]).value;
      if key.rest == [] || key.rest[0] != COLON || ScanValue(key.rest[1..]).None? then None
      else
        var v := ScanValue(key.rest[1..]).value;
        var e := Entry(key.value, v.value);
        if v.rest == [CLOSE_BRACE] then Some([e])
        else if v.rest == [] || v.rest[0] != COMMA || ParseEntries(v.rest[1..]).None? then None
        else Some([e] + ParseEntries(v.rest[1..]).value)
  }

  ghost function ParseObject(t: Text): Option<seq<Entry>> {
    if t == [] || t[0] != OPEN_BRACE then None else ParseEntries(t[1..])
  }

  ghost function FieldEntry(f: Field): Entry {
    Entry(f.key, if IsLiteral(f.val) then Verbatim(f.val) else Quoted(f.val))
  }

  ghost function FieldEntries(fields: seq<Field>): seq<Entry> {
    if fields == [] then [] else [FieldEntry(fields[0])] + FieldEntries(fields[1..])
  }

  lemma {:induction false} PlainEncoding(s: Text)
    requires forall i :: 0 <= i < |s| ==> IsPlain(s[i]) || IsKeyByte(s[i])
    ensures Encoding(s) == s
  {
    if s != [] {
      assert IsPlain(s[0]) || IsKeyByte(s[0]);
      PlainEncoding(s[1..]);
    }
  }

  lemma {:induction false} PlainLengthIs(s: Text, end: byte, rest: Text)
    requires forall i :: 0 <= i < |s| ==> IsPlain(s[i])
    requires !IsPlain(end)
    ensures PlainLength(s + [end] + rest) == |s|
  {
    if s != [] {
      assert (s + [end] + rest)[1..] == s[1..] + [end] + rest;
      PlainLengthIs(s[1..], end, rest);
    }
  }

  lemma ScanLiteral(v: Text, end: byte, rest: Text)
    requires IsLiteral(v) && !IsPlain(end) && end != QUOTE
    ensures ScanValue(v + [end] + rest) == Some(ScannedValue(Verbatim(v), [end] + rest))
  {
    var t := v + [end] + rest;
    LiteralIsPlain(v);
    PlainLengthIs(v, end, rest);
    assert t[0] == v[0] && IsPlain(v[0]);
    assert t[..|v|] == v && t[|v|..] == [end] + rest;
  }

  lemma ScanQuoted(v: Text, rest: Text)
    ensures ScanValue([QUOTE] + Encoding(v) + [QUOTE] + rest) == Some(ScannedValue(Quoted(v), rest))
  {
    var t := [QUOTE] + Encoding(v) + [QUOTE] + rest;
    assert t[1..] == Encoding(v) + [QUOTE] + rest;
    StringRoundTrip(v, rest);
  }

  lemma ScanValueText(v: Text, end: byte, rest: Text)
    requires end == COMMA || end == CLOSE_BRACE
    ensures ScanValue(ValueText(v) + [end] + rest) ==
            Some(ScannedValue(if IsLiteral(v) then Verbatim(v) else Quoted(v), [end] + rest))
  {
    if IsLiteral(v) {
      LiteralIsPlain(v);
      PlainEncoding(v);
      ScanLiteral(v, end, rest);
    } else {
      ScanQuoted(v, [end] + rest);
      assert ValueText(v) + [end] + rest == [QUOTE] + Encoding(v) + [QUOTE] + ([end] + rest);
    }
  }

  lemma ScanKey(key: Text, rest: Text)
    requires IsKey(key)
    ensures ScanString(key + [QUOTE] + rest) == Some(Scanned(key, rest))
  {
    PlainEncoding(key);
    StringRoundTrip(key, rest);
  }

  lemma MemberText(f: Field, rest: Text)
    ensures Member(f) + rest == [QUOTE] + (f.key + [QUOTE] + ([COLON] + (ValueText(f.val) + [COMMA] + rest)))
  {
    var k, v := KeyText(f.key), ValueText(f.val);
    KeyThen(f.key, v + [COMMA] + rest);
    Assoc(k, v, [COMMA]);
    Assoc(k, v + [COMMA], rest);
  }

  /** One step of the parser, once its key and its value are known. */
  lemma ParseStep(key: Text, after: Text, value: Value, rest: Text)
    requires ScanString(key + [QUOTE] + ([COLON] + after)) == Some(Scanned(key, [COLON] + after))
    requires ScanValue(after) == Some(ScannedValue(value, rest))
    ensures var t := [QUOTE] + (key + [QUOTE] + ([COLON] + after));
      ParseEntries(t) ==
        if rest == [CLOSE_BRACE] then Some([Entry(key, value)])
        else if rest == [] || rest[0] != COMMA || ParseEntries(rest[1..]).None? then None
        else Some([Entry(key, value)] + ParseEntries(rest[1..]).value)
  {
    var t := [QUOTE] + (key + [QUOTE] + ([COLON] + after));
    assert t[1..] == key + [QUOTE] + ([COLON] + after);
    assert ([COLON] + after)[1..] == after;
  }

  lemma ParseMember(f: Field, rest: Text)
    requires IsKey(f.key) && ParseEntries(rest).Some?
    ensures ParseEntries(Member(f) + rest) == Some([FieldEntry(f)] + ParseEntries(rest).value)
  {
    var after := ValueText(f.val) + [COMMA] + rest;
    MemberText(f, rest);
    ScanKey(f.key, [COLON] + after);
    ScanValueText(f.val, COMMA, rest);
    ParseStep(f.key, after, FieldEntry(f).value, [COMMA] + rest);
    assert ([COMMA] + rest)[1..] == rest;
  }

  /** The message member, with the quote that the prefix does not write. */
  ghost function MsgText(r: Text): Text {
    KeyText(MSG) + [QUOTE] + Encoding(r) + [QUOTE, CLOSE_BRACE]
  }

  lemma ParseMsg(r: Text)
    ensures ParseEntries(MsgText(r)) == Some([Entry(MSG, Quoted(r))])
  {
    var value := [QUOTE] + Encoding(r) + [QUOTE] + [CLOSE_BRACE];
    ScanKey(MSG, [COLON] + value);
    ScanQuoted(r, [CLOSE_BRACE]);
    ParseStep(MSG, value, Quoted(r), [CLOSE_BRACE]);
    KeyThen(MSG, value);
    MsgTextParts(r);
  }

  lemma KeyThen(key: Text, after: Text)
    ensures KeyText(key) + after == [QUOTE] + (key + [QUOTE] + ([COLON] + after))
  {
    assert [QUOTE, COLON] == [QUOTE] + [COLON];
  }

  lemma MsgTextParts(r: Text)
    ensures MsgText(r) == KeyText(MSG) + ([QUOTE] + Encoding(r) + [QUOTE] + [CLOSE_BRACE])
  {
    var k, e := KeyText(MSG), Encoding(r);
    assert [QUOTE, CLOSE_BRACE] == [QUOTE] + [CLOSE_BRACE];
    TextParts(k, e);
  }

  lemma TextParts(k: Text, e: Text)
    ensures k + [QUOTE] + e + ([QUOTE] + [CLOSE_BRACE]) == k + ([QUOTE] + e + [QUOTE] + [CLOSE_BRACE])
  {
  }

  lemma {:induction false} ParseMembers(fields: seq<Field>, r: Text)
    requires forall i :: 0 <= i < |fields| ==> IsKey(fields[i].key)
    ensures ParseEntries(Members(fields) + MsgText(r)) == Some(FieldEntries(fields) + [Entry(MSG, Quoted(r))])
  {
    var msg := [Entry(MSG, Quoted(r))];
    if fields == [] {
      ParseMsg(r);
      assert Members(fields) + MsgText(r) == MsgText(r);
      assert FieldEntries(fields) + msg == msg;
    } else {
      var rest := Members(fields[1..]) + MsgText(r);
      ParseMembers(fields[1..], r);
      ParseMember(fields[0], rest);
      Assoc(Member(fields[0]), Members(fields[1..]), MsgText(r));
      assert [FieldEntry(fields[0])] + (FieldEntries(fields[1..]) + msg) == FieldEntries(fields) + msg;
    }
  }

  /**
   With an opening quote put after the prefix, every record is a JSON object whose members are the
   fields in order, unquoted and verbatim exactly when they are literals, and then the message.
   */
  lemma {:induction false} PrefixParsesBack(fields: seq<Field>, r: Text)
    requires forall i :: 0 <= i < |fields| ==> IsKey(fields[i].key)
    ensures ParseObject(Prefix(fields) + [QUOTE] + Encoding(r) + [QUOTE, CLOSE_BRACE])
         == Some(FieldEntries(fields) + [Entry(MSG, Quoted(r))])
  {
    ParseMembers(fields, r);
    ObjectText(fields, r);
    assert ([OPEN_BRACE] + (Members(fields) + MsgText(r)))[1..] == Members(fields) + MsgText(r);
  }

  lemma ObjectText(fields: seq<Field>, r: Text)
    ensures Prefix(fields) + [QUOTE] + Encoding(r) + [QUOTE, CLOSE_BRACE]
         == [OPEN_BRACE] + (Members(fields) + MsgText(r))
  {
    var front, k, e := [OPEN_BRACE] + Members(fields), KeyText(MSG), Encoding(r);
    Assoc(front, k, [QUOTE]);
    Assoc(front, k + [QUOTE], e);
    Assoc(front, k + [QUOTE] + e, [QUOTE, CLOSE_BRACE]);
    Assoc([OPEN_BRACE], Members(fields), k + [QUOTE] + e + [QUOTE, CLOSE_BRACE]);
  }
}
