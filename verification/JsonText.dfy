/**
 The JSON texts of RFC 8259, which every written line would be if its prefix ended in a quote, and
 which no written line is.
 */
module JsonText {
  import opened Bytes
  import opened JsonString
  import opened JsonNumber
  import opened JsonPrefix
  import opened Fields
  import opened Framing

  const OPEN_BRACKET: byte := 91
  const CLOSE_BRACKET: byte := 93

  // ---------------------------------------------------------------- the grammar

  /** A parse tree by sections 2 to 7 of RFC 8259, with its white space; strings as they are written. */
  datatype Json =
    | Literal(text: Text)
    | String(raw: Text)
    | EmptyArray(space: Text)
    | Array(items: Items)
    | EmptyObject(space: Text)
    | Object(pairs: Pairs)

  datatype Spaced = Spaced(before: Text, value: Json, after: Text)

  datatype Items = Item(item: Spaced) | ItemThen(item: Spaced, rest: Items)

  datatype Pair = Pair(before: Text, key: Text, after: Text, value: Spaced)

  datatype Pairs = One(pair: Pair) | OneThen(pair: Pair, rest: Pairs)

  predicate IsSpace(t: Text) {
    forall i :: 0 <= i < |t| ==> t[i] == 32 || t[i] == 9 || t[i] == 10 || t[i] == 13
  }

  /** The characters between the quotes of a string. */
  predicate IsChars(t: Text) {
    if t == [] then true
    else if t[0] < 32 || t[0] == QUOTE then false
    else if t[0] != BACKSLASH then IsChars(t[1..])
    else if |t| >= 2 && Unshort(t[1]).Some? then IsChars(t[2..])
    else |t| >= 6 && t[1] == LETTER_U && HexNumber(t[2..6]).Some? && IsChars(t[6..])
  }

  ghost predicate WellFormed(j: Json) {
    match j
    case Literal(t) => IsLiteral(t)
    case String(raw) => IsChars(raw)
    case EmptyArray(space) => IsSpace(space)
    case Array(items) => WellFormedItems(items)
    case EmptyObject(space) => IsSpace(space)
    case Object(pairs) => WellFormedPairs(pairs)
  }

  ghost predicate WellFormedSpaced(s: Spaced) {
    IsSpace(s.before) && WellFormed(s.value) && IsSpace(s.after)
  }

  ghost predicate WellFormedItems(items: Items) {
    WellFormedSpaced(items.item) && (items.ItemThen? ==> WellFormedItems(items.rest))
  }

  ghost predicate WellFormedPair(p: Pair) {
    IsSpace(p.before) && IsChars(p.key) && IsSpace(p.after) && WellFormedSpaced(p.value)
  }

  ghost predicate WellFormedPairs(pairs: Pairs) {
    WellFormedPair(pairs.pair) && (pairs.OneThen? ==> WellFormedPairs(pairs.rest))
  }

  function Quote(raw: Text): Text {
    [QUOTE] + raw + [QUOTE]
  }

  function TextOf(j: Json): Text {
    match j
    case Literal(t) => t
    case String(raw) => Quote(raw)
    case EmptyArray(space) => [OPEN_BRACKET] + space + [CLOSE_BRACKET]
    case Array(items) => [OPEN_BRACKET] + ItemsText(items) + [CLOSE_BRACKET]
    case EmptyObject(space) => [OPEN_BRACE] + space + [CLOSE_BRACE]
    case Object(pairs) => [OPEN_BRACE] + PairsText(pairs) + [CLOSE_BRACE]
  }

  function SpacedText(s: Spaced): Text {
    s.before + TextOf(s.value) + s.after
  }

  function ItemsText(items: Items): Text {
    match items
    case Item(item) => SpacedText(item)
    case ItemThen(item, rest) => SpacedText(item) + [COMMA] + ItemsText(rest)
  }

  function PairText(p: Pair): Text {
    (p.before + Quote(p.key) + p.after) + [COLON] + SpacedText(p.value)
  }

  function PairsText(pairs: Pairs): Text {
    match pairs
    case One(pair) => PairText(pair)
    case OneThen(pair, rest) => PairText(pair) + [COMMA] + PairsText(rest)
  }

  ghost predicate IsJson(t: Text) {
    exists s: Spaced :: WellFormedSpaced(s) && SpacedText(s) == t
  }

  // ---------------------------------------------------------------- strings in a JSON text

  /** How far a JSON text has been read: outside strings, inside one, after a backslash, or not JSON. */
  datatype Lexed = Outside | Inside | AfterBackslash | NotJson

  function LexByte(q: Lexed, b: byte): Lexed {
    match q
    case Outside => if b == QUOTE then Inside else if b == BACKSLASH then NotJson else Outside
    case Inside =>
      if b == QUOTE then Outside else if b == BACKSLASH then AfterBackslash else if b < 32 then NotJson else Inside
    case AfterBackslash => if b < 32 then NotJson else Inside
    case NotJson => NotJson
  }

  function Lex(q: Lexed, t: Text): Lexed {
    if t == [] then q else LexByte(Lex(q, t[..|t| - 1]), t[|t| - 1])
  }

  lemma {:induction false} LexAppend(q: Lexed, s: Text, t: Text)
    ensures Lex(q, s + t) == Lex(Lex(q, s), t)
  {
    if t == [] {
      assert s + t == s;
    } else {
      assert (s + t)[..|s + t| - 1] == s + t[..|t| - 1];
      LexAppend(q, s, t[..|t| - 1]);
    }
  }

  lemma LexOne(q: Lexed, b: byte)
    ensures Lex(q, [b]) == LexByte(q, b)
  {
    assert [b][..0] == [];
  }

  lemma LexTwo(q: Lexed, a: byte, b: byte)
    ensures Lex(q, [a, b]) == LexByte(LexByte(q, a), b)
  {
    LexAppend(q, [a], [b]);
    LexOne(q, a);
    LexOne(LexByte(q, a), b);
    assert [a] + [b] == [a, b];
  }

  lemma {:induction false} LexNotJson(t: Text)
    ensures Lex(NotJson, t) == NotJson
  {
    if t != [] {
      LexNotJson(t[..|t| - 1]);
    }
  }

  lemma LexEscape(b: byte)
    ensures Lex(Inside, Escape(b)) == Inside
    ensures Lex(Outside, Escape(b)) == Outside || Lex(Outside, Escape(b)) == NotJson
  {
    var e := Escape(b);
    if |e| == 1 {
      LexOne(Inside, b);
      LexOne(Outside, b);
    } else if |e| == 2 {
      LexTwo(Inside, e[0], e[1]);
      LexTwo(Outside, e[0], e[1]);
    } else {
      var rest := e[2..];
      assert e == [e[0], e[1]] + rest;
      LexTwo(Inside, e[0], e[1]);
      LexTwo(Outside, e[0], e[1]);
      LexAppend(Inside, [e[0], e[1]], rest);
      LexAppend(Outside, [e[0], e[1]], rest);
      LexNotJson(rest);
      LexInsidePlain(rest);
    }
  }

  lemma {:induction false} LexInsidePlain(t: Text)
    requires forall i :: 0 <= i < |t| ==> t[i] >= 32 && t[i] != QUOTE && t[i] != BACKSLASH
    ensures Lex(Inside, t) == Inside && Lex(Outside, t) == Outside
  {
    if t != [] {
      LexInsidePlain(t[..|t| - 1]);
    }
  }

  lemma {:induction false} LexEncoding(s: Text)
    ensures Lex(Inside, Encoding(s)) == Inside
    ensures Lex(Outside, Encoding(s)) == Outside || Lex(Outside, Encoding(s)) == NotJson
  {
    if s != [] {
      LexEncoding(s[1..]);
      LexEscape(s[0]);
      LexAppend(Inside, Escape(s[0]), Encoding(s[1..]));
      LexAppend(Outside, Escape(s[0]), Encoding(s[1..]));
      LexNotJson(Encoding(s[1..]));
    }
  }

  lemma LexQuoted(t: Text)
    requires Lex(Inside, t) == Inside
    ensures Lex(Outside, [QUOTE] + t + [QUOTE]) == Outside
  {
    LexAppend(Outside, [QUOTE], t);
    LexOne(Outside, QUOTE);
    LexAppend(Outside, [QUOTE] + t, [QUOTE]);
    LexOne(Inside, QUOTE);
  }

  lemma LexThree(q: Lexed, a: Text, b: Text, c: Text)
    ensures Lex(q, a + b + c) == Lex(Lex(Lex(q, a), b), c)
  {
    LexAppend(q, a, b);
    LexAppend(q, a + b, c);
  }

  // ---------------------------------------------------------------- every JSON text ends outside strings

  lemma {:induction false} LexChars(t: Text)
    requires IsChars(t)
    ensures Lex(Inside, t) == Inside
  {
    if t != [] {
      var n := if t[0] != BACKSLASH then 1 else if |t| >= 2 && Unshort(t[1]).Some? then 2 else 6;
      LexChars(t[n..]);
      assert n == 6 ==> t[..n][2..6] == t[2..6];
      LexChar(t[..n]);
      LexAppend(Inside, t[..n], t[n..]);
      assert t == t[..n] + t[n..];
    }
  }

  /** One character of a string, escaped or not. */
  lemma LexChar(c: Text)
    requires |c| == 1 || |c| == 2 || |c| == 6
    requires |c| == 1 ==> c[0] >= 32 && c[0] != QUOTE && c[0] != BACKSLASH
    requires |c| == 2 ==> c[0] == BACKSLASH && Unshort(c[1]).Some?
    requires |c| == 6 ==> c[0] == BACKSLASH && c[1] == LETTER_U && HexNumber(c[2..6]).Some?
    ensures Lex(Inside, c) == Inside
  {
    if |c| == 1 {
      LexInsidePlain(c);
    } else if |c| == 2 {
      assert c == [c[0], c[1]];
      LexTwo(Inside, c[0], c[1]);
    } else {
      assert c == [c[0], c[1]] + c[2..6];
      LexTwo(Inside, c[0], c[1]);
      LexAppend(Inside, [c[0], c[1]], c[2..6]);
      HexIsPlain(c[2..6]);
      LexInsidePlain(c[2..6]);
    }
  }

  lemma {:induction false} HexIsPlain(t: Text)
    requires HexNumber(t).Some?
    ensures forall i :: 0 <= i < |t| ==> t[i] >= 32 && t[i] != QUOTE && t[i] != BACKSLASH
  {
    if t != [] {
      HexIsPlain(t[..|t| - 1]);
    }
  }

  lemma {:induction false} LexSpace(t: Text)
    requires IsSpace(t)
    ensures Lex(Outside, t) == Outside
  {
    if t != [] {
      LexSpace(t[..|t| - 1]);
    }
  }

  lemma LexLiteral(t: Text)
    requires IsLiteral(t)
    ensures Lex(Outside, t) == Outside
  {
    LiteralIsPlain(t);
    PlainBytesLex(t);
  }

  lemma PlainBytesLex(v: Text)
    requires forall i :: 0 <= i < |v| ==> IsPlain(v[i])
    ensures Lex(Outside, v) == Outside
  {
    forall i | 0 <= i < |v|
      ensures v[i] >= 32 && v[i] != QUOTE && v[i] != BACKSLASH
    {
      assert IsPlain(v[i]);
    }
    LexInsidePlain(v);
  }

  lemma LexString(raw: Text)
    requires IsChars(raw)
    ensures Lex(Outside, Quote(raw)) == Outside
  {
    LexChars(raw);
    LexQuoted(raw);
  }

  lemma LexBracketed(open: byte, t: Text, close: byte)
    requires open != QUOTE && open != BACKSLASH && close != QUOTE && close != BACKSLASH
    requires Lex(Outside, t) == Outside
    ensures Lex(Outside, [open] + t + [close]) == Outside
  {
    LexThree(Outside, [open], t, [close]);
    LexOne(Outside, open);
    LexOne(Outside, close);
  }

  lemma LexSeparated(s: Text, mark: byte, t: Text)
    requires mark == COMMA || mark == COLON
    requires Lex(Outside, s) == Outside && Lex(Outside, t) == Outside
    ensures Lex(Outside, s + [mark] + t) == Outside
  {
    LexThree(Outside, s, [mark], t);
    LexOne(Outside, mark);
  }

  lemma {:induction false} LexJson(j: Json)
    requires WellFormed(j)
    ensures Lex(Outside, TextOf(j)) == Outside
  {
    match j
    case Literal(t) => LexLiteral(t);
    case String(raw) => LexString(raw);
    case EmptyArray(space) => LexSpace(space); LexBracketed(OPEN_BRACKET, space, CLOSE_BRACKET);
    case Array(items) => LexItems(items); LexBracketed(OPEN_BRACKET, ItemsText(items), CLOSE_BRACKET);
    case EmptyObject(space) => LexSpace(space); LexBracketed(OPEN_BRACE, space, CLOSE_BRACE);
    case Object(pairs) => LexPairs(pairs); LexBracketed(OPEN_BRACE, PairsText(pairs), CLOSE_BRACE);
  }

  lemma {:induction false} LexSpaced(s: Spaced)
    requires WellFormedSpaced(s)
    ensures Lex(Outside, SpacedText(s)) == Outside
  {
    LexSpace(s.before);
    LexJson(s.value);
    LexSpace(s.after);
    LexThree(Outside, s.before, TextOf(s.value), s.after);
  }

  lemma {:induction false} LexItems(items: Items)
    requires WellFormedItems(items)
    ensures Lex(Outside, ItemsText(items)) == Outside
  {
    LexSpaced(items.item);
    if items.ItemThen? {
      LexItems(items.rest);
      LexSeparated(SpacedText(items.item), COMMA, ItemsText(items.rest));
    }
  }

  lemma {:induction false} LexPair(p: Pair)
    requires WellFormedPair(p)
    ensures Lex(Outside, PairText(p)) == Outside
  {
    LexSpace(p.before);
    LexString(p.key);
    LexSpace(p.after);
    LexThree(Outside, p.before, Quote(p.key), p.after);
    LexSpaced(p.value);
    LexSeparated(p.before + Quote(p.key) + p.after, COLON, SpacedText(p.value));
  }

  lemma {:induction false} LexPairs(pairs: Pairs)
    requires WellFormedPairs(pairs)
    ensures Lex(Outside, PairsText(pairs)) == Outside
  {
    LexPair(pairs.pair);
    if pairs.OneThen? {
      LexPairs(pairs.rest);
      LexSeparated(PairText(pairs.pair), COMMA, PairsText(pairs.rest));
    }
  }

  /** Every JSON text, of whatever depth and spacing, ends outside its strings. */
  lemma JsonEndsOutside(t: Text)
    requires IsJson(t)
    ensures Lex(Outside, t) == Outside
  {
    var s: Spaced :| WellFormedSpaced(s) && SpacedText(s) == t;
    LexSpaced(s);
  }

  // ---------------------------------------------------------------- the missing quote

  lemma LexKeyText(key: Text)
    requires IsKey(key)
    ensures Lex(Outside, KeyText(key)) == Outside
  {
    assert forall i :: 0 <= i < |key| ==> IsKeyByte(key[i]);
    LexInsidePlain(key);
    LexQuoted(key);
    LexAppend(Outside, [QUOTE] + key + [QUOTE], [COLON]);
    LexOne(Outside, COLON);
    Assoc([QUOTE] + key, [QUOTE], [COLON]);
    assert [QUOTE] + [COLON] == [QUOTE, COLON];
  }

  lemma LexPlain(v: Text)
    requires forall i :: 0 <= i < |v| ==> IsPlain(v[i])
    ensures Lex(Outside, Encoding(v)) == Outside
  {
    PlainEncoding(v);
    forall i | 0 <= i < |v|
      ensures v[i] >= 32 && v[i] != QUOTE && v[i] != BACKSLASH
    {
      assert IsPlain(v[i]);
    }
    LexInsidePlain(v);
  }

  lemma LexValueText(v: Text)
    ensures Lex(Outside, ValueText(v)) == Outside
  {
    if IsLiteral(v) {
      LiteralIsPlain(v);
      LexPlain(v);
    } else {
      LexEncoding(v);
      LexQuoted(Encoding(v));
    }
  }

  lemma LexMember(f: Field)
    requires IsKey(f.key)
    ensures Lex(Outside, Member(f)) == Outside
  {
    LexKeyText(f.key);
    LexValueText(f.val);
    LexAppend(Outside, KeyText(f.key), ValueText(f.val));
    LexAppend(Outside, KeyText(f.key) + ValueText(f.val), [COMMA]);
    LexOne(Outside, COMMA);
  }

  lemma {:induction false} LexMembers(fields: seq<Field>)
    requires forall i :: 0 <= i < |fields| ==> IsKey(fields[i].key)
    ensures Lex(Outside, Members(fields)) == Outside
  {
    if fields != [] {
      LexMember(fields[0]);
      LexMembers(fields[1..]);
      LexAppend(Outside, Member(fields[0]), Members(fields[1..]));
    }
  }

  lemma LexPrefix(fields: seq<Field>)
    requires forall i :: 0 <= i < |fields| ==> IsKey(fields[i].key)
    ensures Lex(Outside, Prefix(fields)) == Outside
  {
    LexMembers(fields);
    LexKeyText(MSG);
    LexOne(Outside, OPEN_BRACE);
    LexAppend(Outside, [OPEN_BRACE], Members(fields));
    LexAppend(Outside, [OPEN_BRACE] + Members(fields), KeyText(MSG));
  }

  lemma LexLine(fields: seq<Field>, r: Text)
    requires forall i :: 0 <= i < |fields| ==> IsKey(fields[i].key)
    ensures Lex(Outside, Body(Prefix(fields), r)) != Outside
  {
    var prefix := Prefix(fields);
    LexPrefix(fields);
    LexEncoding(r);
    LexThree(Outside, prefix, Encoding(r), [QUOTE, CLOSE_BRACE]);
    LexTwo(Outside, QUOTE, CLOSE_BRACE);
    LexTwo(NotJson, QUOTE, CLOSE_BRACE);
  }

  /**
   No line that the writer emits is a JSON text, whatever the fields and the record: the value has
   no opening quote, so the line ends inside a string, or has a backslash outside one.
   */
  lemma NoLineIsJson(fields: seq<Field>, r: Text)
    requires forall i :: 0 <= i < |fields| ==> IsKey(fields[i].key)
    ensures !IsJson(Body(Prefix(fields), r))
    ensures ParseObject(Body(Prefix(fields), r)).None?
  {
    var line := Body(Prefix(fields), r);
    LexLine(fields, r);
    if ParseObject(line).Some? {
      ParsedIsJson(line);
    }
    if IsJson(line) {
      JsonEndsOutside(line);
    }
  }

  // ---------------------------------------------------------------- with the quote

  lemma EscapeThen(b: byte, rest: Text)
    requires IsChars(rest)
    ensures IsChars(Escape(b) + rest)
  {
    var e := Escape(b) + rest;
    if |Escape(b)| == 1 {
      assert e[1..] == rest;
    } else if |Escape(b)| == 2 {
      assert e[2..] == rest;
    } else {
      assert e[2..6] == Escape(b)[2..6] && e[6..] == rest;
      HexRoundTrip(b);
    }
  }

  lemma {:induction false} EncodingIsChars(s: Text)
    ensures IsChars(Encoding(s))
  {
    if s != [] {
      EncodingIsChars(s[1..]);
      EscapeThen(s[0], Encoding(s[1..]));
    }
  }

  ghost function FieldValue(f: Field): Json {
    if IsLiteral(f.val) then Literal(f.val) else String(Encoding(f.val))
  }

  function TightPair(key: Text, value: Json): Pair {
    Pair([], key, [], Spaced([], value, []))
  }

  lemma TightText(key: Text, value: Json)
    ensures PairText(TightPair(key, value)) == KeyText(key) + TextOf(value)
  {
    assert [] + TextOf(value) + [] == TextOf(value) && [] + Quote(key) + [] == Quote(key);
    assert [QUOTE, COLON] == [QUOTE] + [COLON];
    Assoc([QUOTE] + key, [QUOTE], [COLON]);
  }

  lemma TightWellFormed(key: Text, value: Json)
    requires IsChars(key) && WellFormed(value)
    ensures WellFormedPair(TightPair(key, value))
  {
  }

  /** A value is a JSON text without any white space around it. */
  lemma TightJson(value: Json)
    requires WellFormed(value)
    ensures IsJson(TextOf(value))
  {
    var s := Spaced([], value, []);
    assert [] + TextOf(value) + [] == TextOf(value);
    assert WellFormedSpaced(s) && SpacedText(s) == TextOf(value);
  }

  lemma KeyIsChars(key: Text)
    requires IsKey(key)
    ensures IsChars(key)
  {
    PlainEncoding(key);
    EncodingIsChars(key);
  }

  lemma FieldPair(f: Field)
    requires IsKey(f.key)
    ensures WellFormedPair(TightPair(f.key, FieldValue(f)))
    ensures PairText(TightPair(f.key, FieldValue(f))) + [COMMA] == Member(f)
  {
    KeyIsChars(f.key);
    EncodingIsChars(f.val);
    TightText(f.key, FieldValue(f));
    TightWellFormed(f.key, FieldValue(f));
    if IsLiteral(f.val) {
      LiteralIsPlain(f.val);
      PlainEncoding(f.val);
    }
  }

  /** The members of a line: the fields and the message. */
  ghost function LinePairs(fields: seq<Field>, r: Text): Pairs {
    if fields == [] then One(TightPair(MSG, String(Encoding(r))))
    else OneThen(TightPair(fields[0].key, FieldValue(fields[0])), LinePairs(fields[1..], r))
  }

  lemma {:induction false} LineText(fields: seq<Field>, r: Text)
    requires forall i :: 0 <= i < |fields| ==> IsKey(fields[i].key)
    ensures WellFormedPairs(LinePairs(fields, r))
    ensures PairsText(LinePairs(fields, r)) == Members(fields) + (KeyText(MSG) + Quote(Encoding(r)))
  {
    var msg := KeyText(MSG) + Quote(Encoding(r));
    if fields == [] {
      assert IsKey(MSG);
      KeyIsChars(MSG);
      EncodingIsChars(r);
      TightText(MSG, String(Encoding(r)));
      TightWellFormed(MSG, String(Encoding(r)));
      assert LinePairs(fields, r) == One(TightPair(MSG, String(Encoding(r))));
      assert Members(fields) + msg == msg;
    } else {
      FieldPair(fields[0]);
      LineText(fields[1..], r);
      Assoc(Member(fields[0]), Members(fields[1..]), msg);
    }
  }

  lemma LineParts(a: Text, m: Text, k: Text, e: Text)
    ensures (a + m + k + [QUOTE]) + e + [QUOTE, CLOSE_BRACE] == a + (m + (k + ([QUOTE] + e + [QUOTE]))) + [CLOSE_BRACE]
  {
    assert [QUOTE, CLOSE_BRACE] == [QUOTE] + [CLOSE_BRACE];
  }

  /** With the missing quote every line is a JSON text, an object of the fields and the message. */
  lemma QuotedLineIsJson(fields: seq<Field>, r: Text)
    requires forall i :: 0 <= i < |fields| ==> IsKey(fields[i].key)
    ensures IsJson(Body(Prefix(fields) + [QUOTE], r))
  {
    LineText(fields, r);
    LineParts([OPEN_BRACE], Members(fields), KeyText(MSG), Encoding(r));
    TightJson(Object(LinePairs(fields, r)));
  }

  // ---------------------------------------------------------------- the parser accepts JSON only

  /** A string that the scanner reads is a string of the grammar. */
  lemma {:induction false} ScannedChars(t: Text) returns (raw: Text)
    requires ScanString(t).Some?
    ensures IsChars(raw) && t == raw + [QUOTE] + ScanString(t).value.rest
  {
    if t[0] == QUOTE {
      raw := [];
    } else {
      var n := if t[0] != BACKSLASH then 1 else if t[1] == LETTER_U then 6 else 2;
      var more := ScannedChars(t[n..]);
      raw := t[..n] + more;
      assert raw[n..] == more && (n == 6 ==> raw[2..6] == t[2..6]);
      assert Unshort(LETTER_U).None?;
      CharsJoin(t, n, more, ScanString(t[n..]).value.rest);
    }
  }

  lemma CharsJoin(t: Text, n: nat, more: Text, rest: Text)
    requires n <= |t| && t[n..] == more + [QUOTE] + rest
    ensures t == t[..n] + more + [QUOTE] + rest
  {
    assert t == t[..n] + t[n..];
  }

  lemma ScannedJson(t: Text) returns (j: Json)
    requires ScanValue(t).Some?
    ensures WellFormed(j) && t == TextOf(j) + ScanValue(t).value.rest
  {
    if t != [] && t[0] == QUOTE {
      var raw := ScannedChars(t[1..]);
      j := String(raw);
      CharsJoin(t, 1, raw, ScanString(t[1..]).value.rest);
      assert t[..1] == [QUOTE];
    } else {
      var n := PlainLength(t);
      j := Literal(t[..n]);
      assert t == t[..n] + t[n..];
    }
  }

  lemma PairParts(t: Text, key: Text, after: Text, value: Text, rest: Text)
    requires t != [] && t[0] == QUOTE && t[1..] == key + [QUOTE] + ([COLON] + after) && after == value + rest
    ensures t == KeyText(key) + value + rest
  {
    assert t == [QUOTE] + t[1..];
    KeyThen(key, after);
    Assoc(KeyText(key), value, rest);
  }

  /** What the parser has checked of the first member: its key, its colon and its value. */
  lemma ParsedHead(t: Text) returns (after: Text, rest: Text)
    requires ParseEntries(t).Some?
    ensures t != [] && t[0] == QUOTE && ScanString(t[1..]).Some? && ScanString(t[1..]).value.rest == [COLON] + after
    ensures ScanValue(after).Some? && ScanValue(after).value.rest == rest && |rest| < |t|
    ensures rest == [CLOSE_BRACE] || (rest != [] && rest[0] == COMMA && ParseEntries(rest[1..]).Some?)
  {
    var key := ScanString(t[1..]).value;
    after := key.rest[1..];
    rest := ScanValue(after).value.rest;
  }

  /** The first member that the parser reads, and what it goes on with. */
  lemma ParsedPair(t: Text) returns (pair: Pair, rest: Text)
    requires ParseEntries(t).Some?
    ensures WellFormedPair(pair) && t == PairText(pair) + rest && |rest| < |t|
    ensures rest == [CLOSE_BRACE] || (rest != [] && rest[0] == COMMA && ParseEntries(rest[1..]).Some?)
  {
    var after;
    after, rest := ParsedHead(t);
    var key := ScannedChars(t[1..]);
    var value := ScannedJson(after);
    pair := TightPair(key, value);
    TightText(key, value);
    TightWellFormed(key, value);
    PairParts(t, key, after, TextOf(value), rest);
  }

  lemma {:induction false} ParsedPairs(t: Text) returns (pairs: Pairs)
    requires ParseEntries(t).Some?
    ensures WellFormedPairs(pairs) && t == PairsText(pairs) + [CLOSE_BRACE]
    decreases |t|
  {
    var pair, rest := ParsedPair(t);
    if rest == [CLOSE_BRACE] {
      pairs := One(pair);
    } else {
      var more := ParsedPairs(rest[1..]);
      pairs := OneThen(pair, more);
      assert rest == [COMMA] + rest[1..];
      ThenParts(PairText(pair), PairsText(more));
    }
  }

  lemma ThenParts(p: Text, more: Text)
    ensures p + ([COMMA] + (more + [CLOSE_BRACE])) == p + [COMMA] + more + [CLOSE_BRACE]
  {
  }

  lemma ParsedIsJson(t: Text)
    requires ParseObject(t).Some?
    ensures IsJson(t)
  {
    var pairs := ParsedPairs(t[1..]);
    assert t == [OPEN_BRACE] + t[1..];
    Assoc([OPEN_BRACE], PairsText(pairs), [CLOSE_BRACE]);
    TightJson(Object(pairs));
  }
}
