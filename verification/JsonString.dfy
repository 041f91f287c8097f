/**
 The value encoder of src/json.c, which escapes bytes for a JSON string, against section 7 of
 RFC 8259: a reader of JSON strings that undoes it.
 */
module JsonString {
  import opened Bytes

  const QUOTE: byte := 34
  const BACKSLASH: byte := 92
  const LETTER_U: byte := 117
  const DELETE: byte := 127
  const ESCAPE_MUL: nat := 6

  // ---------------------------------------------------------------- the source's tables

  /** `json_size_lut`, by its runs of equal entries. */
  function SizeLut(b: byte): nat {
    if b < 8 then 6
    else if b <= 10 then 2
    else if b == 11 then 6
    else if b <= 13 then 2
    else if b < 32 then 6
    else if b == 34 || b == 92 then 2
    else if b == 127 then 6
    else 1
  }

  /** `json_short_lookup`; 0 where the source has no entry. */
  function ShortLookup(b: byte): byte {
    match b
    case 10 => 110 case 13 => 114 case 9 => 116 case 8 => 98 case 12 => 102
    case 34 => 34 case 92 => 92
    case _ => 0
  }

  /** `hex_chars`. */
  function HexChar(n: nat): byte
    requires n < 16
  {
    if n < 10 then 48 + n else 87 + n
  }

  // ---------------------------------------------------------------- the encoding as a value

  /** The escape of one byte: short where section 7 of RFC 8259 has one, else \u00XX for control bytes. */
  function Escape(b: byte): Text {
    if ShortLookup(b) != 0 then [BACKSLASH, ShortLookup(b)]
    else if b < 32 || b == DELETE then [BACKSLASH, LETTER_U, ZERO, ZERO, HexChar(b / 16), HexChar(b % 16)]
    else [b]
  }

  function Encoding(s: Text): Text {
    if s == [] then [] else Escape(s[0]) + Encoding(s[1..])
  }

  /** The escape of every byte, in bytes. */
  lemma EscapeBytes(b: byte)
    ensures b == 8 ==> Escape(b) == [92, 98]
    ensures b == 9 ==> Escape(b) == [92, 116]
    ensures b == 10 ==> Escape(b) == [92, 110]
    ensures b == 12 ==> Escape(b) == [92, 102]
    ensures b == 13 ==> Escape(b) == [92, 114]
    ensures b == 34 || b == 92 ==> Escape(b) == [92, b]
    ensures b == 127 || (b < 32 && b !in {8, 9, 10, 12, 13}) ==>
      Escape(b) == [92, 117, 48, 48, 48 + b / 16, if b % 16 < 10 then 48 + b % 16 else 87 + b % 16]
    ensures b >= 32 && b != 34 && b != 92 && b != 127 ==> Escape(b) == [b]
  {
  }

  /** The size table gives the length of every escape. */
  lemma SizeTableExact(b: byte)
    ensures SizeLut(b) == |Escape(b)|
  {
  }

  lemma {:induction false} EncodingAppend(s: Text, t: Text)
    ensures Encoding(s + t) == Encoding(s) + Encoding(t)
  {
    if s == [] {
      assert s + t == t;
    } else {
      assert (s + t)[1..] == s[1..] + t;
      EncodingAppend(s[1..], t);
    }
  }

  lemma EncodingSnoc(s: Text, i: nat)
    requires i < |s|
    ensures Encoding(s[..i + 1]) == Encoding(s[..i]) + Escape(s[i])
  {
    assert s[..i + 1] == s[..i] + [s[i]];
    EncodingAppend(s[..i], [s[i]]);
    assert Encoding([s[i]]) == Escape(s[i]) + Encoding([s[i]][1..]);
    assert [s[i]][1..] == [];
  }

  /** An encoding is at most six times as long, and has no control byte, so no newline. */
  lemma {:induction false} EncodingShape(s: Text)
    ensures |s| <= |Encoding(s)| <= ESCAPE_MUL * |s|
    ensures forall i :: 0 <= i < |Encoding(s)| ==> Encoding(s)[i] >= 32
  {
    if s != [] {
      EncodingShape(s[1..]);
    }
  }

  // ---------------------------------------------------------------- section 7 of RFC 8259

  function Unshort(b: byte): Option<byte> {
    match b
    case 34 => Some(34) case 92 => Some(92) case 47 => Some(47)
    case 98 => Some(8) case 102 => Some(12) case 110 => Some(10) case 114 => Some(13) case 116 => Some(9)
    case _ => None
  }

  function HexDigit(b: byte): Option<nat> {
    if 48 <= b <= 57 then Some(b - 48)
    else if 97 <= b <= 102 then Some(b - 87)
    else if 65 <= b <= 70 then Some(b - 55)
    else None
  }

  function HexNumber(t: Text): Option<nat> {
    if t == [] then Some(0)
    else
      var high, low := HexNumber(t[..|t| - 1]), HexDigit(t[|t| - 1]);
      if high.None? || low.None? then None else Some(16 * high.value + low.value)
  }

  /** The UTF-8 bytes of a code point below 0x10000 that is not a surrogate. */
  function Utf8(code: nat): Option<Text> {
    if code < 0x80 then Some([code])
    else if code < 0x800 then Some([0xC0 + code / 64, 0x80 + code % 64])
    else if code < 0x10000 && !(0xD800 <= code < 0xE000) then
      Some([0xE0 + code / 4096, 0x80 + code / 64 % 64, 0x80 + code % 64])
    else None
  }

  /** A string read after its opening quote: its bytes, and the text after its closing quote. */
  datatype Scanned = Scanned(value: Text, rest: Text)

  function Prepend(front: Option<Text>, s: Option<Scanned>): Option<Scanned> {
    if front.None? || s.None? then None
    else Some(Scanned(front.value + s.value.value, s.value.rest))
  }

  function ScanString(t: Text): (r: Option<Scanned>)
    ensures r.Some? ==> |r.value.rest| < |t|
  {
    if t == [] || t[0] < 32 then None
    else if t[0] == QUOTE then Some(Scanned([], t[1..]))
    else if t[0] != BACKSLASH then Prepend(Some([t[0]]), ScanString(t[1..]))
    else if |t| < 2 then None
    else if t[1] == LETTER_U then
      if |t| < 6 || HexNumber(t[2..6]).None? then None
      else Prepend(Utf8(HexNumber(t[2..6]).value), ScanString(t[6..]))
    else if Unshort(t[1]).None? then None
    else Prepend(Some([Unshort(t[1]).value]), ScanString(t[2..]))
  }

  lemma HexRoundTrip(b: byte)
    requires b < 128
    ensures HexNumber([ZERO, ZERO, HexChar(b / 16), HexChar(b % 16)]) == Some(b)
  {
    var h, l := HexChar(b / 16), HexChar(b % 16);
    assert HexDigit(h) == Some(b / 16) && HexDigit(l) == Some(b % 16);
    assert [ZERO][..0] == [] && [ZERO, ZERO][..1] == [ZERO];
    assert [ZERO, ZERO, h][..2] == [ZERO, ZERO] && [ZERO, ZERO, h, l][..3] == [ZERO, ZERO, h];
    assert HexNumber([ZERO]) == Some(0);
    assert HexNumber([ZERO, ZERO]) == Some(0);
    assert HexNumber([ZERO, ZERO, h]) == Some(b / 16);
  }

  lemma ScanEscape(b: byte, t: Text)
    ensures ScanString(Escape(b) + t) == Prepend(Some([b]), ScanString(t))
  {
    var e := Escape(b) + t;
    if |Escape(b)| == 1 {
      assert e[1..] == t;
    } else if |Escape(b)| == 2 {
      assert e[2..] == t;
    } else {
      assert e[2..6] == Escape(b)[2..6];
      assert e[6..] == t;
      HexRoundTrip(b);
    }
  }

  /** Reading an encoding gives the bytes back and stops at the quote that follows it. */
  lemma {:induction false} StringRoundTrip(s: Text, rest: Text)
    ensures ScanString(Encoding(s) + [QUOTE] + rest) == Some(Scanned(s, rest))
  {
    if s == [] {
      assert Encoding(s) + [QUOTE] + rest == [QUOTE] + rest;
    } else {
      var tail := Encoding(s[1..]) + [QUOTE] + rest;
      StringRoundTrip(s[1..], rest);
      ScanEscape(s[0], tail);
      assert Encoding(s) + [QUOTE] + rest == Escape(s[0]) + tail;
      assert [s[0]] + s[1..] == s;
    }
  }

  // ---------------------------------------------------------------- the encoder

  /** How many bytes of `s` can be encoded in `limit` bytes. */
  function Fit(s: Text, limit: nat): (k: nat)
    ensures k <= |s|
  {
    if s == [] || |Escape(s[0])| > limit then 0 else 1 + Fit(s[1..], limit - |Escape(s[0])|)
  }

  /** `Fit` names the longest prefix whose whole encoding fits. */
  lemma {:induction false} FitIsLongest(s: Text, limit: nat, k: nat)
    requires k <= |s|
    ensures |Encoding(s[..k])| <= limit <==> k <= Fit(s, limit)
  {
    if k > 0 {
      assert s[..k][1..] == s[1..][..k - 1];
      if |Escape(s[0])| <= limit {
        FitIsLongest(s[1..], limit - |Escape(s[0])|, k - 1);
      }
    }
  }

  /** A destination of six bytes for each source byte never truncates. */
  lemma {:induction false} AllFits(s: Text, limit: nat)
    requires limit >= ESCAPE_MUL * |s|
    ensures Fit(s, limit) == |s|
  {
    if s != [] {
      AllFits(s[1..], limit - |Escape(s[0])|);
    }
  }

  /** A prefix that fits, and whose next byte does not, is the longest. */
  lemma FitStops(src: Text, limit: nat, i: nat)
    requires i <= |src| && |Encoding(src[..i])| <= limit
    requires i < |src| ==> |Encoding(src[..i])| + |Escape(src[i])| > limit
    ensures Fit(src, limit) == i
  {
    FitIsLongest(src, limit, i);
    if i < |src| {
      EncodingSnoc(src, i);
      FitIsLongest(src, limit, i + 1);
    }
  }

  /** One more escape goes behind the encoding written so far. */
  lemma SpliceEscape(base: Text, at: nat, src: Text, i: nat)
    requires i < |src| && at + |Encoding(src[..i])| + |Escape(src[i])| <= |base|
    ensures |Encoding(src[..i + 1])| == |Encoding(src[..i])| + |Escape(src[i])|
    ensures Splice(Splice(base, at, Encoding(src[..i])), at + |Encoding(src[..i])|, Escape(src[i]))
         == Splice(base, at, Encoding(src[..i + 1]))
  {
    EncodingSnoc(src, i);
    SpliceTwice(base, at, Encoding(src[..i]), Escape(src[i]));
  }

  lemma SpliceNothing(base: Text, at: nat)
    requires at <= |base|
    ensures Splice(base, at, []) == base
  {
  }

  /** Writes the encoding of the longest prefix of `src` that fits into `limit` bytes of `dst` at `at`. */
  method EncodeValue(src: Text, dst: array<byte>, at: nat, limit: nat) returns (n: nat)
    requires at + limit <= dst.Length
    modifies dst
    ensures n == |Encoding(src[..Fit(src, limit)])| <= limit
    ensures dst[..] == Splice(old(dst[..]), at, Encoding(src[..Fit(src, limit)]))
  {
    ghost var base := dst[..];
    var i := 0;
    n := 0;
    SpliceNothing(base, at);
    while i < |src|
      invariant i <= |src| && Encoded(base, dst[..], at, src, i, n) && n <= limit
    {
      SizeTableExact(src[i]);
      if n + SizeLut(src[i]) > limit {
        break;
      }
      n := PutNext(src, dst, at, i, n, base);
      i := i + 1;
    }
    FitStops(src, limit, i);
  }

  /** The first `i` bytes of `src` are encoded in `n` bytes of `now`, which was `base`. */
  ghost predicate Encoded(base: Text, now: Text, at: nat, src: Text, i: nat, n: nat) {
    && i <= |src| && n == |Encoding(src[..i])| && at + n <= |base|
    && now == Splice(base, at, Encoding(src[..i]))
  }

  method PutNext(src: Text, dst: array<byte>, at: nat, i: nat, n: nat, ghost base: Text) returns (n': nat)
    requires i < |src| && Encoded(base, dst[..], at, src, i, n) && at + n + |Escape(src[i])| <= dst.Length
    modifies dst
    ensures Encoded(base, dst[..], at, src, i + 1, n') && n' == n + |Escape(src[i])|
  {
    SizeTableExact(src[i]);
    SpliceEscape(base, at, src, i);
    PutEscape(dst, at + n, src[i]);
    n' := n + SizeLut(src[i]);
  }

  method PutEscape(dst: array<byte>, p: nat, ch: byte)
    requires p + |Escape(ch)| <= dst.Length
    modifies dst
    ensures dst[..] == Splice(old(dst[..]), p, Escape(ch))
  {
    SizeTableExact(ch);
    var size := SizeLut(ch);
    if size == 1 {
      dst[p] := ch;
    } else if size == 2 {
      dst[p] := BACKSLASH;
      dst[p + 1] := ShortLookup(ch);
    } else {
      dst[p] := BACKSLASH;
      dst[p + 1] := LETTER_U;
      dst[p + 2] := ZERO;
      dst[p + 3] := ZERO;
      dst[p + 4] := HexChar(ch / 16);
      dst[p + 5] := HexChar(ch % 16);
    }
    SpliceIs(old(dst[..]), dst[..], p, Escape(ch));
  }
}
