/**
 The number recogniser of src/json.c against the grammar of section 6 of RFC 8259, and the
 decision whether a field value is quoted.
 */
module JsonNumber {
  import opened Bytes

  const MINUS: byte := 45
  const PLUS: byte := 43
  const DOT: byte := 46

  // ---------------------------------------------------------------- section 6 of RFC 8259

  predicate IsDigit(b: byte) { 48 <= b <= 57 }

  predicate IsE(b: byte) { b == 101 || b == 69 }

  predicate IsSign(b: byte) { b == PLUS || b == MINUS }

  predicate AllDigits(s: Text) { forall i :: 0 <= i < |s| ==> IsDigit(s[i]) }

  predicate IsInt(s: Text) { s == [ZERO] || (s != [] && AllDigits(s) && s[0] != ZERO) }

  predicate IsFrac(s: Text) { |s| > 1 && s[0] == DOT && AllDigits(s[1..]) }

  predicate IsExp(s: Text) {
    && |s| > 1 && IsE(s[0])
    && (AllDigits(s[1..]) || (|s| > 2 && IsSign(s[1]) && AllDigits(s[2..])))
  }

  predicate IsMinus(s: Text) { s == [] || s == [MINUS] }

  /** number = [ minus ] int [ frac ] [ exp ] */
  ghost predicate IsNumber(s: Text) {
    exists minus, int_, frac, exp :: Parts(s, minus, int_, frac, exp)
  }

  ghost predicate Parts(s: Text, minus: Text, int_: Text, frac: Text, exp: Text) {
    && s == minus + int_ + frac + exp
    && IsMinus(minus) && IsInt(int_) && (frac == [] || IsFrac(frac)) && (exp == [] || IsExp(exp))
  }

  // ---------------------------------------------------------------- the automaton

  datatype State = Start | Minus | Zero | Digit | Dot | Fraction | Exp | ExpSign | ExpDigit | Rejected

  function Delta(q: State, ch: byte): State {
    match q
    case Start =>
      if ch == MINUS then Minus else if ch == ZERO then Zero else if IsDigit(ch) then Digit else Rejected
    case Minus => if ch == ZERO then Zero else if IsDigit(ch) then Digit else Rejected
    case Zero => if ch == DOT then Dot else if IsE(ch) then Exp else Rejected
    case Digit => if IsDigit(ch) then Digit else if ch == DOT then Dot else if IsE(ch) then Exp else Rejected
    case Dot => if IsDigit(ch) then Fraction else Rejected
    case Fraction => if IsDigit(ch) then Fraction else if IsE(ch) then Exp else Rejected
    case Exp => if IsSign(ch) then ExpSign else if IsDigit(ch) then ExpDigit else Rejected
    case ExpSign => if IsDigit(ch) then ExpDigit else Rejected
    case ExpDigit => if IsDigit(ch) then ExpDigit else Rejected
    case Rejected => Rejected
  }

  function Run(q: State, s: Text): State {
    if s == [] then q else Delta(Run(q, s[..|s| - 1]), s[|s| - 1])
  }

  predicate Accepting(q: State) { q == Zero || q == Digit || q == Fraction || q == ExpDigit }

  // ---------------------------------------------------------------- the automaton accepts the grammar

  lemma {:induction false} RunAppend(q: State, s: Text, t: Text)
    ensures Run(q, s + t) == Run(Run(q, s), t)
  {
    if t == [] {
      assert s + t == s;
    } else {
      assert (s + t)[..|s + t| - 1] == s + t[..|t| - 1];
      RunAppend(q, s, t[..|t| - 1]);
    }
  }

  lemma RunFirst(q: State, s: Text)
    requires s != []
    ensures Run(q, s) == Run(Delta(q, s[0]), s[1..])
  {
    assert s == [s[0]] + s[1..];
    RunAppend(q, [s[0]], s[1..]);
    assert [s[0]][..0] == [];
  }

  lemma {:induction false} RunDigits(q: State, s: Text)
    requires AllDigits(s) && (q == Digit || q == Fraction || q == ExpDigit)
    ensures Run(q, s) == q
  {
    if s != [] {
      RunDigits(q, s[..|s| - 1]);
    }
  }

  lemma RunInt(q: State, s: Text)
    requires IsInt(s) && (q == Start || q == Minus)
    ensures Run(q, s) == if s == [ZERO] then Zero else Digit
  {
    RunFirst(q, s);
    if s != [ZERO] {
      RunDigits(Digit, s[1..]);
    }
  }

  lemma RunFrac(q: State, s: Text)
    requires IsFrac(s) && (q == Zero || q == Digit)
    ensures Run(q, s) == Fraction
  {
    RunFirst(q, s);
    RunFirst(Dot, s[1..]);
    RunDigits(Fraction, s[1..][1..]);
  }

  lemma RunExp(q: State, s: Text)
    requires IsExp(s) && (q == Zero || q == Digit || q == Fraction)
    ensures Run(q, s) == ExpDigit
  {
    RunFirst(q, s);
    RunFirst(Exp, s[1..]);
    if AllDigits(s[1..]) {
      RunDigits(ExpDigit, s[1..][1..]);
    } else {
      var digits := s[2..];
      assert s[1..][1..] == digits;
      RunFirst(ExpSign, digits);
      RunDigits(ExpDigit, digits[1..]);
    }
  }

  lemma NumbersAccepted(s: Text, minus: Text, int_: Text, frac: Text, exp: Text)
    requires Parts(s, minus, int_, frac, exp)
    ensures Accepting(Run(Start, s))
  {
    RunAppend(Start, minus + int_ + frac, exp);
    RunAppend(Start, minus + int_, frac);
    RunAppend(Start, minus, int_);
    if minus == [MINUS] {
      RunFirst(Start, minus);
    }
    RunInt(Run(Start, minus), int_);
    if frac != [] {
      RunFrac(Run(Start, minus + int_), frac);
    }
    if exp != [] {
      RunExp(Run(Start, minus + int_ + frac), exp);
    }
  }

  /** What the automaton has read of each part when it stands in state `q`. */
  ghost predicate Shape(q: State, minus: Text, int_: Text, frac: Text, exp: Text) {
    && IsMinus(minus)
    && match q
       case Start => minus == [] && int_ == [] && frac == [] && exp == []
       case Minus => minus == [MINUS] && int_ == [] && frac == [] && exp == []
       case Zero => int_ == [ZERO] && frac == [] && exp == []
       case Digit => IsInt(int_) && int_ != [ZERO] && frac == [] && exp == []
       case Dot => IsInt(int_) && frac == [DOT] && exp == []
       case Fraction => IsInt(int_) && IsFrac(frac) && exp == []
       case Exp => IsInt(int_) && (frac == [] || IsFrac(frac)) && |exp| == 1 && IsE(exp[0])
       case ExpSign => IsInt(int_) && (frac == [] || IsFrac(frac)) && |exp| == 2 && IsE(exp[0]) && IsSign(exp[1])
       case ExpDigit => IsInt(int_) && (frac == [] || IsFrac(frac)) && IsExp(exp)
       case Rejected => false
  }

  lemma {:induction false} Decompose(s: Text) returns (minus: Text, int_: Text, frac: Text, exp: Text)
    requires Run(Start, s) != Rejected
    ensures s == minus + int_ + frac + exp
    ensures Shape(Run(Start, s), minus, int_, frac, exp)
  {
    if s == [] {
      minus, int_, frac, exp := [], [], [], [];
    } else {
      var init, ch := s[..|s| - 1], s[|s| - 1];
      minus, int_, frac, exp := Decompose(init);
      minus, int_, frac, exp := Extend(Run(Start, init), minus, int_, frac, exp, ch);
      assert s == init + [ch];
    }
  }

  lemma Extend(q: State, minus: Text, int_: Text, frac: Text, exp: Text, ch: byte)
    returns (minus': Text, int': Text, frac': Text, exp': Text)
    requires Shape(q, minus, int_, frac, exp) && Delta(q, ch) != Rejected
    ensures minus' + int' + frac' + exp' == minus + int_ + frac + exp + [ch]
    ensures Shape(Delta(q, ch), minus', int', frac', exp')
  {
    minus', int', frac', exp' := minus, int_, frac, exp;
    if ch == MINUS && q == Start {
      minus' := [ch];
    } else if q == Start || q == Minus || (q == Digit && IsDigit(ch)) {
      int' := int_ + [ch];
      IntGrows(int_, ch);
    } else if q == Dot || ch == DOT || (q == Fraction && IsDigit(ch)) {
      frac' := frac + [ch];
      FracGrows(frac, ch);
    } else {
      exp' := exp + [ch];
      ExpGrows(exp, ch);
    }
  }

  lemma IntGrows(int_: Text, ch: byte)
    requires IsDigit(ch)
    requires int_ == [] || (IsInt(int_) && int_ != [ZERO])
    ensures IsInt(int_ + [ch])
    ensures int_ + [ch] == [ZERO] <==> int_ == [] && ch == ZERO
  {
    assert (int_ + [ch])[0] == if int_ == [] then ch else int_[0];
  }

  lemma FracGrows(frac: Text, ch: byte)
    ensures frac == [] ==> frac + [ch] == [ch]
    ensures (frac == [DOT] || IsFrac(frac)) && IsDigit(ch) ==> IsFrac(frac + [ch])
  {
    if frac != [] {
      assert (frac + [ch])[1..] == frac[1..] + [ch];
    }
  }

  lemma ExpGrows(exp: Text, ch: byte)
    ensures exp == [] ==> exp + [ch] == [ch]
    ensures |exp| == 1 && IsE(exp[0]) && IsDigit(ch) ==> IsExp(exp + [ch])
    ensures |exp| == 2 && IsE(exp[0]) && IsSign(exp[1]) && IsDigit(ch) ==> IsExp(exp + [ch])
    ensures IsExp(exp) && IsDigit(ch) ==> IsExp(exp + [ch])
  {
    if |exp| >= 1 {
      assert (exp + [ch])[1..] == exp[1..] + [ch];
    }
    if |exp| >= 2 {
      assert (exp + [ch])[2..] == exp[2..] + [ch];
    }
  }

  lemma AcceptedIsNumber(s: Text)
    requires Accepting(Run(Start, s))
    ensures IsNumber(s)
  {
    var minus, int_, frac, exp := Decompose(s);
    assert Parts(s, minus, int_, frac, exp);
  }

  lemma NumberIsAccepted(s: Text)
    requires IsNumber(s)
    ensures Accepting(Run(Start, s))
  {
    var minus, int_, frac, exp :| Parts(s, minus, int_, frac, exp);
    NumbersAccepted(s, minus, int_, frac, exp);
  }

  /** The automaton accepts exactly the numbers of section 6 of RFC 8259. */
  lemma AutomatonExact(s: Text)
    ensures Accepting(Run(Start, s)) <==> IsNumber(s)
  {
    if Accepting(Run(Start, s)) {
      AcceptedIsNumber(s);
    } else if IsNumber(s) {
      NumberIsAccepted(s);
    }
  }

  lemma {:induction false} RejectedStays(s: Text)
    ensures Run(Rejected, s) == Rejected
  {
    if s != [] {
      RejectedStays(s[..|s| - 1]);
    }
  }

  /** A rejected beginning rejects the string. */
  lemma RejectedEarly(s: Text, n: nat)
    requires n <= |s| && Run(Start, s[..n]) == Rejected
    ensures Run(Start, s) == Rejected
  {
    assert s == s[..n] + s[n..];
    RunAppend(Start, s[..n], s[n..]);
    RejectedStays(s[n..]);
  }

  method IsNumericLiteral(str: Text) returns (numeric: bool)
    ensures numeric <==> IsNumber(str)
  {
    var state := Start;
    var i := 0;
    AutomatonExact(str);
    while i < |str|
      invariant 0 <= i <= |str|
      invariant state == Run(Start, str[..i])
    {
      state := Delta(state, str[i]);
      assert str[..i + 1][..i] == str[..i];
      if state == Rejected {
        RejectedEarly(str, i + 1);
        return false;
      }
      i := i + 1;
    }
    assert str[..|str|] == str;
    return Accepting(state);
  }

  // ---------------------------------------------------------------- quoted or verbatim

  const TRUE: Text := [116, 114, 117, 101]
  const FALSE: Text := [102, 97, 108, 115, 101]
  const NULL: Text := [110, 117, 108, 108]

  /** The bytes that the grammar and the literals are made of. */
  lemma GrammarBytes(b: byte)
    ensures IsDigit(b) <==> '0' as int <= b <= '9' as int
    ensures IsE(b) <==> b == 'e' as int || b == 'E' as int
    ensures IsSign(b) <==> b == '+' as int || b == '-' as int
    ensures [MINUS] == Ascii("-") && [DOT] == Ascii(".") && [ZERO] == Ascii("0")
    ensures TRUE == Ascii("true") && FALSE == Ascii("false") && NULL == Ascii("null")
  {
  }

  /** The values that the prefix encoder writes without quotes. */
  ghost predicate IsLiteral(s: Text) {
    s == TRUE || s == FALSE || s == NULL || IsNumber(s)
  }

  lemma NumberStarts(s: Text)
    requires IsNumber(s)
    ensures s != [] && (s[0] == MINUS || IsDigit(s[0]))
  {
    var minus, int_, frac, exp :| Parts(s, minus, int_, frac, exp);
    assert s[0] == if minus == [] then int_[0] else MINUS;
  }

  method IsStringLiteral(str: Text) returns (quoted: bool)
    ensures quoted <==> !IsLiteral(str)
  {
    if IsNumber(str) {
      NumberStarts(str);
    }
    if |str| == 0 {
      return true;
    }
    var ch := str[0];
    if ch == 116 && |str| == 4 {
      return str != TRUE;
    }
    if ch == 102 && |str| == 5 {
      return str != FALSE;
    }
    if ch == 110 && |str| == 4 {
      return str != NULL;
    }
    if ch == MINUS || IsDigit(ch) {
      var numeric := IsNumericLiteral(str);
      return !numeric;
    }
    return true;
  }

  /** A byte that may occur in a literal: its escape is itself, and it ends no member. */
  predicate IsPlain(b: byte) {
    IsDigit(b) || IsE(b) || IsSign(b) || b == DOT || 97 <= b <= 122
  }

  lemma LiteralIsPlain(s: Text)
    requires IsLiteral(s)
    ensures s != [] && forall i :: 0 <= i < |s| ==> IsPlain(s[i])
  {
    if IsNumber(s) {
      NumberStarts(s);
      var minus, int_, frac, exp :| Parts(s, minus, int_, frac, exp);
      AllPlain(minus, int_, frac, exp);
    }
  }

  lemma AllPlain(minus: Text, int_: Text, frac: Text, exp: Text)
    requires IsMinus(minus) && IsInt(int_) && (frac == [] || IsFrac(frac)) && (exp == [] || IsExp(exp))
    ensures var s := minus + int_ + frac + exp; forall i :: 0 <= i < |s| ==> IsPlain(s[i])
  {
    assert forall i :: 0 < i < |frac| ==> frac[i] == frac[1..][i - 1];
    assert forall i :: 0 < i < |exp| ==> exp[i] == exp[1..][i - 1];
    assert forall i :: 1 < i < |exp| ==> exp[i] == exp[2..][i - 2];
  }
}
