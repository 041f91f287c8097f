/**
 How src/writer.c uses the short-write loop: one vector of prefix, value and postfix is built once
 and reused for every record, with only the length of its value entry set again.
 */
module RecordOutput {
  import opened Bytes
  import opened JsonString
  import opened Framing
  import opened VectoredWrite

  // ---------------------------------------------------------------- the vector from record to record

  /** The vector as the writer means it for a record whose encoding has `size` bytes. */
  function Vector(prefix: Text, size: nat): seq<Iov> {
    [Iov(0, |prefix|), Iov(0, size), Iov(0, |POSTFIX|)]
  }

  /** The vector as it is handed over: of all that earlier writes left, only the value length is set again. */
  function Offered(v: seq<Iov>, size: nat): (o: seq<Iov>)
    requires |v| == 3
    ensures |o| == 3
  {
    v[1 := Iov(v[1].base, size)]
  }

  /** The vector that the write of one record leaves. */
  function After(v: seq<Iov>, size: nat, answers: seq<Answer>): (w: seq<Iov>)
    requires |v| == 3
    ensures |w| == 3
  {
    var o := Offered(v, size);
    Edited(o, Run(answers, 0, Rest(o, 0), true).stops)
  }

  /** What the kernel answers while record `i` is written; nothing more once the script is used up. */
  function AnswersFor(script: seq<seq<Answer>>, i: nat): seq<Answer> {
    if i < |script| then script[i] else []
  }

  /** Nothing of the prefix, the value buffer and the postfix is missing. */
  predicate Intact(prefix: Text, v: seq<Iov>)
    requires |v| == 3
  {
    v[0] == Iov(0, |prefix|) && v[1].base == 0 && v[2] == Iov(0, |POSTFIX|)
  }

  predicate EndsCut(v: seq<Iov>)
    requires |v| == 3
  {
    v[0].base > 0 || v[2].base > 0
  }

  /** Prefix and postfix may have lost their front, never their end. */
  predicate Worn(prefix: Text, v: seq<Iov>)
    requires |v| == 3
  {
    v[0].base + v[0].len == |prefix| && v[2].base + v[2].len == |POSTFIX|
  }

  /** No accepted count cuts an element while this record is written from an intact vector. */
  ghost predicate Clean(prefix: Text, r: Text, answers: seq<Answer>) {
    var iov := Vector(prefix, |Encoding(r)|);
    forall j :: 0 <= j < 3 ==> Uncut(iov, j, Run(answers, 0, Rest(iov, 0), true).stops)
  }

  /** The first `n` records were written clean. */
  ghost predicate AllClean(prefix: Text, records: seq<Text>, script: seq<seq<Answer>>, n: int) {
    forall i :: 0 <= i < n && i < |records| ==> Clean(prefix, records[i], AnswersFor(script, i))
  }

  /** What a write takes from the front of the prefix, the buffer or the postfix never comes back. */
  lemma AfterWorn(prefix: Text, v: seq<Iov>, size: nat, answers: seq<Answer>)
    requires |v| == 3 && Worn(prefix, v)
    ensures var w := After(v, size, answers);
      && Worn(prefix, w) && (Intact(prefix, w) ==> Intact(prefix, v)) && (EndsCut(v) ==> EndsCut(w))
  {
    var o := Offered(v, size);
    var stops := Run(answers, 0, Rest(o, 0), true).stops;
    var w := After(v, size, answers);
    assert w[0] == EditedBy(o, 0, stops) && w[1] == EditedBy(o, 1, stops) && w[2] == EditedBy(o, 2, stops);
  }

  lemma AfterIntact(prefix: Text, v: seq<Iov>, r: Text, answers: seq<Answer>)
    requires |v| == 3 && Intact(prefix, v)
    ensures Intact(prefix, After(v, |Encoding(r)|, answers)) <==> Clean(prefix, r, answers)
  {
    var o := Offered(v, |Encoding(r)|);
    assert o == Vector(prefix, |Encoding(r)|);
    var stops := Run(answers, 0, Rest(o, 0), true).stops;
    forall j | 0 <= j < 3
      ensures After(v, |Encoding(r)|, answers)[j] == EditedBy(o, j, stops)
      ensures Moved(o, j, stops) == 0 <==> Uncut(o, j, stops)
    {
      MovedByCuts(o, j, stops);
    }
  }

  // ---------------------------------------------------------------- what the vector offers

  lemma VectorRest(iov: seq<Iov>)
    requires |iov| == 3
    ensures Rest(iov, 2) == iov[2].len
    ensures Rest(iov, 1) == iov[1].len + iov[2].len
    ensures Rest(iov, 0) == iov[0].len + iov[1].len + iov[2].len
  {
    assert Rest(iov, 3) == 0;
  }

  /** The value buffer, of the writer's own size, with a record's encoding at its front. */
  ghost predicate Ready(chunk: nat, r: Text, buffer: Text) {
    |r| <= chunk && |buffer| == chunk * ESCAPE_MUL && Encoding(r) <= buffer
  }

  /** The vector lies within the buffers, and its bytes are the record's frame. */
  ghost predicate Offers(prefix: Text, v: seq<Iov>, buffer: Text, r: Text)
    requires |v| == 3
  {
    var mem, o := [prefix, buffer, POSTFIX], Offered(v, |Encoding(r)|);
    InBounds(mem, o) && Gather(mem, o, 0) == Frame(prefix, r)
  }

  ghost predicate GivesFrames(chunk: nat, prefix: Text, v: seq<Iov>)
    requires |v| == 3
  {
    forall r, buffer :: Ready(chunk, r, buffer) ==> Offers(prefix, v, buffer, r)
  }

  lemma VectorGathers(mem: seq<Text>, iov: seq<Iov>)
    requires |iov| == 3 && InBounds(mem, iov)
    ensures Gather(mem, iov, 0) == Element(mem[0], iov[0]) + Element(mem[1], iov[1]) + Element(mem[2], iov[2])
  {
    assert Gather(mem, iov, 3) == [];
    assert Gather(mem, iov, 2) == Element(mem[2], iov[2]);
    assert Gather(mem, iov, 1) == Element(mem[1], iov[1]) + Element(mem[2], iov[2]);
    Assoc(Element(mem[0], iov[0]), Element(mem[1], iov[1]), Element(mem[2], iov[2]));
  }

  lemma IntactOffers(prefix: Text, v: seq<Iov>, buffer: Text, r: Text)
    requires |v| == 3 && Intact(prefix, v) && Encoding(r) <= buffer
    ensures Offers(prefix, v, buffer, r)
  {
    var mem, o := [prefix, buffer, POSTFIX], Offered(v, |Encoding(r)|);
    VectorGathers(mem, o);
    assert Element(prefix, o[0]) == prefix && Element(POSTFIX, o[2]) == POSTFIX;
    assert Element(buffer, o[1]) == Encoding(r);
  }

  /** A cut prefix or postfix shortens every frame. */
  lemma EndsCutShorten(prefix: Text, v: seq<Iov>, buffer: Text, r: Text)
    requires |v| == 3 && Worn(prefix, v)
    requires InBounds([prefix, buffer, POSTFIX], Offered(v, |Encoding(r)|))
    ensures var bytes := Gather([prefix, buffer, POSTFIX], Offered(v, |Encoding(r)|), 0);
      |bytes| <= |Frame(prefix, r)| && (|bytes| == |Frame(prefix, r)| <==> !EndsCut(v))
  {
    VectorRest(Offered(v, |Encoding(r)|));
  }

  const LETTER_A: byte := 65
  const LETTER_B: byte := 66
  const LETTER_C: byte := 67

  lemma PlainByte(b: byte)
    requires LETTER_A <= b <= LETTER_C
    ensures Encoding([b]) == [b]
  {
    assert [b][1..] == [];
  }

  /** A moved value entry shows other bytes than the record's. */
  lemma ValueMoved(chunk: nat, prefix: Text, v: seq<Iov>) returns (r: Text, buffer: Text)
    requires |v| == 3 && Worn(prefix, v) && v[1].base > 0 && chunk > 0
    ensures Ready(chunk, r, buffer) && !Offers(prefix, v, buffer, r)
  {
    r, buffer := [LETTER_A], seq(chunk * ESCAPE_MUL, i => if i == 0 then LETTER_A else LETTER_B);
    PlainByte(LETTER_A);
    var mem, o := [prefix, buffer, POSTFIX], Offered(v, 1);
    if InBounds(mem, o) && !EndsCut(v) {
      VectorGathers(mem, o);
      assert Gather(mem, o, 0)[|prefix|] == LETTER_B;
      assert Frame(prefix, r)[|prefix|] == LETTER_A;
    } else if InBounds(mem, o) {
      EndsCutShorten(prefix, v, buffer, r);
    }
  }

  lemma FramesExactly(chunk: nat, prefix: Text, v: seq<Iov>)
    requires |v| == 3 && Worn(prefix, v) && chunk > 0
    ensures GivesFrames(chunk, prefix, v) <==> Intact(prefix, v)
  {
    if Intact(prefix, v) {
      forall r, buffer | Ready(chunk, r, buffer)
        ensures Offers(prefix, v, buffer, r)
      {
        IntactOffers(prefix, v, buffer, r);
      }
    } else if v[1].base > 0 {
      var r, buffer := ValueMoved(chunk, prefix, v);
    } else {
      var buffer: Text := seq(chunk * ESCAPE_MUL, _ => 0);
      assert Ready(chunk, [], buffer);
      if Offers(prefix, v, buffer, []) {
        EndsCutShorten(prefix, v, buffer, []);
      }
    }
  }

  // ---------------------------------------------------------------- a run of writes

  /** How the write of one record ends; past the end of its value buffer the source's behaviour is undefined. */
  datatype End = Returned(outcome: Outcome) | PastBuffer

  function EndOf(v: seq<Iov>, size: nat, capacity: nat, answers: seq<Answer>): End
    requires |v| == 3
  {
    if v[1].base + size > capacity then PastBuffer
    else Returned(Run(answers, 0, Rest(Offered(v, size), 0), true).outcome)
  }

  /** `base` with `bytes` written over its front. */
  function Overlay(base: Text, bytes: Text): (r: Text)
    ensures bytes <= r && (|bytes| <= |base| ==> |r| == |base|)
  {
    bytes + if |bytes| <= |base| then base[|bytes|..] else []
  }

  /** The bytes that a vector shows for a value of `size` bytes in the buffer. */
  function Shown(prefix: Text, buffer: Text, v: seq<Iov>, size: nat): Text
    requires |v| == 3
  {
    var mem, o := [prefix, buffer, POSTFIX], Offered(v, size);
    if InBounds(mem, o) then Gather(mem, o, 0) else []
  }

  /** What the writer keeps between two records: its vector and its value buffer; and its output so far. */
  datatype Sink = Sink(vector: seq<Iov>, buffer: Text, output: Text)

  /** A record is written to its end. */
  ghost predicate Writes(prefix: Text, s: Sink, r: Text, answers: seq<Answer>, s': Sink) {
    var n, buffer := |Encoding(r)|, Overlay(s.buffer, Encoding(r));
    && |s.vector| == 3 && EndOf(s.vector, n, |s.buffer|, answers) == Returned(Done)
    && s' == Sink(After(s.vector, n, answers), buffer, s.output + Shown(prefix, buffer, s.vector, n))
  }

  /** The write of a record does not come to its end; it sent `part`. */
  ghost predicate Stops(prefix: Text, s: Sink, r: Text, answers: seq<Answer>, part: Text) {
    var n := |Encoding(r)|;
    && |s.vector| == 3 && EndOf(s.vector, n, |s.buffer|, answers) != Returned(Done)
    && part <= Shown(prefix, Overlay(s.buffer, Encoding(r)), s.vector, n)
  }

  /** The records are written one after the other; `run[i]` is what the writer has before record `i`. */
  ghost predicate IsRun(prefix: Text, records: seq<Text>, script: seq<seq<Answer>>, run: seq<Sink>) {
    && |run| == |records| + 1 && run[0].vector == Vector(prefix, 0) && run[0].output == []
    && forall i :: 0 <= i < |records| ==> Writes(prefix, run[i], records[i], AnswersFor(script, i), run[i + 1])
  }

  /** Each write leaves the vector intact exactly if it was and the write is clean. */
  lemma WriteVector(prefix: Text, s: Sink, r: Text, answers: seq<Answer>, s': Sink)
    requires Writes(prefix, s, r, answers, s') && Worn(prefix, s.vector)
    ensures |s'.vector| == 3 && Worn(prefix, s'.vector) && (EndsCut(s.vector) ==> EndsCut(s'.vector))
    ensures Intact(prefix, s'.vector) <==> Intact(prefix, s.vector) && Clean(prefix, r, answers)
  {
    AfterWorn(prefix, s.vector, |Encoding(r)|, answers);
    if Intact(prefix, s.vector) {
      AfterIntact(prefix, s.vector, r, answers);
    }
  }

  lemma CleanNext(prefix: Text, records: seq<Text>, script: seq<seq<Answer>>, n: nat)
    requires n < |records|
    ensures AllClean(prefix, records, script, n + 1) <==>
      AllClean(prefix, records, script, n) && Clean(prefix, records[n], AnswersFor(script, n))
  {
  }

  lemma {:induction false} RunVectors(prefix: Text, records: seq<Text>, script: seq<seq<Answer>>, run: seq<Sink>,
                                      n: nat)
    requires IsRun(prefix, records, script, run) && n <= |records|
    ensures |run[n].vector| == 3 && Worn(prefix, run[n].vector)
    ensures Intact(prefix, run[n].vector) <==> AllClean(prefix, records, script, n)
  {
    if n > 0 {
      RunVectors(prefix, records, script, run, n - 1);
      WriteVector(prefix, run[n - 1], records[n - 1], AnswersFor(script, n - 1), run[n]);
      CleanNext(prefix, records, script, n - 1);
    }
  }

  /**
   The vector after the first `n` records of a run gives every later record its frame, whatever the
   value buffer holds beyond it, if and only if no accepted count has cut an element.
   */
  lemma ReuseExactly(chunk: nat, prefix: Text, records: seq<Text>, script: seq<seq<Answer>>, run: seq<Sink>, n: nat)
    requires chunk > 0 && IsRun(prefix, records, script, run) && n <= |records|
    ensures |run[n].vector| == 3
    ensures GivesFrames(chunk, prefix, run[n].vector) <==> AllClean(prefix, records, script, n)
  {
    RunVectors(prefix, records, script, run, n);
    FramesExactly(chunk, prefix, run[n].vector);
  }

  /** An intact vector shows the frame of the next record. */
  lemma ShowsFrame(prefix: Text, v: seq<Iov>, base: Text, r: Text)
    requires |v| == 3 && Intact(prefix, v)
    ensures Shown(prefix, Overlay(base, Encoding(r)), v, |Encoding(r)|) == Frame(prefix, r)
  {
    IntactOffers(prefix, v, Overlay(base, Encoding(r)), r);
  }

  lemma WriteFrame(prefix: Text, s: Sink, r: Text, answers: seq<Answer>, s': Sink)
    requires Writes(prefix, s, r, answers, s') && Intact(prefix, s.vector)
    ensures s'.output == s.output + Frame(prefix, r)
  {
    ShowsFrame(prefix, s.vector, s.buffer, r);
  }

  lemma FramedNext(prefix: Text, records: seq<Text>, n: nat)
    requires n < |records|
    ensures Framed(prefix, records[..n + 1]) == Framed(prefix, records[..n]) + Frame(prefix, records[n])
  {
    assert records[..n + 1][..n] == records[..n];
  }

  /** If the first `n` records but the last of them were written clean, their output is their frames. */
  lemma {:induction false} CleanOutput(prefix: Text, records: seq<Text>, script: seq<seq<Answer>>, run: seq<Sink>,
                                       n: nat)
    requires IsRun(prefix, records, script, run) && n <= |records|
    requires AllClean(prefix, records, script, n - 1)
    ensures run[n].output == Framed(prefix, records[..n])
  {
    if n > 0 {
      CleanOutput(prefix, records, script, run, n - 1);
      RunVectors(prefix, records, script, run, n - 1);
      WriteFrame(prefix, run[n - 1], records[n - 1], AnswersFor(script, n - 1), run[n]);
      FramedNext(prefix, records, n - 1);
    }
  }

  lemma {:induction false} OutputGrows(prefix: Text, records: seq<Text>, script: seq<seq<Answer>>, run: seq<Sink>,
                                       m: nat, n: nat)
    requires IsRun(prefix, records, script, run) && m <= n <= |records|
    ensures run[m].output <= run[n].output
  {
    if m < n {
      OutputGrows(prefix, records, script, run, m, n - 1);
      assert Writes(prefix, run[n - 1], records[n - 1], AnswersFor(script, n - 1), run[n]);
    }
  }

  /** Whatever happens later, the output begins with the frames of the records up to the first that is not clean. */
  lemma FramesStay(prefix: Text, records: seq<Text>, script: seq<seq<Answer>>, run: seq<Sink>, m: nat, n: nat)
    requires IsRun(prefix, records, script, run) && m <= n <= |records|
    requires AllClean(prefix, records, script, m - 1)
    ensures Framed(prefix, records[..m]) <= run[n].output
  {
    CleanOutput(prefix, records, script, run, m);
    OutputGrows(prefix, records, script, run, m, n);
  }

  /** What a failing write sends is a part of its frame, if all before it were clean. */
  lemma PartOfFrame(prefix: Text, records: seq<Text>, script: seq<seq<Answer>>, run: seq<Sink>, r: Text, part: Text)
    requires IsRun(prefix, records, script, run) && AllClean(prefix, records, script, |records|)
    requires Stops(prefix, run[|records|], r, AnswersFor(script, |records|), part)
    ensures part <= Frame(prefix, r)
  {
    RunVectors(prefix, records, script, run, |records|);
    ShowsFrame(prefix, run[|records|].vector, run[|records|].buffer, r);
  }

  lemma OfferedInBounds(prefix: Text, v: seq<Iov>, buffer: Text, size: nat)
    requires |v| == 3 && Worn(prefix, v) && v[1].base + size <= |buffer|
    ensures InBounds([prefix, buffer, POSTFIX], Offered(v, size))
  {
  }

  /** What a write adds has the size of the frame exactly if its vector has prefix and postfix whole. */
  lemma WriteSize(prefix: Text, s: Sink, r: Text, answers: seq<Answer>, s': Sink)
    requires Writes(prefix, s, r, answers, s') && Worn(prefix, s.vector)
    ensures |s'.output| <= |s.output| + |Frame(prefix, r)|
    ensures |s'.output| == |s.output| + |Frame(prefix, r)| <==> !EndsCut(s.vector)
  {
    var buffer := Overlay(s.buffer, Encoding(r));
    OfferedInBounds(prefix, s.vector, buffer, |Encoding(r)|);
    EndsCutShorten(prefix, s.vector, buffer, r);
  }

  /** The output of the first `n` records is as long as their frames exactly if no prefix or postfix was cut. */
  ghost predicate Sized(prefix: Text, records: seq<Text>, run: seq<Sink>, n: nat)
    requires n <= |records| == |run| - 1
  {
    && |run[n].output| <= |Framed(prefix, records[..n])|
    && (n > 0 ==> |run[n - 1].vector| == 3)
    && (n > 0 ==> (|run[n].output| == |Framed(prefix, records[..n])| <==> !EndsCut(run[n - 1].vector)))
  }

  lemma EndsCutNext(prefix: Text, records: seq<Text>, script: seq<seq<Answer>>, run: seq<Sink>, n: nat)
    requires IsRun(prefix, records, script, run) && n < |records|
    ensures |run[n].vector| == |run[n + 1].vector| == 3 && (EndsCut(run[n].vector) ==> EndsCut(run[n + 1].vector))
  {
    RunVectors(prefix, records, script, run, n);
    WriteVector(prefix, run[n], records[n], AnswersFor(script, n), run[n + 1]);
  }

  lemma {:induction false} OutputSize(prefix: Text, records: seq<Text>, script: seq<seq<Answer>>, run: seq<Sink>,
                                      n: nat)
    requires IsRun(prefix, records, script, run) && n <= |records|
    ensures Sized(prefix, records, run, n)
  {
    if n > 0 {
      OutputSize(prefix, records, script, run, n - 1);
      RunVectors(prefix, records, script, run, n - 1);
      WriteSize(prefix, run[n - 1], records[n - 1], AnswersFor(script, n - 1), run[n]);
      FramedNext(prefix, records, n - 1);
      if n > 1 {
        EndsCutNext(prefix, records, script, run, n - 2);
      }
    }
  }

  lemma {:induction false} EndsStayCut(prefix: Text, records: seq<Text>, script: seq<seq<Answer>>, run: seq<Sink>,
                                       i: nat, n: nat)
    requires IsRun(prefix, records, script, run) && i <= n <= |records|
    requires |run[i].vector| == 3 && EndsCut(run[i].vector)
    ensures |run[n].vector| == 3 && EndsCut(run[n].vector)
  {
    if i < n {
      EndsStayCut(prefix, records, script, run, i, n - 1);
      EndsCutNext(prefix, records, script, run, n - 1);
    }
  }

  /** Once a count has cut the prefix or the postfix, the records after it are never all written whole again. */
  lemma CutSpoilsLaterRecords(prefix: Text, records: seq<Text>, script: seq<seq<Answer>>, run: seq<Sink>, i: nat,
                              n: nat)
    requires IsRun(prefix, records, script, run) && i < n <= |records|
    requires |run[i].vector| == 3 && EndsCut(run[i].vector)
    ensures |run[n].output| < |Framed(prefix, records[..n])|
  {
    EndsStayCut(prefix, records, script, run, i, n - 1);
    OutputSize(prefix, records, script, run, n);
  }

  // ---------------------------------------------------------------- a value entry cut once

  const AB: Text := [LETTER_A, LETTER_B]
  const B: Text := [LETTER_B]
  const C: Text := [LETTER_C]

  /** The kernel takes the prefix and one byte of the first value, then all it is given. */
  function CutValue(prefix: Text): seq<seq<Answer>> {
    var all := Accept(|prefix| + |AB| + |POSTFIX|);
    [[Accept(|prefix| + 1), all], [all]]
  }

  lemma RunWhole(n: nat, sent: nat, total: nat)
    requires sent < total <= sent + n
    ensures Run([Accept(n)], sent, total, true) == Trace([total], Done)
  {
    assert [Accept(n)][1..] == [];
    assert Run([], total, total, false) == Trace([], Done);
  }

  lemma RunCut(first: nat, n: nat, total: nat)
    requires 0 < first < total <= first + n
    ensures Run([Accept(first), Accept(n)], 0, total, true) == Trace([first, total], Done)
  {
    assert [Accept(first), Accept(n)][1..] == [Accept(n)];
    RunWhole(n, first, total);
  }

  /** The stop inside the value moves that element by one byte, and the next stop moves nothing. */
  lemma ValueEdited(prefix: Text)
    ensures Edited(Vector(prefix, 2), [|prefix| + 1, |prefix| + 5]) == CutVector(prefix)
  {
    var o, p := Vector(prefix, 2), |prefix|;
    VectorRest(o);
    var none: seq<nat> := [];
    assert Moved(o, 0, none) == Moved(o, 1, none) == Moved(o, 2, none) == 0;
    MovedNext(o, 0, none, p + 1);
    MovedNext(o, 1, none, p + 1);
    MovedNext(o, 2, none, p + 1);
    assert none + [p + 1] == [p + 1] && [p + 1] + [p + 5] == [p + 1, p + 5];
    MovedNext(o, 0, [p + 1], p + 5);
    MovedNext(o, 1, [p + 1], p + 5);
    MovedNext(o, 2, [p + 1], p + 5);
  }

  function CutVector(prefix: Text): seq<Iov> {
    [Iov(0, |prefix|), Iov(1, 1), Iov(0, |POSTFIX|)]
  }

  lemma PlainBytes()
    ensures Encoding(AB) == AB && Encoding(B) == B && Encoding(C) == C
  {
    PlainByte(LETTER_B);
    PlainByte(LETTER_C);
    assert AB[1..] == B;
  }

  lemma FirstIsCut(prefix: Text)
    ensures var answers := CutValue(prefix)[0];
      && After(Vector(prefix, 0), 2, answers) == CutVector(prefix)
      && EndOf(Vector(prefix, 0), 2, 2 * ESCAPE_MUL, answers) == Returned(Done)
  {
    assert Offered(Vector(prefix, 0), 2) == Vector(prefix, 2);
    VectorRest(Vector(prefix, 2));
    RunCut(|prefix| + 1, |prefix| + 5, |prefix| + 5);
    ValueEdited(prefix);
  }

  lemma SecondIsWhole(prefix: Text)
    ensures EndOf(CutVector(prefix), 1, 2 * ESCAPE_MUL, CutValue(prefix)[1]) == Returned(Done)
  {
    VectorRest(Offered(CutVector(prefix), 1));
    RunWhole(|prefix| + 5, 0, |prefix| + 4);
  }

  /** What the second record shows: the second byte of the first. */
  lemma SecondShows(prefix: Text, base: Text)
    requires AB <= base
    ensures Shown(prefix, Overlay(base, C), CutVector(prefix), 1) == Frame(prefix, B)
  {
    PlainBytes();
    var buffer, o := Overlay(base, C), Offered(CutVector(prefix), 1);
    assert buffer[0] == LETTER_C && buffer[1] == LETTER_B;
    VectorGathers([prefix, buffer, POSTFIX], o);
    assert Element(prefix, o[0]) == prefix && Element(buffer, o[1]) == B && Element(POSTFIX, o[2]) == POSTFIX;
  }

  lemma FirstWrites(prefix: Text, s: Sink)
    requires s.vector == Vector(prefix, 0) && |s.buffer| == 2 * ESCAPE_MUL && s.output == []
    ensures Writes(prefix, s, AB, CutValue(prefix)[0],
                   Sink(CutVector(prefix), Overlay(s.buffer, AB), Frame(prefix, AB)))
  {
    PlainBytes();
    FirstIsCut(prefix);
    ShowsFrame(prefix, s.vector, s.buffer, AB);
    assert [] + Frame(prefix, AB) == Frame(prefix, AB);
  }

  lemma SecondWrites(prefix: Text, s: Sink)
    requires s.vector == CutVector(prefix) && |s.buffer| == 2 * ESCAPE_MUL && AB <= s.buffer
    ensures Writes(prefix, s, C, CutValue(prefix)[1],
                   Sink(After(s.vector, 1, CutValue(prefix)[1]), Overlay(s.buffer, C), s.output + Frame(prefix, B)))
  {
    PlainBytes();
    SecondIsWhole(prefix);
    SecondShows(prefix, s.buffer);
  }

  /** Both writes come to their end, and the second writes the frame of B. */
  lemma CutRun(prefix: Text, whole: nat, part: Text, run: seq<Sink>)
    requires whole <= 2 && IsRun(prefix, [AB, C][..whole], CutValue(prefix), run)
    requires |run[0].buffer| == 2 * ESCAPE_MUL
    requires whole < 2 ==> Stops(prefix, run[whole], [AB, C][whole], AnswersFor(CutValue(prefix), whole), part)
    ensures whole == 2 && run[2].output == Frame(prefix, AB) + Frame(prefix, B)
  {
    FirstWrites(prefix, run[0]);
    if whole > 0 {
      assert Writes(prefix, run[0], [AB, C][..whole][0], CutValue(prefix)[0], run[1]);
      SecondWrites(prefix, run[1]);
      if whole > 1 {
        assert Writes(prefix, run[1], [AB, C][..whole][1], CutValue(prefix)[1], run[2]);
      }
    }
  }

  /**
   A cut value entry shows in the next record: the two records AB and C are written without any
   error, and the output is the frames of AB and B.
   */
  method CutValueGarbles(prefix: Text) returns (output: Text)
    ensures output == Framed(prefix, [AB, B]) != Framed(prefix, [AB, C])
  {
    var part, whole;
    ghost var run;
    output, part, whole, run := WriteRecords(prefix, 2, [AB, C], CutValue(prefix));
    CutRun(prefix, whole, part, run);
    TwoFramed(prefix, AB, B);
    TwoFramed(prefix, AB, C);
    FramesDiffer(prefix, Frame(prefix, AB));
  }

  lemma TwoFramed(prefix: Text, x: Text, y: Text)
    ensures Framed(prefix, [x, y]) == Frame(prefix, x) + Frame(prefix, y)
  {
    assert [x, y][..1] == [x] && [x][..0] == [];
    assert Framed(prefix, [x]) == Frame(prefix, x);
  }

  lemma FramesDiffer(prefix: Text, before: Text)
    ensures before + Frame(prefix, B) != before + Frame(prefix, C)
  {
    PlainBytes();
    assert (before + Frame(prefix, B))[|before| + |prefix|] == LETTER_B;
    assert (before + Frame(prefix, C))[|before| + |prefix|] == LETTER_C;
  }

  // ---------------------------------------------------------------- the heap object

  /** What the short-write loop made of the vector, and which bytes it wrote. */
  lemma CallWrote(mem: seq<Text>, v: seq<Iov>, size: nat, answers: seq<Answer>, iov: seq<Iov>, outcome: Outcome,
                  out: Text)
    requires |v| == 3 && InBounds(mem, Offered(v, size))
    requires Written(mem, Offered(v, size), iov, answers, outcome, out)
    ensures iov == After(v, size, answers)
    ensures outcome == Run(answers, 0, Rest(Offered(v, size), 0), true).outcome
    ensures out <= Gather(mem, Offered(v, size), 0)
    ensures outcome == Done ==> out == Gather(mem, Offered(v, size), 0)
  {
    DoneSendsAll(answers, 0, Rest(Offered(v, size), 0), true);
  }

  lemma RunNextRecord(prefix: Text, records: seq<Text>, script: seq<seq<Answer>>, run: seq<Sink>, r: Text, s: Sink)
    requires IsRun(prefix, records, script, run)
    requires Writes(prefix, run[|records|], r, AnswersFor(script, |records|), s)
    ensures IsRun(prefix, records + [r], script, run + [s])
  {
    var all, run' := records + [r], run + [s];
    forall i | 0 <= i < |all|
      ensures Writes(prefix, run'[i], all[i], AnswersFor(script, i), run'[i + 1])
    {
      if i < |records| {
        assert run'[i] == run[i] && run'[i + 1] == run[i + 1] && all[i] == records[i];
      }
    }
  }

  /** The writer's vector, value buffer and output. */
  class RecordWriter {
    const chunkSize: nat
    const prefix: Text
    /** What the kernel will answer, record by record. */
    const script: seq<seq<Answer>>
    const encoded: array<byte>
    const iov: array<Iov>
    var written: nat
    var output: Text
    /** What was sent of a record whose write did not succeed; it follows `output`. */
    var part: Text
    ghost var records: seq<Text>
    ghost var run: seq<Sink>

    ghost function Value(): Sink
      reads this, encoded, iov
    {
      Sink(iov[..], encoded[..], output)
    }

    /** All of `records` were written, each as the vector left by those before it shows it. */
    ghost predicate Valid()
      reads this, encoded, iov
    {
      && encoded.Length == chunkSize * ESCAPE_MUL && written == |records|
      && IsRun(prefix, records, script, run) && Value() == run[written]
    }

    constructor (chunkSize: nat, prefix: Text, script: seq<seq<Answer>>)
      ensures Valid() && fresh(encoded) && fresh(iov) && records == [] && part == []
      ensures |run[0].buffer| == chunkSize * ESCAPE_MUL
      ensures this.chunkSize == chunkSize && this.prefix == prefix && this.script == script
    {
      this.chunkSize := chunkSize;
      this.prefix := prefix;
      this.script := script;
      encoded := new byte[chunkSize * ESCAPE_MUL];
      iov := new Iov[] [Iov(0, |prefix|), Iov(0, 0), Iov(0, |POSTFIX|)];
      written, output, part, records := 0, [], [], [];
      new;
      run := [Value()];
    }

    /** Encodes a record, which never truncates it. */
    method Encode(r: Text) returns (n: nat)
      requires encoded.Length == chunkSize * ESCAPE_MUL && |r| <= chunkSize
      modifies encoded
      ensures n == |Encoding(r)| <= encoded.Length
      ensures encoded[..] == Overlay(old(encoded[..]), Encoding(r))
    {
      AllFits(r, encoded.Length);
      assert r[..|r|] == r;
      n := EncodeValue(r, encoded, 0, encoded.Length);
    }

    /** Encodes a record into the value buffer, sets the length of the value entry and writes the vector. */
    method Send(r: Text, answers: seq<Answer>) returns (end: End, out: Text)
      requires encoded.Length == chunkSize * ESCAPE_MUL && |r| <= chunkSize
      requires iov.Length == 3 && Worn(prefix, iov[..])
      modifies encoded, iov
      ensures encoded[..] == Overlay(old(encoded[..]), Encoding(r))
      ensures end == EndOf(old(iov[..]), |Encoding(r)|, encoded.Length, answers)
      ensures end.Returned? ==> iov[..] == After(old(iov[..]), |Encoding(r)|, answers)
      ensures out <= Shown(prefix, encoded[..], old(iov[..]), |Encoding(r)|)
      ensures end == Returned(Done) ==> out == Shown(prefix, encoded[..], old(iov[..]), |Encoding(r)|)
    {
      ghost var v := iov[..];
      var n := Encode(r);
      iov[1] := Iov(iov[1].base, n);
      assert iov[..] == Offered(v, n);
      if iov[1].base + n > encoded.Length {
        return PastBuffer, [];
      }
      OfferedInBounds(prefix, v, encoded[..], n);
      var outcome;
      outcome, out := WriteV([prefix, encoded[..], POSTFIX], iov, answers);
      CallWrote([prefix, encoded[..], POSTFIX], v, n, answers, iov[..], outcome, out);
      end := Returned(outcome);
    }

    /** Writes the next record; what that adds to the output depends on the vector that earlier writes left. */
    method Write(r: Text) returns (ok: bool)
      requires Valid() && |r| <= chunkSize
      modifies this`written, this`output, this`part, this`records, this`run, encoded, iov
      ensures IsRun(prefix, records, script, run) && written == |records| && output == run[written].output
      ensures run[0] == old(run[0])
      ensures ok ==> Valid() && records == old(records) + [r] && part == old(part)
      ensures !ok ==> records == old(records) && Stops(prefix, run[|records|], r, AnswersFor(script, |records|), part)
    {
      ghost var s := Value();
      RunVectors(prefix, records, script, run, written);
      var end, out := Send(r, AnswersFor(script, written));
      ok := end == Returned(Done);
      if !ok {
        part := out;
        return;
      }
      output := output + out;
      assert Writes(prefix, s, r, AnswersFor(script, written), Value());
      RunNextRecord(prefix, records, script, run, r, Value());
      written, records, run := written + 1, records + [r], run + [Value()];
    }
  }

  /**
   Writes some records with one vector, whatever the kernel answers: all of them, or those before the
   first whose write does not succeed and a part of that one.
   */
  method WriteRecords(prefix: Text, chunk: nat, records: seq<Text>, script: seq<seq<Answer>>)
    returns (output: Text, part: Text, whole: nat, ghost run: seq<Sink>)
    requires forall i :: 0 <= i < |records| ==> |records[i]| <= chunk
    ensures whole <= |records| && IsRun(prefix, records[..whole], script, run)
    ensures |run[0].buffer| == chunk * ESCAPE_MUL && output == run[whole].output
    ensures whole == |records| ==> part == []
    ensures whole < |records| ==> Stops(prefix, run[whole], records[whole], AnswersFor(script, whole), part)
  {
    var w := new RecordWriter(chunk, prefix, script);
    for i := 0 to |records|
      invariant fresh(w) && fresh(w.encoded) && fresh(w.iov)
      invariant w.Valid() && w.records == records[..i] && w.part == []
      invariant w.chunkSize == chunk && w.prefix == prefix && w.script == script
      invariant |w.run[0].buffer| == chunk * ESCAPE_MUL
    {
      var ok := w.Write(records[i]);
      if !ok {
        return w.output, w.part, i, w.run;
      }
      assert records[..i + 1] == records[..i] + [records[i]];
    }
    return w.output, w.part, |records|, w.run;
  }
}
