/**
 From the arguments and the input to the bytes on the output: the fields and the prefix of
 src/worker.c and src/json.c, the writer on the blocks of a run of the pipeline, and the short-write
 loop under whatever the kernel answers.
 */
module Program {
  import opened Bytes
  import opened LineSplitting
  import opened Framing
  import opened JsonPrefix
  import opened Fields
  import opened RecordOutput
  import opened Pipeline
  import K = RingQueue
  import V = VectoredWrite
  import W = Writer

  /** Adds the field arguments to a new set; the first that is refused ends the program with its error. */
  method CollectFields(cap: nat, kvs: seq<Text>) returns (error: seq<Error>, fields: seq<Field>)
    ensures error == FirstError(cap, kvs)
    ensures error == [] ==> fields == AddAll(cap, kvs)
  {
    var all := new FieldSet(cap);
    for i := 0 to |kvs|
      invariant fresh(all) && fresh(all.fields) && all.Valid() && all.cap == cap
      invariant all.Contents() == AddAll(cap, kvs[..i]) && FirstError(cap, kvs[..i]) == []
    {
      error := all.Add(kvs[i]);
      assert kvs[..i + 1][..i] == kvs[..i];
      if error != [] {
        FirstErrorStays(cap, kvs, i + 1);
        return error, [];
      }
    }
    assert kvs[..|kvs|] == kvs;
    return [], all.fields[..all.len];
  }

  lemma {:induction false} FirstErrorStays(cap: nat, kvs: seq<Text>, n: nat)
    requires n <= |kvs| && FirstError(cap, kvs[..n]) != []
    ensures FirstError(cap, kvs) == FirstError(cap, kvs[..n])
  {
    if n == |kvs| {
      assert kvs[..n] == kvs;
    } else {
      assert kvs[..|kvs| - 1][..n] == kvs[..n];
      FirstErrorStays(cap, kvs[..|kvs| - 1], n);
    }
  }

  /**
   What the output tells: if no accepted count cut an element before the last record written, exactly
   the first `whole` of the expected records. If a write failed, it was that of the next of them, and
   if all before it were clean, what it sent is a part of its frame.
   */
  ghost predicate Tells(prefix: Text, expected: seq<Text>, script: seq<seq<V.Answer>>, ok: bool, whole: nat,
                        output: Text, part: Text)
  {
    && whole <= |expected|
    && (AllClean(prefix, expected, script, whole - 1) ==> Recover(prefix, output) == Some(expected[..whole]))
    && (ok ==> part == [])
    && (!ok ==> whole < |expected|)
    && (!ok && AllClean(prefix, expected, script, whole) ==> part <= Frame(prefix, expected[whole]))
  }

  lemma WholeTells(fields: seq<Field>, expected: seq<Text>, script: seq<seq<V.Answer>>, run: seq<Sink>, n: nat)
    requires forall i :: 0 <= i < |fields| ==> IsKey(fields[i].key)
    requires n <= |expected| && IsRun(Prefix(fields), expected[..n], script, run)
    ensures Tells(Prefix(fields), expected, script, true, n, run[n].output, [])
  {
    if AllClean(Prefix(fields), expected, script, n - 1) {
      RecoversPart(fields, expected, n, script, run);
    }
  }

  lemma PartTells(fields: seq<Field>, expected: seq<Text>, script: seq<seq<V.Answer>>, run: seq<Sink>, n: nat,
                  part: Text)
    requires forall i :: 0 <= i < |fields| ==> IsKey(fields[i].key)
    requires n < |expected| && IsRun(Prefix(fields), expected[..n], script, run)
    requires Stops(Prefix(fields), run[n], expected[n], AnswersFor(script, n), part)
    ensures Tells(Prefix(fields), expected, script, false, n, run[n].output, part)
  {
    WholeTells(fields, expected, script, run, n);
    if AllClean(Prefix(fields), expected, script, n) {
      assert AllClean(Prefix(fields), expected[..n], script, n);
      PartOfFrame(Prefix(fields), expected[..n], script, run, expected[n], part);
    }
  }

  /** The writer thread on some blocks, from an empty output. */
  method WriteBlocks(chunk: nat, prefix: Text, blocks: seq<Text>, script: seq<seq<V.Answer>>)
    returns (ok: bool, whole: nat, output: Text, part: Text, ghost run: seq<Sink>)
    requires chunk > 0 && forall i :: 0 <= i < |blocks| ==> |blocks[i]| <= chunk
    ensures var all := FeedBlocks(chunk, blocks).records;
      && whole <= |all| && (ok <==> whole == |all|)
      && IsRun(prefix, all[..whole], script, run) && output == run[whole].output
      && (ok ==> part == [])
      && (!ok ==> Stops(prefix, run[whole], all[whole], AnswersFor(script, whole), part))
  {
    var sink := new RecordWriter(chunk, prefix, script);
    var writer := new W.Writer(chunk, sink);
    ok := writer.Produce(blocks);
    ghost var all := FeedBlocks(chunk, blocks).records;
    assert sink.records == all[..|sink.records|];
    run := sink.run;
    return ok, sink.written, sink.output, sink.part, run;
  }

  /**
   The program, after any schedule of its threads: refused arguments end it without output; otherwise,
   whatever the fields, the policy, the reads, the interleaving, who finalized and what the kernel
   answers to `writev`, the bytes that the writer sends for the blocks committed so far are those of a
   run of writes of all their records, or of those before the first whose write stops. They tell the
   first of the expected records; when the run has completed the blocks give all of them.
   */
  method WriteOutput(chunk: nat, input: Text, capacity: nat, policy: K.Policy, schedule: seq<Action>,
                     cap: nat, kvs: seq<Text>, script: seq<seq<V.Answer>>)
    returns (error: seq<Error>, ok: bool, whole: nat, output: Text, part: Text, ghost run: seq<Sink>)
    requires chunk > 0 && capacity > 0
    requires Regular(chunk, Source(input, Run(chunk, input, Init(capacity, policy), schedule)))
    ensures error == FirstError(cap, kvs)
    ensures error != [] ==> output == part == []
    ensures error == [] ==>
      var s := Run(chunk, input, Init(capacity, policy), schedule);
      var expected := Expected(chunk, Source(input, s));
      var prefix, records := Prefix(AddAll(cap, kvs)), FeedBlocks(chunk, s.q.committed).records;
      && whole <= |records| <= |expected| && (ok <==> whole == |records|)
      && IsRun(prefix, expected[..whole], script, run) && output == run[whole].output
      && (!ok ==> Stops(prefix, run[whole], expected[whole], AnswersFor(script, whole), part))
      && Tells(prefix, expected, script, ok, whole, output, part)
      && (Completed(s) ==> records == expected)
  {
    ok, whole, output, part, run := false, 0, [], [], [];
    var fields;
    error, fields := CollectFields(cap, kvs);
    if error != [] {
      return;
    }
    var text, len := PrefixEncoder(fields);
    var s := Run(chunk, input, Init(capacity, policy), schedule);
    BlocksGive(chunk, input, capacity, policy, schedule);
    ok, whole, output, part, run := WriteBlocks(chunk, text[..len], s.q.committed, script);
    ghost var expected := Expected(chunk, Source(input, s));
    FieldsAreValid(cap, kvs);
    FrontOf(FeedBlocks(chunk, s.q.committed).records, expected, whole);
    if ok {
      WholeTells(fields, expected, script, run, whole);
    } else {
      PartTells(fields, expected, script, run, whole, part);
    }
  }

  lemma FrontOf(xs: seq<Text>, ys: seq<Text>, n: nat)
    requires xs <= ys && n <= |xs|
    ensures xs[..n] == ys[..n] && (n < |xs| ==> xs[n] == ys[n])
  {
  }

  lemma BlocksGive(chunk: nat, input: Text, capacity: nat, policy: K.Policy, schedule: seq<Action>)
    requires chunk > 0 && capacity > 0
    requires Regular(chunk, Source(input, Run(chunk, input, Init(capacity, policy), schedule)))
    ensures var s := Run(chunk, input, Init(capacity, policy), schedule);
      var expected := Expected(chunk, Source(input, s));
      && (forall i :: 0 <= i < |s.q.committed| ==> |s.q.committed[i]| <= chunk)
      && FeedBlocks(chunk, s.q.committed).records <= expected
      && (Completed(s) ==> FeedBlocks(chunk, s.q.committed).records == expected)
  {
    WrittenSoFar(chunk, input, capacity, policy, schedule);
    if Completed(Run(chunk, input, Init(capacity, policy), schedule)) {
      EndToEnd(chunk, input, capacity, policy, schedule);
      CompletedRun(chunk, input, capacity, policy, schedule);
    }
  }
}
