/**
 The writer of src/writer.c: for each block popped from the queue, its inner loop finds newlines,
 assembles lines across blocks in the overflow buffer, and encodes and writes each record.
 */
module Writer {
  import opened Bytes
  import opened LineSplitting
  import opened RecordOutput

  // ---------------------------------------------------------------- the byte machine on whole segments

  lemma {:induction false} FeedAppend(chunk: nat, o: Output, s: Text, t: Text)
    ensures Feed(chunk, o, s + t) == Feed(chunk, Feed(chunk, o, s), t)
  {
    if t == [] {
      assert s + t == s;
    } else {
      assert (s + t)[..|s + t| - 1] == s + t[..|t| - 1];
      FeedAppend(chunk, o, s, t[..|t| - 1]);
    }
  }

  /** A segment without newlines that fits joins the overflow. */
  lemma {:induction false} FeedFits(chunk: nat, o: Output, seg: Text)
    requires NEWLINE !in seg && |o.overflow| + |seg| <= chunk
    ensures Feed(chunk, o, seg) == Output(o.records, o.overflow + seg)
  {
    if seg != [] {
      var init, b := seg[..|seg| - 1], seg[|seg| - 1];
      assert b in seg;
      FeedFits(chunk, o, init);
      assert (o.overflow + init) + [b] == o.overflow + seg;
    }
  }

  /** After a full overflow, a segment without newlines emits it and takes its place. */
  lemma FeedReplaces(chunk: nat, o: Output, seg: Text)
    requires NEWLINE !in seg && |o.overflow| == chunk > 0 && 0 < |seg| <= chunk
    ensures Feed(chunk, o, seg) == Output(o.records + [o.overflow], seg)
  {
    var first := [seg[0]];
    assert seg == first + seg[1..];
    assert first[..0] == [];
    assert seg[0] in seg;
    FeedAppend(chunk, o, first, seg[1..]);
    FeedFits(chunk, Feed(chunk, o, first), seg[1..]);
  }

  lemma {:induction false} FeedExtends(chunk: nat, o: Output, s: Text)
    ensures o.records <= Feed(chunk, o, s).records
  {
    if s != [] {
      FeedExtends(chunk, o, s[..|s| - 1]);
    }
  }

  // ---------------------------------------------------------------- the state between iterations

  /** The machine holds a full overflow that the loop has already emitted, because more of the line follows. */
  ghost predicate Ahead(chunk: nat, fed: Output, st: Output, next: Text) {
    && |fed.overflow| == chunk
    && st == Output(fed.records + [fed.overflow], [])
    && next != [] && next[0] != NEWLINE
  }

  /** Where the loop stands after the first `start` bytes of the block, started from `o`. */
  ghost predicate InStep(chunk: nat, o: Output, block: Text, start: nat, st: Output)
    requires start <= |block|
  {
    if start == |block| then st == FeedBlock(chunk, o, block)
    else
      var fed := Feed(chunk, o, block[..start]);
      && (st == fed || Ahead(chunk, fed, st, block[start..]))
      && (start > 0 ==> st.overflow == [])
  }

  lemma FeedBlockExtends(chunk: nat, o: Output, block: Text)
    ensures o.records <= Feed(chunk, o, block).records <= FeedBlock(chunk, o, block).records
  {
    FeedExtends(chunk, o, block);
  }

  lemma PrefixTrans(xs: seq<Text>, ys: seq<Text>, zs: seq<Text>)
    requires xs <= ys <= zs
    ensures xs <= zs
  {
  }

  /** What the loop emitted ahead of the machine, the machine emits with the next byte. */
  lemma AheadPrefix(chunk: nat, fed: Output, st: Output, rest: Text)
    requires chunk > 0 && Ahead(chunk, fed, st, rest)
    ensures st.records <= Feed(chunk, fed, rest).records
  {
    var first, more := [rest[0]], rest[1..];
    assert rest == first + more;
    FeedAppend(chunk, fed, first, more);
    assert Feed(chunk, fed, first) == FeedByte(chunk, fed, rest[0]) by {
      assert first[..0] == [];
    }
    FeedExtends(chunk, FeedByte(chunk, fed, rest[0]), more);
  }

  /** What the loop has emitted is the beginning of what the block emits. */
  lemma InStepPrefix(chunk: nat, o: Output, block: Text, start: nat, st: Output)
    requires chunk > 0 && start <= |block| <= chunk && InStep(chunk, o, block, start, st)
    ensures st.records <= FeedBlock(chunk, o, block).records
  {
    if start < |block| {
      var fed, rest := Feed(chunk, o, block[..start]), block[start..];
      assert block == block[..start] + rest;
      FeedAppend(chunk, o, block[..start], rest);
      if st == fed {
        FeedExtends(chunk, fed, rest);
      } else {
        AheadPrefix(chunk, fed, st, rest);
      }
      FeedBlockExtends(chunk, o, block);
      PrefixTrans(st.records, Feed(chunk, fed, rest).records, FeedBlock(chunk, o, block).records);
    }
  }

  /** The overflow takes the rest of the block, and is not full. */
  lemma OverflowKeepsTail(chunk: nat, o: Output, block: Text, st: Output)
    requires 0 < |block| <= chunk && InStep(chunk, o, block, 0, st)
    requires NEWLINE !in block && 0 < |st.overflow| && |st.overflow| + |block| < chunk
    ensures InStep(chunk, o, block, |block|, Output(st.records, st.overflow + block))
  {
    assert block[..0] == [];
    FeedFits(chunk, st, block);
  }

  /** The line ends within the room left in the overflow: it is emitted whole and its newline consumed. */
  lemma OverflowEndsLine(chunk: nat, o: Output, block: Text, st: Output, delimiter: nat)
    requires delimiter < |block| <= chunk && InStep(chunk, o, block, 0, st) && 0 < |st.overflow|
    requires NEWLINE !in block[..delimiter] && block[delimiter] == NEWLINE && |st.overflow| + delimiter <= chunk
    ensures InStep(chunk, o, block, delimiter + 1, Output(st.records + [st.overflow + block[..delimiter]], []))
  {
    assert block[..0] == [];
    FeedFits(chunk, st, block[..delimiter]);
    assert block[..delimiter + 1][..delimiter] == block[..delimiter];
    assert delimiter + 1 == |block| ==> block[..delimiter + 1] == block;
  }

  /** The rest of the block fills the overflow exactly, which is emitted without seeing what follows. */
  lemma OverflowFilledByBlock(chunk: nat, o: Output, block: Text, st: Output)
    requires 0 < |block| <= chunk && InStep(chunk, o, block, 0, st) && 0 < |st.overflow|
    requires NEWLINE !in block && |st.overflow| + |block| == chunk
    ensures InStep(chunk, o, block, |block|, Output(st.records + [st.overflow + block], []))
  {
    assert block[..0] == [];
    FeedFits(chunk, st, block);
  }

  /** The line does not fit: a full overflow is emitted, and the line goes on in the block. */
  lemma OverflowFilledByLine(chunk: nat, o: Output, block: Text, st: Output, copy: nat)
    requires copy < |block| <= chunk && InStep(chunk, o, block, 0, st) && 0 < |st.overflow|
    requires NEWLINE !in block[..copy] && block[copy] != NEWLINE && |st.overflow| + copy == chunk
    ensures InStep(chunk, o, block, copy, Output(st.records + [st.overflow + block[..copy]], []))
  {
    assert block[..0] == [];
    FeedFits(chunk, st, block[..copy]);
    assert block[copy..][0] == block[copy];
  }

  /** Where the inner loop goes on after it emitted the overflow. */
  function Resume(block: Text, delimiter: nat, copy: nat): nat {
    if copy == delimiter < |block| then copy + 1 else copy
  }

  lemma NoNewlineBefore(block: Text, delimiter: nat, copy: nat)
    requires delimiter == Find(block, NEWLINE, 0) && copy <= delimiter
    ensures NEWLINE !in block[..copy]
    ensures copy < delimiter ==> block[copy] != NEWLINE
  {
    assert forall i :: 0 <= i < delimiter ==> block[i] == block[0..delimiter][i];
  }

  lemma OverflowEmits(chunk: nat, o: Output, block: Text, st: Output, delimiter: nat, copy: nat)
    requires 0 < |block| <= chunk && InStep(chunk, o, block, 0, st) && 0 < |st.overflow| <= chunk
    requires delimiter == Find(block, NEWLINE, 0)
    requires copy == if delimiter < chunk - |st.overflow| then delimiter else chunk - |st.overflow|
    requires delimiter < |block| || |st.overflow| + copy == chunk
    ensures copy <= delimiter
    ensures InStep(chunk, o, block, Resume(block, delimiter, copy),
                   Output(st.records + [st.overflow + block[..copy]], []))
  {
    NoNewlineBefore(block, delimiter, copy);
    if copy < delimiter {
      OverflowFilledByLine(chunk, o, block, st, copy);
    } else if delimiter < |block| {
      OverflowEndsLine(chunk, o, block, st, delimiter);
    } else {
      assert block[..copy] == block;
      OverflowFilledByBlock(chunk, o, block, st);
    }
  }

  /** With an empty overflow, the rest of the block goes into it, even when that fills it. */
  lemma EmptyKeepsTail(chunk: nat, o: Output, block: Text, start: nat, st: Output)
    requires chunk > 0 && start < |block| <= chunk && InStep(chunk, o, block, start, st)
    requires st.overflow == [] && NEWLINE !in block[start..]
    ensures InStep(chunk, o, block, |block|, Output(st.records, block[start..]))
  {
    SegmentJoins(chunk, o, block, start, |block|, st);
    assert block[..|block|] == block;
  }

  /** With an empty overflow, a complete line is emitted straight from the block. */
  lemma EmptyEmitsLine(chunk: nat, o: Output, block: Text, start: nat, st: Output, delimiter: nat)
    requires chunk > 0 && start < |block| <= chunk && InStep(chunk, o, block, start, st)
    requires st.overflow == [] && delimiter == Find(block, NEWLINE, start) && delimiter < |block|
    ensures InStep(chunk, o, block, delimiter + 1, Output(st.records + [block[start..delimiter]], []))
  {
    if start == delimiter {
      assert block[start..][0] == NEWLINE;
      assert st == Feed(chunk, o, block[..start]);
      assert block[start..delimiter] == [];
    } else {
      SegmentJoins(chunk, o, block, start, delimiter, st);
    }
    assert block[..delimiter + 1][..delimiter] == block[..delimiter];
    assert delimiter + 1 == |block| ==> block[..delimiter + 1] == block;
  }

  lemma SegmentJoins(chunk: nat, o: Output, block: Text, start: nat, end: nat, st: Output)
    requires chunk > 0 && start < end <= |block| <= chunk && InStep(chunk, o, block, start, st)
    requires st.overflow == [] && NEWLINE !in block[start..end]
    ensures Feed(chunk, o, block[..end]) == Output(st.records, block[start..end])
  {
    var fed, seg := Feed(chunk, o, block[..start]), block[start..end];
    assert block[..end] == block[..start] + seg;
    FeedAppend(chunk, o, block[..start], seg);
    if st == fed {
      FeedFits(chunk, fed, seg);
      assert fed.overflow + seg == seg;
    } else {
      FeedReplaces(chunk, fed, seg);
    }
  }

  // ---------------------------------------------------------------- the writer

  class Writer {
    const chunkSize: nat
    const overflow: array<byte>
    const sink: RecordWriter
    var overflowLength: nat

    /** Every write so far came to its end. */
    ghost predicate Valid()
      reads this, sink, sink.encoded, sink.iov
    {
      && chunkSize > 0 && sink.chunkSize == chunkSize && overflow != sink.encoded
      && overflow.Length == chunkSize && overflowLength <= chunkSize
      && sink.Valid() && sink.part == []
    }

    ghost function State(): Output
      requires Valid()
      reads this, overflow, sink, sink.encoded, sink.iov
    {
      Output(sink.records, overflow[..overflowLength])
    }

    /** The write of the next of the records `all` did not come to its end. */
    ghost predicate Halted(all: seq<Text>)
      reads sink
    {
      && sink.records < all && sink.written == |sink.records|
      && IsRun(sink.prefix, sink.records, sink.script, sink.run)
      && var n := |sink.records|;
         && sink.output == sink.run[n].output
         && Stops(sink.prefix, sink.run[n], all[n], AnswersFor(sink.script, n), sink.part)
    }

    constructor (chunkSize: nat, sink: RecordWriter)
      requires chunkSize > 0 && sink.chunkSize == chunkSize && sink.Valid() && sink.records == [] && sink.part == []
      ensures Valid() && fresh(overflow) && this.chunkSize == chunkSize && this.sink == sink
      ensures State() == Output([], [])
    {
      this.chunkSize := chunkSize;
      this.sink := sink;
      overflow := new byte[chunkSize];
      overflowLength := 0;
    }

    /** Writes a record, which is one of `all`, through the vector. */
    method Emit(r: Text, ghost all: seq<Text>) returns (ok: bool)
      requires Valid() && |r| <= chunkSize && sink.records + [r] <= all
      modifies sink, sink.encoded, sink.iov
      ensures ok ==> Valid() && sink.records == old(sink.records) + [r]
      ensures !ok ==> Halted(all) && sink.records == old(sink.records)
    {
      assert r == all[|sink.records|];
      ok := sink.Write(r);
    }

    /** An iteration that finds bytes in the overflow buffer. */
    method ContinueLine(ghost o: Output, block: Text, start: nat) returns (ok: bool, next: nat)
      requires Valid() && start < |block| <= chunkSize && overflowLength > 0
      requires InStep(chunkSize, o, block, start, State())
      modifies this`overflowLength, overflow, sink, sink.encoded, sink.iov
      ensures ok ==> Valid() && start <= next <= |block| && InStep(chunkSize, o, block, next, State())
      ensures ok ==> next > start || overflowLength == 0
      ensures !ok ==> Halted(FeedBlock(chunkSize, o, block).records)
    {
      ghost var st := State();
      ghost var all := FeedBlock(chunkSize, o, block).records;
      var delimiter := Find(block, NEWLINE, start);
      var remaining, room := delimiter - start, chunkSize - overflowLength;
      var copy := if remaining < room then remaining else room;
      CopyInto(overflow, overflowLength, block[start..start + copy]);
      overflowLength := overflowLength + copy;
      assert overflow[..overflowLength] == st.overflow + block[..copy];
      ok, next := true, start + copy;
      if delimiter < |block| || overflowLength == chunkSize {
        ghost var st' := Output(st.records + [st.overflow + block[..copy]], []);
        OverflowEmits(chunkSize, o, block, st, delimiter, copy);
        InStepPrefix(chunkSize, o, block, Resume(block, delimiter, copy), st');
        ok := Emit(overflow[..overflowLength], all);
        if !ok {
          return;
        }
        overflowLength := 0;
        assert State() == st';
        if delimiter < |block| && next == delimiter {
          next := next + 1;
        }
      } else {
        assert block[..copy] == block == block[0..delimiter];
        OverflowKeepsTail(chunkSize, o, block, st);
      }
    }

    /** An iteration that starts with an empty overflow buffer. */
    method StartLine(ghost o: Output, block: Text, start: nat) returns (ok: bool, next: nat)
      requires Valid() && start < |block| <= chunkSize && overflowLength == 0
      requires InStep(chunkSize, o, block, start, State())
      modifies this`overflowLength, overflow, sink, sink.encoded, sink.iov
      ensures ok ==> Valid() && start < next <= |block| && InStep(chunkSize, o, block, next, State())
      ensures !ok ==> Halted(FeedBlock(chunkSize, o, block).records)
    {
      ghost var st := State();
      var delimiter := Find(block, NEWLINE, start);
      next := delimiter;
      if delimiter == |block| {
        assert block[start..delimiter] == block[start..];
        EmptyKeepsTail(chunkSize, o, block, start, st);
        CopyInto(overflow, 0, block[start..]);
        overflowLength := |block| - start;
        assert overflow[..overflowLength] == block[start..];
        return true, next;
      }
      ghost var st' := Output(st.records + [block[start..delimiter]], []);
      EmptyEmitsLine(chunkSize, o, block, start, st, delimiter);
      InStepPrefix(chunkSize, o, block, delimiter + 1, st');
      ok := Emit(block[start..delimiter], FeedBlock(chunkSize, o, block).records);
      if ok {
        assert State() == st';
        next := delimiter + 1;
      }
    }

    /** One popped block. The loop ends although an iteration need not advance. */
    method WriteBlock(block: Text) returns (ok: bool)
      requires Valid() && |block| <= chunkSize
      modifies this`overflowLength, overflow, sink, sink.encoded, sink.iov
      ensures ok ==> Valid() && State() == FeedBlock(chunkSize, old(State()), block)
      ensures !ok ==> Halted(FeedBlock(chunkSize, old(State()), block).records)
    {
      var start := 0;
      ghost var o := State();
      assert block[..0] == [];
      ok := true;
      while start < |block|
        invariant start <= |block| && Valid() && ok
        invariant InStep(chunkSize, o, block, start, State())
        decreases 2 * (|block| - start) + if overflowLength > 0 then 1 else 0
      {
        if overflowLength > 0 {
          ok, start := ContinueLine(o, block, start);
        } else {
          ok, start := StartLine(o, block, start);
        }
        if !ok {
          return;
        }
      }
    }

    /**
     The outer loop, for the blocks it pops before the queue shuts down or a write fails. The
     overflow left at the end is not written.
     */
    method Produce(blocks: seq<Text>) returns (ok: bool)
      requires Valid() && State() == Output([], [])
      requires forall i :: 0 <= i < |blocks| ==> |blocks[i]| <= chunkSize
      modifies this`overflowLength, overflow, sink, sink.encoded, sink.iov
      ensures ok ==> Valid() && State() == FeedBlocks(chunkSize, blocks)
      ensures !ok ==> Halted(FeedBlocks(chunkSize, blocks).records)
    {
      ok := true;
      for i := 0 to |blocks|
        invariant Valid() && ok && State() == FeedBlocks(chunkSize, blocks[..i])
      {
        assert blocks[..i + 1][..i] == blocks[..i];
        ok := WriteBlock(blocks[i]);
        if !ok {
          BlocksExtend(chunkSize, blocks, i + 1);
          return;
        }
      }
      assert blocks[..|blocks|] == blocks;
    }
  }

  lemma {:induction false} BlocksExtend(chunk: nat, blocks: seq<Text>, i: nat)
    requires i <= |blocks|
    ensures FeedBlocks(chunk, blocks[..i]).records <= FeedBlocks(chunk, blocks).records
  {
    if i < |blocks| {
      var init := blocks[..|blocks| - 1];
      BlocksExtend(chunk, init, i);
      assert init[..i] == blocks[..i];
      FeedExtends(chunk, FeedBlocks(chunk, init), blocks[|blocks| - 1]);
    } else {
      assert blocks[..i] == blocks;
    }
  }
}
