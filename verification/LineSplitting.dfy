/**
 What the writer of src/writer.c makes of a byte stream: the newline-terminated lines, each
 chopped into pieces of at most `chunk` bytes. The reference definitions come first, then the
 byte-by-byte machine that the writer's loops implement, and the exact relation between them.
 */
module LineSplitting {
  import opened Bytes

  // ---------------------------------------------------------------- reference definitions

  /** The bytes after the last newline. */
  function Trail(s: Text): Text
  {
    if s == [] || s[|s| - 1] == NEWLINE then [] else Trail(s[..|s| - 1]) + [s[|s| - 1]]
  }

  /** The complete lines, without their newlines. */
  function Lines(s: Text): seq<Text>
  {
    if s == [] then []
    else
      var init := s[..|s| - 1];
      if s[|s| - 1] == NEWLINE then Lines(init) + [Trail(init)] else Lines(init)
  }

  /** A line in pieces of `chunk` bytes; only the last may be shorter, and an empty line is one piece. */
  function Chop(chunk: nat, line: Text): (pieces: seq<Text>)
    requires chunk > 0
    ensures |pieces| > 0
  {
    if |line| <= chunk then [line] else [line[..chunk]] + Chop(chunk, line[chunk..])
  }

  function ChopAll(chunk: nat, lines: seq<Text>): seq<Text>
    requires chunk > 0
  {
    if lines == [] then []
    else ChopAll(chunk, lines[..|lines| - 1]) + Chop(chunk, lines[|lines| - 1])
  }

  /** The records a stream should give: its complete lines, chopped. */
  function SplitAndChop(chunk: nat, s: Text): seq<Text>
    requires chunk > 0
  {
    ChopAll(chunk, Lines(s))
  }

  function Terminated(lines: seq<Text>): Text
  {
    if lines == [] then []
    else Terminated(lines[..|lines| - 1]) + lines[|lines| - 1] + [NEWLINE]
  }

  /** The stream without its newlines. */
  function Strip(s: Text): Text
  {
    if s == [] then []
    else Strip(s[..|s| - 1]) + if s[|s| - 1] == NEWLINE then [] else [s[|s| - 1]]
  }

  /** A positive multiple of the chunk size. */
  predicate WholeChunks(chunk: nat, n: nat)
    requires chunk > 0
  {
    n > 0 && n % chunk == 0
  }

  /** `Lines` and `Trail` cut the stream at its newlines and nowhere else. */
  lemma {:induction false} LinesPartition(s: Text)
    ensures Terminated(Lines(s)) + Trail(s) == s
    ensures NEWLINE !in Trail(s)
    ensures forall i :: 0 <= i < |Lines(s)| ==> NEWLINE !in Lines(s)[i]
  {
    if s != [] {
      var init := s[..|s| - 1];
      LinesPartition(init);
      assert s == init + [s[|s| - 1]];
      if s[|s| - 1] == NEWLINE {
        assert Lines(s)[..|Lines(init)|] == Lines(init);
      }
    }
  }

  /** The pieces rejoin to the line, all but the last are full, and none exceeds the chunk size. */
  lemma {:induction false} ChopPieces(chunk: nat, line: Text)
    requires chunk > 0
    ensures var p := Chop(chunk, line);
      && Join(p) == line
      && (forall i :: 0 <= i < |p| - 1 ==> |p[i]| == chunk)
      && |p[|p| - 1]| <= chunk
      && (line != [] ==> p[|p| - 1] != [])
  {
    if |line| <= chunk {
      JoinOne(line);
    } else {
      var rest := Chop(chunk, line[chunk..]);
      ChopPieces(chunk, line[chunk..]);
      JoinAppend([line[..chunk]], rest);
      JoinOne(line[..chunk]);
      assert line == line[..chunk] + line[chunk..];
    }
  }

  /** One more byte extends the last piece, or starts a new one when that is full. */
  lemma {:induction false} ChopSnoc(chunk: nat, line: Text, b: byte)
    requires chunk > 0
    ensures var p := Chop(chunk, line); var last := p[|p| - 1];
      Chop(chunk, line + [b]) == if |last| == chunk then p + [[b]] else p[..|p| - 1] + [last + [b]]
  {
    if |line| > chunk {
      var rest := Chop(chunk, line[chunk..]);
      ChopSnoc(chunk, line[chunk..], b);
      assert (line + [b])[chunk..] == line[chunk..] + [b];
      assert (line + [b])[..chunk] == line[..chunk];
      assert ([line[..chunk]] + rest)[..|rest|] == [line[..chunk]] + rest[..|rest| - 1];
    } else if |line| == chunk {
      assert (line + [b])[..chunk] == line && (line + [b])[chunk..] == [b];
    } else {
      assert Chop(chunk, line)[..0] == [];
    }
  }

  /** The last piece is full exactly when the line is a positive multiple of the chunk size. */
  lemma {:induction false} ChopLastFull(chunk: nat, line: Text)
    requires chunk > 0
    ensures |Chop(chunk, line)[|Chop(chunk, line)| - 1]| == chunk <==> WholeChunks(chunk, |line|)
  {
    if |line| > chunk {
      ChopLastFull(chunk, line[chunk..]);
      ModMinus(|line|, chunk);
    } else if 0 < |line| < chunk {
      assert |line| / chunk == 0;
    }
  }

  lemma ModMinus(n: nat, d: nat)
    requires 0 < d <= n
    ensures n % d == (n - d) % d
  {
    var q, q' := n / d, (n - d) / d;
    assert n == d * q + n % d;
    assert n - d == d * q' + (n - d) % d;
    var k := q - q' - 1;
    assert d * k == d * q - d * q' - d;
    if k > 0 {
      MulGrows(d, k);
    } else if k < 0 {
      MulGrows(d, -k);
    }
  }

  lemma MulGrows(d: nat, k: nat)
    requires k > 0
    ensures d * k >= d
  {
    assert d * k == d + d * (k - 1);
  }

  lemma SnocInjective(xs: seq<Text>, x: Text, ys: seq<Text>, y: Text)
    requires xs + [x] == ys + [y]
    ensures xs == ys && x == y
  {
    assert xs == (xs + [x])[..|xs|] && ys == (ys + [y])[..|ys|];
    assert x == (xs + [x])[|xs|] && y == (ys + [y])[|ys|];
  }

  // ---------------------------------------------------------------- the byte machine

  /** Records emitted so far and the overflow buffer. */
  datatype Output = Output(records: seq<Text>, overflow: Text)

  /** A newline emits the overflow; any other byte joins it, after a full overflow has been emitted. */
  function FeedByte(chunk: nat, o: Output, b: byte): Output {
    if b == NEWLINE then Output(o.records + [o.overflow], [])
    else if |o.overflow| == chunk then Output(o.records + [o.overflow], [b])
    else Output(o.records, o.overflow + [b])
  }

  function Feed(chunk: nat, o: Output, s: Text): Output {
    if s == [] then o else FeedByte(chunk, Feed(chunk, o, s[..|s| - 1]), s[|s| - 1])
  }

  /** At the end of a block that is shorter than the chunk size, a full overflow is emitted at once. */
  function FeedBlock(chunk: nat, o: Output, block: Text): Output {
    var fed := Feed(chunk, o, block);
    if 0 < |block| < chunk && |fed.overflow| == chunk
    then Output(fed.records + [fed.overflow], [])
    else fed
  }

  function FeedBlocks(chunk: nat, blocks: seq<Text>): Output {
    if blocks == [] then Output([], [])
    else FeedBlock(chunk, FeedBlocks(chunk, blocks[..|blocks| - 1]), blocks[|blocks| - 1])
  }

  // ---------------------------------------------------------------- the exact meaning of the machine

  /** The stream offsets at which a block shorter than the chunk size ends. */
  function ShortEnds(chunk: nat, blocks: seq<Text>): (ends: set<nat>)
    ensures forall e :: e in ends ==> e <= |Join(blocks)|
  {
    if blocks == [] then {}
    else
      var init, last := blocks[..|blocks| - 1], blocks[|blocks| - 1];
      ShortEnds(chunk, init) + if 0 < |last| < chunk then {|Join(blocks)|} else {}
  }

  /** The open line of `s` is a positive multiple of the chunk size and a short block ended with it. */
  predicate Flushed(chunk: nat, s: Text, ends: set<nat>)
    requires chunk > 0
  {
    |s| in ends && WholeChunks(chunk, |Trail(s)|)
  }

  /** The pieces of the open line, followed by an empty one if its last full piece was flushed early. */
  function OpenPieces(chunk: nat, s: Text, ends: set<nat>): seq<Text>
    requires chunk > 0
  {
    Chop(chunk, Trail(s)) + if Flushed(chunk, s, ends) then [[]] else []
  }

  /** The records of the complete lines of `s`, when short blocks end at the offsets `ends`. */
  function ClosedRecords(chunk: nat, s: Text, ends: set<nat>): seq<Text>
    requires chunk > 0
  {
    if s == [] then []
    else
      var init := s[..|s| - 1];
      ClosedRecords(chunk, init, ends) + if s[|s| - 1] == NEWLINE then OpenPieces(chunk, init, ends) else []
  }

  ghost predicate Means(chunk: nat, o: Output, s: Text, ends: set<nat>)
    requires chunk > 0
  {
    o.records + [o.overflow] == ClosedRecords(chunk, s, ends) + OpenPieces(chunk, s, ends)
  }

  /** A newline closes the open line. */
  lemma FeedNewlineMeans(chunk: nat, o: Output, s: Text, ends: set<nat>)
    requires chunk > 0 && Means(chunk, o, s, ends) && |s| + 1 !in ends
    ensures Means(chunk, FeedByte(chunk, o, NEWLINE), s + [NEWLINE], ends)
  {
    assert (s + [NEWLINE])[..|s|] == s;
    assert ClosedRecords(chunk, s + [NEWLINE], ends) == o.records + [o.overflow];
    assert OpenPieces(chunk, s + [NEWLINE], ends) == [[]];
  }

  lemma OpenGrows(chunk: nat, s: Text, ends: set<nat>, b: byte)
    requires chunk > 0 && b != NEWLINE && |s| + 1 !in ends
    ensures ClosedRecords(chunk, s + [b], ends) == ClosedRecords(chunk, s, ends)
    ensures OpenPieces(chunk, s + [b], ends) == Chop(chunk, Trail(s) + [b])
  {
    assert (s + [b])[..|s|] == s;
  }

  lemma SnocParts(xs: seq<Text>, ys: seq<Text>, y: Text)
    ensures (xs + ys) + [y] == xs + (ys + [y])
  {
  }

  /** After a flush the overflow is empty. */
  lemma FlushedMeans(chunk: nat, o: Output, s: Text, ends: set<nat>)
    requires chunk > 0 && Means(chunk, o, s, ends) && Flushed(chunk, s, ends)
    ensures o == Output(ClosedRecords(chunk, s, ends) + Chop(chunk, Trail(s)), [])
  {
    var closed, pieces := ClosedRecords(chunk, s, ends), Chop(chunk, Trail(s));
    SnocParts(closed, pieces, []);
    SnocInjective(o.records, o.overflow, closed + pieces, []);
  }

  /** Otherwise it is the last piece of the open line. */
  lemma OpenMeans(chunk: nat, o: Output, s: Text, ends: set<nat>)
    requires chunk > 0 && Means(chunk, o, s, ends) && !Flushed(chunk, s, ends)
    ensures var p := Chop(chunk, Trail(s));
      o == Output(ClosedRecords(chunk, s, ends) + p[..|p| - 1], p[|p| - 1])
  {
    var closed, p := ClosedRecords(chunk, s, ends), Chop(chunk, Trail(s));
    assert p[..|p| - 1] + [p[|p| - 1]] == p && p + [] == p;
    SnocParts(closed, p[..|p| - 1], p[|p| - 1]);
    SnocInjective(o.records, o.overflow, closed + p[..|p| - 1], p[|p| - 1]);
  }

  /** After a flush the next byte starts a new piece. */
  lemma FeedAfterFlush(chunk: nat, o: Output, s: Text, ends: set<nat>, b: byte)
    requires chunk > 0 && Means(chunk, o, s, ends) && |s| + 1 !in ends && b != NEWLINE && Flushed(chunk, s, ends)
    ensures Means(chunk, FeedByte(chunk, o, b), s + [b], ends)
  {
    FlushedMeans(chunk, o, s, ends);
    OpenGrows(chunk, s, ends, b);
    ChopSnoc(chunk, Trail(s), b);
    ChopLastFull(chunk, Trail(s));
    SnocParts(ClosedRecords(chunk, s, ends), Chop(chunk, Trail(s)), [b]);
    assert o.overflow + [b] == [b];
  }

  /** Otherwise it joins the last piece, or starts a new one when that is full. */
  lemma FeedOpenLine(chunk: nat, o: Output, s: Text, ends: set<nat>, b: byte)
    requires chunk > 0 && Means(chunk, o, s, ends) && |s| + 1 !in ends && b != NEWLINE && !Flushed(chunk, s, ends)
    ensures Means(chunk, FeedByte(chunk, o, b), s + [b], ends)
  {
    var closed, p := ClosedRecords(chunk, s, ends), Chop(chunk, Trail(s));
    var front, last := p[..|p| - 1], p[|p| - 1];
    OpenMeans(chunk, o, s, ends);
    OpenGrows(chunk, s, ends, b);
    ChopSnoc(chunk, Trail(s), b);
    if |last| == chunk {
      SnocParts(closed, front, last);
      assert front + [last] == p;
      SnocParts(closed, p, [b]);
    } else {
      SnocParts(closed, front, last + [b]);
    }
  }

  lemma FeedByteMeans(chunk: nat, o: Output, s: Text, ends: set<nat>, b: byte)
    requires chunk > 0 && Means(chunk, o, s, ends) && |s| + 1 !in ends
    ensures Means(chunk, FeedByte(chunk, o, b), s + [b], ends)
  {
    if b == NEWLINE {
      FeedNewlineMeans(chunk, o, s, ends);
    } else if Flushed(chunk, s, ends) {
      FeedAfterFlush(chunk, o, s, ends, b);
    } else {
      FeedOpenLine(chunk, o, s, ends, b);
    }
  }

  lemma {:induction false} FeedMeans(chunk: nat, o: Output, s: Text, ends: set<nat>, more: Text)
    requires chunk > 0 && Means(chunk, o, s, ends)
    requires forall e :: e in ends ==> e <= |s|
    ensures Means(chunk, Feed(chunk, o, more), s + more, ends)
  {
    if more == [] {
      assert s + more == s;
    } else {
      var init, b := more[..|more| - 1], more[|more| - 1];
      assert s + more == (s + init) + [b];
      FeedMeans(chunk, o, s, ends, init);
      var fed := Feed(chunk, o, init);
      assert Feed(chunk, o, more) == FeedByte(chunk, fed, b);
      FeedByteMeans(chunk, fed, s + init, ends, b);
    }
  }

  lemma {:induction false} LaterEndsDoNotMatter(chunk: nat, s: Text, ends: set<nat>, e: nat)
    requires chunk > 0 && e >= |s|
    ensures ClosedRecords(chunk, s, ends + {e}) == ClosedRecords(chunk, s, ends)
  {
    if s != [] {
      LaterEndsDoNotMatter(chunk, s[..|s| - 1], ends, e);
    }
  }

  /**
   After any blocks, the records and the overflow together are the chopped complete lines and the
   chopped open line, with one empty record after each line that is a positive multiple of the
   chunk size and whose last byte ended a short block, and nowhere else.
   */
  lemma {:induction false} MachineMeaning(chunk: nat, blocks: seq<Text>)
    requires chunk > 0
    ensures Means(chunk, FeedBlocks(chunk, blocks), Join(blocks), ShortEnds(chunk, blocks))
  {
    if blocks == [] {
      assert Chop(chunk, Trail([])) == [[]];
    } else {
      var init, last := blocks[..|blocks| - 1], blocks[|blocks| - 1];
      var ends, s := ShortEnds(chunk, init), Join(init);
      MachineMeaning(chunk, init);
      FeedMeans(chunk, FeedBlocks(chunk, init), s, ends, last);
      BlockEndMeans(chunk, Feed(chunk, FeedBlocks(chunk, init), last), s, ends, last);
    }
  }

  lemma BlockEndMeans(chunk: nat, fed: Output, s: Text, ends: set<nat>, last: Text)
    requires chunk > 0 && Means(chunk, fed, s + last, ends)
    requires forall e :: e in ends ==> e <= |s|
    ensures var o := if 0 < |last| < chunk && |fed.overflow| == chunk
                     then Output(fed.records + [fed.overflow], []) else fed;
      Means(chunk, o, s + last, ends + if 0 < |last| < chunk then {|s + last|} else {})
  {
    if 0 < |last| < chunk {
      var t := s + last;
      LaterEndsDoNotMatter(chunk, t, ends, |t|);
      ChopLastFull(chunk, Trail(t));
      var closed, pieces := ClosedRecords(chunk, t, ends), Chop(chunk, Trail(t));
      assert |t| !in ends;
      assert fed.records + [fed.overflow] == (closed + pieces[..|pieces| - 1]) + [pieces[|pieces| - 1]];
      SnocInjective(fed.records, fed.overflow, closed + pieces[..|pieces| - 1], pieces[|pieces| - 1]);
    } else {
      assert ends + {} == ends;
      if last == [] {
        assert s + last == s;
      }
    }
  }

  // ---------------------------------------------------------------- conservation

  /** No record or overflow has a newline or more than `chunk` bytes. */
  ghost predicate Bounded(chunk: nat, o: Output) {
    && (forall i :: 0 <= i < |o.records| ==> |o.records[i]| <= chunk && NEWLINE !in o.records[i])
    && |o.overflow| <= chunk && NEWLINE !in o.overflow
  }

  /** The bytes taken in so far, without newlines. */
  function Content(o: Output): Text {
    Join(o.records) + o.overflow
  }

  lemma FeedByteConserves(chunk: nat, o: Output, b: byte)
    ensures Content(FeedByte(chunk, o, b)) == Content(o) + if b == NEWLINE then [] else [b]
  {
    JoinSnoc(o.records, o.overflow);
  }

  lemma {:induction false} FeedConserves(chunk: nat, o: Output, s: Text)
    ensures Content(Feed(chunk, o, s)) == Content(o) + Strip(s)
  {
    if s != [] {
      FeedConserves(chunk, o, s[..|s| - 1]);
      FeedByteConserves(chunk, Feed(chunk, o, s[..|s| - 1]), s[|s| - 1]);
    }
  }

  lemma {:induction false} FeedBounded(chunk: nat, o: Output, s: Text)
    requires chunk > 0 && Bounded(chunk, o)
    ensures Bounded(chunk, Feed(chunk, o, s))
  {
    if s != [] {
      FeedBounded(chunk, o, s[..|s| - 1]);
    }
  }

  lemma {:induction false} StripAppend(s: Text, t: Text)
    ensures Strip(s + t) == Strip(s) + Strip(t)
  {
    if t == [] {
      assert s + t == s;
    } else {
      assert (s + t)[..|s + t| - 1] == s + t[..|t| - 1];
      StripAppend(s, t[..|t| - 1]);
    }
  }

  /** Emitting the overflow keeps the content. */
  lemma FlushConserves(chunk: nat, o: Output)
    requires Bounded(chunk, o)
    ensures Bounded(chunk, Output(o.records + [o.overflow], []))
    ensures Content(Output(o.records + [o.overflow], [])) == Content(o)
  {
    JoinSnoc(o.records, o.overflow);
  }

  lemma BlockConserves(chunk: nat, o: Output, block: Text)
    requires chunk > 0 && Bounded(chunk, o)
    ensures Bounded(chunk, FeedBlock(chunk, o, block))
    ensures Content(FeedBlock(chunk, o, block)) == Content(o) + Strip(block)
  {
    FeedBounded(chunk, o, block);
    FeedConserves(chunk, o, block);
    FlushConserves(chunk, Feed(chunk, o, block));
  }

  /** Nothing but newlines is lost: the records, then the overflow, are the stream without its newlines. */
  lemma {:induction false} MachineConserves(chunk: nat, blocks: seq<Text>)
    requires chunk > 0
    ensures var o := FeedBlocks(chunk, blocks);
      && Bounded(chunk, o)
      && Content(o) == Strip(Join(blocks))
  {
    if blocks != [] {
      var init, last := blocks[..|blocks| - 1], blocks[|blocks| - 1];
      MachineConserves(chunk, init);
      BlockConserves(chunk, FeedBlocks(chunk, init), last);
      StripAppend(Join(init), last);
    }
  }

  // ---------------------------------------------------------------- when block boundaries matter

  /** At a line that is a positive multiple of the chunk size, both have a short block end or neither. */
  predicate AgreeAt(chunk: nat, s: Text, n: nat, ends: set<nat>, ends': set<nat>)
    requires chunk > 0 && n < |s|
  {
    s[n] == NEWLINE && WholeChunks(chunk, |Trail(s[..n])|) ==> (n in ends <==> n in ends')
  }

  predicate Agree(chunk: nat, s: Text, ends: set<nat>, ends': set<nat>)
    requires chunk > 0
  {
    forall n :: 0 <= n < |s| ==> AgreeAt(chunk, s, n, ends, ends')
  }

  lemma AgreeSnoc(chunk: nat, s: Text, ends: set<nat>, ends': set<nat>)
    requires chunk > 0 && s != []
    ensures Agree(chunk, s, ends, ends') <==>
      Agree(chunk, s[..|s| - 1], ends, ends') && AgreeAt(chunk, s, |s| - 1, ends, ends')
  {
    var init := s[..|s| - 1];
    forall n | 0 <= n < |init|
      ensures AgreeAt(chunk, init, n, ends, ends') == AgreeAt(chunk, s, n, ends, ends')
    {
      assert init[..n] == s[..n];
    }
  }

  /** Short block ends matter only at the end of a line that is a positive multiple of the chunk size. */
  lemma {:induction false} SameRecords(chunk: nat, s: Text, ends: set<nat>, ends': set<nat>)
    requires chunk > 0
    ensures ClosedRecords(chunk, s, ends) == ClosedRecords(chunk, s, ends') <==> Agree(chunk, s, ends, ends')
  {
    if s != [] {
      var init := s[..|s| - 1];
      SameRecords(chunk, init, ends, ends');
      AgreeSnoc(chunk, s, ends, ends');
      if s[|s| - 1] == NEWLINE {
        SameTails(ClosedRecords(chunk, init, ends), ClosedRecords(chunk, init, ends'), chunk, init, ends, ends');
      } else {
        assert ClosedRecords(chunk, s, ends) == ClosedRecords(chunk, init, ends);
        assert ClosedRecords(chunk, s, ends') == ClosedRecords(chunk, init, ends');
      }
    }
  }

  lemma SameTails(xs: seq<Text>, ys: seq<Text>, chunk: nat, s: Text, ends: set<nat>, ends': set<nat>)
    requires chunk > 0
    ensures xs + OpenPieces(chunk, s, ends) == ys + OpenPieces(chunk, s, ends')
       <==> xs == ys && (Flushed(chunk, s, ends) <==> Flushed(chunk, s, ends'))
  {
    var p := Chop(chunk, Trail(s));
    var a, b := xs + OpenPieces(chunk, s, ends), ys + OpenPieces(chunk, s, ends');
    ChopPieces(chunk, Trail(s));
    assert a[|a| - 1] == (if Flushed(chunk, s, ends) then [] else p[|p| - 1]);
    assert b[|b| - 1] == (if Flushed(chunk, s, ends') then [] else p[|p| - 1]);
    if a == b {
      assert xs == a[..|xs|] && ys == b[..|ys|];
    }
  }

  lemma {:induction false} NoEndsIsSplitAndChop(chunk: nat, s: Text)
    requires chunk > 0
    ensures ClosedRecords(chunk, s, {}) == SplitAndChop(chunk, s)
  {
    if s != [] {
      var init := s[..|s| - 1];
      NoEndsIsSplitAndChop(chunk, init);
      if s[|s| - 1] == NEWLINE {
        assert Lines(s)[..|Lines(init)|] == Lines(init);
      }
    }
  }

  /** Some line of the stream, complete or open, is a positive multiple of the chunk size. */
  ghost predicate HasWholeLine(chunk: nat, s: Text)
    requires chunk > 0
  {
    exists n :: 0 <= n <= |s| && WholeLineAt(chunk, s, n)
  }

  predicate WholeLineAt(chunk: nat, s: Text, n: nat)
    requires chunk > 0 && n <= |s|
  {
    (n == |s| || s[n] == NEWLINE) && WholeChunks(chunk, |Trail(s[..n])|)
  }

  /** Without such lines the records are exactly the chopped complete lines, and the overflow the last open piece. */
  lemma WriterIsSplitAndChop(chunk: nat, blocks: seq<Text>)
    requires chunk > 0
    requires chunk == 1 || !HasWholeLine(chunk, Join(blocks))
    ensures var o := FeedBlocks(chunk, blocks); var s := Join(blocks);
      o.records + [o.overflow] == SplitAndChop(chunk, s) + Chop(chunk, Trail(s))
  {
    var s, ends := Join(blocks), ShortEnds(chunk, blocks);
    MachineMeaning(chunk, blocks);
    if chunk == 1 {
      NoShortBlocks(blocks);
    } else {
      forall n | 0 <= n < |s|
        ensures AgreeAt(chunk, s, n, ends, {})
      {
        assert !WholeLineAt(chunk, s, n);
      }
      assert s[..|s|] == s;
      assert !WholeLineAt(chunk, s, |s|);
      SameRecords(chunk, s, ends, {});
    }
    NoEndsIsSplitAndChop(chunk, s);
  }

  lemma {:induction false} NoShortBlocks(blocks: seq<Text>)
    ensures ShortEnds(1, blocks) == {}
  {
    if blocks != [] {
      NoShortBlocks(blocks[..|blocks| - 1]);
    }
  }

  /** A way to deliver the stream in blocks, as the reader may. */
  ghost predicate Splitting(chunk: nat, s: Text, blocks: seq<Text>) {
    Join(blocks) == s && forall i :: 0 <= i < |blocks| ==> 0 < |blocks[i]| <= chunk
  }

  function Singles(s: Text): seq<Text> {
    seq(|s|, i requires 0 <= i < |s| => [s[i]])
  }

  lemma {:induction false} SinglesSplit(chunk: nat, s: Text)
    requires chunk > 1
    ensures Splitting(chunk, s, Singles(s))
    ensures forall n :: 0 < n <= |s| ==> n in ShortEnds(chunk, Singles(s))
  {
    if s != [] {
      var init := s[..|s| - 1];
      SinglesSplit(chunk, init);
      assert Singles(s)[..|s| - 1] == Singles(init);
      assert s == init + [s[|s| - 1]];
    }
  }

  lemma {:induction false} EndsAfter(chunk: nat, xs: seq<Text>, ys: seq<Text>, n: nat)
    requires forall i :: 0 <= i < |ys| ==> 0 < |ys[i]|
    requires n in ShortEnds(chunk, xs + ys)
    ensures n in ShortEnds(chunk, xs) || n > |Join(xs)|
  {
    if ys == [] {
      assert xs + ys == xs;
    } else {
      var init := ys[..|ys| - 1];
      assert (xs + ys)[..|xs + ys| - 1] == xs + init;
      JoinAppend(xs, ys);
      if n in ShortEnds(chunk, xs + init) {
        EndsAfter(chunk, xs, init, n);
      }
    }
  }

  /** The stream in single bytes, except that the `chunk` bytes before `n` come in one full block. */
  lemma FullBlockBefore(chunk: nat, s: Text, n: nat) returns (blocks: seq<Text>)
    requires 1 < chunk <= n <= |s|
    ensures Splitting(chunk, s, blocks) && n !in ShortEnds(chunk, blocks)
  {
    var front := Singles(s[..n - chunk]);
    var xs, ys := front + [s[n - chunk..n]], Singles(s[n..]);
    SinglesSplit(chunk, s[..n - chunk]);
    SinglesSplit(chunk, s[n..]);
    JoinSnoc(front, s[n - chunk..n]);
    assert Join(xs) == s[..n];
    JoinAppend(xs, ys);
    blocks := xs + ys;
    assert s[..n] + s[n..] == s;
    assert xs[..|front|] == front;
    if n in ShortEnds(chunk, blocks) {
      EndsAfter(chunk, xs, ys, n);
    }
  }

  /** Reading a newline after the stream exposes the overflow as a record. */
  lemma MeansAsClosed(chunk: nat, o: Output, s: Text, ends: set<nat>)
    requires chunk > 0 && Means(chunk, o, s, ends)
    ensures o.records + [o.overflow] == ClosedRecords(chunk, s + [NEWLINE], ends)
  {
    assert (s + [NEWLINE])[..|s|] == s;
  }

  /**
   Block boundaries leave the output alone exactly when no line, complete or open, is a positive
   multiple of the chunk size; with one-byte chunks they never matter.
   */
  lemma BoundaryIndependence(chunk: nat, s: Text)
    requires chunk > 0
    ensures (forall xs, ys :: Splitting(chunk, s, xs) && Splitting(chunk, s, ys)
                ==> FeedBlocks(chunk, xs) == FeedBlocks(chunk, ys))
       <==> chunk == 1 || !HasWholeLine(chunk, s)
  {
    if chunk == 1 || !HasWholeLine(chunk, s) {
      forall xs, ys | Splitting(chunk, s, xs) && Splitting(chunk, s, ys)
        ensures FeedBlocks(chunk, xs) == FeedBlocks(chunk, ys)
      {
        WriterIsSplitAndChop(chunk, xs);
        WriterIsSplitAndChop(chunk, ys);
        var o, o' := FeedBlocks(chunk, xs), FeedBlocks(chunk, ys);
        SnocInjective(o.records, o.overflow, o'.records, o'.overflow);
      }
    } else {
      var n :| 0 <= n <= |s| && WholeLineAt(chunk, s, n);
      BoundaryMatters(chunk, s, n);
    }
  }

  lemma {:induction false} TrailShorter(s: Text)
    ensures |Trail(s)| <= |s|
  {
    if s != [] {
      TrailShorter(s[..|s| - 1]);
    }
  }

  lemma WholeChunksAtLeastOne(chunk: nat, n: nat)
    requires chunk > 0
    ensures WholeChunks(chunk, n) ==> n >= chunk
  {
    if n < chunk {
      assert n / chunk == 0;
    }
  }

  lemma BoundaryMatters(chunk: nat, s: Text, n: nat)
    requires chunk > 1 && n <= |s| && WholeLineAt(chunk, s, n)
    ensures exists xs, ys :: Splitting(chunk, s, xs) && Splitting(chunk, s, ys)
                && FeedBlocks(chunk, xs) != FeedBlocks(chunk, ys)
  {
    TrailShorter(s[..n]);
    WholeChunksAtLeastOne(chunk, |Trail(s[..n])|);
    var xs := Singles(s);
    var ys := FullBlockBefore(chunk, s, n);
    SinglesSplit(chunk, s);
    MachineMeaning(chunk, xs);
    MachineMeaning(chunk, ys);
    var a, b := ShortEnds(chunk, xs), ShortEnds(chunk, ys);
    MeansAsClosed(chunk, FeedBlocks(chunk, xs), s, a);
    MeansAsClosed(chunk, FeedBlocks(chunk, ys), s, b);
    var t := s + [NEWLINE];
    assert t[..n] == s[..n] && t[n] == NEWLINE;
    assert !AgreeAt(chunk, t, n, a, b);
    SameRecords(chunk, t, a, b);
  }
}
