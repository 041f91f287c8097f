/**
 The reader of src/reader.c: it polls its input, reserves blocks in the queue, fills them with
 what `read` returns, and commits them when they are full, when the input pauses and at its end.
 */
module Reader {
  import opened Bytes

  datatype Polled = Ready | TryAgain | PollFailed

  datatype Reserved = Granted | MustDrop | ShuttingDown

  /** What `read` does: deliver up to `n` bytes (or report the end of input), or fail with an errno. */
  datatype Answer = UpTo(n: nat) | Interrupted | WouldBlock | ReadFailed

  /** One answer of the environment to the reader; `Commit` is the queue's `push_commit` returning. */
  datatype Event = Poll(polled: Polled) | Reserve(reserved: Reserved) | Read(answer: Answer) | Commit

  datatype Reason = EndOfInput | Stopped | Error

  datatype Next = Again | Wait | Leave

  datatype Place = Polling | Reserving | Reading | Committing(next: Next) | Exited(reason: Reason)

  datatype Piece = Kept(bytes: Text) | Lost(bytes: Text)

  /** `block` is the reserved block, `pos` how much input was read, `log` what became of each read. */
  datatype State = State(place: Place, block: Option<Text>, pos: nat, committed: seq<Text>, log: seq<Piece>)

  const Init := State(Polling, None, 0, [], [])

  /** How many bytes a `read` for `asked` bytes returns: at least one unless there are none left to read. */
  function Taken(n: nat, asked: nat, left: nat): (t: nat)
    ensures t <= asked && t <= left
    ensures t == 0 <==> asked == 0 || left == 0
  {
    var most := if asked < left then asked else left;
    if n == 0 then (if most == 0 then 0 else 1) else if n < most then n else most
  }

  /** What a `read` may ask for: the rest of the block, or without one the whole scratch buffer. */
  function Room(chunk: nat, block: Option<Text>): nat {
    match block
    case None => chunk
    case Some(b) => if |b| <= chunk then chunk - |b| else 0
  }

  function Asked(chunk: nat, s: State): nat {
    Room(chunk, s.block)
  }

  /** The top of the inner loop: reserve a block unless there is one. */
  function Top(s: State): State {
    s.(place := if s.block.None? then Reserving else Reading)
  }

  predicate HasBytes(s: State) {
    s.block.Some? && s.block.value != []
  }

  function ReadStep(chunk: nat, input: Text, s: State, a: Answer): State {
    match a
    case Interrupted => Top(s)
    case WouldBlock => s.(place := if HasBytes(s) then Committing(Wait) else Polling)
    case ReadFailed => s.(place := Exited(Error))
    case UpTo(n) =>
      var t := if s.pos <= |input| then Taken(n, Asked(chunk, s), |input| - s.pos) else 0;
      if t == 0 then s.(place := if HasBytes(s) then Committing(Leave) else Exited(EndOfInput))
      else
        var bytes := input[s.pos..s.pos + t];
        if s.block.None? then Top(s.(pos := s.pos + t, log := s.log + [Lost(bytes)]))
        else
          var block := s.block.value + bytes;
          s.(pos := s.pos + t, log := s.log + [Kept(bytes)], block := Some(block),
             place := if |block| == chunk then Committing(Again) else Reading)
  }

  function CommitStep(s: State): State
    requires s.place.Committing? && s.block.Some?
  {
    s.(committed := s.committed + [s.block.value], block := None,
       place := match s.place.next case Again => Reserving case Wait => Polling case Leave => Exited(EndOfInput))
  }

  /** An event that does not answer what the reader is asking for changes nothing. */
  function Step(chunk: nat, input: Text, s: State, e: Event): State {
    match e
    case Poll(p) =>
      if s.place != Polling || p == TryAgain then s
      else if p == PollFailed then s.(place := Exited(Error)) else Top(s)
    case Reserve(v) =>
      if s.place != Reserving then s
      else (match v
            case Granted => s.(place := Reading, block := Some([]))
            case MustDrop => s.(place := Reading)
            case ShuttingDown => s.(place := Exited(Stopped)))
    case Read(a) => if s.place == Reading then ReadStep(chunk, input, s, a) else s
    case Commit => if s.place.Committing? && s.block.Some? then CommitStep(s) else s
  }

  function Run(chunk: nat, input: Text, events: seq<Event>): State {
    if events == [] then Init
    else Step(chunk, input, Run(chunk, input, events[..|events| - 1]), events[|events| - 1])
  }

  // ---------------------------------------------------------------- conservation

  function KeptBytes(log: seq<Piece>): Text {
    if log == [] then []
    else KeptBytes(log[..|log| - 1]) + match log[|log| - 1] { case Kept(b) => b case Lost(_) => [] }
  }

  function AllBytes(log: seq<Piece>): Text {
    if log == [] then [] else AllBytes(log[..|log| - 1]) + log[|log| - 1].bytes
  }

  function Open(s: State): Text {
    if s.block.Some? then s.block.value else []
  }

  /** Every byte read is in the log, and every byte kept is in a committed block or the open one. */
  ghost predicate Conserved(input: Text, s: State) {
    && s.pos <= |input|
    && AllBytes(s.log) == input[..s.pos]
    && KeptBytes(s.log) == Join(s.committed) + Open(s)
  }

  ghost predicate Sized(chunk: nat, s: State) {
    && (forall i :: 0 <= i < |s.committed| ==> 0 < |s.committed[i]| <= chunk)
    && |Open(s)| <= chunk
  }

  /** What holds at each place; in particular a `read` never asks for zero bytes. */
  ghost predicate Placed(chunk: nat, input: Text, s: State) {
    match s.place
    case Polling => Open(s) == []
    case Reserving => s.block.None?
    case Reading => Asked(chunk, s) > 0
    case Committing(next) => HasBytes(s) && (next == Leave ==> s.pos == |input|)
    case Exited(why) =>
      && (why == EndOfInput ==> s.pos == |input| && Open(s) == [])
      && (why == Stopped ==> Open(s) == [])
  }

  ghost predicate Inv(chunk: nat, input: Text, s: State) {
    Conserved(input, s) && Sized(chunk, s) && Placed(chunk, input, s)
  }

  lemma LogGrows(log: seq<Piece>, p: Piece)
    ensures AllBytes(log + [p]) == AllBytes(log) + p.bytes
    ensures KeptBytes(log + [p]) == KeptBytes(log) + if p.Kept? then p.bytes else []
  {
    assert (log + [p])[..|log|] == log;
  }

  lemma BytesTaken(input: Text, s: State, t: nat)
    requires Conserved(input, s) && s.pos + t <= |input|
    ensures var bytes := input[s.pos..s.pos + t];
      && AllBytes(s.log + [Kept(bytes)]) == AllBytes(s.log + [Lost(bytes)]) == input[..s.pos + t]
      && KeptBytes(s.log + [Kept(bytes)]) == Join(s.committed) + (Open(s) + bytes)
      && KeptBytes(s.log + [Lost(bytes)]) == Join(s.committed) + Open(s)
  {
    var bytes := input[s.pos..s.pos + t];
    assert input[..s.pos + t] == input[..s.pos] + bytes;
    LogGrows(s.log, Lost(bytes));
    LogGrows(s.log, Kept(bytes));
    Assoc(Join(s.committed), Open(s), bytes);
  }

  /** Conservation and sizes depend on the data alone. */
  lemma SameData(chunk: nat, input: Text, s: State, s': State)
    requires Conserved(input, s) && Sized(chunk, s)
    requires s'.pos == s.pos && s'.log == s.log && s'.committed == s.committed && Open(s') == Open(s)
    ensures Conserved(input, s') && Sized(chunk, s')
  {
  }

  /** A read into the block. */
  lemma KeptKeeps(chunk: nat, input: Text, s: State, t: nat, s': State)
    requires Conserved(input, s) && Sized(chunk, s) && s.block.Some? && s.pos + t <= |input|
    requires t <= Asked(chunk, s)
    requires var bytes := input[s.pos..s.pos + t];
      s' == s.(pos := s.pos + t, log := s.log + [Kept(bytes)], block := Some(s.block.value + bytes), place := s'.place)
    ensures Conserved(input, s') && Sized(chunk, s')
  {
    BytesTaken(input, s, t);
  }

  /** A read that is dropped. */
  lemma LostKeeps(chunk: nat, input: Text, s: State, t: nat, s': State)
    requires Conserved(input, s) && Sized(chunk, s) && s.pos + t <= |input|
    requires s' == s.(pos := s.pos + t, log := s.log + [Lost(input[s.pos..s.pos + t])], place := s'.place)
    ensures Conserved(input, s') && Sized(chunk, s')
  {
    BytesTaken(input, s, t);
  }

  /** While there is input left, what `read` returns goes into the block. */
  lemma KeptDataKeeps(chunk: nat, input: Text, s: State, n: nat)
    requires chunk > 0 && Inv(chunk, input, s) && s.place == Reading && s.pos < |input| && s.block.Some?
    ensures Inv(chunk, input, ReadStep(chunk, input, s, UpTo(n)))
  {
    var t := Taken(n, Asked(chunk, s), |input| - s.pos);
    var s' := ReadStep(chunk, input, s, UpTo(n));
    KeptKeeps(chunk, input, s, t, s');
    assert |s'.block.value| == |s.block.value| + t;
  }

  /** Without a block it is dropped. */
  lemma LostDataKeeps(chunk: nat, input: Text, s: State, n: nat)
    requires chunk > 0 && Inv(chunk, input, s) && s.place == Reading && s.pos < |input| && s.block.None?
    ensures Inv(chunk, input, ReadStep(chunk, input, s, UpTo(n)))
  {
    var t := Taken(n, Asked(chunk, s), |input| - s.pos);
    LostKeeps(chunk, input, s, t, ReadStep(chunk, input, s, UpTo(n)));
  }

  lemma ReadStepKeeps(chunk: nat, input: Text, s: State, a: Answer)
    requires chunk > 0 && Inv(chunk, input, s) && s.place == Reading
    ensures Inv(chunk, input, ReadStep(chunk, input, s, a))
  {
    if a.UpTo? && s.pos < |input| && s.block.Some? {
      KeptDataKeeps(chunk, input, s, a.n);
    } else if a.UpTo? && s.pos < |input| {
      LostDataKeeps(chunk, input, s, a.n);
    } else {
      SameData(chunk, input, s, ReadStep(chunk, input, s, a));
    }
  }

  lemma CommitConserves(input: Text, s: State)
    requires Conserved(input, s) && s.place.Committing? && s.block.Some?
    ensures Conserved(input, CommitStep(s))
  {
    JoinSnoc(s.committed, s.block.value);
    var joined := Join(CommitStep(s).committed);
    assert joined + [] == joined;
  }

  lemma CommitSizes(chunk: nat, s: State)
    requires Sized(chunk, s) && s.place.Committing? && HasBytes(s)
    ensures Sized(chunk, CommitStep(s))
  {
  }

  lemma CommitStepKeeps(chunk: nat, input: Text, s: State)
    requires Inv(chunk, input, s) && s.place.Committing?
    ensures Inv(chunk, input, CommitStep(s))
  {
    CommitConserves(input, s);
    CommitSizes(chunk, s);
  }

  lemma PollStepKeeps(chunk: nat, input: Text, s: State, p: Polled)
    requires chunk > 0 && Inv(chunk, input, s) && s.place == Polling
    ensures Inv(chunk, input, Step(chunk, input, s, Poll(p)))
  {
    SameData(chunk, input, s, Step(chunk, input, s, Poll(p)));
  }

  lemma ReserveStepKeeps(chunk: nat, input: Text, s: State, v: Reserved)
    requires chunk > 0 && Inv(chunk, input, s) && s.place == Reserving
    ensures Inv(chunk, input, Step(chunk, input, s, Reserve(v)))
  {
    SameData(chunk, input, s, Step(chunk, input, s, Reserve(v)));
  }

  lemma StepKeeps(chunk: nat, input: Text, s: State, e: Event)
    requires chunk > 0 && Inv(chunk, input, s)
    ensures Inv(chunk, input, Step(chunk, input, s, e))
  {
    match e
    case Poll(p) => if s.place == Polling { PollStepKeeps(chunk, input, s, p); }
    case Reserve(v) => if s.place == Reserving { ReserveStepKeeps(chunk, input, s, v); }
    case Read(a) => if s.place == Reading { ReadStepKeeps(chunk, input, s, a); }
    case Commit => if s.place.Committing? { CommitStepKeeps(chunk, input, s); }
  }

  /**
   In every run: the input read so far is the log; the kept part of it is the committed blocks and
   the open block; committed blocks are neither empty nor too long; and at the end of input
   everything was read and nothing is left uncommitted.
   */
  lemma {:induction false} ReaderConserves(chunk: nat, input: Text, events: seq<Event>)
    requires chunk > 0
    ensures Inv(chunk, input, Run(chunk, input, events))
  {
    if events != [] {
      ReaderConserves(chunk, input, events[..|events| - 1]);
      StepKeeps(chunk, input, Run(chunk, input, events[..|events| - 1]), events[|events| - 1]);
    }
  }

  /** No piece of the log was lost. */
  ghost predicate NothingLost(log: seq<Piece>) {
    forall i :: 0 <= i < |log| ==> log[i].Kept?
  }

  lemma {:induction false} KeptAll(log: seq<Piece>)
    requires NothingLost(log)
    ensures KeptBytes(log) == AllBytes(log)
  {
    if log != [] {
      KeptAll(log[..|log| - 1]);
      assert log[|log| - 1].Kept?;
    }
  }

  /** A `read` goes to the scratch buffer only after the queue said drop. */
  ghost predicate Lossless(s: State) {
    NothingLost(s.log) && (s.place == Reading ==> s.block.Some?)
  }

  lemma StepLosesNothing(chunk: nat, input: Text, s: State, e: Event)
    requires Lossless(s) && e != Reserve(MustDrop)
    ensures Lossless(Step(chunk, input, s, e))
  {
  }

  lemma LosslessBytes(chunk: nat, input: Text, s: State)
    requires Inv(chunk, input, s) && Lossless(s)
    ensures Join(s.committed) + Open(s) == input[..s.pos]
  {
    KeptAll(s.log);
  }

  /** While the queue never says drop, the committed blocks are exactly the input read, in order. */
  lemma {:induction false} NoDropNoLoss(chunk: nat, input: Text, events: seq<Event>)
    requires chunk > 0 && Reserve(MustDrop) !in events
    ensures var s := Run(chunk, input, events);
      s.pos <= |input| && Lossless(s) && Join(s.committed) + Open(s) == input[..s.pos]
  {
    ReaderConserves(chunk, input, events);
    if events != [] {
      var before, e := events[..|events| - 1], events[|events| - 1];
      assert e in events;
      NoDropNoLoss(chunk, input, before);
      StepLosesNothing(chunk, input, Run(chunk, input, before), e);
    }
    LosslessBytes(chunk, input, Run(chunk, input, events));
  }

  // ---------------------------------------------------------------- what follows each answer

  lemma RunSnoc(chunk: nat, input: Text, events: seq<Event>, e: Event)
    ensures Run(chunk, input, events + [e]) == Step(chunk, input, Run(chunk, input, events), e)
  {
    assert (events + [e])[..|events|] == events;
  }

  lemma RunTwo(chunk: nat, input: Text, events: seq<Event>, e: Event, f: Event)
    ensures Run(chunk, input, events + [e, f])
         == Step(chunk, input, Step(chunk, input, Run(chunk, input, events), e), f)
  {
    var first := events + [e];
    assert events + [e, f] == first + [f];
    RunSnoc(chunk, input, events, e);
    RunSnoc(chunk, input, first, f);
  }

  /** All that was read is in the queue or dropped, and the reader holds no bytes. */
  ghost predicate NothingHeld(s: State) {
    Open(s) == [] && Join(s.committed) == KeptBytes(s.log)
  }

  /** What a reader that asks for a read, or for a block, may rely on. */
  lemma {:induction false} WhenReading(chunk: nat, input: Text, events: seq<Event>)
    requires chunk > 0
    ensures var s := Run(chunk, input, events);
      && s.pos <= |input| && KeptBytes(s.log) == Join(s.committed) + Open(s)
      && (s.place == Reading ==> |Open(s)| < chunk)
      && (s.place == Reserving ==> s.block.None?)
      && (s.place == Polling ==> Open(s) == [])
  {
    ReaderConserves(chunk, input, events);
  }

  /** The committed blocks, and the open one unless it is empty. */
  function WithOpen(s: State): seq<Text> {
    s.committed + if Open(s) == [] then [] else [Open(s)]
  }

  lemma WithOpenJoins(s: State)
    ensures Join(WithOpen(s)) == Join(s.committed) + Open(s)
  {
    if Open(s) == [] {
      assert WithOpen(s) == s.committed && Join(s.committed) + [] == Join(s.committed);
    } else {
      JoinSnoc(s.committed, Open(s));
    }
  }

  lemma PauseStep(chunk: nat, input: Text, s: State)
    requires s.place == Reading
    ensures var t := Step(chunk, input, Step(chunk, input, s, Read(WouldBlock)), Commit);
      && t.place == Polling && Open(t) == [] && t.pos == s.pos && t.log == s.log && t.committed == WithOpen(s)
  {
    assert s.committed + [] == s.committed;
  }

  /** When the input pauses, what the block holds is committed and the reader goes back to its poller. */
  lemma {:induction false} PauseCommits(chunk: nat, input: Text, events: seq<Event>)
    requires chunk > 0 && Run(chunk, input, events).place == Reading
    ensures var s, t := Run(chunk, input, events), Run(chunk, input, events + [Read(WouldBlock), Commit]);
      && t.place == Polling && NothingHeld(t) && t.pos == s.pos && t.log == s.log && t.committed == WithOpen(s)
  {
    RunTwo(chunk, input, events, Read(WouldBlock), Commit);
    WhenReading(chunk, input, events);
    PauseStep(chunk, input, Run(chunk, input, events));
    WithOpenJoins(Run(chunk, input, events));
  }

  lemma EndStep(chunk: nat, input: Text, s: State, n: nat)
    requires s.place == Reading && s.pos == |input|
    ensures var t := Step(chunk, input, Step(chunk, input, s, Read(UpTo(n))), Commit);
      && t.place == Exited(EndOfInput) && Open(t) == [] && t.log == s.log && t.committed == WithOpen(s)
  {
    assert s.committed + [] == s.committed;
  }

  /** At the end of input, what the block holds is committed and the reader leaves. */
  lemma {:induction false} EndCommits(chunk: nat, input: Text, events: seq<Event>, n: nat)
    requires chunk > 0 && Run(chunk, input, events).place == Reading && Run(chunk, input, events).pos == |input|
    ensures var s, t := Run(chunk, input, events), Run(chunk, input, events + [Read(UpTo(n)), Commit]);
      && t.place == Exited(EndOfInput) && NothingHeld(t) && t.log == s.log && t.committed == WithOpen(s)
  {
    RunTwo(chunk, input, events, Read(UpTo(n)), Commit);
    WhenReading(chunk, input, events);
    EndStep(chunk, input, Run(chunk, input, events), n);
    WithOpenJoins(Run(chunk, input, events));
  }

  /** The next `t` bytes of input. */
  function Ahead(input: Text, pos: nat, t: nat): Text {
    if pos + t <= |input| then input[pos..pos + t] else []
  }

  /** A read of `n` bytes at most, of `room` at most, went on by `got` bytes: all of `n` if they were there. */
  predicate GotOn(input: Text, pos: nat, n: nat, room: int, got: int) {
    0 < got <= room && pos + got <= |input| && (0 < n <= room && pos + n <= |input| ==> got == n)
  }

  lemma DataStep(chunk: nat, input: Text, s: State, n: nat)
    requires s.place == Reading && s.block.Some? && |Open(s)| < chunk && s.pos < |input|
    ensures var t := Step(chunk, input, Step(chunk, input, s, Read(UpTo(n))), Commit);
      var got := t.pos - s.pos;
      && GotOn(input, s.pos, n, chunk - |Open(s)|, got) && t.log == s.log + [Kept(Ahead(input, s.pos, got))]
      && (|Open(s)| + got == chunk ==>
            && t.place == Reserving && t.block == None
            && t.committed == s.committed + [Open(s) + Ahead(input, s.pos, got)])
      && (|Open(s)| + got < chunk ==>
            && t.place == Reading && t.committed == s.committed
            && t.block == Some(Open(s) + Ahead(input, s.pos, got)))
  {
    var got := Taken(n, chunk - |Open(s)|, |input| - s.pos);
    var r := Step(chunk, input, s, Read(UpTo(n)));
    assert r.pos == s.pos + got && r.block == Some(Open(s) + Ahead(input, s.pos, got));
  }

  /**
   A read into the block appends between one byte and the room that is left. A block that is full then
   is committed and the reader reserves the next one without polling.
   */
  lemma {:induction false} DataIsKept(chunk: nat, input: Text, events: seq<Event>, n: nat)
    requires chunk > 0 && Run(chunk, input, events).place == Reading && Run(chunk, input, events).block.Some?
    requires Run(chunk, input, events).pos < |input|
    ensures var s, t := Run(chunk, input, events), Run(chunk, input, events + [Read(UpTo(n)), Commit]);
      var got := t.pos - s.pos;
      && GotOn(input, s.pos, n, chunk - |Open(s)|, got) && t.log == s.log + [Kept(Ahead(input, s.pos, got))]
      && (|Open(s)| + got == chunk ==>
            && t.place == Reserving && t.block == None
            && t.committed == s.committed + [Open(s) + Ahead(input, s.pos, got)])
      && (|Open(s)| + got < chunk ==>
            && t.place == Reading && t.committed == s.committed
            && t.block == Some(Open(s) + Ahead(input, s.pos, got)))
  {
    RunTwo(chunk, input, events, Read(UpTo(n)), Commit);
    var s := Run(chunk, input, events);
    assert |Open(s)| < chunk by {
      WhenReading(chunk, input, events);
    }
    DataStep(chunk, input, s, n);
  }

  lemma ScratchStep(chunk: nat, input: Text, s: State, n: nat)
    requires chunk > 0 && s.place == Reserving && s.block.None? && s.pos < |input|
    ensures var t := Step(chunk, input, Step(chunk, input, s, Reserve(MustDrop)), Read(UpTo(n)));
      var got := t.pos - s.pos;
      && GotOn(input, s.pos, n, chunk, got) && t.log == s.log + [Lost(Ahead(input, s.pos, got))]
      && t.committed == s.committed && t.block == None && t.place == Reserving
  {
    var got := Taken(n, chunk, |input| - s.pos);
    var r := Step(chunk, input, s, Reserve(MustDrop));
    assert r == s.(place := Reading);
    assert Step(chunk, input, r, Read(UpTo(n))).pos == s.pos + got;
  }

  /**
   Told to drop, the reader reads up to a chunk into its scratch buffer, keeps none of it, and tries
   to reserve a block again.
   */
  lemma {:induction false} DropReadsOn(chunk: nat, input: Text, events: seq<Event>, n: nat)
    requires chunk > 0 && Run(chunk, input, events).place == Reserving && Run(chunk, input, events).pos < |input|
    ensures var s, t := Run(chunk, input, events), Run(chunk, input, events + [Reserve(MustDrop), Read(UpTo(n))]);
      var got := t.pos - s.pos;
      && GotOn(input, s.pos, n, chunk, got) && t.log == s.log + [Lost(Ahead(input, s.pos, got))]
      && t.committed == s.committed && t.block == None && t.place == Reserving
  {
    RunTwo(chunk, input, events, Reserve(MustDrop), Read(UpTo(n)));
    var s := Run(chunk, input, events);
    assert s.block.None? by {
      WhenReading(chunk, input, events);
    }
    ScratchStep(chunk, input, s, n);
  }

  /** A granted block is empty, and is read into next. */
  lemma {:induction false} GrantStartsABlock(chunk: nat, input: Text, events: seq<Event>)
    requires Run(chunk, input, events).place == Reserving
    ensures Run(chunk, input, events + [Reserve(Granted)])
         == Run(chunk, input, events).(place := Reading, block := Some([]))
  {
    RunSnoc(chunk, input, events, Reserve(Granted));
  }

  /** An interrupted read is tried again; without a block, a block is asked for first. */
  lemma {:induction false} InterruptRetries(chunk: nat, input: Text, events: seq<Event>)
    requires Run(chunk, input, events).place == Reading
    ensures var s := Run(chunk, input, events);
      Run(chunk, input, events + [Read(Interrupted)]) == s.(place := if s.block.Some? then Reading else Reserving)
  {
    RunSnoc(chunk, input, events, Read(Interrupted));
  }

  /** The poller is asked again until it has an answer; then reading begins without a block. */
  lemma {:induction false} PollLeadsOn(chunk: nat, input: Text, events: seq<Event>)
    requires chunk > 0 && Run(chunk, input, events).place == Polling
    ensures var s := Run(chunk, input, events);
      && Run(chunk, input, events + [Poll(TryAgain)]) == s
      && (s.block.None? ==> Run(chunk, input, events + [Poll(Ready)]) == s.(place := Reserving))
      && (s.block.Some? ==> Run(chunk, input, events + [Poll(Ready)]) == s.(place := Reading) && Open(s) == [])
  {
    RunSnoc(chunk, input, events, Poll(TryAgain));
    RunSnoc(chunk, input, events, Poll(Ready));
    WhenReading(chunk, input, events);
  }

  /** The answers that end the reader early. */
  predicate Ends(place: Place, e: Event, why: Reason) {
    || (place == Polling && e == Poll(PollFailed) && why == Error)
    || (place == Reading && e == Read(ReadFailed) && why == Error)
    || (place == Reserving && e == Reserve(ShuttingDown) && why == Stopped)
  }

  predicate EndsAt(chunk: nat, input: Text, events: seq<Event>, i: nat, why: Reason)
    requires i < |events|
  {
    Ends(Run(chunk, input, events[..i]).place, events[i], why)
  }

  /** The reader leaves before the end of input for one reason only: an answer that ends it, at its place. */
  lemma {:induction false} LeavesEarly(chunk: nat, input: Text, events: seq<Event>, why: Reason)
    requires why != EndOfInput
    ensures Run(chunk, input, events).place == Exited(why) <==>
      exists i :: 0 <= i < |events| && EndsAt(chunk, input, events, i, why)
  {
    if events != [] {
      var k := |events| - 1;
      LeavesEarly(chunk, input, events[..k], why);
      EndsStep(chunk, input, Run(chunk, input, events[..k]), events[k], why);
      forall i | 0 <= i < k
        ensures EndsAt(chunk, input, events[..k], i, why) == EndsAt(chunk, input, events, i, why)
      {
        assert events[..k][..i] == events[..i];
      }
      assert EndsAt(chunk, input, events, k, why) == Ends(Run(chunk, input, events[..k]).place, events[k], why);
    }
  }

  lemma EndsStep(chunk: nat, input: Text, s: State, e: Event, why: Reason)
    requires why != EndOfInput
    ensures Step(chunk, input, s, e).place == Exited(why) <==> s.place == Exited(why) || Ends(s.place, e, why)
  {
  }

  /** What it held then stays uncommitted. */
  lemma {:induction false} EarlyEndKeepsData(chunk: nat, input: Text, events: seq<Event>, e: Event, why: Reason)
    requires Ends(Run(chunk, input, events).place, e, why)
    ensures Run(chunk, input, events + [e]) == Run(chunk, input, events).(place := Exited(why))
  {
    RunSnoc(chunk, input, events, e);
  }

  // ---------------------------------------------------------------- the loops

  /** The event answers what the reader is asking for at this place. */
  predicate Answers(place: Place, e: Event) {
    match place
    case Polling => e.Poll?
    case Reserving => e.Reserve?
    case Reading => e.Read?
    case Committing(_) => e.Commit?
    case Exited(_) => false
  }

  lemma NoAnswer(chunk: nat, input: Text, s: State, e: Event)
    requires !Answers(s.place, e)
    ensures Step(chunk, input, s, e) == s
  {
  }

  /** The local variables of the loops; `i` answers have been used. */
  datatype Locals = Locals(i: nat, committed: seq<Text>, block: Option<Text>, pos: nat)

  /** They hold the state that the answers so far determine. */
  ghost predicate Agrees(chunk: nat, input: Text, events: seq<Event>, l: Locals) {
    && l.i <= |events|
    && var s := Run(chunk, input, events[..l.i]);
       l.committed == s.committed && l.block == s.block && l.pos == s.pos
  }

  ghost function At(chunk: nat, input: Text, events: seq<Event>, l: Locals): State
    requires l.i <= |events|
  {
    Run(chunk, input, events[..l.i])
  }

  /** Waits for the answer that the reader asked for; others are not meant for it. */
  method Await(chunk: nat, input: Text, events: seq<Event>, l0: Locals, place: Place) returns (l: Locals)
    requires Agrees(chunk, input, events, l0) && At(chunk, input, events, l0).place == place
    ensures l0.i <= l.i <= |events| && l == l0.(i := l.i)
    ensures At(chunk, input, events, l) == At(chunk, input, events, l0)
    ensures l.i < |events| ==> Answers(place, events[l.i])
    ensures l.i < |events| ==>
      Run(chunk, input, events[..l.i + 1]) == Step(chunk, input, At(chunk, input, events, l), events[l.i])
  {
    l := l0;
    while l.i < |events| && !Answers(place, events[l.i])
      invariant l0.i <= l.i <= |events| && l == l0.(i := l.i)
      invariant At(chunk, input, events, l) == At(chunk, input, events, l0)
      decreases |events| - l.i
    {
      NoAnswer(chunk, input, At(chunk, input, events, l), events[l.i]);
      RunNext(chunk, input, events, l.i);
      l := l.(i := l.i + 1);
    }
    if l.i < |events| {
      RunNext(chunk, input, events, l.i);
    }
  }

  lemma RunNext(chunk: nat, input: Text, events: seq<Event>, i: nat)
    requires i < |events|
    ensures Run(chunk, input, events[..i + 1]) == Step(chunk, input, Run(chunk, input, events[..i]), events[i])
  {
    assert events[..i + 1] == events[..i] + [events[i]];
    RunSnoc(chunk, input, events[..i], events[i]);
  }

  lemma {:induction false} ExitIsFinal(chunk: nat, input: Text, events: seq<Event>, i: nat)
    requires i <= |events| && Run(chunk, input, events[..i]).place.Exited?
    ensures Run(chunk, input, events) == Run(chunk, input, events[..i])
  {
    if i == |events| {
      assert events[..i] == events;
    } else {
      var before := events[..|events| - 1];
      assert before[..i] == events[..i];
      ExitIsFinal(chunk, input, before, i);
      NoAnswer(chunk, input, Run(chunk, input, before), events[|events| - 1]);
    }
  }

  /** The reader has left, or has used all its answers. */
  ghost predicate Over(chunk: nat, input: Text, events: seq<Event>, l: Locals, place: Place) {
    && Agrees(chunk, input, events, l) && At(chunk, input, events, l).place == place
    && (place.Exited? || l.i == |events|)
  }

  lemma OverIsRun(chunk: nat, input: Text, events: seq<Event>, l: Locals, place: Place)
    requires Over(chunk, input, events, l, place)
    ensures var s := Run(chunk, input, events);
      l.committed == s.committed && l.block == s.block && l.pos == s.pos && place == s.place
  {
    if place.Exited? {
      ExitIsFinal(chunk, input, events, l.i);
    } else {
      assert events[..l.i] == events;
    }
  }

  /**
   `jp_reader_consume`, for every sequence of answers of the poller, the queue and `read`: what it
   leaves is exactly what they determine, and `place` is where it stands once they are used up.
   */
  method Consume(chunk: nat, input: Text, events: seq<Event>)
    returns (committed: seq<Text>, block: Option<Text>, pos: nat, place: Place)
    requires chunk > 0
    ensures var s := Run(chunk, input, events);
      committed == s.committed && block == s.block && pos == s.pos && place == s.place
  {
    var l;
    l, place := Loops(chunk, input, events);
    OverIsRun(chunk, input, events, l, place);
    return l.committed, l.block, l.pos, place;
  }

  method Loops(chunk: nat, input: Text, events: seq<Event>) returns (l: Locals, place: Place)
    requires chunk > 0
    ensures Over(chunk, input, events, l, place)
  {
    l := Locals(0, [], None, 0);
    while true
      invariant Agrees(chunk, input, events, l) && At(chunk, input, events, l).place == Polling
      decreases |events| - l.i
    {
      l := Await(chunk, input, events, l, Polling);
      if l.i == |events| {
        return l, Polling;
      }
      var polled := events[l.i].polled;
      l := l.(i := l.i + 1);
      if polled == PollFailed {
        return l, Exited(Error);
      }
      if polled == TryAgain {
        continue;
      }
      var next := Again;
      while next == Again
        invariant Agrees(chunk, input, events, l) && GoesOn(At(chunk, input, events, l), next)
        invariant next != Leave && l.i > 0
        decreases |events| - l.i, next == Again
      {
        if l.block == None {
          l := Await(chunk, input, events, l, Reserving);
          if l.i == |events| {
            return l, Reserving;
          }
          var verdict := events[l.i].reserved;
          l := l.(i := l.i + 1);
          if verdict == Granted {
            l := l.(block := Some([]));
          }
          if verdict == ShuttingDown {
            return l, Exited(Stopped);
          }
        }
        l, next, place := ReadAndCommit(chunk, input, events, l);
        if next == Leave {
          return;
        }
      }
    }
  }

  /** The loops go on at the top of the inner one or at the poller. */
  predicate GoesOn(s: State, next: Next) {
    match next
    case Again => s == Top(s)
    case Wait => s.place == Polling
    case Leave => true
  }

  /** The rest of an iteration: one `read`, the commit it may lead to, and where the loops go from there. */
  method ReadAndCommit(chunk: nat, input: Text, events: seq<Event>, l0: Locals)
    returns (l: Locals, next: Next, place: Place)
    requires chunk > 0 && Agrees(chunk, input, events, l0) && At(chunk, input, events, l0).place == Reading
    ensures Agrees(chunk, input, events, l) && GoesOn(At(chunk, input, events, l), next)
    ensures next == Leave ==> Over(chunk, input, events, l, place)
    ensures next != Leave ==> l.i > l0.i
  {
    l, next, place := l0, Leave, Reading;
    l := Await(chunk, input, events, l, Reading);
    if l.i == |events| {
      return;
    }
    var answer := events[l.i].answer;
    if answer.UpTo? {
      l, next, place := TakeData(chunk, input, events, l, answer.n);
      return;
    }
    l := l.(i := l.i + 1);
    if answer == Interrupted {
      next := Again;
    } else if answer == WouldBlock {
      next := Wait;
      if l.block.Some? && |l.block.value| > 0 {
        l, next, place := PushCommit(chunk, input, events, l, Wait);
      }
    } else {
      place := Exited(Error);
    }
  }

  /** What a `read` that is answered with data makes of the state. */
  lemma TakenInto(chunk: nat, input: Text, s: State, n: nat)
    requires s.place == Reading && s.pos <= |input| && |Open(s)| < chunk
    ensures var t := Taken(n, Room(chunk, s.block), |input| - s.pos);
      var s' := Step(chunk, input, s, Read(UpTo(n)));
      && s'.pos == s.pos + t && s'.committed == s.committed
      && s'.block == Filled(s.block, input[s.pos..s.pos + t]) && s'.place == AfterBytes(chunk, s'.block, t)
  {
    if s.block.Some? {
      assert s.block.value + [] == s.block.value;
    }
  }

  /** The block after a `read` of these bytes. */
  function Filled(block: Option<Text>, bytes: Text): Option<Text> {
    match block
    case None => None
    case Some(b) => Some(b + bytes)
  }

  /** What a `read` that is answered with data makes of the locals. */
  lemma BytesInto(chunk: nat, input: Text, events: seq<Event>, l: Locals, n: nat)
    requires chunk > 0 && Agrees(chunk, input, events, l) && At(chunk, input, events, l).place == Reading
    requires l.i < |events| && events[l.i] == Read(UpTo(n))
    ensures l.pos <= |input|
    ensures var t := Taken(n, Room(chunk, l.block), |input| - l.pos);
      var l' := Locals(l.i + 1, l.committed, Filled(l.block, input[l.pos..l.pos + t]), l.pos + t);
      Agrees(chunk, input, events, l') && At(chunk, input, events, l').place == AfterBytes(chunk, l'.block, t)
  {
    WhenReading(chunk, input, events[..l.i]);
    RunNext(chunk, input, events, l.i);
    TakenInto(chunk, input, At(chunk, input, events, l), n);
  }

  /** A `read` was answered with data: its bytes go into the block, or nowhere, or there are none left. */
  method TakeBytes(chunk: nat, input: Text, events: seq<Event>, l0: Locals, n: nat) returns (l: Locals, length: nat)
    requires chunk > 0 && Agrees(chunk, input, events, l0) && At(chunk, input, events, l0).place == Reading
    requires l0.i < |events| && events[l0.i] == Read(UpTo(n))
    ensures l.i == l0.i + 1 && Agrees(chunk, input, events, l)
    ensures At(chunk, input, events, l).place == AfterBytes(chunk, l.block, length)
  {
    BytesInto(chunk, input, events, l0, n);
    length := Taken(n, Room(chunk, l0.block), |input| - l0.pos);
    var bytes := input[l0.pos..l0.pos + length];
    l := Locals(l0.i + 1, l0.committed, Filled(l0.block, bytes), l0.pos + length);
  }

  /** Where the reader stands after a `read` of `length` bytes left this block. */
  function AfterBytes(chunk: nat, block: Option<Text>, length: nat): Place {
    if length == 0 then (if block.Some? && |block.value| > 0 then Committing(Leave) else Exited(EndOfInput))
    else if block.None? then Reserving
    else if |block.value| == chunk then Committing(Again) else Reading
  }

  method TakeData(chunk: nat, input: Text, events: seq<Event>, l0: Locals, n: nat)
    returns (l: Locals, next: Next, place: Place)
    requires chunk > 0 && Agrees(chunk, input, events, l0) && At(chunk, input, events, l0).place == Reading
    requires l0.i < |events| && events[l0.i] == Read(UpTo(n))
    ensures Agrees(chunk, input, events, l) && GoesOn(At(chunk, input, events, l), next)
    ensures next == Leave ==> Over(chunk, input, events, l, place)
    ensures next != Leave ==> l.i > l0.i
  {
    var length;
    l, length := TakeBytes(chunk, input, events, l0, n);
    next, place := Again, Reading;
    if length == 0 {
      next, place := Leave, Exited(EndOfInput);
      if l.block.Some? && |l.block.value| > 0 {
        l, next, place := PushCommit(chunk, input, events, l, Leave);
      }
    } else if l.block.Some? && |l.block.value| == chunk {
      l, next, place := PushCommit(chunk, input, events, l, Again);
    }
  }

  /** Commits the block; `onward` is where the loops go once the queue has returned. */
  method PushCommit(chunk: nat, input: Text, events: seq<Event>, l0: Locals, onward: Next)
    returns (l: Locals, next: Next, place: Place)
    requires Agrees(chunk, input, events, l0) && At(chunk, input, events, l0).place == Committing(onward)
    requires l0.block.Some?
    ensures Agrees(chunk, input, events, l) && GoesOn(At(chunk, input, events, l), next) && l.i >= l0.i
    ensures next == Leave ==> Over(chunk, input, events, l, place)
  {
    l, next, place := l0, Leave, Committing(onward);
    l := Await(chunk, input, events, l, Committing(onward));
    if l.i < |events| {
      l := Locals(l.i + 1, l.committed + [l.block.value], None, l.pos);
      next, place := onward, Exited(EndOfInput);
    }
  }
}
