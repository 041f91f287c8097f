/**
 The whole program: the reader thread, the queue and the writer thread of src/worker.c, composed as
 one transition system. Each action is one step of one thread; a schedule is any sequence of them.
 */
module Pipeline {
  import opened Bytes
  import opened LineSplitting
  import opened Framing
  import opened RecordOutput
  import opened JsonPrefix
  import opened Fields
  import Q = QueueProtocol
  import K = RingQueue
  import R = Reader
  import V = VectoredWrite
  import W = Writer

  /**
   The writer: the blocks it has processed, what it has written, and whether a write failed. While it
   processes a block, the records are already those written of that block; the overflow is the one
   that the blocks before it left.
   */
  datatype WriterState = WriterState(blocks: seq<Text>, out: Output, processed: bool, failed: bool)

  datatype System = System(q: Q.State, r: R.State, w: WriterState)

  datatype Action =
    | Poll(polled: R.Polled)
    | ReserveStep(step: Q.Action)
    | Read(answer: R.Answer)
    | Commit
    | PopStep(step: Q.Action)
    | WriteRecord
    | FinishBlock
    | WriteFails
    | PopCommit
    | Finalize(step: Q.Action)

  function Init(capacity: nat, policy: K.Policy): System {
    System(Q.Init(capacity, policy), R.Init, WriterState([], Output([], []), false, false))
  }

  // ---------------------------------------------------------------- the actions

  predicate IsReserveStep(a: Q.Action) {
    a == Q.LoadActive || a == Q.PushLoadLength || a == Q.PushLocked || a == Q.SpuriousWakeup(Q.Producer)
  }

  /** What the reader learns when a step of `push_uncommitted` takes the queue from `q` to `q'`. */
  function Verdict(q: Q.State, q': Q.State): seq<R.Reserved> {
    if q'.producer.Holding? then [R.Granted]
    else if q'.producer == Q.Exiting then [R.ShuttingDown]
    else if q'.drops > q.drops then [R.MustDrop]
    else []
  }

  function DoReserve(chunk: nat, input: Text, s: System, a: Q.Action): System {
    if s.r.place != R.Reserving || !IsReserveStep(a) then s
    else
      var q := Q.Apply(s.q, a);
      var v := Verdict(s.q, q);
      if v == [] then s.(q := q)
      else
        var r := R.Step(chunk, input, s.r, R.Reserve(v[0]));
        s.(q := if v[0] == R.Granted then Q.Apply(q, Q.Fill([])) else q, r := r)
  }

  /** The reader left its loops: it goes on to finalize the queue. */
  function LeaveIfExited(q: Q.State, r: R.State): Q.State {
    if r.place.Exited? then Q.Apply(q, Q.Leave(Q.Producer)) else q
  }

  function DoPoll(chunk: nat, input: Text, s: System, p: R.Polled): System {
    if s.r.place != R.Polling then s
    else
      var r := R.Step(chunk, input, s.r, R.Poll(p));
      s.(r := r, q := LeaveIfExited(s.q, r))
  }

  function DoRead(chunk: nat, input: Text, s: System, a: R.Answer): System {
    if s.r.place != R.Reading then s
    else
      var r := R.Step(chunk, input, s.r, R.Read(a));
      var q := if r.block.Some? then Q.Apply(s.q, Q.Fill(r.block.value)) else s.q;
      s.(r := r, q := LeaveIfExited(q, r))
  }

  function DoCommit(chunk: nat, input: Text, s: System): System {
    if !s.r.place.Committing? then s
    else
      var r := R.Step(chunk, input, s.r, R.Commit);
      s.(r := r, q := LeaveIfExited(Q.Apply(s.q, Q.PushCommit), r))
  }

  predicate IsPopStep(a: Q.Action) {
    a == Q.PopLoadLength || a == Q.PopLocked || a == Q.SpuriousWakeup(Q.Consumer)
  }

  predicate MayProcess(s: System) {
    s.q.consumer.Holding? && s.q.consumer.slot < |s.q.ring.slots| && !s.w.processed
  }

  /** The output once the block that the writer holds is processed. */
  function Target(chunk: nat, s: System): Output
    requires MayProcess(s)
  {
    FeedBlock(chunk, FeedBlocks(chunk, s.w.blocks), s.q.ring.slots[s.q.consumer.slot])
  }

  predicate MoreToWrite(chunk: nat, s: System) {
    MayProcess(s) && |s.w.out.records| < |Target(chunk, s).records|
  }

  /** One more record of the block is written. */
  function DoWriteRecord(chunk: nat, s: System): System {
    if !MoreToWrite(chunk, s) then s
    else s.(w := s.w.(out := s.w.out.(records := Target(chunk, s).records[..|s.w.out.records| + 1])))
  }

  /** All records of the block are written; what is left of it is in the overflow. */
  function DoFinishBlock(chunk: nat, s: System): System {
    if !MayProcess(s) || MoreToWrite(chunk, s) then s
    else
      var block := s.q.ring.slots[s.q.consumer.slot];
      s.(w := s.w.(blocks := s.w.blocks + [block], out := Target(chunk, s), processed := true))
  }

  /** The write of the next record fails; the writer leaves without committing the pop. */
  function DoWriteFails(chunk: nat, s: System): System {
    if !MoreToWrite(chunk, s) then s
    else s.(w := s.w.(failed := true), q := Q.Apply(s.q, Q.Leave(Q.Consumer)))
  }

  function DoPopCommit(s: System): System {
    if !s.w.processed then s else s.(q := Q.Apply(s.q, Q.PopCommit), w := s.w.(processed := false))
  }

  function Step(chunk: nat, input: Text, s: System, a: Action): System {
    match a
    case Poll(p) => DoPoll(chunk, input, s, p)
    case ReserveStep(b) => DoReserve(chunk, input, s, b)
    case Read(x) => DoRead(chunk, input, s, x)
    case Commit => DoCommit(chunk, input, s)
    case PopStep(b) => if IsPopStep(b) then s.(q := Q.Apply(s.q, b)) else s
    case WriteRecord => DoWriteRecord(chunk, s)
    case FinishBlock => DoFinishBlock(chunk, s)
    case WriteFails => DoWriteFails(chunk, s)
    case PopCommit => DoPopCommit(s)
    case Finalize(b) => if b.FinalizeCheck? || b.FinalizeLocked? then s.(q := Q.Apply(s.q, b)) else s
  }

  function Run(chunk: nat, input: Text, s: System, schedule: seq<Action>): System {
    if schedule == [] then s
    else Step(chunk, input, Run(chunk, input, s, schedule[..|schedule| - 1]), schedule[|schedule| - 1])
  }

  // ---------------------------------------------------------------- the invariant

  predicate InPushCall(p: Q.Phase) {
    p == Q.Idle || p == Q.SawActive || p == Q.SawBlocked || p == Q.Waiting || p == Q.Woken
  }

  /** The reader's place matches the producer's phase, and its open block is the reserved slot. */
  ghost predicate ReaderCoupled(s: System) {
    && s.r.committed == s.q.committed
    && (s.r.place.Exited? <==> Q.Ended(s.q.producer))
    && (s.r.place == R.Reserving ==> s.r.block.None? && InPushCall(s.q.producer))
    && (!s.r.place.Exited? && s.r.block.Some? ==>
          && s.q.producer.Holding? && s.q.producer.slot < |s.q.ring.slots|
          && s.q.ring.slots[s.q.producer.slot] == s.r.block.value)
    && (!s.r.place.Exited? && s.r.place != R.Reserving && s.r.block.None? ==> s.q.producer == Q.Idle)
    && (s.q.policy == K.Wait ==> s.q.drops == 0 && R.Lossless(s.r))
  }

  /** The writer holds a block that it has not finished. */
  predicate MidBlock(s: System) {
    s.q.consumer.Holding? && !s.w.processed
  }

  /** In the middle of a block, some of its records are written after those of the blocks before it. */
  ghost predicate Within(chunk: nat, s: System) {
    && |s.q.popped| < |s.q.committed|
    && var before := FeedBlocks(chunk, s.w.blocks);
       && s.w.out.overflow == before.overflow
       && before.records <= s.w.out.records <= FeedBlock(chunk, before, s.q.committed[|s.q.popped|]).records
  }

  /** The writer's output is that of the popped blocks and of what it has processed of the block it holds. */
  ghost predicate WriterCoupled(chunk: nat, s: System) {
    && (s.w.processed ==> s.q.consumer.Holding? && |s.q.popped| < |s.q.committed| && !s.w.failed)
    && s.w.blocks == s.q.popped + (if s.w.processed then [s.q.committed[|s.q.popped|]] else [])
    && (!s.w.failed ==> if MidBlock(s) then Within(chunk, s) else s.w.out == FeedBlocks(chunk, s.w.blocks))
    && (s.w.failed ==> Q.Ended(s.q.consumer) && s.w.out.records < FeedBlocks(chunk, s.q.committed).records)
    && (Q.Ended(s.q.consumer) && !s.w.failed ==> s.q.drained)
    && (s.q.consumer == Q.Finalizing || s.q.finalizer == Q.By(Q.Consumer) ==> s.w.failed)
  }

  ghost predicate Inv(chunk: nat, input: Text, s: System) {
    Q.Inv(s.q) && R.Inv(chunk, input, s.r) && ReaderCoupled(s) && WriterCoupled(chunk, s)
  }

  // ---------------------------------------------------------------- each thread keeps the other's part

  /** Seen from the writer, the queue only gained commits and perhaps a wakeup. */
  ghost predicate ProducerSideOnly(q: Q.State, q': Q.State) {
    && (q'.consumer == q.consumer || (q.consumer == Q.Waiting && q'.consumer == Q.Woken))
    && q'.popped == q.popped && q'.drained == q.drained && q'.finalizer == q.finalizer
    && q.committed <= q'.committed
  }

  lemma WriterFrame(chunk: nat, s: System, s': System)
    requires WriterCoupled(chunk, s) && s'.w == s.w && ProducerSideOnly(s.q, s'.q)
    ensures WriterCoupled(chunk, s')
  {
    if s.w.failed {
      assert s'.q.committed[..|s.q.committed|] == s.q.committed;
      W.BlocksExtend(chunk, s'.q.committed, |s.q.committed|);
    }
  }

  /** Seen from the reader, the queue kept its block and perhaps gained a wakeup. */
  ghost predicate ConsumerSideOnly(q: Q.State, q': Q.State) {
    && (q'.producer == q.producer || (q.producer == Q.Waiting && q'.producer == Q.Woken))
    && q'.committed == q.committed && q'.drops == q.drops && q'.policy == q.policy
    && q'.ring.slots == q.ring.slots
  }

  lemma ReaderFrame(s: System, s': System)
    requires ReaderCoupled(s) && s'.r == s.r && ConsumerSideOnly(s.q, s'.q)
    ensures ReaderCoupled(s')
  {
  }

  // ---------------------------------------------------------------- the reader's actions

  lemma ReserveQueue(q: Q.State, a: Q.Action)
    requires Q.Inv(q) && IsReserveStep(a) && InPushCall(q.producer)
    ensures var q' := Q.Apply(q, a);
      && Q.Inv(q') && ProducerSideOnly(q, q')
      && q'.committed == q.committed && q'.policy == q.policy && q'.ring == q.ring
      && (InPushCall(q'.producer) || q'.producer.Holding? || q'.producer == Q.Exiting)
      && (q'.drops == q.drops || (q.policy == K.Drop && q'.drops == q.drops + 1 && q'.producer == Q.Idle))
  {
    Q.ApplyKeeps(q, a);
  }

  lemma FillQueue(q: Q.State, data: Text)
    requires Q.Inv(q) && q.producer.Holding?
    ensures var q' := Q.Apply(q, Q.Fill(data));
      && Q.Inv(q') && ProducerSideOnly(q, q')
      && q.producer.slot < |q.ring.slots|
      && q' == q.(ring := q.ring.Filled(q.producer.slot, data))
  {
    Q.ApplyKeeps(q, Q.Fill(data));
  }

  /** The queue after a step of a push that has an outcome, with the granted block emptied. */
  function AfterVerdict(q: Q.State, v: seq<R.Reserved>): Q.State {
    if v == [R.Granted] then Q.Apply(q, Q.Fill([])) else q
  }

  lemma ReserveAndClear(q: Q.State, a: Q.Action)
    requires Q.Inv(q) && IsReserveStep(a) && InPushCall(q.producer)
    ensures var q' := Q.Apply(q, a); var q'' := AfterVerdict(q', Verdict(q, q'));
      Q.Inv(q'') && ProducerSideOnly(q, q'') && (q'.producer.Holding? ==>
        q'.producer.slot < |q'.ring.slots| && q'' == q'.(ring := q'.ring.Filled(q'.producer.slot, [])))
  {
    ReserveQueue(q, a);
    var q' := Q.Apply(q, a);
    if q'.producer.Holding? {
      FillQueue(q', []);
    }
  }

  lemma ReserveKeeps(chunk: nat, input: Text, s: System, a: Q.Action)
    requires chunk > 0 && Inv(chunk, input, s)
    ensures Inv(chunk, input, DoReserve(chunk, input, s, a))
  {
    if s.r.place == R.Reserving && IsReserveStep(a) {
      ReserveWriter(chunk, input, s, a);
      ReserveReader(chunk, input, s, a);
    }
  }

  lemma ReserveWriter(chunk: nat, input: Text, s: System, a: Q.Action)
    requires Q.Inv(s.q) && WriterCoupled(chunk, s) && InPushCall(s.q.producer)
    requires s.r.place == R.Reserving && IsReserveStep(a)
    ensures var s' := DoReserve(chunk, input, s, a); Q.Inv(s'.q) && WriterCoupled(chunk, s')
  {
    var q, s' := Q.Apply(s.q, a), DoReserve(chunk, input, s, a);
    ReserveAndClear(s.q, a);
    assert s'.q == AfterVerdict(q, Verdict(s.q, q));
    WriterFrame(chunk, s, s');
  }

  lemma ReserveReader(chunk: nat, input: Text, s: System, a: Q.Action)
    requires chunk > 0 && Inv(chunk, input, s) && s.r.place == R.Reserving && IsReserveStep(a)
    ensures var s' := DoReserve(chunk, input, s, a);
      R.Inv(chunk, input, s'.r) && ReaderCoupled(s')
  {
    var q := Q.Apply(s.q, a);
    var v := Verdict(s.q, q);
    ReserveAndClear(s.q, a);
    ReserveQueue(s.q, a);
    if v != [] {
      R.StepKeeps(chunk, input, s.r, R.Reserve(v[0]));
      ReserveCoupled(chunk, input, s, DoReserve(chunk, input, s, a), q, v[0]);
    }
  }

  lemma ReserveCoupled(chunk: nat, input: Text, s: System, s': System, q: Q.State, v: R.Reserved)
    requires ReaderCoupled(s) && s.r.place == R.Reserving && s'.r == R.Step(chunk, input, s.r, R.Reserve(v))
    requires q.committed == s.q.committed && q.policy == s.q.policy && q.ring == s.q.ring
    requires match v
      case Granted =>
        && q.producer.Holding? && q.producer.slot < |q.ring.slots| && q.drops == s.q.drops
        && s'.q == q.(ring := q.ring.Filled(q.producer.slot, []))
      case MustDrop => q.producer == Q.Idle && q.policy == K.Drop && s'.q == q
      case ShuttingDown => q.producer == Q.Exiting && q.drops == s.q.drops && s'.q == q
    ensures ReaderCoupled(s')
  {
  }

  lemma LeaveQueue(q: Q.State)
    requires Q.Inv(q) && Q.MayLeave(q.producer)
    ensures var q' := Q.Apply(q, Q.Leave(Q.Producer));
      Q.Inv(q') && ProducerSideOnly(q, q') && q' == q.(producer := Q.Exiting)
  {
    Q.ApplyKeeps(q, Q.Leave(Q.Producer));
  }

  lemma PollCoupled(s: System, s': System)
    requires ReaderCoupled(s) && s.r.place == R.Polling && s'.r == s.r.(place := s'.r.place)
    requires s'.r.place == R.Polling || s'.r.place == R.Top(s.r).place || s'.r.place.Exited?
    requires s'.q == if s'.r.place.Exited? then s.q.(producer := Q.Exiting) else s.q
    ensures ReaderCoupled(s')
  {
  }

  lemma PollKeeps(chunk: nat, input: Text, s: System, p: R.Polled)
    requires chunk > 0 && Inv(chunk, input, s)
    ensures Inv(chunk, input, DoPoll(chunk, input, s, p))
  {
    if s.r.place == R.Polling {
      R.StepKeeps(chunk, input, s.r, R.Poll(p));
      var r := R.Step(chunk, input, s.r, R.Poll(p));
      if p == R.PollFailed {
        LeaveQueue(s.q);
        PollCoupled(s, System(Q.Apply(s.q, Q.Leave(Q.Producer)), r, s.w));
        WriterFrame(chunk, s, System(Q.Apply(s.q, Q.Leave(Q.Producer)), r, s.w));
      } else {
        PollCoupled(s, System(s.q, r, s.w));
        WriterFrame(chunk, s, System(s.q, r, s.w));
      }
    }
  }

  lemma ReadKeeps(chunk: nat, input: Text, s: System, a: R.Answer)
    requires chunk > 0 && Inv(chunk, input, s)
    ensures Inv(chunk, input, DoRead(chunk, input, s, a))
  {
    if s.r.place == R.Reading {
      R.StepKeeps(chunk, input, s.r, R.Read(a));
      var r := R.Step(chunk, input, s.r, R.Read(a));
      if s.q.policy == K.Wait {
        R.StepLosesNothing(chunk, input, s.r, R.Read(a));
      }
      ReadShape(chunk, input, s.r, a);
      var q := if r.block.Some? then Q.Apply(s.q, Q.Fill(r.block.value)) else s.q;
      if r.block.Some? {
        FillQueue(s.q, r.block.value);
      }
      LeaveQueue(q);
      var s' := System(LeaveIfExited(q, r), r, s.w);
      ReadCoupled(s, s', q);
      WriterFrame(chunk, s, s');
      assert DoRead(chunk, input, s, a) == s';
    }
  }

  /** A `read` keeps the reservation and the commits. */
  lemma ReadShape(chunk: nat, input: Text, r: R.State, a: R.Answer)
    requires r.place == R.Reading
    ensures var r' := R.Step(chunk, input, r, R.Read(a));
      r'.committed == r.committed && (r'.block.Some? <==> r.block.Some?) && (r'.place == R.Reserving ==> r'.block.None?)
  {
  }

  lemma ReadCoupled(s: System, s': System, q: Q.State)
    requires Q.Inv(s.q) && ReaderCoupled(s) && s.r.place == R.Reading
    requires s'.r.committed == s.r.committed && (s'.r.block.Some? <==> s.r.block.Some?)
    requires s'.r.place == R.Reserving ==> s'.r.block.None?
    requires s'.r.block.None? ==> q == s.q
    requires s'.r.block.Some? ==> s.q.producer.Holding? && s.q.producer.slot < |s.q.ring.slots|
    requires s'.r.block.Some? ==> q == s.q.(ring := s.q.ring.Filled(s.q.producer.slot, s'.r.block.value))
    requires s'.q == if s'.r.place.Exited? then q.(producer := Q.Exiting) else q
    requires s.q.policy == K.Wait ==> R.Lossless(s'.r)
    ensures ReaderCoupled(s')
  {
  }

  lemma CommitQueue(q: Q.State)
    requires Q.Inv(q) && q.producer.Holding?
    ensures var q' := Q.Apply(q, Q.PushCommit);
      && Q.Inv(q') && ProducerSideOnly(q, q') && q'.producer == Q.Idle
      && q.producer.slot < |q.ring.slots|
      && q'.committed == q.committed + [q.ring.slots[q.producer.slot]]
      && q'.policy == q.policy && q'.drops == q.drops
  {
    Q.ApplyKeeps(q, Q.PushCommit);
  }

  lemma CommitAndLeave(q: Q.State, r: R.State)
    requires Q.Inv(q) && q.producer.Holding?
    ensures var q' := LeaveIfExited(Q.Apply(q, Q.PushCommit), r);
      && Q.Inv(q') && ProducerSideOnly(q, q') && q.producer.slot < |q.ring.slots|
      && q'.producer == (if r.place.Exited? then Q.Exiting else Q.Idle)
      && q'.committed == q.committed + [q.ring.slots[q.producer.slot]]
      && q'.policy == q.policy && q'.drops == q.drops
  {
    CommitQueue(q);
    LeaveQueue(Q.Apply(q, Q.PushCommit));
  }

  lemma CommitCoupled(s: System, s': System)
    requires ReaderCoupled(s) && s.r.place.Committing? && s.r.block.Some? && s'.r == R.CommitStep(s.r)
    requires s'.q.producer == (if s'.r.place.Exited? then Q.Exiting else Q.Idle)
    requires s'.q.committed == s.q.committed + [s.r.block.value]
    requires s'.q.policy == s.q.policy && s'.q.drops == s.q.drops
    ensures ReaderCoupled(s')
  {
  }

  lemma CommitKeeps(chunk: nat, input: Text, s: System)
    requires chunk > 0 && Inv(chunk, input, s)
    ensures Inv(chunk, input, DoCommit(chunk, input, s))
  {
    if s.r.place.Committing? {
      var r := R.CommitStep(s.r);
      R.CommitStepKeeps(chunk, input, s.r);
      CommitAndLeave(s.q, r);
      var s' := System(LeaveIfExited(Q.Apply(s.q, Q.PushCommit), r), r, s.w);
      CommitCoupled(s, s');
      WriterFrame(chunk, s, s');
      assert DoCommit(chunk, input, s) == s';
    }
  }

  // ---------------------------------------------------------------- the writer's actions

  lemma PopStepQueue(q: Q.State, a: Q.Action)
    requires Q.Inv(q) && IsPopStep(a)
    ensures var q' := Q.Apply(q, a);
      && Q.Inv(q') && ConsumerSideOnly(q, q')
      && q'.popped == q.popped && q'.finalizer == q.finalizer
      && (q'.consumer == q.consumer || (!q.consumer.Holding? && !Q.Ended(q.consumer) && q'.consumer != Q.Finalizing))
      && (Q.Ended(q'.consumer) ==> q'.drained || (q'.drained == q.drained && Q.Ended(q.consumer)))
  {
    Q.ApplyKeeps(q, a);
  }

  lemma PopStepKeeps(chunk: nat, input: Text, s: System, a: Q.Action)
    requires Inv(chunk, input, s)
    ensures Inv(chunk, input, Step(chunk, input, s, PopStep(a)))
  {
    if IsPopStep(a) {
      var s' := System(Q.Apply(s.q, a), s.r, s.w);
      PopStepQueue(s.q, a);
      ReaderFrame(s, s');
      if s'.q.consumer.Holding? {
        HeldBlock(s'.q);
        W.FeedBlockExtends(chunk, FeedBlocks(chunk, s.w.blocks), s'.q.committed[|s'.q.popped|]);
      }
      assert Step(chunk, input, s, PopStep(a)) == s';
    }
  }

  /** The block that the consumer holds is the next committed one. */
  lemma HeldBlock(q: Q.State)
    requires Q.Inv(q) && q.consumer.Holding?
    ensures q.consumer.slot < |q.ring.slots| && |q.popped| < |q.committed|
    ensures q.ring.slots[q.consumer.slot] == q.committed[|q.popped|]
    ensures q.popped + [q.committed[|q.popped|]] == q.committed[..|q.popped| + 1]
  {
    assert q.committed[|q.popped|] == q.ring.Window()[0];
    assert q.committed[..|q.popped|] == q.popped;
  }

  /** The writer's target, read from the committed blocks. */
  lemma TargetIs(chunk: nat, input: Text, s: System)
    requires Inv(chunk, input, s) && MayProcess(s)
    ensures Within(chunk, s) && !s.w.failed && s.w.blocks == s.q.popped
    ensures s.q.ring.slots[s.q.consumer.slot] == s.q.committed[|s.q.popped|]
    ensures Target(chunk, s) == FeedBlock(chunk, FeedBlocks(chunk, s.w.blocks), s.q.committed[|s.q.popped|])
  {
    HeldBlock(s.q);
  }

  lemma NextRecord(xs: seq<Text>, ys: seq<Text>)
    requires xs <= ys
    ensures |xs| < |ys| ==> xs <= ys[..|xs| + 1] <= ys
    ensures |xs| >= |ys| ==> xs == ys
  {
  }

  lemma WriteRecordKeeps(chunk: nat, input: Text, s: System)
    requires Inv(chunk, input, s)
    ensures Inv(chunk, input, Step(chunk, input, s, WriteRecord))
  {
    if MoreToWrite(chunk, s) {
      TargetIs(chunk, input, s);
      NextRecord(s.w.out.records, Target(chunk, s).records);
      ReaderFrame(s, DoWriteRecord(chunk, s));
      assert Within(chunk, DoWriteRecord(chunk, s));
    }
  }

  lemma FinishBlockKeeps(chunk: nat, input: Text, s: System)
    requires Inv(chunk, input, s)
    ensures Inv(chunk, input, Step(chunk, input, s, FinishBlock))
  {
    if MayProcess(s) && !MoreToWrite(chunk, s) {
      TargetIs(chunk, input, s);
      var block := s.q.committed[|s.q.popped|];
      assert (s.w.blocks + [block])[..|s.w.blocks|] == s.w.blocks;
      ReaderFrame(s, DoFinishBlock(chunk, s));
    }
  }

  lemma WriterLeaves(q: Q.State)
    requires Q.Inv(q) && q.consumer.Holding?
    ensures var q' := Q.Apply(q, Q.Leave(Q.Consumer));
      Q.Inv(q') && ConsumerSideOnly(q, q') && q' == q.(consumer := Q.Exiting)
  {
    Q.ApplyKeeps(q, Q.Leave(Q.Consumer));
  }

  /** The records of the block being processed are among those of all committed blocks. */
  lemma HeldRecords(chunk: nat, popped: seq<Text>, block: Text, committed: seq<Text>)
    requires |popped| < |committed| && popped + [block] == committed[..|popped| + 1]
    ensures FeedBlock(chunk, FeedBlocks(chunk, popped), block).records <= FeedBlocks(chunk, committed).records
  {
    var upTo := committed[..|popped| + 1];
    assert upTo[..|popped|] == popped && upTo[|popped|] == block;
    W.BlocksExtend(chunk, committed, |popped| + 1);
  }

  lemma WriteFailsKeeps(chunk: nat, input: Text, s: System)
    requires Inv(chunk, input, s)
    ensures Inv(chunk, input, Step(chunk, input, s, WriteFails))
  {
    if MoreToWrite(chunk, s) {
      TargetIs(chunk, input, s);
      HeldBlock(s.q);
      WriterLeaves(s.q);
      HeldRecords(chunk, s.q.popped, s.q.committed[|s.q.popped|], s.q.committed);
      ReaderFrame(s, DoWriteFails(chunk, s));
    }
  }

  lemma PopCommitQueue(q: Q.State)
    requires Q.Inv(q) && q.consumer.Holding?
    ensures var q' := Q.Apply(q, Q.PopCommit);
      && Q.Inv(q') && ConsumerSideOnly(q, q') && q'.consumer == Q.Idle
      && |q.popped| < |q.committed| && q'.popped == q.popped + [q.committed[|q.popped|]]
      && q'.drained == q.drained && q'.finalizer == q.finalizer
  {
    HeldBlock(q);
    Q.ApplyKeeps(q, Q.PopCommit);
  }

  lemma PopCommitWriter(chunk: nat, s: System, s': System)
    requires WriterCoupled(chunk, s) && s.w.processed && s'.w == s.w.(processed := false)
    requires s'.q.consumer == Q.Idle && s'.q.popped == s.q.popped + [s.q.committed[|s.q.popped|]]
    requires s'.q.committed == s.q.committed && s'.q.drained == s.q.drained && s'.q.finalizer == s.q.finalizer
    ensures WriterCoupled(chunk, s')
  {
    assert s'.w.blocks == s'.q.popped + [];
  }

  lemma PopCommitKeeps(chunk: nat, input: Text, s: System)
    requires Inv(chunk, input, s)
    ensures Inv(chunk, input, Step(chunk, input, s, PopCommit))
  {
    if s.w.processed {
      var s' := System(Q.Apply(s.q, Q.PopCommit), s.r, s.w.(processed := false));
      PopCommitQueue(s.q);
      ReaderFrame(s, s');
      PopCommitWriter(chunk, s, s');
      assert Step(chunk, input, s, PopCommit) == s';
    }
  }

  /** A finalizing step changes a phase only from one ended phase to another, or by a wakeup. */
  ghost predicate PhaseKept(p: Q.Phase, p': Q.Phase) {
    p' == p || (p == Q.Waiting && p' == Q.Woken) || (Q.Ended(p) && Q.Ended(p'))
  }

  lemma FinalizeQueue(q: Q.State, a: Q.Action)
    requires Q.Inv(q) && (a.FinalizeCheck? || a.FinalizeLocked?)
    ensures var q' := Q.Apply(q, a);
      && Q.Inv(q') && PhaseKept(q.producer, q'.producer) && PhaseKept(q.consumer, q'.consumer)
      && q'.ring.slots == q.ring.slots && q'.committed == q.committed && q'.popped == q.popped
      && q'.drops == q.drops && q'.policy == q.policy && q'.drained == q.drained
      && (q'.consumer == Q.Finalizing ==> q.consumer == Q.Finalizing || (q.consumer == Q.Exiting && q.ring.active))
      && (q'.finalizer == Q.By(Q.Consumer) ==> q.finalizer == Q.By(Q.Consumer) || q.consumer == Q.Finalizing)
  {
    Q.ApplyKeeps(q, a);
  }

  lemma FinalizeReader(s: System, s': System)
    requires ReaderCoupled(s) && s'.r == s.r && PhaseKept(s.q.producer, s'.q.producer)
    requires s'.q.ring.slots == s.q.ring.slots && s'.q.committed == s.q.committed
    requires s'.q.drops == s.q.drops && s'.q.policy == s.q.policy
    ensures ReaderCoupled(s')
  {
  }

  lemma FinalizeWriter(chunk: nat, s: System, s': System)
    requires WriterCoupled(chunk, s) && s'.w == s.w && PhaseKept(s.q.consumer, s'.q.consumer)
    requires s'.q.committed == s.q.committed && s'.q.popped == s.q.popped && s'.q.drained == s.q.drained
    requires s'.q.consumer == Q.Finalizing || s'.q.finalizer == Q.By(Q.Consumer) ==> s.w.failed
    ensures WriterCoupled(chunk, s')
  {
    assert MidBlock(s') <==> MidBlock(s);
  }

  /** A consumer that finalizes the active queue has left because a write failed. */
  lemma FinalizingFailed(chunk: nat, input: Text, s: System, q: Q.State)
    requires Inv(chunk, input, s)
    requires q.consumer == Q.Finalizing ==>
      s.q.consumer == Q.Finalizing || (s.q.consumer == Q.Exiting && s.q.ring.active)
    requires q.finalizer == Q.By(Q.Consumer) ==> s.q.finalizer == Q.By(Q.Consumer) || s.q.consumer == Q.Finalizing
    ensures q.consumer == Q.Finalizing || q.finalizer == Q.By(Q.Consumer) ==> s.w.failed
  {
  }

  lemma FinalizeKeeps(chunk: nat, input: Text, s: System, a: Q.Action)
    requires Inv(chunk, input, s)
    ensures Inv(chunk, input, Step(chunk, input, s, Finalize(a)))
  {
    if a.FinalizeCheck? || a.FinalizeLocked? {
      var s' := System(Q.Apply(s.q, a), s.r, s.w);
      FinalizeQueue(s.q, a);
      FinalizeReader(s, s');
      FinalizingFailed(chunk, input, s, s'.q);
      FinalizeWriter(chunk, s, s');
      assert Step(chunk, input, s, Finalize(a)) == s';
    }
  }

  lemma ReaderSideKeeps(chunk: nat, input: Text, s: System, a: Action)
    requires chunk > 0 && Inv(chunk, input, s) && (a.Poll? || a.ReserveStep? || a.Read? || a.Commit?)
    ensures Inv(chunk, input, Step(chunk, input, s, a))
  {
    match a
    case Poll(p) => PollKeeps(chunk, input, s, p);
    case ReserveStep(b) => ReserveKeeps(chunk, input, s, b);
    case Read(x) => ReadKeeps(chunk, input, s, x);
    case Commit => CommitKeeps(chunk, input, s);
  }

  lemma WriterSideKeeps(chunk: nat, input: Text, s: System, a: Action)
    requires Inv(chunk, input, s) && (a == WriteRecord || a == FinishBlock || a == WriteFails || a == PopCommit)
    ensures Inv(chunk, input, Step(chunk, input, s, a))
  {
    if a == WriteRecord {
      WriteRecordKeeps(chunk, input, s);
    } else if a == FinishBlock {
      FinishBlockKeeps(chunk, input, s);
    } else if a == WriteFails {
      WriteFailsKeeps(chunk, input, s);
    } else {
      PopCommitKeeps(chunk, input, s);
    }
  }

  lemma {:induction false} StepKeeps(chunk: nat, input: Text, s: System, a: Action)
    requires chunk > 0 && Inv(chunk, input, s)
    ensures Inv(chunk, input, Step(chunk, input, s, a))
  {
    if a.PopStep? {
      PopStepKeeps(chunk, input, s, a.step);
    } else if a.Finalize? {
      FinalizeKeeps(chunk, input, s, a.step);
    } else if a.Poll? || a.ReserveStep? || a.Read? || a.Commit? {
      ReaderSideKeeps(chunk, input, s, a);
    } else {
      WriterSideKeeps(chunk, input, s, a);
    }
  }

  lemma {:induction false} Reachable(chunk: nat, input: Text, capacity: nat, policy: K.Policy, schedule: seq<Action>)
    requires chunk > 0 && capacity > 0
    ensures Inv(chunk, input, Run(chunk, input, Init(capacity, policy), schedule))
  {
    if schedule == [] {
      assert Q.Run(Q.Init(capacity, policy), []) == Q.Init(capacity, policy);
      Q.Reachable(capacity, policy, []);
      R.ReaderConserves(chunk, input, []);
    } else {
      var before := schedule[..|schedule| - 1];
      Reachable(chunk, input, capacity, policy, before);
      StepKeeps(chunk, input, Run(chunk, input, Init(capacity, policy), before), schedule[|schedule| - 1]);
    }
  }

  lemma StepPolicy(chunk: nat, input: Text, s: System, a: Action)
    ensures Step(chunk, input, s, a).q.policy == s.q.policy
  {
    forall q: Q.State, b: Q.Action
      ensures Q.Apply(q, b).policy == q.policy
    {
      Q.ApplyParameters(q, b);
    }
  }

  lemma {:induction false} PolicyStays(chunk: nat, input: Text, s: System, schedule: seq<Action>)
    ensures Run(chunk, input, s, schedule).q.policy == s.q.policy
  {
    if schedule != [] {
      var before := schedule[..|schedule| - 1];
      PolicyStays(chunk, input, s, before);
      StepPolicy(chunk, input, Run(chunk, input, s, before), schedule[|schedule| - 1]);
    }
  }

  // ---------------------------------------------------------------- what is written

  lemma WrittenInState(chunk: nat, input: Text, s: System)
    requires Inv(chunk, input, s)
    ensures s.w.out.records <= FeedBlocks(chunk, s.q.committed).records
  {
    if !s.w.failed {
      if s.q.consumer.Holding? {
        HeldBlock(s.q);
      }
      if MidBlock(s) {
        var block := s.q.committed[|s.q.popped|];
        assert s.w.blocks == s.q.popped;
        HeldRecords(chunk, s.q.popped, block, s.q.committed);
        W.PrefixTrans(s.w.out.records, FeedBlock(chunk, FeedBlocks(chunk, s.q.popped), block).records,
                      FeedBlocks(chunk, s.q.committed).records);
      } else {
        assert s.w.blocks == s.q.committed[..|s.w.blocks|];
        W.BlocksExtend(chunk, s.q.committed, |s.w.blocks|);
      }
    }
  }

  /** What the records are made of: the input, or under the drop policy what was kept of it. */
  function Source(input: Text, s: System): Text {
    if s.q.policy == K.Wait then input else R.KeptBytes(s.r.log)
  }

  /** No line, complete or open, is a positive multiple of the chunk size; with one-byte chunks that does not matter. */
  ghost predicate Regular(chunk: nat, text: Text)
    requires chunk > 0
  {
    chunk == 1 || !HasWholeLine(chunk, text)
  }

  /** The records of a text: its complete lines, chopped, and its open last line but for the last piece. */
  function Expected(chunk: nat, text: Text): seq<Text>
    requires chunk > 0
  {
    var open := Chop(chunk, Trail(text));
    SplitAndChop(chunk, text) + open[..|open| - 1]
  }

  lemma RecordsOfAll(chunk: nat, blocks: seq<Text>)
    requires chunk > 0 && Regular(chunk, Join(blocks))
    ensures FeedBlocks(chunk, blocks).records == Expected(chunk, Join(blocks))
  {
    var o, text := FeedBlocks(chunk, blocks), Join(blocks);
    var open, done := Chop(chunk, Trail(text)), SplitAndChop(chunk, text);
    WriterIsSplitAndChop(chunk, blocks);
    assert open == open[..|open| - 1] + [open[|open| - 1]];
    SnocParts(done, open[..|open| - 1], open[|open| - 1]);
    SnocInjective(o.records, o.overflow, done + open[..|open| - 1], open[|open| - 1]);
  }

  /**
   The beginning of a text, in any blocks, gives the beginning of the text's records: one more block
   with the rest of the text would give them all.
   */
  lemma RecordsOfPart(chunk: nat, blocks: seq<Text>, text: Text)
    requires chunk > 0 && Join(blocks) <= text && Regular(chunk, text)
    ensures FeedBlocks(chunk, blocks).records <= Expected(chunk, text)
  {
    var rest := text[|Join(blocks)|..];
    var all := blocks + [rest];
    JoinSnoc(blocks, rest);
    assert Join(all) == text;
    assert all[..|blocks|] == blocks;
    W.BlocksExtend(chunk, all, |blocks|);
    RecordsOfAll(chunk, all);
  }

  lemma SourceBegins(chunk: nat, input: Text, s: System)
    requires Inv(chunk, input, s)
    ensures Join(s.q.committed) <= Source(input, s)
  {
    if s.q.policy == K.Wait {
      R.LosslessBytes(chunk, input, s.r);
    }
  }

  /**
   In every reachable state, whatever was finalized, read or written so far, what was written is the
   beginning of what the committed blocks give, and so of the records of the source; after a failed
   write there is a next record in both. The committed blocks are the beginning of the source.
   */
  lemma {:induction false} WrittenSoFar(chunk: nat, input: Text, capacity: nat, policy: K.Policy, schedule: seq<Action>)
    requires chunk > 0 && capacity > 0
    ensures var s := Run(chunk, input, Init(capacity, policy), schedule);
      && Join(s.q.committed) <= Source(input, s) && s.q.policy == policy
      && (forall i :: 0 <= i < |s.q.committed| ==> 0 < |s.q.committed[i]| <= chunk)
      && s.w.out.records <= FeedBlocks(chunk, s.q.committed).records
      && (s.w.failed ==> s.w.out.records < FeedBlocks(chunk, s.q.committed).records)
      && (Regular(chunk, Source(input, s)) ==>
            FeedBlocks(chunk, s.q.committed).records <= Expected(chunk, Source(input, s)))
  {
    Reachable(chunk, input, capacity, policy, schedule);
    PolicyStays(chunk, input, Init(capacity, policy), schedule);
    var s := Run(chunk, input, Init(capacity, policy), schedule);
    WrittenInState(chunk, input, s);
    SourceBegins(chunk, input, s);
    if Regular(chunk, Source(input, s)) {
      RecordsOfPart(chunk, s.q.committed, Source(input, s));
    }
  }

  // ---------------------------------------------------------------- end to end

  /** The run is over: the reader ended at the end of input, the writer by the queue's shutdown, undisturbed. */
  predicate Completed(s: System) {
    && s.r.place == R.Exited(R.EndOfInput)
    && Q.Ended(s.q.consumer) && !s.w.failed
    && s.q.finalizer != Q.By(Q.Outsider)
  }

  lemma FinalizerKnown(f: Q.FinalizedBy)
    ensures f == Q.Nobody || f == Q.By(Q.Producer) || f == Q.By(Q.Consumer) || f == Q.By(Q.Outsider)
  {
    if f.By? {
      match f.thread
      case Producer =>
      case Consumer =>
      case Outsider =>
    }
  }

  lemma CompletedState(chunk: nat, input: Text, s: System)
    requires Inv(chunk, input, s) && Completed(s)
    ensures Splitting(chunk, Source(input, s), s.q.committed) && s.w.out == FeedBlocks(chunk, s.q.committed)
    ensures R.AllBytes(s.r.log) == input
  {
    if s.q.policy == K.Wait {
      R.LosslessBytes(chunk, input, s.r);
    }
    var all := Join(s.q.committed);
    assert all + [] == all && input[..|input|] == input;
    FinalizerKnown(s.q.finalizer);
    assert s.q.drained && s.q.finalizer == Q.By(Q.Producer);
    assert !s.w.processed && s.q.popped + [] == s.q.popped;
  }

  /**
   For every interleaving and every way `read` cuts the input, a completed run has read the whole
   input and popped all of its source, in blocks that the writer turned into its output. Under the
   wait policy the source is the input; under the drop policy it is what was kept.
   */
  lemma CompletedRun(chunk: nat, input: Text, capacity: nat, policy: K.Policy, schedule: seq<Action>)
    requires chunk > 0 && capacity > 0
    requires Completed(Run(chunk, input, Init(capacity, policy), schedule))
    ensures var s := Run(chunk, input, Init(capacity, policy), schedule);
      && Splitting(chunk, Source(input, s), s.q.committed) && s.w.out == FeedBlocks(chunk, s.q.committed)
      && R.AllBytes(s.r.log) == input && s.q.policy == policy
  {
    Reachable(chunk, input, capacity, policy, schedule);
    PolicyStays(chunk, input, Init(capacity, policy), schedule);
    CompletedState(chunk, input, Run(chunk, input, Init(capacity, policy), schedule));
  }

  /**
   If no line of the source is a positive multiple of the chunk size, the records written depend on
   the source alone: its complete lines, chopped, and the full pieces of a last line without newline,
   whose last piece is dropped.
   */
  lemma EndToEnd(chunk: nat, input: Text, capacity: nat, policy: K.Policy, schedule: seq<Action>)
    requires chunk > 0 && capacity > 0
    requires Completed(Run(chunk, input, Init(capacity, policy), schedule))
    requires Regular(chunk, Source(input, Run(chunk, input, Init(capacity, policy), schedule)))
    ensures var s := Run(chunk, input, Init(capacity, policy), schedule);
      && s.w.out.records == Expected(chunk, Source(input, s)) && (policy == K.Wait ==> Source(input, s) == input)
      && (|Trail(Source(input, s))| <= chunk ==> s.w.out.records == SplitAndChop(chunk, Source(input, s)))
  {
    CompletedRun(chunk, input, capacity, policy, schedule);
    RecordsOfAll(chunk, Run(chunk, input, Init(capacity, policy), schedule).q.committed);
  }

  /**
   Without that condition the records are known exactly too: one empty record more after each line
   that is a positive multiple of the chunk size and whose last byte ended a short block.
   */
  lemma EndToEndExact(chunk: nat, input: Text, capacity: nat, policy: K.Policy, schedule: seq<Action>)
    requires chunk > 0 && capacity > 0
    requires Completed(Run(chunk, input, Init(capacity, policy), schedule))
    ensures var s := Run(chunk, input, Init(capacity, policy), schedule);
      Means(chunk, s.w.out, Source(input, s), ShortEnds(chunk, s.q.committed))
  {
    CompletedRun(chunk, input, capacity, policy, schedule);
    MachineMeaning(chunk, Run(chunk, input, Init(capacity, policy), schedule).q.committed);
  }

  /**
   The write of every record may fail, whatever was committed or finalized; the writer then leaves with
   the records before it, and the pop of the block is never committed.
   */
  lemma WritesMayFail(chunk: nat, input: Text, s: System)
    requires Inv(chunk, input, s) && MoreToWrite(chunk, s)
    ensures var t := Step(chunk, input, s, WriteFails);
      && t.w.failed && t.w.out == s.w.out && t.q == s.q.(consumer := Q.Exiting) && t.r == s.r
  {
    TargetIs(chunk, input, s);
  }

  // ---------------------------------------------------------------- the bytes

  /** The bytes of a run of writes of the first records, as long as they were clean before the last. */
  lemma RecoversPart(fields: seq<Field>, expected: seq<Text>, n: nat, script: seq<seq<V.Answer>>, run: seq<Sink>)
    requires forall i :: 0 <= i < |fields| ==> IsKey(fields[i].key)
    requires n <= |expected| && IsRun(Prefix(fields), expected[..n], script, run)
    requires AllClean(Prefix(fields), expected, script, n - 1)
    ensures Recover(Prefix(fields), run[n].output) == Some(expected[..n])
  {
    var prefix, done := Prefix(fields), expected[..n];
    assert AllClean(prefix, done, script, n - 1);
    CleanOutput(prefix, done, script, run, n);
    assert done[..n] == done;
    OutputDeterminesRecords(fields, done);
  }

  /**
   From the fields and the input to the bytes that the short-write loop sends, in every reachable
   state: if no accepted count cut an element before the last record written, reading the bytes back
   recovers exactly the first of the expected records, and all of them when the run has completed.
   After a failed write there is a next expected record, and what its write sent is a part of its frame.
   */
  lemma EndToEndBytes(chunk: nat, input: Text, capacity: nat, policy: K.Policy, schedule: seq<Action>,
                      fields: seq<Field>, script: seq<seq<V.Answer>>, run: seq<Sink>)
    requires chunk > 0 && capacity > 0 && forall i :: 0 <= i < |fields| ==> IsKey(fields[i].key)
    requires Regular(chunk, Source(input, Run(chunk, input, Init(capacity, policy), schedule)))
    requires var records := Run(chunk, input, Init(capacity, policy), schedule).w.out.records;
      IsRun(Prefix(fields), records, script, run) && AllClean(Prefix(fields), records, script, |records| - 1)
    ensures var s := Run(chunk, input, Init(capacity, policy), schedule);
      var n, expected := |s.w.out.records|, Expected(chunk, Source(input, s));
      && n <= |expected| && Recover(Prefix(fields), run[n].output) == Some(expected[..n])
      && (Completed(s) ==> n == |expected|)
      && (s.w.failed ==> n < |expected|)
      && (s.w.failed && AllClean(Prefix(fields), expected, script, n) ==>
            forall part :: Stops(Prefix(fields), run[n], expected[n], AnswersFor(script, n), part)
                       ==> part <= Frame(Prefix(fields), expected[n]))
  {
    WrittenSoFar(chunk, input, capacity, policy, schedule);
    var s := Run(chunk, input, Init(capacity, policy), schedule);
    var records, expected := s.w.out.records, Expected(chunk, Source(input, s));
    assert records == expected[..|records|];
    assert AllClean(Prefix(fields), expected, script, |records| - 1);
    RecoversPart(fields, expected, |records|, script, run);
    if Completed(s) {
      EndToEnd(chunk, input, capacity, policy, schedule);
    }
    if s.w.failed && AllClean(Prefix(fields), expected, script, |records|) {
      assert AllClean(Prefix(fields), records, script, |records|);
      forall part | Stops(Prefix(fields), run[|records|], expected[|records|], AnswersFor(script, |records|), part)
        ensures part <= Frame(Prefix(fields), expected[|records|])
      {
        PartOfFrame(Prefix(fields), records, script, run, expected[|records|], part);
      }
    }
  }

  // ---------------------------------------------------------------- what the drop policy loses

  function LostCount(log: seq<R.Piece>): nat {
    if log == [] then 0
    else LostCount(log[..|log| - 1]) + if log[|log| - 1].Lost? then 1 else 0
  }

  /** The queue said drop and the scratch read it allows is still to come. */
  predicate Dropping(r: R.State) {
    r.place == R.Reading && r.block.None?
  }

  /** A push sees the ring full under its lock, under the drop policy. */
  predicate SeesFull(s: System, a: Action) {
    a == ReserveStep(Q.PushLocked) && s.r.place == R.Reserving && Q.SeesFull(s.q, Q.PushLocked)
  }

  /** How often that happens in a run. */
  function FullSights(chunk: nat, input: Text, s: System, schedule: seq<Action>): nat {
    if schedule == [] then 0
    else
      var before := schedule[..|schedule| - 1];
      FullSights(chunk, input, s, before) +
      if SeesFull(Run(chunk, input, s, before), schedule[|schedule| - 1]) then 1 else 0
  }

  /** Each read that went to the scratch buffer answers one drop. */
  ghost predicate DropsCover(s: System) {
    LostCount(s.r.log) + (if Dropping(s.r) then 1 else 0) <= s.q.drops
  }

  lemma DropsGrow(q: Q.State, a: Q.Action)
    ensures q.drops <= Q.Apply(q, a).drops
    ensures a != Q.PushLocked ==> Q.Apply(q, a).drops == q.drops
  {
  }

  /** Nothing but a full ring seen under the lock makes the queue say drop. */
  lemma DropsStep(chunk: nat, input: Text, s: System, a: Action)
    requires Q.Inv(s.q)
    ensures Step(chunk, input, s, a).q.drops == s.q.drops + if SeesFull(s, a) then 1 else 0
  {
    forall q: Q.State, b: Q.Action | b != Q.PushLocked
      ensures Q.Apply(q, b).drops == q.drops
    {
      DropsGrow(q, b);
    }
    if a.ReserveStep? {
      Q.DropStep(s.q, a.step);
    }
  }

  lemma ReadCounts(chunk: nat, input: Text, r: R.State, a: R.Answer)
    requires r.place == R.Reading
    ensures var r' := R.ReadStep(chunk, input, r, a);
      LostCount(r'.log) + (if Dropping(r') then 1 else 0) <= LostCount(r.log) + if Dropping(r) then 1 else 0
  {
    var r' := R.ReadStep(chunk, input, r, a);
    if r'.log != r.log {
      assert r'.log[..|r.log|] == r.log;
    }
  }

  lemma ReserveCounts(chunk: nat, input: Text, r: R.State, v: R.Reserved)
    requires r.place == R.Reserving
    ensures var r' := R.Step(chunk, input, r, R.Reserve(v)); r'.log == r.log && (Dropping(r') ==> v == R.MustDrop)
  {
  }

  lemma DropsCoverReserve(chunk: nat, input: Text, s: System, a: Q.Action)
    requires DropsCover(s)
    ensures DropsCover(DoReserve(chunk, input, s, a))
  {
    if s.r.place == R.Reserving && IsReserveStep(a) {
      var q := Q.Apply(s.q, a);
      var v := Verdict(s.q, q);
      DropsGrow(s.q, a);
      DropsGrow(q, Q.Fill([]));
      if v != [] {
        ReserveCounts(chunk, input, s.r, v[0]);
      }
    }
  }

  lemma DropsCoverRead(chunk: nat, input: Text, s: System, a: R.Answer)
    requires DropsCover(s)
    ensures DropsCover(DoRead(chunk, input, s, a))
  {
    if s.r.place == R.Reading {
      ReadCounts(chunk, input, s.r, a);
      var r := R.ReadStep(chunk, input, s.r, a);
      var q := if r.block.Some? then Q.Apply(s.q, Q.Fill(r.block.value)) else s.q;
      if r.block.Some? {
        DropsGrow(s.q, Q.Fill(r.block.value));
      }
      DropsGrow(q, Q.Leave(Q.Producer));
    }
  }

  lemma DropsCoverPoll(chunk: nat, input: Text, s: System, p: R.Polled)
    requires R.Inv(chunk, input, s.r) && DropsCover(s)
    ensures DropsCover(DoPoll(chunk, input, s, p))
  {
    DropsGrow(s.q, Q.Leave(Q.Producer));
  }

  lemma DropsCoverCommit(chunk: nat, input: Text, s: System)
    requires R.Inv(chunk, input, s.r) && DropsCover(s)
    ensures DropsCover(DoCommit(chunk, input, s))
  {
    DropsGrow(s.q, Q.PushCommit);
    DropsGrow(Q.Apply(s.q, Q.PushCommit), Q.Leave(Q.Producer));
  }

  lemma DropsCoverStep(chunk: nat, input: Text, s: System, a: Action)
    requires Inv(chunk, input, s) && DropsCover(s)
    ensures DropsCover(Step(chunk, input, s, a))
  {
    match a
    case Poll(p) => DropsCoverPoll(chunk, input, s, p);
    case ReserveStep(b) => DropsCoverReserve(chunk, input, s, b);
    case Read(x) => DropsCoverRead(chunk, input, s, x);
    case Commit => DropsCoverCommit(chunk, input, s);
    case PopStep(b) => DropsGrow(s.q, b);
    case WriteRecord =>
    case FinishBlock =>
    case WriteFails => DropsGrow(s.q, Q.Leave(Q.Consumer));
    case PopCommit => DropsGrow(s.q, Q.PopCommit);
    case Finalize(b) => DropsGrow(s.q, b);
  }

  /**
   Under either policy, at most one `read` is thrown away for each time a push saw the queue full
   under its lock, in every run and so in every beginning of it; what was kept is the committed
   blocks and the open one.
   */
  lemma {:induction false} LossesAreDrops(chunk: nat, input: Text, capacity: nat, policy: K.Policy,
                                          schedule: seq<Action>)
    requires chunk > 0 && capacity > 0
    ensures var s := Run(chunk, input, Init(capacity, policy), schedule);
      && DropsCover(s) && s.q.drops == FullSights(chunk, input, Init(capacity, policy), schedule)
      && R.KeptBytes(s.r.log) == Join(s.q.committed) + R.Open(s.r)
  {
    Reachable(chunk, input, capacity, policy, schedule);
    if schedule != [] {
      var before, a := schedule[..|schedule| - 1], schedule[|schedule| - 1];
      LossesAreDrops(chunk, input, capacity, policy, before);
      Reachable(chunk, input, capacity, policy, before);
      DropsCoverStep(chunk, input, Run(chunk, input, Init(capacity, policy), before), a);
      DropsStep(chunk, input, Run(chunk, input, Init(capacity, policy), before), a);
    }
  }
}
