/**
 The queue of src/queue.c as a concurrent protocol between one producer, one consumer and
 any number of outside threads that finalize it. A section run under the lock is one atomic
 action; each unlocked load of the fast paths is an action of its own, so what it saw may be
 stale by the next one. An interleaving is any sequence of actions: an action whose thread is
 not at that point of its program does nothing.
 */
module QueueProtocol {
  import opened Bytes
  import opened RingQueue

  /** Where a thread stands in its current queue call. */
  datatype Phase =
    | Idle
    | SawActive                // producer: loaded `active` as true, about to load `length`
    | SawBlocked               // loaded a `length` that denies the fast path, about to lock
    | Waiting                  // in the wait set of its condition variable, not signalled
    | Woken                    // left the wait set, about to re-take the lock
    | Holding(slot: nat)       // owns a reserved, uncommitted block
    | Exiting                  // left its loop, about to call finalize
    | Finalizing               // in finalize, loaded `active` as true, about to lock
    | Gone

  datatype Thread = Producer | Consumer | Outsider

  datatype Action =
    | LoadActive | PushLoadLength | PushLocked | Fill(data: Text) | PushCommit
    | PopLoadLength | PopLocked | PopCommit
    | SpuriousWakeup(thread: Thread)
    | Leave(thread: Thread)
    | FinalizeCheck(thread: Thread) | FinalizeLocked(thread: Thread)

  datatype FinalizedBy = Nobody | By(thread: Thread)

  /** `committed`, `popped`, `drops`, `drained` and `finalizer` record what has happened so far. */
  datatype State = State(
    policy: Policy, ring: Ring,
    producer: Phase, consumer: Phase, outsiders: nat,
    committed: seq<Text>, popped: seq<Text>, drops: nat, drained: bool, finalizer: FinalizedBy)

  function Init(capacity: nat, policy: Policy): State {
    State(policy, Ring(seq(capacity, _ => []), 0, 0, 0, true), Idle, Idle, 0, [], [], 0, false, Nobody)
  }

  // ---------------------------------------------------------------- the actions

  function Signalled(p: Phase): Phase {
    if p == Waiting then Woken else p
  }

  function Checked(v: Verdict): Phase {
    if v.Reserved? then Holding(v.slot) else SawBlocked
  }

  function PushLockedSection(s: State): State {
    match PushVerdict(s.ring, s.policy)
    case MustWait => s.(producer := Waiting)
    case ShuttingDown => s.(producer := Exiting)
    case ShouldDrop => s.(producer := Idle, drops := s.drops + 1)
    case Reserved(slot) => s.(producer := Holding(slot))
  }

  function PopLockedSection(s: State): State {
    match PopVerdict(s.ring)
    case MustWait => s.(consumer := Waiting)
    case Reserved(slot) => s.(consumer := Holding(slot))
    case _ => s.(consumer := Exiting, drained := true)
  }

  function FinalizeSection(s: State, t: Thread): State {
    s.(ring := s.ring.Finalized(),
       producer := Signalled(s.producer), consumer := Signalled(s.consumer),
       finalizer := if s.ring.active then By(t) else s.finalizer)
  }

  function ProducerStep(s: State, a: Action): State {
    match a
    case LoadActive =>
      if s.producer != Idle then s
      else s.(producer := if s.ring.active then SawActive else Exiting)
    case PushLoadLength =>
      if s.producer != SawActive then s
      else s.(producer := Checked(FastPush(s.ring)))
    case PushLocked =>
      if s.producer != SawBlocked && s.producer != Woken then s else PushLockedSection(s)
    case Fill(data) =>
      if s.producer.Holding? && s.producer.slot < |s.ring.slots|
      then s.(ring := s.ring.Filled(s.producer.slot, data)) else s
    case PushCommit =>
      if s.producer.Holding? && s.ring.tail < |s.ring.slots|
      then s.(ring := s.ring.PushCommitted(), producer := Idle, consumer := Signalled(s.consumer),
              committed := s.committed + [s.ring.slots[s.ring.tail]])
      else s
    case _ => s
  }

  function ConsumerStep(s: State, a: Action): State {
    match a
    case PopLoadLength =>
      if s.consumer != Idle then s
      else s.(consumer := Checked(FastPop(s.ring)))
    case PopLocked =>
      if s.consumer != SawBlocked && s.consumer != Woken then s else PopLockedSection(s)
    case PopCommit =>
      if s.consumer.Holding? && s.ring.head < |s.ring.slots| && s.ring.length > 0
      then s.(ring := s.ring.PopCommitted(), consumer := Idle, producer := Signalled(s.producer),
              popped := s.popped + [s.ring.slots[s.ring.head]])
      else s
    case _ => s
  }

  /** A thread may leave its loop between calls or while it holds a block it never commits. */
  predicate MayLeave(p: Phase) {
    p == Idle || p.Holding?
  }

  function ProducerEnds(s: State, a: Action): State {
    match a
    case SpuriousWakeup(_) => s.(producer := Signalled(s.producer))
    case Leave(_) => if MayLeave(s.producer) then s.(producer := Exiting) else s
    case FinalizeCheck(_) =>
      if s.producer == Exiting then s.(producer := if s.ring.active then Finalizing else Gone) else s
    case FinalizeLocked(_) =>
      if s.producer == Finalizing then FinalizeSection(s.(producer := Gone), Producer) else s
    case _ => s
  }

  function ConsumerEnds(s: State, a: Action): State {
    match a
    case SpuriousWakeup(_) => s.(consumer := Signalled(s.consumer))
    case Leave(_) => if MayLeave(s.consumer) then s.(consumer := Exiting) else s
    case FinalizeCheck(_) =>
      if s.consumer == Exiting then s.(consumer := if s.ring.active then Finalizing else Gone) else s
    case FinalizeLocked(_) =>
      if s.consumer == Finalizing then FinalizeSection(s.(consumer := Gone), Consumer) else s
    case _ => s
  }

  function OutsiderStep(s: State, a: Action): State {
    match a
    case FinalizeCheck(_) => if s.ring.active then s.(outsiders := s.outsiders + 1) else s
    case FinalizeLocked(_) =>
      if s.outsiders > 0 then FinalizeSection(s.(outsiders := s.outsiders - 1), Outsider) else s
    case _ => s
  }

  /** The thread that performs an action. */
  function Actor(a: Action): Thread {
    match a
    case SpuriousWakeup(t) => t
    case Leave(t) => t
    case FinalizeCheck(t) => t
    case FinalizeLocked(t) => t
    case PopLoadLength => Consumer
    case PopLocked => Consumer
    case PopCommit => Consumer
    case _ => Producer
  }

  predicate IsEnding(a: Action) {
    a.SpuriousWakeup? || a.Leave? || a.FinalizeCheck? || a.FinalizeLocked?
  }

  function Apply(s: State, a: Action): State {
    match Actor(a)
    case Producer => if IsEnding(a) then ProducerEnds(s, a) else ProducerStep(s, a)
    case Consumer => if IsEnding(a) then ConsumerEnds(s, a) else ConsumerStep(s, a)
    case Outsider => OutsiderStep(s, a)
  }

  function Run(s: State, schedule: seq<Action>): State {
    if schedule == [] then s
    else Apply(Run(s, schedule[..|schedule| - 1]), schedule[|schedule| - 1])
  }

  // ---------------------------------------------------------------- the invariant

  /** Indices, and the FIFO: what was popped, then the live window, is what was committed. */
  ghost predicate Fifo(s: State) {
    && s.ring.WellFormed()
    && s.popped + s.ring.Window() == s.committed
  }

  /** A reservation stays good, however stale the load that granted it. */
  ghost predicate Reservations(s: State) {
    && (s.producer.Holding? ==> s.producer.slot == s.ring.tail && s.ring.length < |s.ring.slots|)
    && (s.consumer.Holding? ==> s.consumer.slot == s.ring.head && s.ring.length > 0)
  }

  /** A thread that waits unsignalled has something to wait for. */
  ghost predicate Waits(s: State) {
    && (s.producer == Waiting ==> s.ring.active && s.policy == Wait && s.ring.length == |s.ring.slots|)
    && (s.consumer == Waiting ==> s.ring.active && s.ring.length == 0)
  }

  predicate Ended(p: Phase) {
    p == Exiting || p == Finalizing || p == Gone
  }

  ghost predicate Shutdown(s: State) {
    && (s.ring.active <==> s.finalizer == Nobody)
    && (s.producer == Gone || s.consumer == Gone ==> !s.ring.active)
    && (s.finalizer == By(Producer) ==> s.producer == Gone)
    && (s.drained ==> !s.ring.active && Ended(s.consumer))
    && (s.drained && s.finalizer == By(Producer) ==> s.popped == s.committed)
    && s.consumer != SawActive
  }

  ghost predicate Inv(s: State) {
    Fifo(s) && Reservations(s) && Waits(s) && Shutdown(s)
  }

  lemma FillKeeps(s: State, data: Text)
    requires Inv(s)
    ensures Inv(ProducerStep(s, Fill(data)))
  {
    if s.producer.Holding? {
      FillKeepsWindow(s.ring, data);
    }
  }

  lemma PushCommitKeeps(s: State)
    requires Inv(s)
    ensures Inv(ProducerStep(s, PushCommit))
  {
    if s.producer.Holding? {
      PushAppends(s.ring);
      Append(s.popped, s.ring.Window(), [s.ring.slots[s.ring.tail]]);
    }
  }

  lemma Append(xs: seq<Text>, ys: seq<Text>, zs: seq<Text>)
    ensures xs + (ys + zs) == (xs + ys) + zs
  {
  }

  lemma ProducerStepKeeps(s: State, a: Action)
    requires Inv(s)
    ensures Inv(ProducerStep(s, a))
  {
    if a.Fill? {
      FillKeeps(s, a.data);
    } else if a == PushCommit {
      PushCommitKeeps(s);
    }
  }

  lemma ConsumerStepKeeps(s: State, a: Action)
    requires Inv(s)
    ensures Inv(ConsumerStep(s, a))
  {
    if a == PopCommit && s.consumer.Holding? {
      PopRemovesOldest(s.ring);
    }
  }

  lemma FinalizeSectionKeeps(s: State, t: Thread)
    requires Fifo(s) && Reservations(s) && Waits(s) && s.consumer != SawActive
    requires s.ring.active ==> s.finalizer == Nobody && !s.drained
    requires !s.ring.active ==> Shutdown(s)
    requires t == Producer ==> s.producer == Gone
    ensures Inv(FinalizeSection(s, t))
  {
    assert s.ring.Finalized().Window() == s.ring.Window();
  }

  lemma ProducerEndsKeeps(s: State, a: Action)
    requires Inv(s)
    ensures Inv(ProducerEnds(s, a))
  {
    if a.FinalizeLocked? && s.producer == Finalizing {
      FinalizeSectionKeeps(s.(producer := Gone), Producer);
    }
  }

  lemma ConsumerEndsKeeps(s: State, a: Action)
    requires Inv(s)
    ensures Inv(ConsumerEnds(s, a))
  {
    if a.FinalizeLocked? && s.consumer == Finalizing {
      FinalizeSectionKeeps(s.(consumer := Gone), Consumer);
    }
  }

  lemma OutsiderStepKeeps(s: State, a: Action)
    requires Inv(s)
    ensures Inv(OutsiderStep(s, a))
  {
    if a.FinalizeLocked? && s.outsiders > 0 {
      FinalizeSectionKeeps(s.(outsiders := s.outsiders - 1), Outsider);
    }
  }

  lemma ApplyKeeps(s: State, a: Action)
    requires Inv(s)
    ensures Inv(Apply(s, a))
  {
    ProducerStepKeeps(s, a);
    ConsumerStepKeeps(s, a);
    ProducerEndsKeeps(s, a);
    ConsumerEndsKeeps(s, a);
    OutsiderStepKeeps(s, a);
  }

  lemma {:induction false} RunKeeps(s: State, schedule: seq<Action>)
    requires Inv(s)
    ensures Inv(Run(s, schedule))
  {
    if schedule != [] {
      var before := schedule[..|schedule| - 1];
      RunKeeps(s, before);
      ApplyKeeps(Run(s, before), schedule[|schedule| - 1]);
    }
  }

  lemma Reachable(capacity: nat, policy: Policy, schedule: seq<Action>)
    requires capacity > 0
    ensures Inv(Run(Init(capacity, policy), schedule))
  {
    RunKeeps(Init(capacity, policy), schedule);
  }

  lemma ApplyParameters(s: State, a: Action)
    ensures |Apply(s, a).ring.slots| == |s.ring.slots| && Apply(s, a).policy == s.policy
  {
  }

  lemma {:induction false} ParametersStay(s: State, schedule: seq<Action>)
    ensures |Run(s, schedule).ring.slots| == |s.ring.slots| && Run(s, schedule).policy == s.policy
  {
    if schedule != [] {
      var before := schedule[..|schedule| - 1];
      ParametersStay(s, before);
      ApplyParameters(Run(s, before), schedule[|schedule| - 1]);
    }
  }

  // ---------------------------------------------------------------- safety in every reachable state

  /** The ring refines a FIFO: what was popped, then the window, is what was committed, byte for byte. */
  lemma {:induction false} FifoRefinement(capacity: nat, policy: Policy, schedule: seq<Action>)
    requires capacity > 0
    ensures var s := Run(Init(capacity, policy), schedule);
      && s.ring.length <= capacity && s.ring.head < capacity && |s.ring.slots| == capacity
      && s.ring.tail == (s.ring.head + s.ring.length) % capacity
      && s.popped + s.ring.Window() == s.committed
  {
    Reachable(capacity, policy, schedule);
    ParametersStay(Init(capacity, policy), schedule);
    TailFollowsWindow(Run(Init(capacity, policy), schedule).ring);
  }

  /**
   The producer's block is outside the live window and never the consumer's block; the consumer's
   block carries exactly the bytes that were committed for its turn.
   */
  lemma SlotExclusivity(capacity: nat, policy: Policy, schedule: seq<Action>)
    requires capacity > 0
    ensures var s := Run(Init(capacity, policy), schedule);
      && (s.producer.Holding? && s.consumer.Holding? ==> s.producer.slot != s.consumer.slot)
      && (s.producer.Holding? ==>
            && s.ring.head < capacity && s.ring.length < capacity
            && forall i :: 0 <= i < s.ring.length ==> At(s.ring.head, i, capacity) != s.producer.slot)
      && (s.consumer.Holding? ==>
            && s.consumer.slot < |s.ring.slots| && |s.popped| < |s.committed|
            && s.ring.slots[s.consumer.slot] == s.committed[|s.popped|])
  {
    Reachable(capacity, policy, schedule);
    ParametersStay(Init(capacity, policy), schedule);
    var s := Run(Init(capacity, policy), schedule);
    if s.consumer.Holding? {
      assert s.committed[|s.popped|] == s.ring.Window()[0];
    }
  }

  /** No wakeup is lost: a thread waits unsignalled only while the condition it waits for is false. */
  lemma NoLostWakeup(capacity: nat, policy: Policy, schedule: seq<Action>)
    requires capacity > 0
    ensures var s := Run(Init(capacity, policy), schedule);
      && (s.consumer == Waiting ==> s.ring.length == 0 && s.ring.active)
      && (s.producer == Waiting ==> s.ring.length == capacity && s.ring.active && policy == Wait)
      && !(s.producer == Waiting && s.consumer == Waiting)
      && (!s.ring.active ==> s.producer != Waiting && s.consumer != Waiting)
  {
    Reachable(capacity, policy, schedule);
    ParametersStay(Init(capacity, policy), schedule);
  }

  /** A push enters its locked section under the drop policy and sees the ring full and active. */
  predicate SeesFull(s: State, a: Action) {
    && a == PushLocked && (s.producer == SawBlocked || s.producer == Woken)
    && s.policy == Drop && s.ring.active && s.ring.length == |s.ring.slots|
  }

  /** How often that happens in a run. */
  function FullSights(s: State, schedule: seq<Action>): nat {
    if schedule == [] then 0
    else
      var before := schedule[..|schedule| - 1];
      FullSights(s, before) + if SeesFull(Run(s, before), schedule[|schedule| - 1]) then 1 else 0
  }

  lemma DropStep(s: State, a: Action)
    requires Inv(s)
    ensures Apply(s, a).drops == s.drops + if SeesFull(s, a) then 1 else 0
  {
  }

  lemma {:induction false} DropsCounted(s: State, schedule: seq<Action>)
    requires Inv(s)
    ensures Run(s, schedule).drops == s.drops + FullSights(s, schedule)
  {
    if schedule != [] {
      var before := schedule[..|schedule| - 1];
      DropsCounted(s, before);
      RunKeeps(s, before);
      DropStep(Run(s, before), schedule[|schedule| - 1]);
    }
  }

  /** In every run, pushes are told to drop exactly as often as one saw the ring full under the lock. */
  lemma {:induction false} DropsOnlyWhenFull(capacity: nat, policy: Policy, schedule: seq<Action>)
    requires capacity > 0
    ensures Run(Init(capacity, policy), schedule).drops == FullSights(Init(capacity, policy), schedule)
  {
    Reachable(capacity, policy, []);
    DropsCounted(Init(capacity, policy), schedule);
  }

  /**
   In every reachable state: an unlocked check that sees room, or a block, grants it at once; a push
   sees an inactive queue before anything else; and the locked sections wait, shut down, drop or grant
   as the ring and the policy are.
   */
  lemma {:induction false} ChecksAnswer(capacity: nat, policy: Policy, schedule: seq<Action>)
    requires capacity > 0
    ensures var s := Run(Init(capacity, policy), schedule);
      var full := s.ring.length == capacity;
      && (s.producer == Idle ==> Apply(s, LoadActive).producer == if s.ring.active then SawActive else Exiting)
      && (s.producer == SawActive ==>
            Apply(s, PushLoadLength).producer == if full then SawBlocked else Holding(s.ring.tail))
      && (s.producer == SawBlocked || s.producer == Woken ==>
            var p := Apply(s, PushLocked).producer;
            && (p == Exiting <==> !s.ring.active) && (p == Holding(s.ring.tail) <==> s.ring.active && !full)
            && (p == Idle <==> s.ring.active && full && policy == Drop)
            && (p == Waiting <==> s.ring.active && full && policy == Wait))
    ensures var s := Run(Init(capacity, policy), schedule);
      && (s.consumer == Idle ==>
            Apply(s, PopLoadLength).consumer == if s.ring.length > 0 then Holding(s.ring.head) else SawBlocked)
      && (s.consumer == SawBlocked || s.consumer == Woken ==>
            var p := Apply(s, PopLocked).consumer;
            && (p == Holding(s.ring.head) <==> s.ring.length > 0)
            && (p == Waiting <==> s.ring.active && s.ring.length == 0)
            && (p == Exiting <==> !s.ring.active && s.ring.length == 0))
  {
    Reachable(capacity, policy, schedule);
    ParametersStay(Init(capacity, policy), schedule);
    VerdictsExactly(Run(Init(capacity, policy), schedule).ring, policy);
  }

  // ---------------------------------------------------------------- progress

  /** A step of the producer's or the consumer's own program, not forced by a spurious wakeup. */
  predicate Advances(s: State, a: Action) {
    && !a.SpuriousWakeup?
    && (Actor(a) == Producer ==> Apply(s, a).producer != s.producer)
    && (Actor(a) == Consumer ==> Apply(s, a).consumer != s.consumer)
    && Actor(a) != Outsider
  }

  function ProducerMove(p: Phase): Action {
    match p
    case Idle => LoadActive
    case SawActive => PushLoadLength
    case Holding(_) => PushCommit
    case Exiting => FinalizeCheck(Producer)
    case Finalizing => FinalizeLocked(Producer)
    case _ => PushLocked
  }

  function ConsumerMove(p: Phase): Action {
    match p
    case Idle => PopLoadLength
    case Holding(_) => PopCommit
    case Exiting => FinalizeCheck(Consumer)
    case Finalizing => FinalizeLocked(Consumer)
    case _ => PopLocked
  }

  lemma ThreadsMove(s: State)
    requires Inv(s)
    ensures s.producer != Waiting && s.producer != Gone ==> Advances(s, ProducerMove(s.producer))
    ensures s.consumer != Waiting && s.consumer != Gone ==> Advances(s, ConsumerMove(s.consumer))
  {
  }

  /** One of the threads can take the next step of its own program. */
  predicate CanMove(s: State) {
    Advances(s, ProducerMove(s.producer)) || Advances(s, ConsumerMove(s.consumer))
  }

  predicate BothGone(s: State) {
    s.producer == Gone && s.consumer == Gone
  }

  lemma MoveUntilGone(s: State)
    requires Inv(s)
    ensures CanMove(s) <==> !BothGone(s)
  {
    ThreadsMove(s);
  }

  /** Until both threads are gone, one of them can take its next step: no interleaving deadlocks. */
  lemma {:induction false} DeadlockFree(capacity: nat, policy: Policy, schedule: seq<Action>)
    requires capacity > 0
    ensures var s := Run(Init(capacity, policy), schedule); CanMove(s) <==> !BothGone(s)
  {
    Reachable(capacity, policy, schedule);
    MoveUntilGone(Run(Init(capacity, policy), schedule));
  }

  // ---------------------------------------------------------------- shutdown

  /** The producer is past its check of `active` and may still commit one block. */
  predicate MayCommit(s: State) {
    s.producer == SawActive || s.producer.Holding?
  }

  function Pending(s: State): nat {
    if MayCommit(s) then 1 else 0
  }

  lemma InactiveStep(s: State, a: Action)
    requires Inv(s) && !s.ring.active
    ensures !Apply(s, a).ring.active
    ensures Apply(s, a).committed == s.committed || exists data :: Apply(s, a).committed == s.committed + [data]
    ensures |Apply(s, a).committed| + Pending(Apply(s, a)) <= |s.committed| + Pending(s)
  {
  }

  lemma {:induction false} InactiveRun(s: State, schedule: seq<Action>)
    requires Inv(s) && !s.ring.active
    ensures !Run(s, schedule).ring.active
    ensures s.committed <= Run(s, schedule).committed
    ensures |Run(s, schedule).committed| + Pending(Run(s, schedule)) <= |s.committed| + Pending(s)
  {
    if schedule != [] {
      var before := schedule[..|schedule| - 1];
      InactiveRun(s, before);
      RunKeeps(s, before);
      InactiveStep(Run(s, before), schedule[|schedule| - 1]);
    }
  }

  /**
   Counted from any inactive state, in particular from the one that finalize leaves: at most one
   block is still committed, and at most the queued blocks and that one are still popped.
   */
  lemma ShutdownBounds(s: State, schedule: seq<Action>)
    requires Inv(s) && !s.ring.active
    ensures |Run(s, schedule).committed| <= |s.committed| + 1
    ensures |Run(s, schedule).popped| <= |s.popped| + s.ring.length + 1
  {
    InactiveRun(s, schedule);
    RunKeeps(s, schedule);
  }

  function ProducerRank(p: Phase): nat {
    match p
    case SawActive => 9
    case Holding(_) => 8
    case Gone => 0
    case Exiting => 1
    case Finalizing => 1
    case _ => 2
  }

  function ConsumerRank(p: Phase): nat {
    match p
    case Idle => 4
    case Holding(_) => 2
    case Gone => 0
    case Exiting => 1
    case Finalizing => 1
    case _ => 3
  }

  function Rank(s: State): nat {
    ProducerRank(s.producer) + ConsumerRank(s.consumer) + 5 * s.ring.length
  }

  /** How many actions of the schedule advance the producer or the consumer. */
  function Moves(s: State, schedule: seq<Action>): nat {
    if schedule == [] then 0
    else
      var before := schedule[..|schedule| - 1];
      Moves(s, before) + if Advances(Run(s, before), schedule[|schedule| - 1]) then 1 else 0
  }

  lemma ProducerRankDrops(s: State, a: Action)
    requires Inv(s) && !s.ring.active && Actor(a) == Producer
    ensures Rank(Apply(s, a)) + (if Advances(s, a) then 1 else 0) <= Rank(s)
  {
  }

  lemma ConsumerRankDrops(s: State, a: Action)
    requires Inv(s) && !s.ring.active && Actor(a) == Consumer
    ensures Rank(Apply(s, a)) + (if Advances(s, a) then 1 else 0) <= Rank(s)
  {
  }

  lemma {:induction false} RankBoundsMoves(s: State, schedule: seq<Action>)
    requires Inv(s) && !s.ring.active
    ensures Moves(s, schedule) + Rank(Run(s, schedule)) <= Rank(s)
  {
    if schedule != [] {
      var before, a := schedule[..|schedule| - 1], schedule[|schedule| - 1];
      RankBoundsMoves(s, before);
      RunKeeps(s, before);
      InactiveRun(s, before);
      match Actor(a)
      case Producer => ProducerRankDrops(Run(s, before), a);
      case Consumer => ConsumerRankDrops(Run(s, before), a);
      case Outsider =>
    }
  }

  /**
   Once finalized, the two threads take a bounded number of steps, whatever the interleaving, and
   they have come to rest exactly when both are gone. Reads into a block that is held are not steps
   of the queue and are not counted.
   */
  lemma {:induction false} ShutdownTerminates(s: State, schedule: seq<Action>)
    requires Inv(s) && !s.ring.active
    ensures Moves(s, schedule) <= 13 + 5 * |s.ring.slots|
    ensures !CanMove(Run(s, schedule)) <==> BothGone(Run(s, schedule))
  {
    RankBoundsMoves(s, schedule);
    RunKeeps(s, schedule);
    MoveUntilGone(Run(s, schedule));
  }

  /** The next step of the producer, or of the consumer once the producer is gone. */
  function NextMove(s: State): Action {
    if s.producer != Gone then ProducerMove(s.producer) else ConsumerMove(s.consumer)
  }

  lemma NextMoveAdvances(s: State)
    requires Inv(s) && !s.ring.active && !BothGone(s)
    ensures Rank(Apply(s, NextMove(s))) < Rank(s)
    ensures s.drained || !Ended(s.consumer) ==> var t := Apply(s, NextMove(s)); t.drained || !Ended(t.consumer)
  {
    ThreadsMove(s);
    if s.producer != Gone {
      ProducerRankDrops(s, NextMove(s));
    } else {
      ConsumerRankDrops(s, NextMove(s));
    }
  }

  lemma {:induction false} ToTheEnd(s: State) returns (schedule: seq<Action>)
    requires Inv(s) && !s.ring.active
    ensures BothGone(Run(s, schedule)) && |schedule| <= Rank(s)
    ensures s.drained || !Ended(s.consumer) ==> Run(s, schedule).drained
    decreases Rank(s)
  {
    if BothGone(s) {
      schedule := [];
    } else {
      var a := NextMove(s);
      NextMoveAdvances(s);
      ApplyKeeps(s, a);
      InactiveStep(s, a);
      var rest := ToTheEnd(Apply(s, a));
      RunOne(s, a);
      RunAppend(s, [a], rest);
      schedule := [a] + rest;
    }
  }

  /**
   However the threads were interleaved since finalize, they can still be brought to their end within
   the bound, and a consumer that had not left is then told to shut down.
   */
  lemma {:induction false} ShutdownCompletes(s: State, schedule: seq<Action>) returns (rest: seq<Action>)
    requires Inv(s) && !s.ring.active
    ensures BothGone(Run(s, schedule + rest))
    ensures Moves(s, schedule) + |rest| <= 13 + 5 * |s.ring.slots|
    ensures !Ended(Run(s, schedule).consumer) ==> Run(s, schedule + rest).drained
  {
    RunKeeps(s, schedule);
    InactiveRun(s, schedule);
    RankBoundsMoves(s, schedule);
    rest := ToTheEnd(Run(s, schedule));
    RunAppend(s, schedule, rest);
  }

  /** If it was the producer that finalized, the consumer leaves only with everything popped. */
  lemma ProducerFinalizeDrains(capacity: nat, policy: Policy, schedule: seq<Action>)
    requires capacity > 0
    ensures var s := Run(Init(capacity, policy), schedule);
      s.drained && s.finalizer == By(Producer) ==> s.popped == s.committed
  {
    Reachable(capacity, policy, schedule);
  }

  /** A consumer that was told to shut down has popped everything that was committed. */
  predicate NothingLeft(s: State) {
    s.drained ==> s.popped == s.committed
  }

  ghost predicate NeverLeaves(s: State) {
    forall schedule :: NothingLeft(Run(s, schedule))
  }

  /** What is left of the promise once the producer is past the point where it may commit. */
  ghost predicate Settled(s: State) {
    Inv(s) && !s.ring.active && !MayCommit(s) && NothingLeft(s)
  }

  lemma SettledStep(s: State, a: Action)
    requires Settled(s)
    ensures Settled(Apply(s, a))
  {
    ApplyKeeps(s, a);
    InactiveStep(s, a);
  }

  lemma {:induction false} SettledRun(s: State, schedule: seq<Action>)
    requires Settled(s)
    ensures Settled(Run(s, schedule))
  {
    if schedule != [] {
      SettledRun(s, schedule[..|schedule| - 1]);
      SettledStep(Run(s, schedule[..|schedule| - 1]), schedule[|schedule| - 1]);
    }
  }

  /** The consumer pops what is there and is told to shut down, while the producer takes no step. */
  lemma {:induction false} ConsumerFirst(s: State) returns (schedule: seq<Action>)
    requires Inv(s) && !s.ring.active && !Ended(s.consumer)
    ensures var t := Run(s, schedule); t.drained && t.producer == s.producer && Inv(t) && t.ring.length == 0
    decreases Rank(s)
  {
    var a := ConsumerMove(s.consumer);
    ThreadsMove(s);
    ConsumerRankDrops(s, a);
    ApplyKeeps(s, a);
    InactiveStep(s, a);
    RunOne(s, a);
    var t := Apply(s, a);
    if t.drained {
      schedule := [a];
    } else {
      var rest := ConsumerFirst(t);
      RunAppend(s, [a], rest);
      schedule := [a] + rest;
    }
  }

  /** The producer commits the block that it may still commit. */
  lemma OneMoreCommit(s: State) returns (schedule: seq<Action>)
    requires Inv(s) && s.drained && s.ring.length == 0 && MayCommit(s)
    ensures var t := Run(s, schedule); t.drained && |t.committed| == |t.popped| + 1
  {
    RunOne(s, PushCommit);
    RunOne(s, PushLoadLength);
    if s.producer == SawActive {
      var t := Apply(s, PushLoadLength);
      ApplyKeeps(s, PushLoadLength);
      RunOne(t, PushCommit);
      RunAppend(s, [PushLoadLength], [PushCommit]);
      schedule := [PushLoadLength] + [PushCommit];
    } else {
      schedule := [PushCommit];
    }
  }

  /**
   Who finalized does not matter in itself. From the state that finalize leaves, with the consumer
   still in its loop: in every continuation a consumer that is told to shut down has popped
   everything that was committed, if and only if the producer is not past its check of `active`.
   */
  lemma DrainExactly(s: State)
    requires Inv(s) && !s.ring.active && !Ended(s.consumer)
    ensures NeverLeaves(s) <==> !MayCommit(s)
  {
    if MayCommit(s) {
      var first := ConsumerFirst(s);
      var last := OneMoreCommit(Run(s, first));
      RunAppend(s, first, last);
      assert !NothingLeft(Run(s, first + last));
    } else {
      forall schedule
        ensures NothingLeft(Run(s, schedule))
      {
        SettledRun(s, schedule);
      }
    }
  }

  /** The same, read by the thread that is about to clear `active` under the lock. */
  lemma FinalizeDrainsExactly(s: State, t: Thread)
    requires Inv(s) && s.ring.active && !Ended(s.consumer) && !Apply(s, FinalizeLocked(t)).ring.active
    ensures NeverLeaves(Apply(s, FinalizeLocked(t))) <==> !MayCommit(s)
  {
    ApplyKeeps(s, FinalizeLocked(t));
    DrainExactly(Apply(s, FinalizeLocked(t)));
  }

  /**
   An outsider finalizes while the producer holds a block; the consumer then leaves, and whatever
   the producer has read into its block is committed and never popped.
   */
  lemma EarlyFinalizeLosesABlock(s0: State, data: Text)
    requires s0 == Init(1, Wait)
    ensures var s := Run(Run(s0, [LoadActive, PushLoadLength, FinalizeCheck(Outsider), FinalizeLocked(Outsider)]),
                         [PopLoadLength, PopLocked, Fill(data), PushCommit]);
      s.drained && s.committed == [data] && s.popped == []
  {
    RunFour(s0, LoadActive, PushLoadLength, FinalizeCheck(Outsider), FinalizeLocked(Outsider));
    var s4 := FinalizedEarly(s0);
    RunFour(s4, PopLoadLength, PopLocked, Fill(data), PushCommit);
    CommittedLate(s4, data);
  }

  lemma CommittedLate(s: State, data: Text)
    requires s.ring == Ring([[]], 0, 0, 0, false) && s.producer == Holding(0) && s.consumer == Idle
    requires s.committed == s.popped == []
    ensures var t := Apply(Apply(Apply(Apply(s, PopLoadLength), PopLocked), Fill(data)), PushCommit);
      t.drained && t.committed == [data] && t.popped == []
  {
  }

  lemma FinalizedEarly(s0: State) returns (s4: State)
    requires s0 == Init(1, Wait)
    ensures s4 == Apply(Apply(Apply(Apply(s0, LoadActive), PushLoadLength), FinalizeCheck(Outsider)),
                        FinalizeLocked(Outsider))
    ensures s4 == s0.(ring := Ring([[]], 0, 0, 0, false), producer := Holding(0), finalizer := By(Outsider))
  {
    assert s0.ring == Ring([[]], 0, 0, 0, true);
    s4 := Apply(Apply(Apply(Apply(s0, LoadActive), PushLoadLength), FinalizeCheck(Outsider)), FinalizeLocked(Outsider));
  }

  lemma RunOne(s: State, a: Action)
    ensures Run(s, [a]) == Apply(s, a)
  {
    assert [a][..0] == [];
  }

  lemma RunThree(s: State, a: Action, b: Action, c: Action)
    ensures Run(s, [a, b, c]) == Apply(Apply(Apply(s, a), b), c)
  {
    RunAppend(s, [a], [b]);
    RunAppend(s, [a, b], [c]);
    assert [a, b, c] == [a, b] + [c] && [a, b] == [a] + [b];
    RunOne(s, a);
    RunOne(Run(s, [a]), b);
    RunOne(Run(s, [a, b]), c);
  }

  lemma RunFour(s: State, a: Action, b: Action, c: Action, d: Action)
    ensures Run(s, [a, b, c, d]) == Apply(Apply(Apply(Apply(s, a), b), c), d)
  {
    RunThree(s, a, b, c);
    RunAppend(s, [a, b, c], [d]);
    assert [a, b, c, d] == [a, b, c] + [d];
    RunOne(Run(s, [a, b, c]), d);
  }

  lemma {:induction false} RunAppend(s: State, xs: seq<Action>, ys: seq<Action>)
    ensures Run(s, xs + ys) == Run(Run(s, xs), ys)
  {
    if ys == [] {
      assert xs + ys == xs;
    } else {
      assert (xs + ys)[..|xs + ys| - 1] == xs + ys[..|ys| - 1];
      RunAppend(s, xs, ys[..|ys| - 1]);
    }
  }
}
