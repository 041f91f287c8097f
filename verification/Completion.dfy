/**
 What the whole program can still do from a reachable state: which runs can complete, so that the
 end-to-end theorems are not about nothing; that no line waits for more input; that the drop policy
 never waits for the writer; and a run in which an early finalize loses input.
 */
module Completion {
  import opened Bytes
  import opened LineSplitting
  import opened Pipeline
  import Q = QueueProtocol
  import K = RingQueue
  import R = Reader

  ghost predicate Reaches(chunk: nat, input: Text, s: System, t: System) {
    exists schedule :: Run(chunk, input, s, schedule) == t
  }

  lemma ReachStep(chunk: nat, input: Text, s: System, t: System, a: Action) returns (u: System)
    requires Reaches(chunk, input, s, t)
    ensures u == Step(chunk, input, t, a) && Reaches(chunk, input, s, u)
  {
    var schedule :| Run(chunk, input, s, schedule) == t;
    assert (schedule + [a])[..|schedule|] == schedule;
    u := Step(chunk, input, t, a);
    assert Run(chunk, input, s, schedule + [a]) == u;
  }

  // ---------------------------------------------------------------- the writer catches up

  /** The ring is empty and active: a push is granted, and a pop waits. */
  predicate RoomAhead(s: System) {
    s.q.ring.active && s.q.ring.length == 0
  }

  /** The writer has left, or has nothing to do until the next commit or finalize. */
  predicate Resting(s: System) {
    Q.Ended(s.q.consumer) || (RoomAhead(s) && !s.q.consumer.Holding?)
  }

  function WriterMove(chunk: nat, s: System): Action {
    if s.w.processed then PopCommit
    else if MoreToWrite(chunk, s) then WriteRecord
    else if s.q.consumer.Holding? then FinishBlock
    else if s.q.consumer == Q.Idle then PopStep(Q.PopLoadLength)
    else PopStep(Q.PopLocked)
  }

  function WriterRank(s: System): nat {
    match s.q.consumer
    case Holding(_) => if s.w.processed then 1 else 2
    case Idle => 4
    case _ => if Q.Ended(s.q.consumer) then 0 else 3
  }

  function Unwritten(chunk: nat, s: System): nat {
    if MoreToWrite(chunk, s) then |Target(chunk, s).records| - |s.w.out.records| else 0
  }

  /** Seen from the reader, nothing changed but perhaps a wakeup. */
  predicate Beside(s: System, t: System) {
    && t.r == s.r && t.w.failed == s.w.failed
    && t.q.finalizer == s.q.finalizer && t.q.ring.active == s.q.ring.active
    && (t.q.producer == s.q.producer || (s.q.producer == Q.Waiting && t.q.producer == Q.Woken))
  }

  /** The writer is nearer to its rest. */
  predicate Nearer(chunk: nat, s: System, t: System) {
    || t.q.ring.length < s.q.ring.length
    || (t.q.ring.length == s.q.ring.length && WriterRank(t) < WriterRank(s))
    || (t.q.ring.length == s.q.ring.length && WriterRank(t) == WriterRank(s)
        && Unwritten(chunk, t) < Unwritten(chunk, s))
  }

  lemma HolderMoves(chunk: nat, input: Text, s: System)
    requires Inv(chunk, input, s) && !s.w.failed && s.q.consumer.Holding?
    ensures var t := Step(chunk, input, s, WriterMove(chunk, s)); Beside(s, t) && Nearer(chunk, s, t)
  {
    HeldBlock(s.q);
    if s.w.processed {
      var t := Step(chunk, input, s, PopCommit);
      assert t.q.ring.length == s.q.ring.length - 1;
    } else if MoreToWrite(chunk, s) {
      var t := Step(chunk, input, s, WriteRecord);
      assert Target(chunk, t) == Target(chunk, s);
    }
  }

  lemma LoadMoves(chunk: nat, input: Text, s: System)
    requires Inv(chunk, input, s) && !s.w.failed && s.q.consumer == Q.Idle
    ensures var t := Step(chunk, input, s, PopStep(Q.PopLoadLength)); Beside(s, t) && Nearer(chunk, s, t)
  {
    var t := Step(chunk, input, s, PopStep(Q.PopLoadLength));
    assert t == s.(q := s.q.(consumer := t.q.consumer));
    assert t.q.consumer == Q.SawBlocked || t.q.consumer.Holding?;
  }

  lemma LockMoves(chunk: nat, input: Text, s: System)
    requires Inv(chunk, input, s) && !s.w.failed && (s.q.consumer == Q.SawBlocked || s.q.consumer == Q.Woken)
    requires !RoomAhead(s)
    ensures var t := Step(chunk, input, s, PopStep(Q.PopLocked)); Beside(s, t) && Nearer(chunk, s, t)
  {
    var t := Step(chunk, input, s, PopStep(Q.PopLocked));
    assert t == s.(q := s.q.(consumer := t.q.consumer, drained := t.q.drained));
    assert t.q.consumer == Q.Exiting || t.q.consumer.Holding?;
  }

  lemma SeekerMoves(chunk: nat, input: Text, s: System)
    requires Inv(chunk, input, s) && !s.w.failed && !s.q.consumer.Holding? && !Resting(s)
    ensures var t := Step(chunk, input, s, WriterMove(chunk, s)); Beside(s, t) && Nearer(chunk, s, t)
  {
    if s.q.consumer == Q.Idle {
      assert WriterMove(chunk, s) == PopStep(Q.PopLoadLength);
      LoadMoves(chunk, input, s);
    } else {
      assert WriterMove(chunk, s) == PopStep(Q.PopLocked);
      LockMoves(chunk, input, s);
    }
  }

  lemma {:induction false} RunWriter(chunk: nat, input: Text, s0: System, s: System) returns (t: System)
    requires chunk > 0 && Reaches(chunk, input, s0, s) && Inv(chunk, input, s) && !s.w.failed
    ensures Reaches(chunk, input, s0, t) && Inv(chunk, input, t) && Beside(s, t) && Resting(t)
    decreases s.q.ring.length, WriterRank(s), Unwritten(chunk, s)
  {
    if Resting(s) {
      t := s;
    } else {
      if s.q.consumer.Holding? {
        HolderMoves(chunk, input, s);
      } else {
        SeekerMoves(chunk, input, s);
      }
      StepKeeps(chunk, input, s, WriterMove(chunk, s));
      var next := ReachStep(chunk, input, s0, s, WriterMove(chunk, s));
      t := RunWriter(chunk, input, s0, next);
    }
  }

  // ---------------------------------------------------------------- the reader goes on

  /** Nothing has happened that keeps a run from completing. */
  predicate Undisturbed(s: System) {
    && !s.w.failed && s.q.finalizer != Q.By(Q.Outsider)
    && (s.r.place.Exited? ==> s.r.place == R.Exited(R.EndOfInput))
  }

  function PushMove(p: Q.Phase): Q.Action {
    match p
    case Idle => Q.LoadActive
    case SawActive => Q.PushLoadLength
    case _ => Q.PushLocked
  }

  function ReaderMove(chunk: nat, s: System): Action {
    match s.r.place
    case Polling => Poll(R.Ready)
    case Reserving => ReserveStep(PushMove(s.q.producer))
    case Reading => Read(R.UpTo(chunk))
    case Committing(_) => Commit
    case Exited(_) =>
      Finalize(if s.q.producer == Q.Exiting then Q.FinalizeCheck(Q.Producer) else Q.FinalizeLocked(Q.Producer))
  }

  function ReaderRank(s: System): nat {
    match s.r.place
    case Committing(next) => if next == R.Leave then 3 else 8
    case Polling => 7
    case Reserving => if s.q.producer == Q.Idle || s.q.producer == Q.Waiting then 6 else 5
    case Reading => 4
    case Exited(_) => if s.q.producer == Q.Exiting then 2 else if s.q.producer == Q.Finalizing then 1 else 0
  }

  /** How far the reader is from its end; while it reads, a byte is worth more than any place. */
  function ReaderLeft(input: Text, s: System): nat {
    (if s.r.pos <= |input| then 9 * (|input| - s.r.pos) else 0) + ReaderRank(s)
  }

  lemma PollMoves(chunk: nat, input: Text, s: System)
    requires Inv(chunk, input, s) && Undisturbed(s) && s.r.place == R.Polling
    ensures var t := Step(chunk, input, s, Poll(R.Ready)); Undisturbed(t) && ReaderLeft(input, t) < ReaderLeft(input, s)
  {
  }

  lemma ReserveMoves(chunk: nat, input: Text, s: System)
    requires Inv(chunk, input, s) && Undisturbed(s) && s.r.place == R.Reserving && RoomAhead(s)
    ensures var t := Step(chunk, input, s, ReserveStep(PushMove(s.q.producer)));
      Undisturbed(t) && ReaderLeft(input, t) < ReaderLeft(input, s)
  {
    assert s.q.producer != Q.Waiting;
    var q := Q.Apply(s.q, PushMove(s.q.producer));
    assert q.producer == Q.SawActive || q.producer.Holding?;
  }

  lemma ReadMoves(chunk: nat, input: Text, s: System)
    requires chunk > 0 && Inv(chunk, input, s) && Undisturbed(s) && s.r.place == R.Reading
    ensures var t := Step(chunk, input, s, Read(R.UpTo(chunk)));
      Undisturbed(t) && ReaderLeft(input, t) < ReaderLeft(input, s)
  {
    var t := Step(chunk, input, s, Read(R.UpTo(chunk)));
    assert t.r == R.ReadStep(chunk, input, s.r, R.UpTo(chunk));
    assert t.w == s.w && t.q.finalizer == s.q.finalizer;
    if s.r.pos < |input| {
      assert s.r.pos < t.r.pos <= |input|;
    } else {
      assert t.r.pos == s.r.pos;
      assert t.r.place.Exited? ==> t.q.producer == Q.Exiting;
    }
  }

  lemma CommitMoves(chunk: nat, input: Text, s: System)
    requires Inv(chunk, input, s) && Undisturbed(s) && s.r.place.Committing?
    ensures var t := Step(chunk, input, s, Commit); Undisturbed(t) && ReaderLeft(input, t) < ReaderLeft(input, s)
  {
    var t := Step(chunk, input, s, Commit);
    assert t.r == R.CommitStep(s.r) && t.w == s.w && t.q.finalizer == s.q.finalizer;
    assert t.q.producer == if t.r.place.Exited? then Q.Exiting else Q.Idle;
  }

  lemma EndMoves(chunk: nat, input: Text, s: System)
    requires Inv(chunk, input, s) && Undisturbed(s) && s.r.place.Exited? && s.q.ring.active
    ensures var t := Step(chunk, input, s, ReaderMove(chunk, s));
      Undisturbed(t) && ReaderLeft(input, t) < ReaderLeft(input, s)
  {
  }

  lemma ReaderMoves(chunk: nat, input: Text, s: System)
    requires chunk > 0 && Inv(chunk, input, s) && Undisturbed(s) && RoomAhead(s)
    ensures var t := Step(chunk, input, s, ReaderMove(chunk, s));
      Undisturbed(t) && ReaderLeft(input, t) < ReaderLeft(input, s)
  {
    match s.r.place
    case Polling => PollMoves(chunk, input, s);
    case Reserving => ReserveMoves(chunk, input, s);
    case Reading => ReadMoves(chunk, input, s);
    case Committing(_) => CommitMoves(chunk, input, s);
    case Exited(_) => EndMoves(chunk, input, s);
  }

  // ---------------------------------------------------------------- completion

  /** A writer that has left an undisturbed run has completed it. */
  lemma LeftIsCompleted(chunk: nat, input: Text, s: System)
    requires Inv(chunk, input, s) && Undisturbed(s) && Q.Ended(s.q.consumer)
    ensures Completed(s)
  {
    FinalizerKnown(s.q.finalizer);
    assert s.q.drained && s.q.finalizer == Q.By(Q.Producer);
  }

  lemma BesideKeeps(input: Text, s: System, t: System)
    requires Beside(s, t)
    ensures ReaderLeft(input, t) <= ReaderLeft(input, s) && (Undisturbed(s) ==> Undisturbed(t))
  {
  }

  lemma ReaderStep(chunk: nat, input: Text, s0: System, s: System) returns (t: System)
    requires chunk > 0 && Reaches(chunk, input, s0, s) && Inv(chunk, input, s) && Undisturbed(s) && RoomAhead(s)
    ensures Reaches(chunk, input, s0, t) && Inv(chunk, input, t) && Undisturbed(t)
    ensures ReaderLeft(input, t) < ReaderLeft(input, s)
  {
    ReaderMoves(chunk, input, s);
    StepKeeps(chunk, input, s, ReaderMove(chunk, s));
    t := ReachStep(chunk, input, s0, s, ReaderMove(chunk, s));
  }

  /** The writer catches up, the reader takes a step, and so on until the writer leaves. */
  lemma {:induction false} ToCompletion(chunk: nat, input: Text, s0: System, s: System) returns (t: System)
    requires chunk > 0 && Reaches(chunk, input, s0, s) && Inv(chunk, input, s) && Undisturbed(s)
    ensures Reaches(chunk, input, s0, t) && Completed(t)
    decreases ReaderLeft(input, s)
  {
    var rest := RunWriter(chunk, input, s0, s);
    BesideKeeps(input, s, rest);
    if Q.Ended(rest.q.consumer) {
      LeftIsCompleted(chunk, input, rest);
      t := rest;
    } else {
      var next := ReaderStep(chunk, input, s0, rest);
      t := ToCompletion(chunk, input, s0, next);
    }
  }

  lemma FailedStays(chunk: nat, input: Text, s: System, a: Action)
    requires s.w.failed
    ensures Step(chunk, input, s, a).w.failed
  {
  }

  lemma ExitStays(chunk: nat, input: Text, s: System, a: Action)
    requires s.r.place.Exited?
    ensures Step(chunk, input, s, a).r.place == s.r.place
  {
  }

  lemma FinalizerStays(q: Q.State, a: Q.Action)
    requires !q.ring.active
    ensures Q.Apply(q, a).finalizer == q.finalizer && !Q.Apply(q, a).ring.active
  {
  }

  lemma FinalizedStays(chunk: nat, input: Text, s: System, a: Action)
    requires !s.q.ring.active
    ensures Step(chunk, input, s, a).q.finalizer == s.q.finalizer
  {
    forall q: Q.State, b: Q.Action | !q.ring.active
      ensures Q.Apply(q, b).finalizer == q.finalizer && !Q.Apply(q, b).ring.active
    {
      FinalizerStays(q, b);
    }
  }

  lemma DisturbedStep(chunk: nat, input: Text, s: System, a: Action)
    requires Q.Inv(s.q) && !Undisturbed(s)
    ensures !Undisturbed(Step(chunk, input, s, a))
  {
    if s.w.failed {
      FailedStays(chunk, input, s, a);
    } else if s.q.finalizer == Q.By(Q.Outsider) {
      FinalizedStays(chunk, input, s, a);
    } else {
      ExitStays(chunk, input, s, a);
    }
  }

  lemma {:induction false} DisturbedStays(chunk: nat, input: Text, s: System, more: seq<Action>)
    requires chunk > 0 && Inv(chunk, input, s) && !Undisturbed(s)
    ensures Inv(chunk, input, Run(chunk, input, s, more)) && !Undisturbed(Run(chunk, input, s, more))
  {
    if more != [] {
      var before, a := more[..|more| - 1], more[|more| - 1];
      DisturbedStays(chunk, input, s, before);
      StepKeeps(chunk, input, Run(chunk, input, s, before), a);
      DisturbedStep(chunk, input, Run(chunk, input, s, before), a);
    }
  }

  ghost predicate CanComplete(chunk: nat, input: Text, s: System) {
    exists more :: Completed(Run(chunk, input, s, more))
  }

  /**
   From every reachable state, under either policy, some continuation completes the run, if and only
   if no write has failed, no outsider has finalized and the reader has not left before the end of input.
   */
  lemma {:induction false} CompletesExactly(chunk: nat, input: Text, capacity: nat, policy: K.Policy,
                                            schedule: seq<Action>)
    requires chunk > 0 && capacity > 0
    ensures var s := Run(chunk, input, Init(capacity, policy), schedule);
      CanComplete(chunk, input, s) <==> Undisturbed(s)
  {
    var s := Run(chunk, input, Init(capacity, policy), schedule);
    Reachable(chunk, input, capacity, policy, schedule);
    if Undisturbed(s) {
      assert Run(chunk, input, s, []) == s;
      var t := ToCompletion(chunk, input, s, s);
      var more :| Run(chunk, input, s, more) == t;
    } else {
      forall more
        ensures !Completed(Run(chunk, input, s, more))
      {
        DisturbedStays(chunk, input, s, more);
      }
    }
  }

  /** For every input, chunk size, capacity and policy, some interleaving completes. */
  lemma {:induction false} EveryInputCompletes(chunk: nat, input: Text, capacity: nat, policy: K.Policy)
    requires chunk > 0 && capacity > 0
    ensures exists schedule :: Completed(Run(chunk, input, Init(capacity, policy), schedule))
  {
    assert Run(chunk, input, Init(capacity, policy), []) == Init(capacity, policy);
    CompletesExactly(chunk, input, capacity, policy, []);
  }

  // ---------------------------------------------------------------- no line waits for more input

  /** Everything read is committed or dropped, popped, and made into records. */
  ghost predicate CaughtUp(chunk: nat, s: System) {
    R.NothingHeld(s.r) && s.q.popped == s.q.committed && s.w.out == FeedBlocks(chunk, s.q.committed)
  }

  lemma PauseAsked(chunk: nat, input: Text, s: System)
    requires Inv(chunk, input, s) && Undisturbed(s) && s.r.place == R.Reading && R.Open(s.r) != []
    ensures var t := Step(chunk, input, s, Read(R.WouldBlock));
      Undisturbed(t) && t.r == s.r.(place := R.Committing(R.Wait))
  {
  }

  lemma CommitNow(chunk: nat, input: Text, s0: System, s: System) returns (t: System)
    requires chunk > 0 && Reaches(chunk, input, s0, s) && Inv(chunk, input, s) && Undisturbed(s)
    requires s.r.place.Committing?
    ensures Reaches(chunk, input, s0, t) && Inv(chunk, input, t) && Undisturbed(t) && t.r == R.CommitStep(s.r)
  {
    StepKeeps(chunk, input, s, Commit);
    CommitMoves(chunk, input, s);
    t := ReachStep(chunk, input, s0, s, Commit);
  }

  /** The input pauses, and the reader commits what it holds. */
  lemma PauseNow(chunk: nat, input: Text, s0: System, s: System) returns (t: System)
    requires chunk > 0 && Reaches(chunk, input, s0, s) && Inv(chunk, input, s) && Undisturbed(s)
    requires s.r.place == R.Reading && R.Open(s.r) != []
    ensures Reaches(chunk, input, s0, t) && Inv(chunk, input, t) && Undisturbed(t)
    ensures t.r.pos == s.r.pos && t.r.log == s.r.log && R.Open(t.r) == []
  {
    StepKeeps(chunk, input, s, Read(R.WouldBlock));
    PauseAsked(chunk, input, s);
    var paused := ReachStep(chunk, input, s0, s, Read(R.WouldBlock));
    t := CommitNow(chunk, input, s0, paused);
  }

  lemma OpenIsCommitted(chunk: nat, input: Text, s0: System, s: System) returns (t: System)
    requires chunk > 0 && Reaches(chunk, input, s0, s) && Inv(chunk, input, s) && Undisturbed(s)
    ensures Reaches(chunk, input, s0, t) && Inv(chunk, input, t) && Undisturbed(t)
    ensures t.r.pos == s.r.pos && t.r.log == s.r.log && R.Open(t.r) == []
  {
    if R.Open(s.r) == [] {
      t := s;
    } else if s.r.place == R.Reading {
      t := PauseNow(chunk, input, s0, s);
    } else {
      t := CommitNow(chunk, input, s0, s);
    }
  }

  lemma RestingCaughtUp(chunk: nat, input: Text, s: System)
    requires Inv(chunk, input, s) && Undisturbed(s) && Resting(s) && R.Open(s.r) == []
    ensures CaughtUp(chunk, s)
  {
    var joined := Join(s.q.committed);
    assert joined + [] == joined;
    if Q.Ended(s.q.consumer) {
      LeftIsCompleted(chunk, input, s);
      CompletedState(chunk, input, s);
      FinalizerKnown(s.q.finalizer);
    }
    assert s.q.popped + s.q.ring.Window() == s.q.committed;
    assert s.w.blocks == s.q.popped + [];
  }

  /**
   Nothing that was read waits for more input or for its end: from every undisturbed reachable state,
   with no byte more read, some continuation commits what the reader holds and writes all its records.
   */
  lemma {:induction false} NoLineWaits(chunk: nat, input: Text, capacity: nat, policy: K.Policy, schedule: seq<Action>)
    returns (more: seq<Action>)
    requires chunk > 0 && capacity > 0 && Undisturbed(Run(chunk, input, Init(capacity, policy), schedule))
    ensures var s := Run(chunk, input, Init(capacity, policy), schedule); var t := Run(chunk, input, s, more);
      && t.r.pos == s.r.pos && t.r.log == s.r.log && CaughtUp(chunk, t)
      && (Regular(chunk, R.KeptBytes(s.r.log)) ==> t.w.out.records == Expected(chunk, R.KeptBytes(s.r.log)))
      && (policy == K.Wait ==> s.r.pos <= |input| && R.KeptBytes(s.r.log) == input[..s.r.pos])
  {
    var s := Run(chunk, input, Init(capacity, policy), schedule);
    Reachable(chunk, input, capacity, policy, schedule);
    PolicyStays(chunk, input, Init(capacity, policy), schedule);
    assert Run(chunk, input, s, []) == s;
    var t := OpenIsCommitted(chunk, input, s, s);
    var u := RunWriter(chunk, input, s, t);
    BesideKeeps(input, t, u);
    RestingCaughtUp(chunk, input, u);
    if Regular(chunk, R.KeptBytes(s.r.log)) {
      RecordsOfAll(chunk, u.q.committed);
    }
    if policy == K.Wait {
      R.LosslessBytes(chunk, input, s.r);
    }
    more :| Run(chunk, input, s, more) == u;
  }

  // ---------------------------------------------------------------- the drop policy never waits for the writer

  predicate ReaderOnly(more: seq<Action>) {
    forall i :: 0 <= i < |more| ==> more[i].Poll? || more[i].ReserveStep? || more[i].Read? || more[i].Commit?
  }

  lemma {:induction false} RunFrom(chunk: nat, input: Text, s: System, a: Action, more: seq<Action>)
    ensures Run(chunk, input, s, [a] + more) == Run(chunk, input, Step(chunk, input, s, a), more)
  {
    if more == [] {
      assert [a] + more == [a] && [a][..0] == [];
      assert Run(chunk, input, s, []) == s;
    } else {
      assert ([a] + more)[..|more|] == [a] + more[..|more| - 1];
      RunFrom(chunk, input, s, a, more[..|more| - 1]);
    }
  }

  /** How many steps of its own the reader may need until it reads on. */
  function AloneRank(s: System): nat {
    match s.r.place
    case Committing(_) => 6
    case Polling => 5
    case Reserving => if s.q.producer == Q.Idle then 4 else if s.q.producer == Q.SawActive then 3 else 2
    case Reading => 1
    case Exited(_) => 0
  }

  lemma ReservesAlone(chunk: nat, input: Text, s: System)
    requires Inv(chunk, input, s) && s.q.policy == K.Drop && s.r.place == R.Reserving
    ensures var t := Step(chunk, input, s, ReserveStep(PushMove(s.q.producer)));
      t.q.policy == K.Drop && t.r.pos == s.r.pos && AloneRank(t) < AloneRank(s)
  {
    assert s.q.producer != Q.Waiting;
    Q.ApplyParameters(s.q, PushMove(s.q.producer));
    Q.ApplyParameters(Q.Apply(s.q, PushMove(s.q.producer)), Q.Fill([]));
    var q := Q.Apply(s.q, PushMove(s.q.producer));
    assert q.drops > s.q.drops || q.producer == Q.SawActive || q.producer == Q.SawBlocked
        || q.producer == Q.Exiting || q.producer.Holding?;
  }

  lemma {:induction false} ReadsAlone(chunk: nat, input: Text, s: System) returns (more: seq<Action>)
    requires chunk > 0 && Inv(chunk, input, s) && s.q.policy == K.Drop && s.r.pos < |input|
    ensures ReaderOnly(more) && |more| <= AloneRank(s)
    ensures var t := Run(chunk, input, s, more); t.r.pos > s.r.pos || t.r.place.Exited?
    decreases AloneRank(s)
  {
    if s.r.place.Exited? {
      more := [];
    } else {
      var a := ReaderMove(chunk, s);
      StepKeeps(chunk, input, s, a);
      AloneStep(chunk, input, s);
      var t := Step(chunk, input, s, a);
      assert Run(chunk, input, t, []) == t;
      var rest := [];
      if t.r.pos == s.r.pos {
        rest := ReadsAlone(chunk, input, t);
      }
      RunFrom(chunk, input, s, a, rest);
      more := [a] + rest;
    }
  }

  lemma AloneStep(chunk: nat, input: Text, s: System)
    requires chunk > 0 && Inv(chunk, input, s) && s.q.policy == K.Drop && s.r.pos < |input| && !s.r.place.Exited?
    ensures var t := Step(chunk, input, s, ReaderMove(chunk, s));
      t.r.pos > s.r.pos || (t.r.pos == s.r.pos && t.q.policy == K.Drop && AloneRank(t) < AloneRank(s))
  {
    StepPolicy(chunk, input, s, ReaderMove(chunk, s));
    match s.r.place
    case Reserving => ReservesAlone(chunk, input, s);
    case Polling =>
    case Reading =>
      assert Step(chunk, input, s, Read(R.UpTo(chunk))).r == R.ReadStep(chunk, input, s.r, R.UpTo(chunk));
    case Committing(_) =>
      assert Step(chunk, input, s, Commit).r == R.CommitStep(s.r);
  }

  /**
   Under the drop policy the reader never depends on the writer: from every reachable state with input
   left, at most six steps of its own make it read on, into a block or into nothing, or leave.
   */
  lemma {:induction false} DropNeverWaits(chunk: nat, input: Text, capacity: nat, schedule: seq<Action>)
    returns (more: seq<Action>)
    requires chunk > 0 && capacity > 0 && Run(chunk, input, Init(capacity, K.Drop), schedule).r.pos < |input|
    ensures ReaderOnly(more) && |more| <= 6
    ensures var s := Run(chunk, input, Init(capacity, K.Drop), schedule); var t := Run(chunk, input, s, more);
      t.r.pos > s.r.pos || t.r.place.Exited?
  {
    Reachable(chunk, input, capacity, K.Drop, schedule);
    PolicyStays(chunk, input, Init(capacity, K.Drop), schedule);
    more := ReadsAlone(chunk, input, Run(chunk, input, Init(capacity, K.Drop), schedule));
  }

  // ---------------------------------------------------------------- a run that loses input

  /** Nothing failed and nobody finalized; the writer is between blocks and `length` blocks are queued. */
  predicate Quiet(s: System, length: nat) {
    && !s.w.failed && !s.w.processed && s.q.consumer == Q.Idle
    && s.q.finalizer == Q.Nobody && s.q.ring.active && s.q.ring.length == length <= |s.q.ring.slots|
    && s.q.ring.head < |s.q.ring.slots| && s.q.ring.tail < |s.q.ring.slots|
  }

  predicate AtRest(s: System) {
    Quiet(s, 0) && s.r.place == R.Reserving && s.r.block.None? && s.q.producer == Q.Idle
  }

  predicate Holding(s: System) {
    Quiet(s, 0) && s.r.block.Some? && s.q.producer.Holding? && s.q.producer.slot < |s.q.ring.slots|
  }

  lemma Grant(chunk: nat, input: Text, s0: System, s: System) returns (t: System)
    requires Reaches(chunk, input, s0, s) && AtRest(s)
    ensures Reaches(chunk, input, s0, t) && Holding(t) && t.r == s.r.(place := R.Reading, block := Some([]))
    ensures var tail := s.q.ring.tail;
      t == s.(r := t.r, q := s.q.(producer := Q.Holding(tail), ring := s.q.ring.Filled(tail, [])))
  {
    var s1 := ReachStep(chunk, input, s0, s, ReserveStep(Q.LoadActive));
    assert s1 == s.(q := s.q.(producer := Q.SawActive));
    t := ReachStep(chunk, input, s0, s1, ReserveStep(Q.PushLoadLength));
  }

  /** An outsider has finalized and the writer has left, while the reader holds its first block. */
  predicate LeftAlone(s: System) {
    && s.q.drained && s.q.finalizer == Q.By(Q.Outsider) && s.q.committed == s.q.popped == [] && s.w.out.records == []
    && s.q.producer.Holding? && s.q.producer.slot == s.q.ring.tail < |s.q.ring.slots| && s.r.block.Some?
    && s.q.ring.slots[s.q.ring.tail] == s.r.block.value
  }

  lemma FinalizeEarly(chunk: nat, input: Text, s0: System, s: System) returns (t: System)
    requires Reaches(chunk, input, s0, s) && Holding(s) && s.r.block == Some([])
    requires s.q.committed == s.q.popped == [] && s.w.out.records == [] && s.q.outsiders == 0
    requires s.q.producer.slot == s.q.ring.tail && s.q.ring.slots[s.q.ring.tail] == []
    ensures Reaches(chunk, input, s0, t) && LeftAlone(t) && t.r == s.r
  {
    var s1 := ReachStep(chunk, input, s0, s, Finalize(Q.FinalizeCheck(Q.Outsider)));
    assert s1 == s.(q := s.q.(outsiders := 1));
    var s2 := ReachStep(chunk, input, s0, s1, Finalize(Q.FinalizeLocked(Q.Outsider)));
    assert s2 == s.(q := s.q.(ring := s.q.ring.Finalized(), finalizer := Q.By(Q.Outsider)));
    var s3 := ReachStep(chunk, input, s0, s2, PopStep(Q.PopLoadLength));
    assert s3 == s2.(q := s2.q.(consumer := Q.SawBlocked));
    t := ReachStep(chunk, input, s0, s3, PopStep(Q.PopLocked));
    assert t == s3.(q := s3.q.(consumer := Q.Exiting, drained := true));
  }

  /** The reader goes on undisturbed, fills its block with what is there and commits it. */
  lemma CommitLate(chunk: nat, input: Text, s0: System, s: System) returns (t: System)
    requires chunk > 0 && input != [] && Reaches(chunk, input, s0, s) && LeftAlone(s)
    requires s.r.place == R.Reading && s.r.block == Some([]) && s.r.pos == 0
    ensures Reaches(chunk, input, s0, t) && t.q.drained && t.q.finalizer == Q.By(Q.Outsider)
    ensures t.q.committed == [input[..if chunk < |input| then chunk else |input|]]
    ensures t.q.popped == [] && t.w.out.records == []
  {
    var n := if chunk < |input| then chunk else |input|;
    var s1 := ReachStep(chunk, input, s0, s, Read(R.UpTo(chunk)));
    assert [] + input[0..n] == input[..n];
    assert s1.r.block == Some(input[..n]) && LeftAlone(s1);
    var s2 := s1;
    if n < chunk {
      s2 := ReachStep(chunk, input, s0, s1, Read(R.WouldBlock));
    }
    assert s2.r.place.Committing? && s2.r.block == s1.r.block && LeftAlone(s2);
    t := ReachStep(chunk, input, s0, s2, Commit);
  }

  /**
   For every input that is not empty, some run in which an outsider finalizes loses the first block:
   the reader commits it, the writer has left without it, and nothing is written.
   */
  lemma {:induction false} EarlyFinalizeLosesInput(chunk: nat, input: Text, capacity: nat)
    returns (schedule: seq<Action>)
    requires chunk > 0 && capacity > 0 && input != []
    ensures var s := Run(chunk, input, Init(capacity, K.Wait), schedule);
      && s.q.drained && s.q.finalizer == Q.By(Q.Outsider)
      && s.q.committed == [input[..if chunk < |input| then chunk else |input|]]
      && s.q.popped == [] && s.w.out.records == []
  {
    var s0 := Init(capacity, K.Wait);
    assert Run(chunk, input, s0, []) == s0;
    var s1 := ReachStep(chunk, input, s0, s0, Poll(R.Ready));
    var s2 := Grant(chunk, input, s0, s1);
    var s3 := FinalizeEarly(chunk, input, s0, s2);
    var s4 := CommitLate(chunk, input, s0, s3);
    schedule :| Run(chunk, input, s0, schedule) == s4;
  }
}
