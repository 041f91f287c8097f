/**
 The short-write loop of src/file.c: `writev` may accept fewer bytes than offered, and the loop
 advances through the caller's vector, editing it in place, until everything is written.
 */
module VectoredWrite {
  import opened Bytes

  /** An element of the vector: `len` bytes from `base` in its own buffer. */
  datatype Iov = Iov(base: nat, len: nat)

  /** What the kernel answers to one `writev`: bytes accepted, `EINTR`, or another error. */
  datatype Answer = Accept(n: nat) | Interrupted | Failed

  datatype Outcome = Done | WriteFailed | StillRunning

  // ---------------------------------------------------------------- the bytes of a vector

  predicate InBounds(mem: seq<Text>, iov: seq<Iov>) {
    |mem| == |iov| && forall i :: 0 <= i < |iov| ==> iov[i].base + iov[i].len <= |mem[i]|
  }

  function Rest(iov: seq<Iov>, k: nat): nat
    requires k <= |iov|
    decreases |iov| - k
  {
    if k == |iov| then 0 else iov[k].len + Rest(iov, k + 1)
  }

  /** The bytes of one element, whose buffer is `m`. */
  function Element(m: Text, e: Iov): (t: Text)
    requires e.base + e.len <= |m|
    ensures |t| == e.len
  {
    m[e.base..e.base + e.len]
  }

  /** The bytes of the elements from `k` on. */
  function Gather(mem: seq<Text>, iov: seq<Iov>, k: nat): (t: Text)
    requires k <= |iov| && InBounds(mem, iov)
    ensures |t| == Rest(iov, k)
    decreases |iov| - k
  {
    if k == |iov| then [] else Element(mem[k], iov[k]) + Gather(mem, iov, k + 1)
  }

  /** How many bytes come before element `k`. */
  function Before(iov: seq<Iov>, k: nat): int
    requires k <= |iov|
  {
    Rest(iov, 0) - Rest(iov, k)
  }

  /** A byte count that cuts element `j` in two. */
  predicate Cuts(iov: seq<Iov>, j: nat, p: nat)
    requires j < |iov|
  {
    Before(iov, j) < p < Before(iov, j) + iov[j].len
  }

  lemma {:induction false} RestFalls(iov: seq<Iov>, i: nat, j: nat)
    requires i <= j <= |iov|
    ensures Rest(iov, j) <= Rest(iov, i)
    decreases j - i
  {
    if i < j {
      RestFalls(iov, i + 1, j);
    }
  }

  /** A count between the start and the end of one element cuts no other. */
  lemma CutsOnlyOne(iov: seq<Iov>, k: nat, j: nat, p: nat)
    requires k <= |iov| && j < |iov| && j != k
    requires Before(iov, k) <= p && (k < |iov| ==> p <= Before(iov, k) + iov[k].len)
    requires k == |iov| ==> p <= Rest(iov, 0)
    ensures !Cuts(iov, j, p)
  {
    if j < k {
      RestFalls(iov, j + 1, k);
    } else {
      RestFalls(iov, k + 1, j);
    }
  }

  lemma {:induction false} SameFrom(mem: seq<Text>, iov: seq<Iov>, iov': seq<Iov>, k: nat)
    requires k <= |iov| == |iov'| && InBounds(mem, iov) && InBounds(mem, iov')
    requires iov[k..] == iov'[k..]
    ensures Rest(iov', k) == Rest(iov, k) && Gather(mem, iov', k) == Gather(mem, iov, k)
    decreases |iov| - k
  {
    if k < |iov| {
      assert iov[k] == iov[k..][0] == iov'[k..][0] == iov'[k];
      assert iov[k + 1..] == iov[k..][1..] == iov'[k..][1..] == iov'[k + 1..];
      SameFrom(mem, iov, iov', k + 1);
    }
  }

  // ---------------------------------------------------------------- the run as the kernel's answers shape it

  /** The running totals after each accepting call, and how the run ends. */
  datatype Trace = Trace(stops: seq<nat>, outcome: Outcome)

  function Run(answers: seq<Answer>, sent: nat, total: nat, open: bool): (r: Trace)
    requires sent <= total
    ensures forall i :: 0 <= i < |r.stops| ==> sent < r.stops[i] <= total
  {
    if !open then Trace([], Done)
    else if answers == [] then Trace([], StillRunning)
    else
      match answers[0]
      case Interrupted => Run(answers[1..], sent, total, open)
      case Failed => Trace([], WriteFailed)
      case Accept(n) =>
        var stop := if n < total - sent then sent + n else total;
        if stop == sent then Trace([], WriteFailed)
        else
          var r := Run(answers[1..], stop, total, stop < total);
          Trace([stop] + r.stops, r.outcome)
  }

  function Sent(r: Trace): nat {
    if r.stops == [] then 0 else r.stops[|r.stops| - 1]
  }

  /** Success means that everything was sent, and each accepting call brings the end nearer. */
  lemma {:induction false} DoneSendsAll(answers: seq<Answer>, sent: nat, total: nat, open: bool)
    requires sent <= total && (!open ==> sent == total)
    ensures var r := Run(answers, sent, total, open);
      && (r.outcome == Done ==> sent == total || (r.stops != [] && r.stops[|r.stops| - 1] == total))
      && forall i, j :: 0 <= i < j < |r.stops| ==> r.stops[i] < r.stops[j]
  {
    if open && answers != [] {
      match answers[0]
      case Interrupted => DoneSendsAll(answers[1..], sent, total, open);
      case Failed =>
      case Accept(n) =>
        var stop := if n < total - sent then sent + n else total;
        if stop != sent {
          DoneSendsAll(answers[1..], stop, total, stop < total);
        }
    }
  }

  /** The answer ends the call: an error, or nothing accepted. */
  predicate Refuses(a: Answer) {
    a == Failed || a == Accept(0)
  }

  /** The bytes that the kernel is ready to take before it first refuses, interruptions aside. */
  function Taken(answers: seq<Answer>): nat {
    if answers == [] || Refuses(answers[0]) then 0
    else Taken(answers[1..]) + if answers[0].Accept? then answers[0].n else 0
  }

  /** Some answer refuses. */
  ghost predicate SomeRefuses(answers: seq<Answer>) {
    exists i :: 0 <= i < |answers| && Refuses(answers[i])
  }

  lemma RefusesLater(answers: seq<Answer>)
    requires answers != []
    ensures SomeRefuses(answers) <==> Refuses(answers[0]) || SomeRefuses(answers[1..])
  {
    if SomeRefuses(answers[1..]) {
      var i :| 0 <= i < |answers[1..]| && Refuses(answers[1..][i]);
      assert answers[i + 1] == answers[1..][i];
    }
    if i :| 0 < i < |answers| && Refuses(answers[i]) {
      assert answers[1..][i - 1] == answers[i];
    }
  }

  lemma {:induction false} OutcomeFrom(answers: seq<Answer>, sent: nat, total: nat)
    requires sent < total
    ensures var r, end := Run(answers, sent, total, true), sent + Taken(answers);
      && (r.outcome == Done <==> end >= total)
      && (r.outcome == WriteFailed <==> end < total && SomeRefuses(answers))
      && (r.stops == [] ==> end == sent)
      && (r.stops != [] ==> Sent(r) == if end < total then end else total)
  {
    if answers != [] {
      RefusesLater(answers);
      var a, rest := answers[0], answers[1..];
      if a == Interrupted {
        OutcomeFrom(rest, sent, total);
      } else if a.Accept? && a.n > 0 && sent + a.n < total {
        OutcomeFrom(rest, sent + a.n, total);
      }
    }
  }

  /**
   How a call ends, and how much it sends, depends on what the kernel takes before it first refuses:
   all bytes are sent and the call succeeds if that is enough, else it fails if the kernel refuses.
   Interruptions do not matter, nor how the counts are divided.
   */
  lemma OutcomeExactly(answers: seq<Answer>, total: nat)
    requires total > 0
    ensures var r := Run(answers, 0, total, true);
      && (r.outcome == Done <==> Taken(answers) >= total)
      && (r.outcome == WriteFailed <==> Taken(answers) < total && SomeRefuses(answers))
      && Sent(r) == if Taken(answers) < total then Taken(answers) else total
  {
    OutcomeFrom(answers, 0, total);
  }

  // ---------------------------------------------------------------- the vector, edited in place

  /** `iov` is the caller's vector `was` after `sent` bytes, with the loop at element `k`. */
  ghost predicate Advanced(was: seq<Iov>, iov: seq<Iov>, k: nat, sent: nat, stops: seq<nat>) {
    && |iov| == |was| && k <= |iov|
    && (forall j :: 0 <= j < |iov| ==> iov[j] == EditedBy(was, j, stops))
    && (forall j :: k < j < |iov| ==> iov[j] == was[j])
    && sent == Before(was, k) + (if k < |iov| then iov[k].base - was[k].base else 0)
  }

  /** How far into element `j` the last stop that cut it fell; 0 if none did. */
  function Moved(was: seq<Iov>, j: nat, stops: seq<nat>): (m: nat)
    requires j < |was|
    ensures m <= was[j].len
  {
    if stops == [] then 0
    else
      var last := stops[|stops| - 1];
      if Cuts(was, j, last) then last - Before(was, j) else Moved(was, j, stops[..|stops| - 1])
  }

  /** No stop cut element `j`. */
  ghost predicate Uncut(was: seq<Iov>, j: nat, stops: seq<nat>)
    requires j < |was|
  {
    forall i :: 0 <= i < |stops| ==> !Cuts(was, j, stops[i])
  }

  /** An element has moved exactly when a stop cut it. */
  lemma {:induction false} MovedByCuts(was: seq<Iov>, j: nat, stops: seq<nat>)
    requires j < |was|
    ensures Moved(was, j, stops) == 0 <==> Uncut(was, j, stops)
  {
    if stops != [] {
      MovedByCuts(was, j, stops[..|stops| - 1]);
      assert forall i :: 0 <= i < |stops| - 1 ==> stops[..|stops| - 1][i] == stops[i];
    }
  }

  lemma MovedNext(was: seq<Iov>, j: nat, stops: seq<nat>, stop: nat)
    requires j < |was|
    ensures Moved(was, j, stops + [stop]) ==
      if Cuts(was, j, stop) then stop - Before(was, j) else Moved(was, j, stops)
  {
    assert (stops + [stop])[..|stops|] == stops;
  }

  /** What the stops make of element `j`: its front is gone up to the last cut, and its end stays. */
  function EditedBy(was: seq<Iov>, j: nat, stops: seq<nat>): Iov
    requires j < |was|
  {
    var m := Moved(was, j, stops);
    Iov(was[j].base + m, was[j].len - m)
  }

  /** The caller's vector after a run with these stops. */
  function Edited(was: seq<Iov>, stops: seq<nat>): (iov: seq<Iov>)
    ensures |iov| == |was|
  {
    seq(|was|, j requires 0 <= j < |was| => EditedBy(was, j, stops))
  }

  lemma StopOnBoundary(was: seq<Iov>, iov: seq<Iov>, k: nat, stop: nat, k': nat, sent: nat, stops: seq<nat>)
    requires Advanced(was, iov, k, sent, stops) && k < k' <= |iov| && stop == Before(was, k')
    ensures Advanced(was, iov, k', stop, stops + [stop])
  {
    RestFalls(was, 0, k');
    forall j | 0 <= j < |iov|
      ensures iov[j] == EditedBy(was, j, stops + [stop])
    {
      if j != k' {
        CutsOnlyOne(was, k', j, stop);
      }
      MovedNext(was, j, stops, stop);
    }
  }

  /** A stop `d` bytes into what is left of element `k` edits that element. */
  lemma CutHere(was: seq<Iov>, e: Iov, k: nat, d: nat, stops: seq<nat>)
    requires k < |was| && e == EditedBy(was, k, stops) && 0 < d < e.len
    ensures var stop := Before(was, k) + (e.base - was[k].base) + d;
      && 0 <= stop && Before(was, k) <= stop <= Before(was, k) + was[k].len
      && EditedBy(was, k, stops + [stop]) == Iov(e.base + d, e.len - d)
  {
    RestFalls(was, 0, k);
    MovedNext(was, k, stops, Before(was, k) + (e.base - was[k].base) + d);
  }

  /** It edits no other. */
  lemma CutElsewhere(was: seq<Iov>, k: nat, j: nat, stop: nat, stops: seq<nat>)
    requires k < |was| && j < |was| && j != k && Before(was, k) <= stop <= Before(was, k) + was[k].len
    ensures EditedBy(was, j, stops + [stop]) == EditedBy(was, j, stops)
  {
    CutsOnlyOne(was, k, j, stop);
    MovedNext(was, j, stops, stop);
  }

  lemma StopCutting(was: seq<Iov>, iov: seq<Iov>, k: nat, k': nat, d: nat, sent: nat, stops: seq<nat>)
    requires Advanced(was, iov, k, sent, stops) && k <= k' < |iov|
    requires 0 < d < iov[k'].len
    ensures var stop := Before(was, k') + (iov[k'].base - was[k'].base) + d;
      0 <= stop && Advanced(was, Edit(iov, k', d), k', stop, stops + [stop])
  {
    CutHere(was, iov[k'], k', d, stops);
    var stop := Before(was, k') + (iov[k'].base - was[k'].base) + d;
    forall j | 0 <= j < |iov| && j != k'
      ensures EditedBy(was, j, stops + [stop]) == EditedBy(was, j, stops)
    {
      CutElsewhere(was, k', j, stop, stops);
    }
  }

  /** `status` bytes from element `from` on end `left` bytes into element `k`. */
  ghost predicate Skips(iov: seq<Iov>, from: nat, status: nat, k: nat, left: nat) {
    && from <= k <= |iov|
    && left + Rest(iov, from) - Rest(iov, k) == status
    && (if k < |iov| then left < iov[k].len else left == 0)
  }

  /** The inner loop: skip the elements that `status` accepted bytes cover. */
  method Skip(iov: array<Iov>, from: nat, status: nat) returns (k: nat, left: nat)
    requires from <= iov.Length && 0 < status <= Rest(iov[..], from)
    ensures Skips(iov[..], from, status, k, left)
  {
    k, left := from, status;
    while k < iov.Length && left >= iov[k].len
      invariant from <= k <= iov.Length
      invariant left + Rest(iov[..], from) - Rest(iov[..], k) == status
      invariant left <= Rest(iov[..], k)
    {
      left := left - iov[k].len;
      k := k + 1;
    }
  }

  lemma DropPast(x: Text, y: Text, n: nat)
    requires n <= |y|
    ensures (x + y)[|x| + n..] == y[n..]
  {
  }

  lemma DropWithin(x: Text, y: Text, n: nat)
    requires n <= |x|
    ensures (x + y)[n..] == x[n..] + y
  {
  }

  lemma {:induction false} GatherDrop(mem: seq<Text>, iov: seq<Iov>, from: nat, k: nat, left: nat)
    requires from <= k <= |iov| && InBounds(mem, iov)
    requires left <= Rest(iov, k)
    ensures var status := left + Rest(iov, from) - Rest(iov, k);
      && 0 <= status <= Rest(iov, from)
      && Gather(mem, iov, from)[status..] == Gather(mem, iov, k)[left..]
    decreases k - from
  {
    if from < k {
      GatherDrop(mem, iov, from + 1, k, left);
      DropPast(Element(mem[from], iov[from]), Gather(mem, iov, from + 1), left + Rest(iov, from + 1) - Rest(iov, k));
    }
  }

  lemma SliceDrop(m: Text, b: nat, e: nat, n: nat)
    requires b + n <= e <= |m|
    ensures m[b..e][n..] == m[b + n..e]
  {
  }

  function Edit(iov: seq<Iov>, k: nat, left: nat): (r: seq<Iov>)
    requires k < |iov| && left <= iov[k].len
    ensures |r| == |iov| && r[k + 1..] == iov[k + 1..] && r[k] == Iov(iov[k].base + left, iov[k].len - left)
  {
    iov[k := Iov(iov[k].base + left, iov[k].len - left)]
  }

  lemma EditInBounds(mem: seq<Text>, iov: seq<Iov>, k: nat, left: nat)
    requires k < |iov| && InBounds(mem, iov) && left <= iov[k].len
    ensures InBounds(mem, Edit(iov, k, left))
  {
  }

  lemma ElementDrop(m: Text, e: Iov, n: nat, tail: Text)
    requires e.base + e.len <= |m| && n <= e.len
    ensures Element(m, Iov(e.base + n, e.len - n)) + tail == (Element(m, e) + tail)[n..]
  {
    SliceDrop(m, e.base, e.base + e.len, n);
    DropWithin(Element(m, e), tail, n);
  }

  /** Editing one element changes only its own part of the bytes. */
  lemma GatherEdited(mem: seq<Text>, iov: seq<Iov>, iov': seq<Iov>, k: nat)
    requires k < |iov| == |iov'| && InBounds(mem, iov) && InBounds(mem, iov') && iov'[k + 1..] == iov[k + 1..]
    ensures Gather(mem, iov', k) == Element(mem[k], iov'[k]) + Gather(mem, iov, k + 1)
  {
    SameFrom(mem, iov, iov', k + 1);
  }

  lemma GatherEdit(mem: seq<Text>, iov: seq<Iov>, k: nat, left: nat)
    requires k < |iov| && InBounds(mem, iov) && left <= iov[k].len && InBounds(mem, Edit(iov, k, left))
    ensures Gather(mem, Edit(iov, k, left), k) == Gather(mem, iov, k)[left..]
  {
    var tail := Gather(mem, iov, k + 1);
    GatherEdited(mem, iov, Edit(iov, k, left), k);
    assert Gather(mem, iov, k) == Element(mem[k], iov[k]) + tail;
    ElementDrop(mem[k], iov[k], left, tail);
  }

  lemma RestOfAdvanced(was: seq<Iov>, iov: seq<Iov>, k: nat, sent: nat, stops: seq<nat>, j: nat)
    requires Advanced(was, iov, k, sent, stops) && k <= j <= |iov|
    ensures k < j ==> Rest(iov, j) == Rest(was, j)
    ensures Rest(iov, k) == Rest(was, 0) - sent
  {
    SameRest(was, iov, j, k);
    if k < |iov| {
      SameRest(was, iov, k + 1, k);
      assert iov[k] == EditedBy(was, k, stops);
    }
  }

  lemma {:induction false} SameRest(was: seq<Iov>, iov: seq<Iov>, j: nat, k: nat)
    requires |was| == |iov| && j <= |iov|
    requires forall i :: k < i < |iov| ==> iov[i] == was[i]
    ensures k < j || k == |iov| == j ==> Rest(iov, j) == Rest(was, j)
    decreases |iov| - j
  {
    if j < |iov| {
      SameRest(was, iov, j + 1, k);
    }
  }

  lemma SkipsWithin(iov: seq<Iov>, from: nat, status: nat, k: nat, left: nat)
    requires Skips(iov, from, status, k, left)
    ensures left <= Rest(iov, k) && (k < |iov| ==> left < Rest(iov, k))
    ensures status > 0 && left == 0 ==> from < k
  {
    if k < |iov| {
      assert Rest(iov, k) == iov[k].len + Rest(iov, k + 1);
    }
  }

  lemma StopBefore(was: seq<Iov>, now: seq<Iov>, from: nat, status: nat, k: nat, sent: nat, stops: seq<nat>)
    requires Advanced(was, now, from, sent, stops) && Skips(now, from, status, k, 0) && from < k
    ensures sent + status == Before(was, k)
  {
    RestOfAdvanced(was, now, from, sent, stops, k);
  }

  /** The count falls on an element boundary: nothing is edited. */
  lemma SkipsWhole(was: seq<Iov>, now: seq<Iov>, from: nat, status: nat, k: nat, sent: nat, stops: seq<nat>)
    requires Advanced(was, now, from, sent, stops) && status > 0 && Skips(now, from, status, k, 0)
    ensures Advanced(was, now, k, sent + status, stops + [sent + status])
  {
    SkipsWithin(now, from, status, k, 0);
    StopBefore(was, now, from, status, k, sent, stops);
    StopOnBoundary(was, now, from, sent + status, k, sent, stops);
  }

  lemma SkipsWholeBytes(mem: seq<Text>, now: seq<Iov>, from: nat, status: nat, k: nat)
    requires InBounds(mem, now) && Skips(now, from, status, k, 0)
    ensures status <= Rest(now, from) && Gather(mem, now, k) == Gather(mem, now, from)[status..]
  {
    GatherDrop(mem, now, from, k, 0);
  }

  /** The count falls inside element `k`, which is edited. */
  lemma SkipsInto(mem: seq<Text>, was: seq<Iov>, now: seq<Iov>, from: nat, status: nat, k: nat, left: nat,
                  sent: nat, stops: seq<nat>)
    requires InBounds(mem, now) && Advanced(was, now, from, sent, stops)
    requires Skips(now, from, status, k, left) && left > 0
    ensures var edited := Edit(now, k, left);
      && InBounds(mem, edited) && Advanced(was, edited, k, sent + status, stops + [sent + status])
      && status <= Rest(now, from) && Gather(mem, edited, k) == Gather(mem, now, from)[status..]
  {
    SkipsWithin(now, from, status, k, left);
    GatherDrop(mem, now, from, k, left);
    EditInBounds(mem, now, k, left);
    GatherEdit(mem, now, k, left);
    StopAt(was, now, from, status, k, left, sent, stops);
    StopCutting(was, now, from, k, left, sent, stops);
  }

  lemma StopAt(was: seq<Iov>, now: seq<Iov>, from: nat, status: nat, k: nat, left: nat, sent: nat, stops: seq<nat>)
    requires Advanced(was, now, from, sent, stops) && Skips(now, from, status, k, left) && k < |now|
    ensures sent + status == Before(was, k) + (now[k].base - was[k].base) + left
  {
    RestOfAdvanced(was, now, from, sent, stops, from);
    RestOfAdvanced(was, now, from, sent, stops, k);
  }

  lemma EndReached(was: seq<Iov>, iov: seq<Iov>, k: nat, sent: nat, stops: seq<nat>)
    requires Advanced(was, iov, k, sent, stops) && (k < |iov| ==> iov[k].len > 0)
    ensures k < |iov| <==> sent < Rest(was, 0)
  {
    RestOfAdvanced(was, iov, k, sent, stops, k);
  }

  /** What one accepting call makes of the vector `now` with the loop at element `from`. */
  ghost predicate Consumed(mem: seq<Text>, was: seq<Iov>, now: seq<Iov>, from: nat, status: nat,
                           sent: nat, stops: seq<nat>, iov: seq<Iov>, k: nat)
    requires InBounds(mem, now) && from <= |now| && status <= Rest(now, from)
  {
    && InBounds(mem, iov) && Advanced(was, iov, k, sent + status, stops + [sent + status])
    && Gather(mem, iov, k) == Gather(mem, now, from)[status..]
    && (k < |iov| <==> sent + status < Rest(was, 0))
  }

  lemma ConsumedInto(mem: seq<Text>, was: seq<Iov>, now: seq<Iov>, from: nat, status: nat, k: nat, left: nat,
                     sent: nat, stops: seq<nat>)
    requires InBounds(mem, now) && Advanced(was, now, from, sent, stops) && status <= Rest(now, from)
    requires Skips(now, from, status, k, left) && left > 0
    ensures Consumed(mem, was, now, from, status, sent, stops, Edit(now, k, left), k)
  {
    SkipsInto(mem, was, now, from, status, k, left, sent, stops);
    EndReached(was, Edit(now, k, left), k, sent + status, stops + [sent + status]);
  }

  lemma ConsumedWhole(mem: seq<Text>, was: seq<Iov>, now: seq<Iov>, from: nat, status: nat, k: nat,
                      sent: nat, stops: seq<nat>)
    requires InBounds(mem, now) && Advanced(was, now, from, sent, stops) && 0 < status <= Rest(now, from)
    requires Skips(now, from, status, k, 0)
    ensures Consumed(mem, was, now, from, status, sent, stops, now, k)
  {
    SkipsWhole(was, now, from, status, k, sent, stops);
    SkipsWholeBytes(mem, now, from, status, k);
    EndReached(was, now, k, sent + status, stops + [sent + status]);
  }

  /** One accepting call: skip and edit so that `status` more bytes count as sent. */
  method Consume(mem: seq<Text>, iov: array<Iov>, ghost was: seq<Iov>, from: nat, status: nat,
                 ghost sent: nat, ghost stops: seq<nat>)
    returns (k: nat)
    requires InBounds(mem, iov[..]) && Advanced(was, iov[..], from, sent, stops)
    requires 0 < status <= Rest(iov[..], from)
    modifies iov
    ensures Consumed(mem, was, old(iov[..]), from, status, sent, stops, iov[..], k)
  {
    ghost var now := iov[..];
    var left;
    k, left := Skip(iov, from, status);
    if k < iov.Length && left > 0 {
      ConsumedInto(mem, was, now, from, status, k, left, sent, stops);
      iov[k] := Iov(iov[k].base + left, iov[k].len - left);
      assert iov[..] == Edit(now, k, left);
    } else {
      ConsumedWhole(mem, was, now, from, status, k, sent, stops);
    }
  }

  lemma RunNext(answers: seq<Answer>, i: nat, sent: nat, total: nat)
    requires i < |answers| && sent <= total
    ensures Run(answers[i..], sent, total, true) ==
      match answers[i] {
        case Interrupted => Run(answers[i + 1..], sent, total, true)
        case Failed => Trace([], WriteFailed)
        case Accept(n) =>
          var stop := if n < total - sent then sent + n else total;
          if stop == sent then Trace([], WriteFailed)
          else
            var r := Run(answers[i + 1..], stop, total, stop < total);
            Trace([stop] + r.stops, r.outcome)
      }
  {
    assert answers[i..][0] == answers[i] && answers[i..][1..] == answers[i + 1..];
  }

  lemma TakeMore(all: Text, sent: nat, n: nat)
    requires sent + n <= |all|
    ensures all[..sent] + all[sent..][..n] == all[..sent + n]
    ensures all[sent..][n..] == all[sent + n..]
  {
  }

  lemma AppendStops(stops: seq<nat>, stop: nat, more: seq<nat>)
    ensures stops + ([stop] + more) == (stops + [stop]) + more
  {
  }

  /** What a call has done when it ends with `outcome`. */
  ghost predicate Written(mem: seq<Text>, was: seq<Iov>, iov: seq<Iov>, answers: seq<Answer>, outcome: Outcome,
                          out: Text)
    requires InBounds(mem, was)
  {
    var r := Run(answers, 0, Rest(was, 0), |was| > 0);
    && outcome == r.outcome
    && Sent(r) <= Rest(was, 0)
    && out == Gather(mem, was, 0)[..Sent(r)]
    && iov == Edited(was, r.stops)
  }

  /** The loop stands at element `k` after the first `i` answers. */
  ghost predicate Going(mem: seq<Text>, was: seq<Iov>, iov: seq<Iov>, k: nat, answers: seq<Answer>, i: nat,
                        stops: seq<nat>, sent: nat, out: Text)
    requires InBounds(mem, was)
  {
    && i <= |answers| && InBounds(mem, iov) && sent <= Rest(was, 0)
    && Advanced(was, iov, k, sent, stops)
    && sent == Sent(Trace(stops, Done)) && out == Gather(mem, was, 0)[..sent]
    && Gather(mem, iov, k) == Gather(mem, was, 0)[sent..]
    && var r := Run(answers[i..], sent, Rest(was, 0), k < |was|);
       Run(answers, 0, Rest(was, 0), |was| > 0) == Trace(stops + r.stops, r.outcome)
  }

  lemma Finish(mem: seq<Text>, was: seq<Iov>, iov: seq<Iov>, k: nat, answers: seq<Answer>, i: nat,
               stops: seq<nat>, sent: nat, out: Text, outcome: Outcome)
    requires InBounds(mem, was) && Going(mem, was, iov, k, answers, i, stops, sent, out)
    requires Run(answers[i..], sent, Rest(was, 0), k < |was|) == Trace([], outcome)
    ensures Written(mem, was, iov, answers, outcome, out)
  {
    assert stops + [] == stops;
  }

  /** The script of answers is used up. */
  lemma OutOfAnswers(mem: seq<Text>, was: seq<Iov>, iov: seq<Iov>, k: nat, answers: seq<Answer>,
                     stops: seq<nat>, sent: nat, out: Text)
    requires InBounds(mem, was) && Going(mem, was, iov, k, answers, |answers|, stops, sent, out) && k < |was|
    ensures Written(mem, was, iov, answers, StillRunning, out)
  {
    Finish(mem, was, iov, k, answers, |answers|, stops, sent, out, StillRunning);
  }

  /** The loop has passed the last element. */
  lemma AllSent(mem: seq<Text>, was: seq<Iov>, iov: seq<Iov>, answers: seq<Answer>, i: nat,
                stops: seq<nat>, sent: nat, out: Text)
    requires InBounds(mem, was) && Going(mem, was, iov, |was|, answers, i, stops, sent, out)
    ensures Written(mem, was, iov, answers, Done, out)
  {
    Finish(mem, was, iov, |was|, answers, i, stops, sent, out, Done);
  }

  /** An interrupted call changes nothing. */
  lemma Retry(mem: seq<Text>, was: seq<Iov>, iov: seq<Iov>, k: nat, answers: seq<Answer>, i: nat,
              stops: seq<nat>, sent: nat, out: Text)
    requires InBounds(mem, was) && Going(mem, was, iov, k, answers, i, stops, sent, out) && k < |was|
    requires i < |answers| && answers[i] == Interrupted
    ensures Going(mem, was, iov, k, answers, i + 1, stops, sent, out)
  {
    RunNext(answers, i, sent, Rest(was, 0));
  }

  /** A failing call, or one that accepts nothing, ends the run. */
  lemma Fails(mem: seq<Text>, was: seq<Iov>, iov: seq<Iov>, k: nat, answers: seq<Answer>, i: nat,
              stops: seq<nat>, sent: nat, out: Text)
    requires InBounds(mem, was) && Going(mem, was, iov, k, answers, i, stops, sent, out) && k < |was|
    requires i < |answers|
    requires answers[i] == Failed || (answers[i].Accept? && (answers[i].n == 0 || sent == Rest(was, 0)))
    ensures Written(mem, was, iov, answers, WriteFailed, out)
  {
    RunNext(answers, i, sent, Rest(was, 0));
    Finish(mem, was, iov, k, answers, i, stops, sent, out, WriteFailed);
  }

  lemma OfferedRest(mem: seq<Text>, was: seq<Iov>, iov: seq<Iov>, k: nat, answers: seq<Answer>, i: nat,
                    stops: seq<nat>, sent: nat, out: Text)
    requires InBounds(mem, was) && Going(mem, was, iov, k, answers, i, stops, sent, out)
    ensures k <= |iov| == |was| && InBounds(mem, iov) && |Gather(mem, iov, k)| == Rest(was, 0) - sent
  {
  }

  lemma Begin(mem: seq<Text>, was: seq<Iov>, answers: seq<Answer>)
    requires InBounds(mem, was)
    ensures Going(mem, was, was, 0, answers, 0, [], 0, [])
  {
    var r := Run(answers, 0, Rest(was, 0), |was| > 0);
    assert answers[0..] == answers && [] + r.stops == r.stops;
    assert Gather(mem, was, 0)[..0] == [] && Gather(mem, was, 0)[0..] == Gather(mem, was, 0);
  }

  lemma Proceed(mem: seq<Text>, was: seq<Iov>, iov: seq<Iov>, k: nat, answers: seq<Answer>, i: nat,
                stops: seq<nat>, sent: nat, out: Text, status: nat, iov': seq<Iov>, k': nat)
    requires InBounds(mem, was) && InBounds(mem, iov) && k < |iov| == |was|
    requires Going(mem, was, iov, k, answers, i, stops, sent, out)
    requires i < |answers| && answers[i].Accept? && 0 < status <= Rest(iov, k)
    requires status == if answers[i].n < Rest(iov, k) then answers[i].n else Rest(iov, k)
    requires Consumed(mem, was, iov, k, status, sent, stops, iov', k')
    ensures Going(mem, was, iov', k', answers, i + 1, stops + [sent + status], sent + status,
                  out + Gather(mem, iov, k)[..status])
  {
    var all := Gather(mem, was, 0);
    assert Rest(iov, k) == |all[sent..]| == Rest(was, 0) - sent;
    ProceedTrace(answers, i, stops, sent, status, Rest(was, 0), |was| > 0);
    TakeMore(all, sent, status);
  }

  lemma ProceedTrace(answers: seq<Answer>, i: nat, stops: seq<nat>, sent: nat, status: nat, total: nat, open: bool)
    requires i < |answers| && answers[i].Accept? && 0 < status && sent + status <= total
    requires status == if answers[i].n < total - sent then answers[i].n else total - sent
    requires var r := Run(answers[i..], sent, total, true);
      Run(answers, 0, total, open) == Trace(stops + r.stops, r.outcome)
    ensures var r := Run(answers[i + 1..], sent + status, total, sent + status < total);
      Run(answers, 0, total, open) == Trace((stops + [sent + status]) + r.stops, r.outcome)
  {
    var stop := sent + status;
    RunNext(answers, i, sent, total);
    AppendStops(stops, stop, Run(answers[i + 1..], stop, total, stop < total).stops);
  }

  /** The rest of an iteration whose `writev` was accepted. */
  method Accepted(mem: seq<Text>, iov: array<Iov>, ghost was: seq<Iov>, at: nat, answers: seq<Answer>, i: nat,
                  ghost stops: seq<nat>, ghost sent: nat, out: Text, offered: Text, status: nat)
    returns (k: nat, out': Text)
    requires at < iov.Length == |was| && InBounds(mem, was) && InBounds(mem, iov[..])
    requires Going(mem, was, iov[..], at, answers, i, stops, sent, out)
    requires i < |answers| && answers[i].Accept? && offered == Gather(mem, iov[..], at)
    requires 0 < status == if answers[i].n < |offered| then answers[i].n else |offered|
    modifies iov
    ensures k <= iov.Length
    ensures Going(mem, was, iov[..], k, answers, i + 1, stops + [sent + status], sent + status, out')
  {
    ghost var now := iov[..];
    k := Consume(mem, iov, was, at, status, sent, stops);
    Proceed(mem, was, now, at, answers, i, stops, sent, out, status, iov[..], k);
    out' := out + offered[..status];
  }

  /** One `writev` and what follows it: the loop goes on, or the call fails. */
  method Attempt(mem: seq<Text>, iov: array<Iov>, ghost was: seq<Iov>, at: nat, answers: seq<Answer>, i: nat,
                 ghost stops: seq<nat>, ghost sent: nat, out: Text)
    returns (failed: bool, k: nat, out': Text, ghost stops': seq<nat>, ghost sent': nat)
    requires at < iov.Length == |was| && InBounds(mem, was) && i < |answers|
    requires Going(mem, was, iov[..], at, answers, i, stops, sent, out)
    modifies iov
    ensures k <= iov.Length
    ensures failed ==> Written(mem, was, iov[..], answers, WriteFailed, out')
    ensures !failed ==> Going(mem, was, iov[..], k, answers, i + 1, stops', sent', out')
  {
    failed, k, out', stops', sent' := false, at, out, stops, sent;
    if answers[i] == Interrupted {
      Retry(mem, was, iov[..], at, answers, i, stops, sent, out);
      return;
    }
    OfferedRest(mem, was, iov[..], at, answers, i, stops, sent, out);
    var offered := Gather(mem, iov[..], at);
    var status := if answers[i].Accept? && answers[i].n < |offered| then answers[i].n else |offered|;
    if answers[i] == Failed || status == 0 {
      Fails(mem, was, iov[..], at, answers, i, stops, sent, out);
      failed := true;
      return;
    }
    k, out' := Accepted(mem, iov, was, at, answers, i, stops, sent, out, offered, status);
    stops', sent' := stops + [sent + status], sent + status;
  }

  /**
   `jp_file_writev`. What is written is the front of the caller's bytes, up to the last accepted
   count. The caller's vector is left with each element moved up to the last count that cut it.
   */
  method WriteV(mem: seq<Text>, iov: array<Iov>, answers: seq<Answer>) returns (outcome: Outcome, out: Text)
    requires InBounds(mem, iov[..])
    modifies iov
    ensures Written(mem, old(iov[..]), iov[..], answers, outcome, out)
  {
    ghost var was := iov[..];
    ghost var stops: seq<nat>, sent: nat := [], 0;
    var k: nat, i: nat := 0, 0;
    out := [];
    Begin(mem, was, answers);
    while k < iov.Length
      invariant |was| == iov.Length && k <= iov.Length && i <= |answers|
      invariant Going(mem, was, iov[..], k, answers, i, stops, sent, out)
      decreases |answers| - i
    {
      if i == |answers| {
        OutOfAnswers(mem, was, iov[..], k, answers, stops, sent, out);
        return StillRunning, out;
      }
      var failed;
      failed, k, out, stops, sent := Attempt(mem, iov, was, k, answers, i, stops, sent, out);
      if failed {
        return WriteFailed, out;
      }
      i := i + 1;
    }
    AllSent(mem, was, iov[..], answers, i, stops, sent, out);
    return Done, out;
  }
}
