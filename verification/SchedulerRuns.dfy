/** What holds of every run of the scheduler: safety, conservation of memory, and bounded waiting. */
module SchedulerRuns {
  import opened Scheduler

  // ---- runs ----

  /** The steps can be taken one after the other. */
  ghost predicate Runs(s: Sched, steps: seq<Step>)
    decreases |steps|
  {
    steps == [] || (Enabled(s, steps[0]) && Runs(Apply(s, steps[0]), steps[1..]))
  }

  ghost function Run(s: Sched, steps: seq<Step>): Sched
    requires Runs(s, steps)
    decreases |steps|
  {
    if steps == [] then s else Run(Apply(s, steps[0]), steps[1..])
  }

  /**
   * Safety: one simple cycle, at most the current task running, nothing shared, no bad free, the right kernel stack.
   */
  lemma {:induction false} RunKeepsInv(s: Sched, steps: seq<Step>)
    requires Inv(s) && Runs(s, steps)
    ensures Inv(Run(s, steps))
    decreases |steps|
  {
    if steps != [] {
      StepKeepsInv(s, steps[0]);
      RunKeepsInv(Apply(s, steps[0]), steps[1..]);
    }
  }

  /** The serial of the current task, or -1. */
  function Current(s: Sched): int {
    if s.ring == [] then -1 else s.ring[0].serial
  }

  // ---- what one yield does ----

  ghost predicate SomeoneElse(s: Sched) {
    exists i :: 1 <= i < |s.ring| && s.ring[i].state != Zombie
  }

  /** Task 1 + k becomes current, the k tasks before it leave, and the current task goes to the end. */
  function Rotated(ring: seq<Task>, k: nat): seq<Task>
    requires 1 + k < |ring|
  {
    [Started(ring[1 + k])] + ring[2 + k..] + [Stopped(ring[0])]
  }

  /** A yield runs the nearest live task after the current one, if there is one, and reaps the zombies passed over. */
  lemma {:induction false} YieldRunsNearest(s: Sched)
    requires Inv(s)
    ensures var k := Leading(s.ring[1..]);
            var s' := Yield(s);
            && (SomeoneElse(s) <==> 1 + k < |s.ring|)
            && (SomeoneElse(s) ==> s'.halted == s.halted && s'.ring == Rotated(s.ring, k))
            && (!SomeoneElse(s) ==> s'.ring == [s.ring[0]] && (s'.halted <==> s.halted || s.ring[0].state == Zombie))
            && s'.heap == s.heap - OwnedByAll(s.ring[1..1 + k])
  {
    hide RingOk, ReapAll, StackOk, OwnedByAll, PickNext;
    var k := Leading(s.ring[1..]);
    PickNextFrees(s);
    assert forall i :: 0 <= i < |s.ring| - 1 ==> s.ring[1..][i] == s.ring[i + 1];
    if 1 + k < |s.ring| {
      assert s.ring[1 + k].state != Zombie;
      assert PickNext(s).ring[2..] == s.ring[2 + k..];
    } else {
      assert forall i :: 1 <= i < |s.ring| ==> s.ring[i] == s.ring[1..][i - 1];
    }
  }

  /** The allocations of the task that yields, and of every task left in the ring, survive the yield. */
  lemma {:induction false} YieldSparesTheRest(s: Sched)
    requires Inv(s)
    ensures Owned(s.ring[0]) <= Yield(s).heap && OwnedByAll(Yield(s).ring) <= Yield(s).heap
    ensures s.heap - Yield(s).heap == OwnedByAll(Dropped(s))
  {
    YieldKeepsInv(s);
    PickNextFrees(s);
    OwnedIsLive(Yield(s).ring, Yield(s).heap, Yield(s).nextSerial);
    DroppedOk(s);
    OwnedIsLive(Dropped(s), s.heap, s.nextSerial);
    assert TaskOk(Kept(s)[0], Yield(s).heap, s.nextSerial);
  }

  // ---- a zombie never runs again ----

  /** The task has exited. */
  ghost predicate Exited(s: Sched, t: nat) {
    t < s.nextSerial && forall i :: 0 <= i < |s.ring| && s.ring[i].serial == t ==> s.ring[i].state == Zombie
  }

  /** The task has exited and is not current. */
  ghost predicate Gone(s: Sched, t: nat) {
    Exited(s, t) && Current(s) != t
  }

  lemma {:induction false} YieldSerial(s: Sched)
    requires Inv(s)
    ensures Yield(s).nextSerial == s.nextSerial
  {
    PickNextFrees(s);
  }

  lemma {:induction false} YieldKeepsGone(s: Sched, t: nat)
    requires Inv(s)
    ensures Exited(s, t) ==> Exited(Yield(s), t) && (Yield(s).halted || Gone(Yield(s), t))
    ensures Gone(s, t) ==> Gone(Yield(s), t)
  {
    var k := Leading(s.ring[1..]);
    YieldRunsNearest(s);
    YieldSerial(s);
    if SomeoneElse(s) {
      assert s.ring[1 + k] == s.ring[1..][k];
      RotatedAt(s.ring, k);
    }
    hide Yield, Rotated, Inv, Leading;
  }

  lemma {:induction false} TimerKeepsGone(s: Sched, t: nat)
    requires Inv(s)
    ensures Exited(s, t) ==> Exited(TimerIrq(s), t)
    ensures Gone(s, t) ==> Gone(TimerIrq(s), t)
  {
    assert TaskOk(s.ring[0], s.heap, s.nextSerial);
    HeadKeepsInv(s, Charged(s.ring[0]), Tick(s));
    var c := Tick(s).(needResched := false);
    assert forall i :: 1 <= i < |s.ring| ==> c.ring[i] == s.ring[i];
    assert Exited(s, t) ==> Exited(c, t);
    if Tick(s).needResched { YieldKeepsGone(c, t); }
  }

  lemma {:induction false} StepKeepsGone(s: Sched, step: Step, t: nat)
    requires Inv(s) && Enabled(s, step)
    ensures Exited(s, t) ==> Exited(Apply(s, step), t)
    ensures Gone(s, t) ==> Gone(Apply(s, step), t)
  {
    match step
    case YieldStep => YieldKeepsGone(s, t);
    case TickStep => TimerKeepsGone(s, t);
    case CreateStep(_, _, _) =>
      FailedCreateChangesNothing(s, step);
      InsertedRing(s, step);
    case CreateUserStep(_, _, _, _, _) =>
      FailedCreateChangesNothing(s, step);
      InsertedRing(s, step);
    case _ =>
      assert forall i :: 1 <= i < |s.ring| ==> Apply(s, step).ring[i] == s.ring[i];
  }

  /** Creation puts one ready task right behind the current one. */
  predicate Creates(step: Step) {
    || (step.CreateStep? && step.addr != 0 && step.stack != 0)
    || (step.CreateUserStep? && step.addr != 0 && step.stack != 0 && step.userStack != 0)
  }

  lemma {:induction false} InsertedRing(s: Sched, step: Step)
    requires Enabled(s, step)
    ensures Creates(step) ==>
              var s' := Apply(s, step);
              && |s'.ring| == |s.ring| + 1 && s'.nextSerial == s.nextSerial + 1
              && s'.ring == [s.ring[0], s'.ring[1]] + s.ring[1..]
              && s'.ring[1].serial == s.nextSerial && s'.ring[1].state == Ready
              && forall i :: 2 <= i < |s'.ring| ==> s'.ring[i] == s.ring[i - 1]
  {
  }

  /** A zombie that has been switched away from is never current again, in any run. */
  lemma {:induction false} GoneForGood(s: Sched, steps: seq<Step>, t: nat)
    requires Inv(s) && Runs(s, steps) && Gone(s, t)
    ensures Gone(Run(s, steps), t)
    decreases |steps|
  {
    if steps != [] {
      StepKeepsInv(s, steps[0]);
      StepKeepsGone(s, steps[0], t);
      GoneForGood(Apply(s, steps[0]), steps[1..], t);
    }
  }

  /** An exiting task that gets to its yield, however many ticks come between, never returns from it. */
  lemma {:induction false} ExitNeverReturns(s: Sched, ticks: seq<Step>, later: seq<Step>)
    requires Inv(s) && s.ring[0].state == Zombie
    requires Runs(s, ticks) && !Run(s, ticks).halted && Current(Run(s, ticks)) == Current(s)
    requires var y := Yield(Run(s, ticks)); Runs(y, later)
    ensures var y := Yield(Run(s, ticks)); y.halted || Current(Run(y, later)) != Current(s)
  {
    RunKeepsInv(s, ticks);
    var u := Run(s, ticks);
    assert TaskOk(s.ring[0], s.heap, s.nextSerial);
    assert forall i :: 1 <= i < |s.ring| ==> Apart(s.ring[i], s.ring[0]);
    StaysExited(s, ticks, s.ring[0].serial);
    YieldKeepsGone(u, s.ring[0].serial);
    YieldKeepsInv(u);
    if !Yield(u).halted { GoneForGood(Yield(u), later, s.ring[0].serial); }
  }

  lemma {:induction false} StaysExited(s: Sched, steps: seq<Step>, t: nat)
    requires Inv(s) && Runs(s, steps) && Exited(s, t)
    ensures Exited(Run(s, steps), t)
    decreases |steps|
  {
    if steps != [] {
      StepKeepsInv(s, steps[0]);
      StepKeepsGone(s, steps[0], t);
      StaysExited(Apply(s, steps[0]), steps[1..], t);
    }
  }

  // ---- conservation of memory ----

  /** Live allocations that belong to no task. */
  function Others(s: Sched): set<nat> {
    s.heap - OwnedByAll(s.ring)
  }

  /** What a step makes of the allocations of others: only they themselves and the hand-over of an image change them. */
  function OthersAfter(others: set<nat>, step: Step): set<nat> {
    match step
    case CreateUserStep(_, _, _, _, image) => if Creates(step) then others - {image} else others
    case AllocStep(a) => others + ({a} - {0})
    case FreeStep(a) => others - {a}
    case _ => others
  }

  function OthersAfterAll(others: set<nat>, steps: seq<Step>): set<nat>
    decreases |steps|
  {
    if steps == [] then others else OthersAfterAll(OthersAfter(others, steps[0]), steps[1..])
  }

  lemma {:induction false} OwnedInserted(a: Task, t: Task, rest: seq<Task>)
    ensures OwnedByAll([a, t] + rest) == OwnedByAll([a] + rest) + Owned(t)
  {
    OwnedByAllSplit([a, t] + rest);
    assert ([a, t] + rest)[1..] == [t] + rest;
    OwnedByAllSplit([t] + rest);
    assert ([t] + rest)[1..] == rest;
    OwnedByAllSplit([a] + rest);
    assert ([a] + rest)[1..] == rest;
  }

  /** The same owners in another order own the same. */
  lemma {:induction false} OwnedRotated(a: Task, rest: seq<Task>, a': Task)
    requires Owned(a') == Owned(a)
    ensures OwnedByAll(rest + [a']) == OwnedByAll([a] + rest)
  {
    forall x | x in OwnedByAll(rest + [a']) ensures x in OwnedByAll([a] + rest) {
      var i :| 0 <= i < |rest + [a']| && x in Owned((rest + [a'])[i]);
      assert x in Owned(([a] + rest)[if i == |rest| then 0 else i + 1]);
    }
    forall x | x in OwnedByAll([a] + rest) ensures x in OwnedByAll(rest + [a']) {
      var i :| 0 <= i < |[a] + rest| && x in Owned(([a] + rest)[i]);
      assert x in Owned((rest + [a'])[if i == 0 then |rest| else i - 1]);
    }
  }

  lemma {:induction false} OwnedHead(a: Task, a': Task, rest: seq<Task>)
    requires Owned(a') == Owned(a)
    ensures OwnedByAll([a'] + rest) == OwnedByAll([a] + rest)
  {
    OwnedByAllSplit([a'] + rest);
    OwnedByAllSplit([a] + rest);
    assert ([a'] + rest)[1..] == rest && ([a] + rest)[1..] == rest;
  }

  /** Dropping a middle piece drops what it owns. */
  lemma {:induction false} OwnedSplit(a: Task, mid: seq<Task>, rest: seq<Task>)
    ensures OwnedByAll([a] + mid + rest) == OwnedByAll([a] + rest) + OwnedByAll(mid)
    decreases |mid|
  {
    if mid == [] {
      assert [a] + mid + rest == [a] + rest;
      assert OwnedByAll(mid) == {};
    } else {
      assert [a] + mid + rest == [a, mid[0]] + (mid[1..] + rest);
      OwnedInserted(a, mid[0], mid[1..] + rest);
      assert [a] + (mid[1..] + rest) == [a] + mid[1..] + rest;
      OwnedSplit(a, mid[1..], rest);
      OwnedByAllSplit(mid);
    }
  }

  lemma {:induction false} SwitchOwns(s: Sched)
    requires |s.ring| > 1
    ensures OwnedByAll(Switch(s).ring) == OwnedByAll(s.ring)
  {
    var n := Started(s.ring[1]);
    OwnedRotated(s.ring[0], [n] + s.ring[2..], Stopped(s.ring[0]));
    assert [s.ring[0]] + ([n] + s.ring[2..]) == [s.ring[0], n] + s.ring[2..];
    OwnedInserted(s.ring[0], n, s.ring[2..]);
    OwnedInserted(s.ring[0], s.ring[1], s.ring[2..]);
    assert [s.ring[0], s.ring[1]] + s.ring[2..] == s.ring;
  }

  lemma {:induction false} DroppedApart(s: Sched)
    requires Inv(s)
    ensures OwnedByAll(Kept(s)) !! OwnedByAll(Dropped(s))
    ensures OwnedByAll(s.ring) == OwnedByAll(Kept(s)) + OwnedByAll(Dropped(s))
  {
    forall a | a in OwnedByAll(Kept(s)) ensures a !in OwnedByAll(Dropped(s)) {
      var i :| 0 <= i < |Kept(s)| && a in Owned(Kept(s)[i]);
      KeptApart(s, i);
    }
    var k := Leading(s.ring[1..]);
    OwnedSplit(s.ring[0], Dropped(s), s.ring[1 + k..]);
    assert [s.ring[0]] + Dropped(s) + s.ring[1 + k..] == s.ring;
  }

  lemma {:induction false} YieldConserves(s: Sched)
    requires Inv(s)
    ensures Others(Yield(s)) == Others(s)
  {
    PickNextFrees(s);
    DroppedApart(s);
    var p := PickNext(s);
    assert Others(p) == Others(s);
    if |p.ring| > 1 { SwitchOwns(p); }
  }

  lemma {:induction false} TimerConserves(s: Sched)
    requires Inv(s)
    ensures Others(TimerIrq(s)) == Others(s)
  {
    assert TaskOk(s.ring[0], s.heap, s.nextSerial);
    HeadKeepsInv(s, Charged(s.ring[0]), Tick(s));
    OwnedHead(s.ring[0], Charged(s.ring[0]), s.ring[1..]);
    assert [s.ring[0]] + s.ring[1..] == s.ring;
    var c := Tick(s).(needResched := false);
    assert Others(c) == Others(s);
    if Tick(s).needResched { YieldConserves(c); }
  }

  lemma {:induction false} CreateConserves(s: Sched, step: Step)
    requires Inv(s) && Enabled(s, step) && Creates(step)
    ensures Others(Apply(s, step)) == OthersAfter(Others(s), step)
  {
    var s' := Apply(s, step);
    OwnedIsLive(s.ring, s.heap, s.nextSerial);
    OwnedInserted(s.ring[0], s'.ring[1], s.ring[1..]);
    assert [s.ring[0]] + s.ring[1..] == s.ring;
    assert s'.ring == [s.ring[0], s'.ring[1]] + s.ring[1..];
  }

  /**
   * Nothing leaks and nothing is freed that a task or anyone else still owns: memory of others changes only by their
   * own doing.
   */
  lemma {:induction false} StepConserves(s: Sched, step: Step)
    requires Inv(s) && Enabled(s, step)
    ensures Others(Apply(s, step)) == OthersAfter(Others(s), step)
  {
    match step
    case YieldStep => YieldConserves(s);
    case TickStep => TimerConserves(s);
    case CreateStep(_, _, _) =>
      if Creates(step) { CreateConserves(s, step); } else { FailedCreateChangesNothing(s, step); }
    case CreateUserStep(_, _, _, _, _) =>
      if Creates(step) { CreateConserves(s, step); } else { FailedCreateChangesNothing(s, step); }
    case ExitStep =>
      OwnedHead(s.ring[0], s.ring[0].(state := Zombie), s.ring[1..]);
      assert [s.ring[0]] + s.ring[1..] == s.ring;
    case AllocStep(a) => OwnedIsLive(s.ring, s.heap, s.nextSerial);
    case FreeStep(a) =>
  }

  /** After any run, what is allocated is what the steps of others leave them, and what the tasks in the ring own. */
  lemma {:induction false} RunConserves(s: Sched, steps: seq<Step>)
    requires Inv(s) && Runs(s, steps)
    ensures Others(Run(s, steps)) == OthersAfterAll(Others(s), steps)
    ensures Run(s, steps).heap == OthersAfterAll(Others(s), steps) + OwnedByAll(Run(s, steps).ring)
    decreases |steps|
  {
    hide Others, OwnedByAll;
    if steps == [] {
      HeapSplits(s);
    } else {
      StepKeepsInv(s, steps[0]);
      StepConserves(s, steps[0]);
      RunConserves(Apply(s, steps[0]), steps[1..]);
    }
  }

  lemma {:induction false} HeapSplits(s: Sched)
    requires Inv(s)
    ensures s.heap == Others(s) + OwnedByAll(s.ring)
  {
    OwnedIsLive(s.ring, s.heap, s.nextSerial);
  }

  // ---- bounded waiting ----

  /** The task is live and not current. */
  ghost predicate Waiting(s: Sched, t: nat) {
    exists i :: 1 <= i < |s.ring| && s.ring[i].serial == t && s.ring[i].state != Zombie
  }

  /** Live tasks up to and including t. */
  function LiveUpTo(ts: seq<Task>, t: nat): nat
    decreases |ts|
  {
    if ts == [] then 0
    else (if ts[0].state == Zombie then 0 else 1) + (if ts[0].serial == t then 0 else LiveUpTo(ts[1..], t))
  }

  /** How many live tasks away t is. */
  function Distance(s: Sched, t: nat): nat {
    if s.ring == [] then 0 else LiveUpTo(s.ring[1..], t)
  }

  lemma {:induction false} LiveSkip(ts: seq<Task>, k: nat, t: nat)
    requires k <= |ts| && forall i :: 0 <= i < k ==> ts[i].state == Zombie && ts[i].serial != t
    ensures LiveUpTo(ts, t) == LiveUpTo(ts[k..], t)
    decreases k
  {
    if k > 0 {
      LiveSkip(ts[1..], k - 1, t);
      assert ts[1..][k - 1..] == ts[k..];
    } else {
      assert ts[0..] == ts;
    }
  }

  lemma {:induction false} LiveAppend(ts: seq<Task>, u: Task, t: nat, j: nat)
    requires j < |ts| && ts[j].serial == t
    ensures LiveUpTo(ts + [u], t) == LiveUpTo(ts, t)
    decreases |ts|
  {
    assert (ts + [u])[1..] == ts[1..] + [u];
    if ts[0].serial != t { LiveAppend(ts[1..], u, t, j - 1); }
  }

  lemma {:induction false} LivePositive(ts: seq<Task>, t: nat, j: nat)
    requires j < |ts| && ts[j].serial == t && ts[j].state != Zombie && forall i :: 0 <= i < j ==> ts[i].serial != t
    ensures LiveUpTo(ts, t) >= 1
    decreases |ts|
  {
    if j > 0 { LivePositive(ts[1..], t, j - 1); }
  }

  /** Rotating to the nearest live task brings t exactly one closer. */
  lemma {:induction false} RotatedApproaches(ring: seq<Task>, k: nat, t: nat, j: nat)
    requires 1 + k <= j < |ring| && ring[j].serial == t
    requires forall i :: 0 <= i < |ring| && i != j ==> ring[i].serial != t
    requires forall i :: 1 <= i < 1 + k ==> ring[i].state == Zombie
    requires ring[1 + k].state != Zombie
    ensures LiveUpTo(ring[1..], t) == if j == 1 + k then 1 else LiveUpTo(Rotated(ring, k)[1..], t) + 1
  {
    LiveSkip(ring[1..], k, t);
    var rest := ring[2 + k..];
    assert ring[1..][k..] == [ring[1 + k]] + rest;
    assert ([ring[1 + k]] + rest)[1..] == rest;
    assert Rotated(ring, k)[1..] == rest + [Stopped(ring[0])];
    if j > 1 + k {
      assert rest[j - 2 - k] == ring[j];
      LiveAppend(rest, Stopped(ring[0]), t, j - 2 - k);
    }
  }

  lemma {:induction false} SerialsDiffer(s: Sched, j: nat)
    requires Inv(s) && j < |s.ring|
    ensures forall i :: 0 <= i < |s.ring| && i != j ==> s.ring[i].serial != s.ring[j].serial
  {
    forall i | 0 <= i < |s.ring| && i != j
      ensures s.ring[i].serial != s.ring[j].serial
    {
      assert Apart(s.ring[i], s.ring[j]);
    }
  }

  /** Where the tasks of a rotated ring come from. */
  lemma {:induction false} RotatedAt(ring: seq<Task>, k: nat)
    requires 1 + k < |ring|
    ensures var r := Rotated(ring, k);
            && |r| == |ring| - k && r[0] == Started(ring[1 + k]) && r[|r| - 1] == Stopped(ring[0])
            && forall i :: 1 <= i < |r| - 1 ==> r[i] == ring[i + 1 + k]
  {
  }

  /** A yield while t waits switches, and brings t exactly one closer. */
  lemma {:induction false} YieldApproaches(s: Sched, t: nat)
    requires Inv(s) && Waiting(s, t)
    ensures var s' := Yield(s);
            && s'.ring != [] && Current(s') != Current(s) && s'.ring[0].slice == TIME_SLICE && s'.halted == s.halted
            && (Current(s') == t <==> !Waiting(s', t))
            && (Waiting(s', t) ==> Distance(s', t) + 1 == Distance(s, t))
            && (!Waiting(s', t) ==> Distance(s, t) == 1)
  {
    hide RingOk, StackOk, OneRuns, OwnedByAll, Yield, Leading, LiveUpTo, Rotated;
    var k := Leading(s.ring[1..]);
    var j :| 1 <= j < |s.ring| && s.ring[j].serial == t && s.ring[j].state != Zombie;
    YieldRunsNearest(s);
    assert SomeoneElse(s);
    assert forall i :: 0 <= i < |s.ring| - 1 ==> s.ring[1..][i] == s.ring[i + 1];
    SerialsDiffer(s, j);
    SerialsDiffer(s, 0);
    RotatedApproaches(s.ring, k, t, j);
    RotatedAt(s.ring, k);
    var r := Yield(s).ring;
    if j > 1 + k { assert r[j - 1 - k] == s.ring[j]; }
  }

  /** Ticks left before a forced yield, counted up from the last switch. */
  function Used(s: Sched): nat {
    if s.ring == [] || s.ring[0].slice >= TIME_SLICE then 0
    else if s.ring[0].slice == 0 then TIME_SLICE - 1
    else TIME_SLICE - s.ring[0].slice
  }

  function Switched(s: Sched, s': Sched): nat {
    if Current(s) != Current(s') then 1 else 0
  }

  function Created(step: Step): nat { if Creates(step) then 1 else 0 }

  function Ticked(step: Step): nat { if step.TickStep? then 1 else 0 }

  /** One step: exact account of distance, and of ticks against switches. */
  ghost predicate Accounted(s: Sched, step: Step, s': Sched, t: nat) {
    && Switched(s, s') <= 1
    && (Current(s') == t <==> !Waiting(s', t))
    && (Waiting(s', t) ==> Distance(s', t) + Switched(s, s') == Distance(s, t) + Created(step))
    && Ticked(step) + Used(s) <= TIME_SLICE * Switched(s, s') + Used(s')
  }

  lemma {:induction false} YieldAccounts(s: Sched, t: nat)
    requires Inv(s) && Waiting(s, t)
    ensures Accounted(s, YieldStep, Yield(s), t)
  {
    YieldApproaches(s, t);
  }

  lemma {:induction false} WaitingTail(s: Sched, s': Sched, t: nat)
    requires s.ring != [] && s'.ring != [] && s'.ring[1..] == s.ring[1..]
    ensures (Waiting(s', t) <==> Waiting(s, t)) && Distance(s', t) == Distance(s, t)
  {
    assert forall i :: 1 <= i < |s.ring| ==> s.ring[i] == s.ring[1..][i - 1];
    assert forall i :: 1 <= i < |s'.ring| ==> s'.ring[i] == s'.ring[1..][i - 1];
    assert |s.ring| == |s.ring[1..]| + 1 && |s'.ring| == |s'.ring[1..]| + 1;
  }

  lemma {:induction false} WaiterIsNotCurrent(s: Sched, t: nat)
    requires Inv(s) && Waiting(s, t)
    ensures Current(s) != t
  {
    var j :| 1 <= j < |s.ring| && s.ring[j].serial == t && s.ring[j].state != Zombie;
    assert Apart(s.ring[0], s.ring[j]);
  }

  lemma {:induction false} TimerAccounts(s: Sched, t: nat)
    requires Inv(s) && Waiting(s, t)
    ensures Accounted(s, TickStep, TimerIrq(s), t)
  {
    assert TaskOk(s.ring[0], s.heap, s.nextSerial);
    HeadKeepsInv(s, Charged(s.ring[0]), Tick(s));
    var c := Tick(s).(needResched := false);
    assert c.ring[1..] == s.ring[1..];
    WaitingTail(s, c, t);
    WaiterIsNotCurrent(s, t);
    if Tick(s).needResched {
      YieldApproaches(c, t);
    } else {
      WaitingTail(s, Tick(s), t);
    }
  }

  lemma {:induction false} CreateAccounts(s: Sched, step: Step, t: nat)
    requires Inv(s) && Enabled(s, step) && Waiting(s, t) && Creates(step)
    ensures Accounted(s, step, Apply(s, step), t)
  {
    var s' := Apply(s, step);
    InsertedRing(s, step);
    WaiterIsNotCurrent(s, t);
    var j :| 1 <= j < |s.ring| && s.ring[j].serial == t && s.ring[j].state != Zombie;
    assert TaskOk(s.ring[j], s.heap, s.nextSerial);
    assert s'.ring[j + 1].serial == t;
    assert s'.ring[1..][1..] == s.ring[1..];
  }

  lemma {:induction false} StepAccounts(s: Sched, step: Step, t: nat)
    requires Inv(s) && Enabled(s, step) && Waiting(s, t)
    ensures Accounted(s, step, Apply(s, step), t)
  {
    WaiterIsNotCurrent(s, t);
    FailedCreateChangesNothing(s, step);
    if Creates(step) { CreateAccounts(s, step, t); }
    else if step.YieldStep? { YieldAccounts(s, t); }
    else if step.TickStep? { TimerAccounts(s, t); }
    else {
      assert Apply(s, step).ring[1..] == s.ring[1..];
      WaitingTail(s, Apply(s, step), t);
    }
  }

  /** t is not current in any state of the run, ends included. */
  ghost predicate NeverCurrent(s: Sched, steps: seq<Step>, t: nat)
    requires Runs(s, steps)
    decreases |steps|
  {
    && Current(s) != t
    && (steps == [] || NeverCurrent(Apply(s, steps[0]), steps[1..], t))
  }

  ghost function Switches(s: Sched, steps: seq<Step>): nat
    requires Runs(s, steps)
    decreases |steps|
  {
    if steps == [] then 0
    else Switched(s, Apply(s, steps[0])) + Switches(Apply(s, steps[0]), steps[1..])
  }

  function Creations(steps: seq<Step>): nat
    decreases |steps|
  {
    if steps == [] then 0 else Created(steps[0]) + Creations(steps[1..])
  }

  function Ticks(steps: seq<Step>): nat
    decreases |steps|
  {
    if steps == [] then 0 else Ticked(steps[0]) + Ticks(steps[1..])
  }

  /**
   * As long as t does not run it stays in the ring, and every switch but those paid for by a creation brings it closer.
   */
  lemma {:induction false} WaitingAccount(s: Sched, steps: seq<Step>, t: nat)
    requires Inv(s) && Runs(s, steps) && Waiting(s, t) && NeverCurrent(s, steps, t)
    ensures Waiting(Run(s, steps), t)
    ensures Distance(Run(s, steps), t) + Switches(s, steps) == Distance(s, t) + Creations(steps)
    ensures Ticks(steps) + Used(s) <= TIME_SLICE * Switches(s, steps) + Used(Run(s, steps))
    decreases |steps|
  {
    if steps != [] {
      var s' := Apply(s, steps[0]);
      StepKeepsInv(s, steps[0]);
      StepAccounts(s, steps[0], t);
      WaitingAccount(s', steps[1..], t);
    }
  }

  /**
   * Bounded waiting: a live task runs within as many switches as live tasks are ahead and created meanwhile, hence
   * within 5 ticks for each.
   */
  lemma {:induction false} BoundedWaiting(s: Sched, steps: seq<Step>, t: nat)
    requires Inv(s) && Runs(s, steps) && Waiting(s, t)
    requires || Switches(s, steps) >= Distance(s, t) + Creations(steps)
             || Ticks(steps) >= TIME_SLICE * (Distance(s, t) + Creations(steps))
    ensures !NeverCurrent(s, steps, t)
  {
    if NeverCurrent(s, steps, t) {
      WaitingAccount(s, steps, t);
      var f := Run(s, steps);
      var j :| 1 <= j < |f.ring| && f.ring[j].serial == t && f.ring[j].state != Zombie;
      RunKeepsInv(s, steps);
      forall i | 1 <= i < |f.ring| && i != j ensures f.ring[i].serial != t { assert Apart(f.ring[i], f.ring[j]); }
      LivePositive(f.ring[1..], t, j - 1);
      assert false;
    }
  }

  // ---- before tasking starts ----

  /** Before tasking starts: no task, and the kernel stack pointer as the task state segment is set up. */
  predicate Idle(s: Sched) {
    s.ring == [] && s.esp0 == 0 && !s.panicked && 0 !in s.heap
  }

  /**
   * Creating a task, of either kind, gives a good state exactly if tasking has started: the first task of all becomes
   * current without a switch, so it is not running and nothing loads its kernel stack.
   */
  lemma {:induction false} CreateNeedsTasking(s: Sched, step: Step)
    requires (Inv(s) || Idle(s)) && Allowed(s, step) && Creates(step)
    ensures Inv(Apply(s, step)) <==> s.ring != []
    ensures StackOk(Apply(s, step)) <==> s.ring != []
  {
    if s.ring != [] {
      CreateKeepsInv(s, step);
    } else {
      assert Apply(s, step).ring[0].state == Ready;
    }
  }

  /** So the first task of all, if it is a user task, runs with the kernel stack pointer left at 0. */
  lemma {:induction false} FirstUserTaskHasNoStack()
    ensures var s := Sched([], {}, 0, false, 0, false, false);
            var s' := CreateUser(s, "init", 0x10_0000, 0x11_0000, 0x12_0000, 0);
            Idle(s) && |s'.ring| == 1 && s'.ring[0].user && !StackOk(s')
  {
    CreateNeedsTasking(Sched([], {}, 0, false, 0, false, false),
                       CreateUserStep("init", 0x10_0000, 0x11_0000, 0x12_0000, 0));
  }
}
