/** Time slices: how long a task runs undisturbed, and that tasks that only run take exact turns. */
module SchedulerSlices {
  import opened Scheduler
  import opened SchedulerRuns

  // ---- one timer interrupt ----

  /** The current task after one more tick, without a switch. */
  function Ticked(t: Task): Task {
    t.(ticks := (t.ticks + 1) % 0x1_0000_0000, slice := if t.slice > 0 then t.slice - 1 else 0)
  }

  /** What a timer interrupt does: nothing but accounting while the slice lasts, a yield when it is used up. */
  lemma {:induction false} TimerIrqIs(s: Sched)
    requires s.ring != []
    ensures var t := s.(ring := [Ticked(s.ring[0])] + s.ring[1..]);
            TimerIrq(s) == if s.needResched || s.ring[0].slice <= 1 then Yield(t.(needResched := false)) else t
  {
    hide Yield;
  }

  lemma {:induction false} TickedKeepsInv(s: Sched)
    requires Inv(s)
    ensures var t := s.(ring := [Ticked(s.ring[0])] + s.ring[1..], needResched := false);
            Inv(t) && (SomeoneElse(t) <==> SomeoneElse(s)) && t.ring[1..] == s.ring[1..]
  {
    hide RingOk, Apart;
    var t := s.(ring := [Ticked(s.ring[0])] + s.ring[1..], needResched := false);
    assert TaskOk(s.ring[0], s.heap, s.nextSerial) by { HeadIsOk(s); }
    HeadKeepsInv(s, Ticked(s.ring[0]), t);
    assert forall i :: 1 <= i < |s.ring| ==> t.ring[i] == s.ring[i];
  }

  lemma {:induction false} HeadIsOk(s: Sched)
    requires Inv(s)
    ensures TaskOk(s.ring[0], s.heap, s.nextSerial)
  {
  }

  /**
   * While another task is live, a timer interrupt switches exactly if a switch is pending or the slice is at its end.
   */
  lemma {:induction false} TickSwitchesIff(s: Sched)
    requires Inv(s)
    ensures SomeoneElse(s) ==> (Current(TimerIrq(s)) != Current(s) <==> s.needResched || s.ring[0].slice <= 1)
    ensures !SomeoneElse(s) ==> Current(TimerIrq(s)) == Current(s)
  {
    hide Inv, Yield, TimerIrq, Leading;
    RingNotEmpty(s);
    TimerIrqIs(s);
    var t := s.(ring := [Ticked(s.ring[0])] + s.ring[1..], needResched := false);
    TickedKeepsInv(s);
    RingNotEmpty(t);
    YieldRunsNearest(t);
    if SomeoneElse(s) {
      var k := Leading(t.ring[1..]);
      OthersDiffer(t, 1 + k);
    }
  }

  lemma {:induction false} RingNotEmpty(s: Sched)
    requires Inv(s)
    ensures s.ring != []
  {
  }

  lemma {:induction false} OthersDiffer(s: Sched, i: nat)
    requires Inv(s) && 1 <= i < |s.ring|
    ensures s.ring[i].serial != s.ring[0].serial
  {
    assert Apart(s.ring[i], s.ring[0]);
  }

  // ---- a slice ----

  /** k timer interrupts, and nothing else. */
  ghost function AfterTicks(s: Sched, k: nat): Sched { if k == 0 then s else TimerIrq(AfterTicks(s, k - 1)) }

  lemma {:induction false} AfterTicksSplit(s: Sched, j: nat, k: nat)
    ensures AfterTicks(s, j + k) == AfterTicks(AfterTicks(s, j), k)
    decreases k
  {
    hide TimerIrq;
    if k > 0 { AfterTicksSplit(s, j, k - 1); }
  }

  /** The current task after k ticks of its slice. */
  function Spent(t: Task, k: nat): Task
    requires k <= t.slice
  {
    if k == 0 then t else t.(ticks := (t.ticks + k) % 0x1_0000_0000, slice := t.slice - k)
  }

  lemma {:induction false} SpentStep(t: Task, k: nat)
    requires k < t.slice
    ensures Ticked(Spent(t, k)) == Spent(t, k + 1)
  {
  }

  /** As long as its slice lasts, a task stays current, with that much less of it left, and nothing else changes. */
  lemma {:induction false} SliceLasts(s: Sched, k: nat)
    requires s.ring != [] && !s.needResched && k < s.ring[0].slice
    ensures AfterTicks(s, k) == s.(ring := [Spent(s.ring[0], k)] + s.ring[1..])
    decreases k
  {
    hide Yield, TimerIrq;
    if k == 0 {
      assert [s.ring[0]] + s.ring[1..] == s.ring;
    } else {
      SliceLasts(s, k - 1);
      SpentStep(s.ring[0], k - 1);
      var t := AfterTicks(s, k - 1);
      TimerIrqIs(t);
      assert t.ring[1..] == s.ring[1..];
    }
  }

  /**
   * The tick that uses up the slice switches exactly if another task is live. The nearest one then runs, with a full
   * slice of five ticks; the one before is behind all others, ready unless it has exited, with a full slice to come.
   */
  lemma {:induction false} SliceEnds(s: Sched)
    requires Inv(s) && !s.needResched && s.ring[0].slice > 0
    ensures var n, k := s.ring[0].slice, Leading(s.ring[1..]);
            var t := AfterTicks(s, n);
            && (Current(t) != Current(s) <==> SomeoneElse(s)) && !t.needResched && Inv(t)
            && (SomeoneElse(s) ==>
                  && 1 + k < |s.ring| && t.halted == s.halted
                  && t.ring == [s.ring[1 + k].(state := Running, slice := 5)] + s.ring[2 + k..]
                               + [Spent(s.ring[0], n).(state := if s.ring[0].state == Zombie then Zombie else Ready,
                                                       slice := 5)])
  {
    hide Inv, Yield, AfterTicks, Leading, SomeoneElse, Spent;
    RingNotEmpty(s);
    var n := s.ring[0].slice;
    var t := s.(ring := [Spent(s.ring[0], n)] + s.ring[1..]);
    LastTickYields(s);
    SpentKeepsInv(s, n);
    YieldRunsNearest(t);
    YieldKeepsInv(t);
    YieldKeepsFlag(t);
    assert t.ring[1..] == s.ring[1..];
    SpentIs(s.ring[0], n);
    if SomeoneElse(s) {
      var k := Leading(s.ring[1..]);
      OthersDiffer(t, 1 + k);
      assert t.ring[1 + k] == s.ring[1 + k] && t.ring[2 + k..] == s.ring[2 + k..];
      HeadIsRunning(s);
    }
  }

  lemma {:induction false} SpentIs(t: Task, k: nat)
    requires k <= t.slice
    ensures Spent(t, k).serial == t.serial && Spent(t, k).state == t.state
  {
  }

  lemma {:induction false} LastTickYields(s: Sched)
    requires s.ring != [] && !s.needResched && s.ring[0].slice > 0
    ensures var n := s.ring[0].slice; AfterTicks(s, n) == Yield(s.(ring := [Spent(s.ring[0], n)] + s.ring[1..]))
  {
    hide Yield, TimerIrq;
    var n := s.ring[0].slice;
    SliceLasts(s, n - 1);
    SpentStep(s.ring[0], n - 1);
    var u := AfterTicks(s, n - 1);
    TimerIrqIs(u);
    assert u.ring[1..] == s.ring[1..];
  }

  lemma {:induction false} HeadIsRunning(s: Sched)
    requires Inv(s)
    ensures s.ring != [] && s.ring[0].state != Ready
  {
  }

  lemma {:induction false} SpentKeepsInv(s: Sched, n: nat)
    requires Inv(s) && n <= s.ring[0].slice
    ensures var t := s.(ring := [Spent(s.ring[0], n)] + s.ring[1..]);
            Inv(t) && (SomeoneElse(t) <==> SomeoneElse(s))
  {
    hide RingOk, Apart;
    var t := s.(ring := [Spent(s.ring[0], n)] + s.ring[1..]);
    HeadIsOk(s);
    HeadKeepsInv(s, Spent(s.ring[0], n), t);
    assert forall i :: 1 <= i < |s.ring| ==> t.ring[i] == s.ring[i];
  }

  lemma {:induction false} YieldKeepsFlag(s: Sched)
    requires Inv(s)
    ensures Yield(s).needResched == s.needResched
  {
    PickNextFrees(s);
  }

  // ---- turns ----

  /** All tasks are live, and the current one has its whole slice ahead. */
  ghost predicate Fresh(s: Sched) {
    && Inv(s) && !s.needResched && |s.ring| > 1 && s.ring[0].slice == 5
    && forall i :: 0 <= i < |s.ring| ==> s.ring[i].state != Zombie
  }

  /** A task that has had one whole turn. */
  function Served(t: Task): Task { t.(state := Ready, ticks := (t.ticks + 5) % 0x1_0000_0000, slice := 5) }

  /** After five ticks the next task runs, and the one before is last. */
  lemma {:induction false} OneTurn(s: Sched)
    requires Fresh(s)
    ensures var t := AfterTicks(s, 5);
            Fresh(t) && t.ring == [s.ring[1].(state := Running)] + s.ring[2..] + [Served(s.ring[0])]
  {
    hide RingOk, StackOk, AfterTicks;
    assert s.ring[1..][0] == s.ring[1];
    assert SomeoneElse(s) by { assert s.ring[1].state != Zombie; }
    SliceEnds(s);
    var t := AfterTicks(s, 5);
    forall i | 0 <= i < |t.ring| ensures t.ring[i].state != Zombie {
      if 0 < i < |t.ring| - 1 { assert t.ring[i] == s.ring[i + 1]; }
    }
  }

  /** The ring of s after j turns: the tasks not yet served, then those served, in their order. */
  ghost predicate Turned(s: Sched, t: Sched, j: nat)
    requires j < |s.ring|
  {
    && Fresh(t) && |t.ring| == |s.ring|
    && (forall i :: 0 < i < |s.ring| - j ==> t.ring[i] == s.ring[j + i])
    && t.ring[0] == s.ring[j].(state := Running)
    && (forall i :: |s.ring| - j <= i < |s.ring| ==> t.ring[i] == Served(s.ring[i - (|s.ring| - j)]))
  }

  lemma {:induction false} TurnsTaken(s: Sched, j: nat)
    requires Fresh(s) && j < |s.ring|
    ensures Turned(s, AfterTicks(s, 5 * j), j)
    decreases j
  {
    hide AfterTicks, Inv;
    if j == 0 {
      assert AfterTicks(s, 0) == s by { NoTicks(s); }
      HeadRuns(s);
    } else {
      TurnsTaken(s, j - 1);
      var t := AfterTicks(s, 5 * (j - 1));
      AfterTicksSplit(s, 5 * (j - 1), 5);
      OneTurn(t);
      assert Served(t.ring[0]) == Served(s.ring[j - 1]);
    }
  }

  lemma {:induction false} NoTicks(s: Sched)
    ensures AfterTicks(s, 0) == s
  {
  }

  lemma {:induction false} HeadRuns(s: Sched)
    requires Fresh(s)
    ensures s.ring[0].state == Running && s.ring[0] == s.ring[0].(state := Running)
  {
  }

  /**
   * Fairness, exactly: while n live tasks only run, 5 n timer interrupts give each of them five ticks and come back to
   * the same ring.
   */
  lemma {:induction false} RoundIsFair(s: Sched)
    requires Fresh(s)
    ensures var t := AfterTicks(s, 5 * |s.ring|);
            && Fresh(t) && |t.ring| == |s.ring| && Current(t) == Current(s)
            && forall i :: 0 <= i < |s.ring| ==>
                 t.ring[i] == s.ring[i].(ticks := (s.ring[i].ticks + 5) % 0x1_0000_0000)
  {
    hide AfterTicks, Inv;
    var n := |s.ring|;
    TurnsTaken(s, n - 1);
    var u := AfterTicks(s, 5 * (n - 1));
    AfterTicksSplit(s, 5 * (n - 1), 5);
    OneTurn(u);
    HeadRuns(s);
    WaitingIsFull(s);
    assert Served(u.ring[0]) == Served(s.ring[n - 1]);
  }

  lemma {:induction false} WaitingIsFull(s: Sched)
    requires Fresh(s)
    ensures forall i :: 1 <= i < |s.ring| ==> s.ring[i].state == Ready && s.ring[i].slice == 5
  {
  }

  // ---- new tasks ----

  /** The first 15 characters of a name. */
  function Shortened(name: string): string { if |name| <= 15 then name else name[..15] }

  /**
   * A task that is created is put right behind the current one, ready, with a stack of 16 KB, a full slice and no
   * ticks.
   * It owns what has been allocated for it.
   */
  lemma {:induction false} CreatedTask(s: Sched, name: string, addr: nat, stack: nat, userStack: nat, image: nat)
    requires s.ring != [] && addr != 0 && stack != 0 && userStack != 0
    ensures var t := Task(s.nextSerial, Shortened(name), Ready, addr, stack, stack + 0x4000, false, 0, 0, 0, 5);
            Create(s, name, addr, stack) ==
            s.(ring := [s.ring[0], t] + s.ring[1..], heap := s.heap + {addr, stack}, nextSerial := s.nextSerial + 1)
    ensures var t := Task(s.nextSerial, Shortened(name), Ready, addr, stack, stack + 0x4000, true, userStack, image, 0,
                          5);
            CreateUser(s, name, addr, stack, userStack, image) ==
            s.(ring := [s.ring[0], t] + s.ring[1..], heap := s.heap + {addr, stack, userStack},
               nextSerial := s.nextSerial + 1)
  {
    assert s.heap + {addr} + {stack} == s.heap + {addr, stack};
    assert s.heap + {addr} + {stack} + {userStack} == s.heap + {addr, stack, userStack};
  }

  /** The task tasking starts with: the boot flow itself, running, with no stack of its own. */
  lemma {:induction false} FirstTask(s: Sched, addr: nat)
    requires addr != 0
    ensures Init(s, addr) ==
            s.(ring := [Task(s.nextSerial, "boot", Running, addr, 0, 0, false, 0, 0, 0, 5)], heap := s.heap + {addr},
               nextSerial := s.nextSerial + 1)
  {
  }

  /** So it is the next to run. */
  lemma {:induction false} CreatedRunsNext(s: Sched, name: string, addr: nat, stack: nat)
    requires Inv(s) && Allowed(s, CreateStep(name, addr, stack)) && addr != 0 && stack != 0
    ensures Current(Yield(Create(s, name, addr, stack))) == s.nextSerial
  {
    hide Inv, Yield;
    RingNotEmpty(s);
    CreatedTask(s, name, addr, stack, 1, 0);
    hide Create;
    var t := Create(s, name, addr, stack);
    assert Inv(t) by { CreateKeepsInv(s, CreateStep(name, addr, stack)); }
    YieldRunsNearest(t);
    assert t.ring[1..][0] == t.ring[1];
  }

  /** Freeing: null is ignored, what is allocated is given back, anything else panics. */
  lemma {:induction false} FreeingLaw(s: Sched, a: nat)
    ensures KFree(s, a).panicked <==> s.panicked || (a != 0 && a !in s.heap)
    ensures KFree(s, a).heap == s.heap - if a == 0 then {} else {a}
  {
  }
}
