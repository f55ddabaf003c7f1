/**
 * The scheduler's own data: task nodes linked into a ring edited in place, each method tied to its operation on values.
 */
module TaskRing {
  import opened Scheduler

  class TaskNode {
    const addr: nat
    ghost const serial: nat
    const id: nat
    const name: string
    const stackBase: nat
    const kernelStackTop: nat
    const isUser: bool
    const userStackBase: nat
    const image: nat
    var state: TaskState
    var ticksRun: nat
    var sliceLeft: nat
    var next: TaskNode?

    ghost function Value(): Task
      reads this`state, this`ticksRun, this`sliceLeft
    {
      Task(serial, name, state, addr, stackBase, kernelStackTop, isUser, userStackBase, image, ticksRun, sliceLeft)
    }

    constructor (ghost serial: nat, id: nat, name: string, state: TaskState, addr: nat, stackBase: nat, top: nat,
                 isUser: bool, userStackBase: nat, image: nat)
      ensures Value() == Task(serial, Truncated(name), state, addr, stackBase, top, isUser, userStackBase, image, 0,
                              TIME_SLICE)
      ensures this.id == id && next == null
    {
      this.serial, this.id, this.name, this.state, this.addr := serial, id, Truncated(name), state, addr;
      this.stackBase, this.kernelStackTop, this.isUser := stackBase, top, isUser;
      this.userStackBase, this.image := userStackBase, image;
      this.ticksRun, this.sliceLeft, this.next := 0, TIME_SLICE, null;
    }
  }

  /** What a listing shows of a task. */
  datatype TaskInfo = TaskInfo(id: nat, name: string, state: TaskState, ticks: nat, isCurrent: bool)

  function InfoOf(ring: seq<Task>, i: nat): TaskInfo
    requires i < |ring|
  {
    TaskInfo(ring[i].serial % WORD, ring[i].name, ring[i].state, ring[i].ticks, i == 0)
  }

  /** The nodes hold these values. */
  ghost predicate Holds(ts: seq<TaskNode>, vs: seq<Task>)
    reads ts`state, ts`ticksRun, ts`sliceLeft
  {
    |vs| == |ts| && forall i :: 0 <= i < |ts| ==> ts[i].Value() == vs[i]
  }

  /** Each node links to the one after it, the last to the first, and no node occurs twice. */
  ghost predicate Cyclic(ts: seq<TaskNode>)
    reads ts`next
  {
    && (forall i :: 0 <= i < |ts| ==> Linked(ts, i))
    && (forall i, j :: 0 <= i < j < |ts| ==> ts[i] != ts[j])
  }

  lemma {:induction false} HeadApart(ts: seq<TaskNode>)
    requires Cyclic(ts) && ts != []
    ensures forall i :: 0 < i < |ts| ==> ts[i] != ts[0]
  {
  }

  ghost predicate Linked(ts: seq<TaskNode>, i: nat)
    requires i < |ts|
    reads ts`next
  {
    ts[i].next == ts[Succ(ts, i)] && ts[i].id == ts[i].serial % WORD
  }

  function Succ(ts: seq<TaskNode>, i: nat): (j: nat)
    requires i < |ts|
    ensures j < |ts|
  {
    if i + 1 == |ts| then 0 else i + 1
  }

  // ---- the picking loop, one round at a time ----

  lemma {:induction false} ReapLeavesRing(s: Sched, t: Task, ring: seq<Task>)
    ensures Reap(s.(ring := ring), t) == Reap(s, t).(ring := ring)
  {
    var s1 := KFree(s, t.image);
    assert KFree(s.(ring := ring), t.image) == s1.(ring := ring);
    var s2 := KFree(s1, t.stack);
    assert KFree(s1.(ring := ring), t.stack) == s2.(ring := ring);
    var s3 := KFree(s2, t.userStack);
    assert KFree(s2.(ring := ring), t.userStack) == s3.(ring := ring);
  }

  lemma {:induction false} KFreeNull(s: Sched)
    ensures KFree(s, 0) == s
  {
  }

  /** The task behind the current one unlinked and reaped. */
  function Unlinked(s: Sched): Sched
    requires |s.ring| > 1
  {
    Reap(s.(ring := [s.ring[0]] + s.ring[2..]), s.ring[1])
  }

  lemma {:induction false} UnlinkedIs(s: Sched)
    requires |s.ring| > 1
    ensures Unlinked(s) == Reap(s.(ring := [s.ring[0]] + s.ring[2..]), s.ring[1])
  {
  }

  /** Reaping the zombie behind the current task does not change what PickNext will come to. */
  lemma {:induction false} PickRound(s: Sched)
    requires |s.ring| > 1 && s.ring[1].state == Zombie
    ensures PickNext(s) == PickNext(Unlinked(s))
  {
    var k := Leading(s.ring[1..]);
    var r := [s.ring[0]] + s.ring[2..];
    hide Reap, Unlinked;
    assert Unlinked(s) == Reap(s.(ring := r), s.ring[1]) by { UnlinkedIs(s); }
    assert s.ring[1..][1..] == s.ring[2..] == r[1..];
    var kept := [s.ring[0]] + s.ring[1 + k..];
    assert kept == [r[0]] + r[1 + (k - 1)..];
    var dead := s.ring[1..1 + k];
    assert dead[1..] == r[1..1 + (k - 1)];
    ReapLeavesRing(s, s.ring[1], r);
    ReapLeavesRing(s, s.ring[1], kept);
  }

  lemma {:induction false} PickDone(s: Sched)
    requires s.ring != [] && (|s.ring| > 1 ==> s.ring[1].state != Zombie)
    ensures PickNext(s) == s
  {
    assert s.ring[1..1] == [];
    assert [s.ring[0]] + s.ring[1..] == s.ring;
  }

  // ---- ring surgery ----

  /** Unlinking node k. */
  lemma {:induction false} UnlinkCyclic(ts: seq<TaskNode>, k: nat, us: seq<TaskNode>)
    requires 1 <= k < |ts| && us == ts[..k] + ts[k + 1..]
    requires forall i, j :: 0 <= i < j < |ts| ==> ts[i] != ts[j]
    requires forall i :: 0 <= i < |ts| && i != k - 1 ==> Linked(ts, i)
    requires ts[k - 1].next == ts[Succ(ts, k)] && ts[k - 1].id == ts[k - 1].serial % WORD
    ensures Cyclic(us)
  {
    forall i | 0 <= i < |us| ensures Linked(us, i) {
      var j := if i < k then i else i + 1;
      assert us[i] == ts[j];
      if j != k - 1 { assert Linked(ts, j); }
    }
  }

  /** Linking t in as node 1. */
  lemma {:induction false} InsertCyclic(ts: seq<TaskNode>, t: TaskNode, us: seq<TaskNode>)
    requires ts != [] && t !in ts && us == [ts[0], t] + ts[1..] && t.id == t.serial % WORD
    requires forall i, j :: 0 <= i < j < |ts| ==> ts[i] != ts[j]
    requires forall i :: 1 <= i < |ts| ==> Linked(ts, i)
    requires t.next == ts[Succ(ts, 0)] && ts[0].next == t && ts[0].id == ts[0].serial % WORD
    ensures Cyclic(us)
  {
    forall i | 0 <= i < |us| ensures Linked(us, i) {
      if i >= 2 { assert us[i] == ts[i - 1] && Linked(ts, i - 1); }
    }
    forall i, j | 0 <= i < j < |us| ensures us[i] != us[j] {
      assert i >= 2 ==> us[i] == ts[i - 1];
      assert j >= 2 ==> us[j] == ts[j - 1];
    }
  }

  lemma {:induction false} RotateCyclic(ts: seq<TaskNode>, us: seq<TaskNode>)
    requires Cyclic(ts) && ts != [] && us == ts[1..] + [ts[0]]
    ensures Cyclic(us)
  {
    forall i | 0 <= i < |us| ensures Linked(us, i) {
      assert us[i] == ts[Succ(ts, i)] && Linked(ts, Succ(ts, i));
    }
  }

  /** Only a lone node links to itself. */
  lemma {:induction false} HeadNext(ts: seq<TaskNode>)
    requires Cyclic(ts) && ts != []
    ensures ts[0].next == ts[Succ(ts, 0)] && (ts[0].next == ts[0] <==> |ts| == 1)
    ensures |ts| > 1 ==> ts[1].next == ts[Succ(ts, 1)]
  {
    assert Linked(ts, 0);
    if |ts| > 1 { assert Linked(ts, 1); }
  }

  lemma {:induction false} DistinctNodes(ts: seq<TaskNode>)
    requires Cyclic(ts)
    ensures forall i :: 1 <= i < |ts| ==> ts[i] != ts[0]
    ensures forall i :: 2 <= i < |ts| ==> ts[i] != ts[1]
  {
  }

  lemma {:induction false} HoldsEach(ts: seq<TaskNode>, vs: seq<Task>)
    requires Holds(ts, vs)
    ensures |vs| == |ts| && forall i :: 0 <= i < |ts| ==> ts[i].Value() == vs[i]
  {
  }

  lemma {:induction false} HeadValue(ts: seq<TaskNode>, vs: seq<Task>)
    requires Holds(ts, vs)
    ensures |vs| == |ts| && (ts != [] ==> ts[0].Value() == vs[0])
  {
  }

  lemma {:induction false} HoldsInserted(ts: seq<TaskNode>, vs: seq<Task>, t: TaskNode)
    requires Holds(ts, vs) && ts != []
    ensures |vs| == |ts| && Holds([ts[0], t] + ts[1..], [vs[0], t.Value()] + vs[1..])
  {
  }

  lemma {:induction false} HoldsUnlinked(ts: seq<TaskNode>, vs: seq<Task>, k: nat)
    requires Holds(ts, vs) && k < |ts|
    ensures |vs| == |ts| && Holds(ts[..k] + ts[k + 1..], vs[..k] + vs[k + 1..])
  {
  }

  lemma {:induction false} HoldsRotated(ts: seq<TaskNode>, vs: seq<Task>)
    requires |vs| == |ts| > 1 && ts[0].Value() == Stopped(vs[0]) && ts[1].Value() == Started(vs[1])
    requires forall i :: 2 <= i < |ts| ==> ts[i].Value() == vs[i]
    ensures Holds(ts[1..] + [ts[0]], [Started(vs[1])] + vs[2..] + [Stopped(vs[0])])
  {
    var us, ws := ts[1..] + [ts[0]], [Started(vs[1])] + vs[2..] + [Stopped(vs[0])];
    forall i | 0 <= i < |us| ensures us[i].Value() == ws[i] {
      if 0 < i < |us| - 1 { assert us[i] == ts[i + 1] && ws[i] == vs[i + 1]; }
    }
  }

  /** prev stops running and next starts, each with a full slice. */
  method Relabel(prev: TaskNode, next: TaskNode)
    requires prev != next
    modifies prev`state, prev`sliceLeft, next`state, next`sliceLeft
    ensures prev.Value() == Stopped(old(prev.Value())) && next.Value() == Started(old(next.Value()))
  {
    if prev.state == Running { prev.state := Ready; }
    next.state := Running;
    prev.sliceLeft := TIME_SLICE;
    next.sliceLeft := TIME_SLICE;
  }

  class TaskScheduler {
    var current: TaskNode?
    var active: bool
    var needResched: bool
    var nextId: nat
    var esp0: nat
    var halted: bool
    var panicked: bool
    /** The live allocations of the kernel heap. */
    var heap: set<nat>
    ghost var ring: seq<TaskNode>
    ghost var tasks: seq<Task>
    ghost var nextSerial: nat

    ghost predicate Valid()
      reads this, ring
    {
      && (active <==> ring != []) && (ring != [] ==> current == ring[0])
      && nextId == nextSerial % WORD && Cyclic(ring) && Holds(ring, tasks)
    }

    ghost function View(): Sched
      reads this
    {
      Sched(tasks, heap, esp0, needResched, nextSerial, halted, panicked)
    }

    constructor (heap: set<nat>)
      ensures Valid() && View() == Sched([], heap, 0, false, 0, false, false)
    {
      current, active, needResched, nextId, esp0, halted, panicked := null, false, false, 0, 0, false, false;
      this.heap, ring, tasks, nextSerial := heap, [], [], 0;
    }

    method Kmalloc(answer: nat)
      requires Valid()
      modifies this`heap
      ensures Valid() && View() == KAlloc(old(View()), answer)
    {
      if answer != 0 { heap := heap + {answer}; }
    }

    method Kfree(a: nat)
      requires Valid()
      modifies this`heap, this`panicked
      ensures Valid() && View() == KFree(old(View()), a)
    {
      if a == 0 { return; }
      if a in heap { heap := heap - {a}; } else { panicked := true; }
    }

    method ReadyInsertAfterCurrent(t: TaskNode)
      requires Valid() && active && t !in ring && t.id == t.serial % WORD
      modifies this`ring, this`tasks, current`next, t`next
      ensures Valid() && ring == [old(ring)[0], t] + old(ring)[1..]
      ensures tasks == [old(tasks)[0], t.Value()] + old(tasks)[1..]
    {
      hide Holds;
      ghost var ts, vs := ring, tasks;
      HoldsInserted(ts, vs, t);
      assert Linked(ts, 0);
      t.next := current.next;
      current.next := t;
      forall i | 1 <= i < |ts| ensures Linked(ts, i) { assert old(Linked(ts, i)) && ts[i] != ts[0]; }
      hide Cyclic, Linked;
      InsertCyclic(ts, t, [ts[0], t] + ts[1..]);
      ring := [ts[0], t] + ts[1..];
      tasks := [vs[0], t.Value()] + vs[1..];
    }

    /** The node before target, found by walking on from target round the ring. */
    method Predecessor(target: TaskNode, ghost k: nat) returns (p: TaskNode)
      requires Valid() && 1 <= k < |ring| && ring[k] == target
      ensures p == ring[k - 1]
    {
      hide Holds;
      assert Linked(ring, k);
      p := target.next;
      ghost var i: nat := Succ(ring, k);
      assert Linked(ring, i);
      while p.next != target
        invariant i < |ring| && i != k && p == ring[i] && Linked(ring, i)
        decreases if i > k then |ring| - i + k else k - i
      {
        p := p.next;
        i := Succ(ring, i);
        assert Linked(ring, i);
      }
      assert i == k - 1;
    }

    method ReadyRemove(target: TaskNode, ghost k: nat)
      requires Valid() && 1 <= k < |ring| && ring[k] == target
      modifies this`ring, this`tasks, ring`next
      ensures Valid() && ring == old(ring)[..k] + old(ring)[k + 1..]
      ensures tasks == old(tasks)[..k] + old(tasks)[k + 1..]
    {
      hide Holds;
      var p := Predecessor(target, k);
      ghost var ts, vs := ring, tasks;
      HoldsUnlinked(ts, vs, k);
      assert Linked(ts, k) && Linked(ts, k - 1);
      p.next := target.next;
      forall j | 0 <= j < |ts| && j != k - 1 ensures Linked(ts, j) { assert old(Linked(ts, j)) && ts[j] != ts[k - 1]; }
      hide Cyclic, Linked;
      UnlinkCyclic(ts, k, ts[..k] + ts[k + 1..]);
      ring := ts[..k] + ts[k + 1..];
      tasks := vs[..k] + vs[k + 1..];
    }

    /** Unlink the zombie behind the current task and give back all it owns. */
    method ReapNext(t: TaskNode)
      requires Valid() && |ring| > 1 && ring[1] == t
      modifies this, ring`next
      ensures Valid() && ring == [old(ring)[0]] + old(ring)[2..] && current == old(current)
      ensures View() == Unlinked(old(View()))
    {
      hide Cyclic, KFree;
      ReadyRemove(t, 1);
      assert ring == [old(ring)[0]] + old(ring)[2..];
      assert tasks == [old(tasks)[0]] + old(tasks)[2..];
      hide Holds;
      KFreeNull(View());
      if t.image != 0 { Kfree(t.image); }
      KFreeNull(View());
      if t.stackBase != 0 { Kfree(t.stackBase); }
      KFreeNull(View());
      if t.userStackBase != 0 { Kfree(t.userStackBase); }
      Kfree(t.addr);
    }

    method FindNext() returns (next: TaskNode)
      requires Valid() && active
      modifies this, ring`next
      ensures Valid() && active && View() == PickNext(old(View())) && current == old(current)
      ensures next == ring[Succ(ring, 0)]
      ensures forall i :: 0 <= i < |ring| ==> ring[i] in old(ring)
    {
      hide PickNext, Unlinked, Cyclic;
      var from := current;
      HeadNext(ring);
      var cand := from.next;
      while cand != from
        invariant Valid() && active && current == from && cand == from.next && ring[0] == from
        invariant PickNext(View()) == PickNext(old(View()))
        invariant forall i :: 0 <= i < |ring| ==> ring[i] in old(ring)
        decreases |ring|
      {
        HeadNext(ring);
        assert cand.Value() == tasks[1];
        if cand.state == Zombie {
          var dead := cand;
          cand := cand.next;
          PickRound(View());
          ReapNext(dead);
          HeadNext(ring);
          continue;
        }
        if cand.state == Ready || cand.state == Running {
          PickDone(View());
          return cand;
        }
      }
      HeadNext(ring);
      PickDone(View());
      return from;
    }

    method TaskYield()
      requires Valid()
      modifies this, ring
      ensures Valid() && View() == Yield(old(View()))
      ensures forall i :: 0 <= i < |ring| ==> ring[i] in old(ring)
    {
      hide PickNext, Cyclic, Switch, Holds;
      HeadValue(ring, tasks);
      if !active { return; }
      var prev := current;
      var next := FindNext();
      HeadNext(ring);
      HeadValue(ring, tasks);
      if next == prev {
        if prev.state != Zombie { return; }
        halted := true;
        return;
      }
      assert prev in old(ring) && ring[1] in old(ring);
      SwitchTo(prev, next);
    }

    method SwitchTo(prev: TaskNode, next: TaskNode)
      requires Valid() && |ring| > 1 && prev == ring[0] && next == ring[1]
      modifies this, prev`state, prev`sliceLeft, next`state, next`sliceLeft
      ensures Valid() && View() == Switch(old(View())) && ring == old(ring)[1..] + [old(ring)[0]]
    {
      hide Cyclic, Holds;
      ghost var ts, vs := ring, tasks;
      RotateCyclic(ts, ts[1..] + [ts[0]]);
      DistinctNodes(ts);
      HoldsEach(ts, vs);
      Relabel(prev, next);
      current := next;
      if next.kernelStackTop != 0 { esp0 := next.kernelStackTop; }
      HoldsRotated(ts, vs);
      ring := ts[1..] + [ts[0]];
      tasks := [Started(vs[1])] + vs[2..] + [Stopped(vs[0])];
    }

    method TaskTick()
      requires Valid()
      modifies this`needResched, this`tasks, ring`ticksRun, ring`sliceLeft
      ensures Valid() && View() == Tick(old(View()))
    {
      hide Cyclic;
      if !active { return; }
      HeadApart(ring);
      current.ticksRun := (current.ticksRun + 1) % WORD;
      if current.sliceLeft > 0 { current.sliceLeft := current.sliceLeft - 1; }
      if current.sliceLeft == 0 { needResched := true; }
      tasks := [Charged(tasks[0])] + tasks[1..];
    }

    method ShouldResched() returns (r: bool)
      requires Valid()
      modifies this`needResched
      ensures Valid() && r == old(needResched) && View() == old(View()).(needResched := false)
    {
      if !needResched { return false; }
      needResched := false;
      return true;
    }

    /** The timer interrupt, up to the return from it. */
    method TimerInterrupt()
      requires Valid()
      modifies this, ring
      ensures Valid() && View() == TimerIrq(old(View()))
    {
      TaskTick();
      var r := ShouldResched();
      if r { TaskYield(); }
    }

    /** The first half of task_exit: up to the point where interrupts come back on. */
    method MarkExited()
      requires Valid() && active
      modifies this`tasks, current`state
      ensures Valid() && View() == ExitMark(old(View()))
    {
      current.state := Zombie;
      tasks := [tasks[0].(state := Zombie)] + tasks[1..];
    }

    /** A ring of one, which is the current task. */
    method MakeRing(t: TaskNode)
      requires t.id == t.serial % WORD && nextId == nextSerial % WORD
      modifies this`current, this`active, this`ring, this`tasks, t`next
      ensures Valid() && active && ring == [t] && tasks == [t.Value()]
    {
      t.next := t;
      current := t;
      active := true;
      ring, tasks := [t], [t.Value()];
      assert Linked(ring, 0);
    }

    /** Take the next id and link the task in. */
    method Enlist(t: TaskNode)
      requires Valid() && t !in ring && t.id == nextId && t.serial == nextSerial
      modifies this, t`next, ring`next
      ensures Valid() && View() == Insert(old(View()), t.Value())
    {
      hide Cyclic, Holds;
      HeadValue(ring, tasks);
      nextId := (nextId + 1) % WORD;
      nextSerial := nextSerial + 1;
      if !active {
        MakeRing(t);
      } else {
        ReadyInsertAfterCurrent(t);
      }
    }

    /** addr and stack are the heap's answers. */
    method TaskCreate(name: string, addr: nat, stack: nat) returns (t: TaskNode?)
      requires Valid()
      modifies this, ring`next
      ensures Valid() && View() == Create(old(View()), name, addr, stack)
      ensures t == null <==> addr == 0 || stack == 0
    {
      hide Insert, KAlloc, KFree, Cyclic, Holds;
      if addr == 0 { return null; }
      Kmalloc(addr);
      if stack == 0 {
        Kfree(addr);
        return null;
      }
      Kmalloc(stack);
      t := new TaskNode(nextSerial, nextId, name, Ready, addr, stack, stack + STACK_SIZE, false, 0, 0);
      Enlist(t);
    }

    /** image is null, or is handed over to the new task. */
    method TaskCreateUser(name: string, addr: nat, stack: nat, userStack: nat, image: nat) returns (t: TaskNode?)
      requires Valid()
      modifies this, ring`next
      ensures Valid() && View() == CreateUser(old(View()), name, addr, stack, userStack, image)
      ensures t == null <==> addr == 0 || stack == 0 || userStack == 0
    {
      hide Insert, KAlloc, KFree, Cyclic, Holds;
      if addr == 0 { return null; }
      Kmalloc(addr);
      Kmalloc(stack);
      Kmalloc(userStack);
      if stack == 0 || userStack == 0 {
        KFreeNull(View());
        if stack != 0 { Kfree(stack); }
        KFreeNull(View());
        if userStack != 0 { Kfree(userStack); }
        Kfree(addr);
        return null;
      }
      t := new TaskNode(nextSerial, nextId, name, Ready, addr, stack, stack + STACK_SIZE, true, userStack, image);
      Enlist(t);
    }

    /** Make the running flow the only task of a new ring; a ring there was before is abandoned. */
    method TaskingInit(addr: nat)
      requires Valid()
      modifies this
      ensures Valid() && View() == if addr == 0 then old(View()).(panicked := true) else Init(old(View()), addr)
    {
      hide KAlloc, Cyclic, Holds;
      if addr == 0 {
        panicked := true;
        return;
      }
      Kmalloc(addr);
      var boot := new TaskNode(nextSerial, nextId, "boot", Running, addr, 0, 0, false, 0, 0);
      nextId := (nextId + 1) % WORD;
      nextSerial := nextSerial + 1;
      MakeRing(boot);
    }

    /** Copy out the ring from the current task on, up to max entries. */
    method Snapshot(out: array?<TaskInfo>, max: int) returns (n: nat)
      requires Valid() && (out != null ==> max <= out.Length)
      modifies out
      ensures n == if out == null || max <= 0 then 0 else if |tasks| < max then |tasks| else max
      ensures out != null ==>
                forall i :: 0 <= i < out.Length ==> out[i] == if i < n then InfoOf(tasks, i) else old(out[i])
      ensures out != null ==>
                forall i :: 0 <= i < n ==>
                  && out[i].id == tasks[i].serial % 0x1_0000_0000 && out[i].name == tasks[i].name
                  && out[i].state == tasks[i].state && out[i].ticks == tasks[i].ticks && (out[i].isCurrent <==> i == 0)
    {
      if !active || out == null || max <= 0 { return 0; }
      n := 0;
      var t := current;
      while true
        invariant n <= max && n < |ring| && t == ring[n]
        invariant forall i :: 0 <= i < out.Length ==> out[i] == if i < n then InfoOf(tasks, i) else old(out[i])
        decreases |ring| - n
      {
        if n >= max { break; }
        assert Linked(ring, n) && t.Value() == tasks[n];
        out[n] := TaskInfo(t.id, t.name, t.state, t.ticksRun, t == current);
        n := n + 1;
        t := t.next;
        if t == current { break; }
      }
    }
  }
}
