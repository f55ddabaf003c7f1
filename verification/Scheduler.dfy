/** The round-robin scheduler as a state machine: the ring from the current task on, and the steps interrupts allow. */
module Scheduler {
  const TIME_SLICE := 5
  const STACK_SIZE := 0x4000
  const NAME_LEN := 16
  const WORD := 0x1_0000_0000

  datatype TaskState = Ready | Running | Zombie

  /** One task. An address of 0 is a null pointer. The visible id is the serial modulo 2^32. */
  datatype Task = Task(serial: nat, name: string, state: TaskState, addr: nat, stack: nat, top: nat, user: bool,
                       userStack: nat, image: nat, ticks: nat, slice: nat)

  /** The ring starts at the current task; it is empty until tasking starts. */
  datatype Sched = Sched(ring: seq<Task>, heap: set<nat>, esp0: nat, needResched: bool, nextSerial: nat, halted: bool,
                         panicked: bool)

  // ---- the heap, seen from here ----

  function KAlloc(s: Sched, a: nat): Sched {
    if a == 0 then s else s.(heap := s.heap + {a})
  }

  /** Freeing null does nothing; freeing what is not allocated panics. */
  function KFree(s: Sched, a: nat): (r: Sched)
    ensures r.ring == s.ring
  {
    if a == 0 then s
    else if a in s.heap then s.(heap := s.heap - {a})
    else s.(panicked := true)
  }

  /** The allocations a task owns. */
  function Owned(t: Task): set<nat> {
    {t.addr, t.stack, t.userStack, t.image} - {0}
  }

  function OwnedByAll(ts: seq<Task>): set<nat> {
    set i, a | 0 <= i < |ts| && a in Owned(ts[i]) :: a
  }

  // ---- reaping and picking ----

  function Reap(s: Sched, t: Task): (r: Sched)
    ensures r.ring == s.ring
  {
    KFree(KFree(KFree(KFree(s, t.image), t.stack), t.userStack), t.addr)
  }

  function ReapAll(s: Sched, dead: seq<Task>): Sched
    decreases |dead|
  {
    if dead == [] then s else ReapAll(Reap(s, dead[0]), dead[1..])
  }

  /** How many zombies lead the list. */
  function Leading(ts: seq<Task>): (k: nat)
    ensures k <= |ts| && (forall i :: 0 <= i < k ==> ts[i].state == Zombie) && (k < |ts| ==> ts[k].state != Zombie)
    decreases |ts|
  {
    if ts == [] || ts[0].state != Zombie then 0 else 1 + Leading(ts[1..])
  }

  /** Drop and reap the zombies between the current task and the next live one. */
  function PickNext(s: Sched): Sched
    requires s.ring != []
  {
    var k := Leading(s.ring[1..]);
    ReapAll(s.(ring := [s.ring[0]] + s.ring[1 + k..]), s.ring[1..1 + k])
  }

  // ---- the operations ----

  function Stopped(t: Task): Task {
    t.(state := if t.state == Running then Ready else t.state, slice := TIME_SLICE)
  }

  function Started(t: Task): Task {
    t.(state := Running, slice := TIME_SLICE)
  }

  /** Make the second task of the ring current. */
  function Switch(s: Sched): Sched
    requires |s.ring| > 1
  {
    s.(ring := [Started(s.ring[1])] + s.ring[2..] + [Stopped(s.ring[0])],
       esp0 := if s.ring[1].top != 0 then s.ring[1].top else s.esp0)
  }

  function Yield(s: Sched): Sched {
    if s.ring == [] then s
    else
      var p := PickNext(s);
      if |p.ring| > 1 then Switch(p)
      else if s.ring[0].state != Zombie then p
      else p.(halted := true)
  }

  function ExitMark(s: Sched): Sched
    requires s.ring != []
  {
    s.(ring := [s.ring[0].(state := Zombie)] + s.ring[1..])
  }

  function Charged(t: Task): Task {
    t.(ticks := (t.ticks + 1) % WORD, slice := if t.slice > 0 then t.slice - 1 else 0)
  }

  /** The accounting done by the timer handler. */
  function Tick(s: Sched): Sched {
    if s.ring == [] then s
    else
      var c := Charged(s.ring[0]);
      s.(ring := [c] + s.ring[1..], needResched := s.needResched || c.slice == 0)
  }

  /** A whole timer interrupt: account, then yield if asked to. */
  function TimerIrq(s: Sched): Sched {
    var t := Tick(s);
    if t.needResched then Yield(t.(needResched := false)) else t
  }

  function Truncated(name: string): string {
    if |name| < NAME_LEN then name else name[..NAME_LEN - 1]
  }

  function NewTask(s: Sched, name: string, addr: nat, stack: nat, user: bool, userStack: nat, image: nat): Task {
    Task(s.nextSerial, Truncated(name), Ready, addr, stack, stack + STACK_SIZE, user, userStack, image, 0, TIME_SLICE)
  }

  /** Link a new task in right behind the current one; the first task of all becomes current. */
  function Insert(s: Sched, t: Task): Sched {
    s.(ring := if s.ring == [] then [t] else [s.ring[0], t] + s.ring[1..], nextSerial := s.nextSerial + 1)
  }

  /** addr and stack are what the heap answered. */
  function Create(s: Sched, name: string, addr: nat, stack: nat): Sched {
    if addr == 0 then s
    else
      var s1 := KAlloc(s, addr);
      if stack == 0 then KFree(s1, addr)
      else Insert(KAlloc(s1, stack), NewTask(s, name, addr, stack, false, 0, 0))
  }

  /** A user task, owning image if that is not null. */
  function CreateUser(s: Sched, name: string, addr: nat, stack: nat, userStack: nat, image: nat): Sched {
    if addr == 0 then s
    else
      var s1 := KAlloc(KAlloc(KAlloc(s, addr), stack), userStack);
      if stack == 0 || userStack == 0 then KFree(KFree(KFree(s1, stack), userStack), addr)
      else Insert(s1, NewTask(s, name, addr, stack, true, userStack, image))
  }

  function BootTask(serial: nat, addr: nat): Task {
    Task(serial, "boot", Running, addr, 0, 0, false, 0, 0, 0, TIME_SLICE)
  }

  /** Tasking starts with the running flow as its first task. */
  function Init(s: Sched, addr: nat): Sched {
    KAlloc(s, addr).(ring := [BootTask(s.nextSerial, addr)], nextSerial := s.nextSerial + 1)
  }

  // ---- steps and runs ----

  datatype Step =
    | CreateStep(name: string, addr: nat, stack: nat)
    | CreateUserStep(name: string, addr: nat, stack: nat, userStack: nat, image: nat)
    | ExitStep
    | YieldStep
    | TickStep
    | AllocStep(a: nat)
    | FreeStep(a: nat)

  /** What the heap may answer: null, or an address that is not live. */
  predicate Answer(heap: set<nat>, a: nat) {
    a !in heap && 0 !in heap
  }

  /** Steps the rest of the system may take: the heap answers fresh addresses, and others free only what is theirs. */
  predicate Allowed(s: Sched, step: Step) {
    match step
    case CreateStep(_, a, b) => Answer(s.heap, a) && Answer(s.heap, b) && (a == b ==> a == 0)
    case CreateUserStep(_, a, b, c, image) =>
      && Answer(s.heap, a) && Answer(s.heap, b) && Answer(s.heap, c)
      && (a == b || a == c ==> a == 0) && (b == c ==> b == 0)
      && (image != 0 ==> image in s.heap && image !in OwnedByAll(s.ring))
    case AllocStep(a) => Answer(s.heap, a)
    case FreeStep(a) => a in s.heap && a !in OwnedByAll(s.ring)
    case _ => true
  }

  /** Steps that can be taken: tasking has started, and the machine has not stopped. */
  predicate Enabled(s: Sched, step: Step) {
    !s.halted && !s.panicked && s.ring != [] && Allowed(s, step)
  }

  function Apply(s: Sched, step: Step): Sched
    requires step.ExitStep? ==> s.ring != []
  {
    match step
    case CreateStep(name, a, b) => Create(s, name, a, b)
    case CreateUserStep(name, a, b, c, image) => CreateUser(s, name, a, b, c, image)
    case ExitStep => ExitMark(s)
    case YieldStep => Yield(s)
    case TickStep => TimerIrq(s)
    case AllocStep(a) => KAlloc(s, a)
    case FreeStep(a) => KFree(s, a)
  }

  // ---- the invariant ----

  /** Everything a task owns is live and owned once. */
  predicate TaskOk(t: Task, heap: set<nat>, next: nat) {
    && t.addr != 0 && t.serial < next && t.slice <= TIME_SLICE && |t.name| < NAME_LEN
    && Owned(t) <= heap
    && t.addr !in {t.stack, t.userStack, t.image}
    && (t.stack != 0 ==> t.stack !in {t.userStack, t.image})
    && (t.userStack != 0 ==> t.userStack != t.image)
    && t.top == (if t.stack == 0 then 0 else t.stack + STACK_SIZE) && (t.user ==> t.stack != 0)
  }

  predicate Apart(t: Task, u: Task) {
    t.serial != u.serial && Owned(t) !! Owned(u)
  }

  /** The tasks of a ring are well formed and share nothing. */
  ghost predicate RingOk(ring: seq<Task>, heap: set<nat>, next: nat) {
    && (forall i :: 0 <= i < |ring| ==> TaskOk(ring[i], heap, next))
    && (forall i, j :: 0 <= i < |ring| && 0 <= j < |ring| && i != j ==> Apart(ring[i], ring[j]))
  }

  /**
   * A running task is the current one, the current one is running or has exited, and the others have a full slice
   * ahead.
   */
  ghost predicate OneRuns(ring: seq<Task>) {
    && ring != [] && ring[0].state != Ready
    && forall i :: 1 <= i < |ring| ==> ring[i].state != Running && ring[i].slice == TIME_SLICE
  }

  /**
   * The kernel stack the processor will switch to is the current task's own, if it has one, as every user task does.
   */
  predicate StackOk(s: Sched) {
    s.ring != [] && s.ring[0].top != 0 ==> s.esp0 == s.ring[0].top
  }

  ghost predicate Inv(s: Sched) {
    RingOk(s.ring, s.heap, s.nextSerial) && OneRuns(s.ring) && StackOk(s) && !s.panicked && 0 !in s.heap
  }

  // ---- what reaping does ----

  lemma {:induction false} ReapFrees(s: Sched, t: Task, next: nat)
    requires TaskOk(t, s.heap, next) && !s.panicked
    ensures Reap(s, t) == s.(heap := s.heap - Owned(t))
  {
    var s1 := KFree(s, t.image);
    var s2 := KFree(s1, t.stack);
    var s3 := KFree(s2, t.userStack);
    assert t.image != 0 ==> t.image in Owned(t);
    assert t.stack != 0 ==> t.stack in Owned(t);
    assert t.userStack != 0 ==> t.userStack in Owned(t);
    assert t.addr in Owned(t);
    assert KFree(s3, t.addr).heap == s.heap - Owned(t);
  }

  lemma {:induction false} OwnedByAllSplit(ts: seq<Task>)
    requires ts != []
    ensures OwnedByAll(ts) == Owned(ts[0]) + OwnedByAll(ts[1..])
  {
    forall a | a in OwnedByAll(ts) ensures a in Owned(ts[0]) + OwnedByAll(ts[1..]) {
      var i :| 0 <= i < |ts| && a in Owned(ts[i]);
      if i > 0 { assert a in Owned(ts[1..][i - 1]); }
    }
    forall a | a in OwnedByAll(ts[1..]) ensures a in OwnedByAll(ts) {
      var i :| 0 <= i < |ts[1..]| && a in Owned(ts[1..][i]);
      assert a in Owned(ts[i + 1]);
    }
    forall a | a in Owned(ts[0]) ensures a in OwnedByAll(ts) { assert a in Owned(ts[0]); }
  }

  /** Tasks that share nothing stay well formed when another of them is freed. */
  lemma {:induction false} TailOk(ts: seq<Task>, heap: set<nat>, next: nat)
    requires RingOk(ts, heap, next) && ts != []
    ensures RingOk(ts[1..], heap - Owned(ts[0]), next)
  {
    var heap' := heap - Owned(ts[0]);
    forall i | 0 <= i < |ts[1..]| ensures TaskOk(ts[1..][i], heap', next) {
      assert TaskOk(ts[i + 1], heap, next) && Apart(ts[i + 1], ts[0]);
    }
    forall i, j | 0 <= i < |ts[1..]| && 0 <= j < |ts[1..]| && i != j ensures Apart(ts[1..][i], ts[1..][j]) {
      assert Apart(ts[i + 1], ts[j + 1]);
    }
  }

  /** Reaping frees every allocation of the dead exactly once, and nothing else. */
  lemma {:induction false} ReapAllFrees(s: Sched, dead: seq<Task>, next: nat)
    requires RingOk(dead, s.heap, next) && !s.panicked
    ensures ReapAll(s, dead) == s.(heap := s.heap - OwnedByAll(dead))
    decreases |dead|
  {
    if dead == [] {
      assert OwnedByAll(dead) == {};
    } else {
      ReapFrees(s, dead[0], next);
      TailOk(dead, s.heap, next);
      ReapAllFrees(Reap(s, dead[0]), dead[1..], next);
      OwnedByAllSplit(dead);
      assert s.heap - Owned(dead[0]) - OwnedByAll(dead[1..]) == s.heap - OwnedByAll(dead);
    }
  }

  /** Part of a ring, in any order and with any change that keeps ownership, is a ring. */
  lemma {:induction false} Reindexed(ring: seq<Task>, ring': seq<Task>, f: seq<nat>, heap: set<nat>, next: nat)
    requires RingOk(ring, heap, next) && |f| == |ring'|
    requires forall i :: 0 <= i < |f| ==> f[i] < |ring|
    requires forall i, j :: 0 <= i < |f| && 0 <= j < |f| && i != j ==> f[i] != f[j]
    requires forall i :: 0 <= i < |f| ==> SameOwner(ring[f[i]], ring'[i])
    ensures RingOk(ring', heap, next)
  {
    forall i | 0 <= i < |ring'| ensures TaskOk(ring'[i], heap, next) {
      assert TaskOk(ring[f[i]], heap, next) && SameOwner(ring[f[i]], ring'[i]);
    }
    forall i, j | 0 <= i < |ring'| && 0 <= j < |ring'| && i != j ensures Apart(ring'[i], ring'[j]) {
      assert Apart(ring[f[i]], ring[f[j]]) && SameOwner(ring[f[i]], ring'[i]) && SameOwner(ring[f[j]], ring'[j]);
    }
  }

  predicate SameOwner(t: Task, u: Task) {
    u == t.(state := u.state, ticks := u.ticks, slice := u.slice) && u.slice <= TIME_SLICE
  }

  /** The zombies dropped by PickNext. */
  function Dropped(s: Sched): seq<Task>
    requires s.ring != []
  {
    s.ring[1..1 + Leading(s.ring[1..])]
  }

  /** The ring PickNext leaves. */
  function Kept(s: Sched): seq<Task>
    requires s.ring != []
  {
    [s.ring[0]] + s.ring[1 + Leading(s.ring[1..])..]
  }

  lemma {:induction false} DroppedOk(s: Sched)
    requires s.ring != [] && RingOk(s.ring, s.heap, s.nextSerial)
    ensures RingOk(Dropped(s), s.heap, s.nextSerial)
  {
    var f := seq(|Dropped(s)|, i requires 0 <= i => i + 1);
    assert forall i :: 0 <= i < |f| ==> TaskOk(s.ring[f[i]], s.heap, s.nextSerial);
    Reindexed(s.ring, Dropped(s), f, s.heap, s.nextSerial);
  }

  lemma {:induction false} KeptApart(s: Sched, i: nat)
    requires s.ring != [] && RingOk(s.ring, s.heap, s.nextSerial) && i < |Kept(s)|
    ensures Owned(Kept(s)[i]) !! OwnedByAll(Dropped(s))
  {
    var from := if i == 0 then 0 else i + Leading(s.ring[1..]);
    assert Kept(s)[i] == s.ring[from];
    forall j, a | 0 <= j < |Dropped(s)| && a in Owned(Dropped(s)[j]) ensures a !in Owned(Kept(s)[i]) {
      assert Apart(s.ring[from], s.ring[j + 1]) && Dropped(s)[j] == s.ring[j + 1];
    }
  }

  lemma {:induction false} KeptOk(s: Sched)
    requires s.ring != [] && RingOk(s.ring, s.heap, s.nextSerial)
    ensures RingOk(Kept(s), s.heap, s.nextSerial)
  {
    var k := Leading(s.ring[1..]);
    var g := seq(|Kept(s)|, i requires 0 <= i => if i == 0 then 0 else i + k);
    hide TaskOk;
    forall i | 0 <= i < |g| ensures TaskOk(s.ring[g[i]], s.heap, s.nextSerial) && Kept(s)[i] == s.ring[g[i]] { }
    Reindexed(s.ring, Kept(s), g, s.heap, s.nextSerial);
  }

  /** PickNext frees exactly what the dropped zombies own, and what is kept is still a ring. */
  lemma {:induction false} PickNextFrees(s: Sched)
    requires s.ring != [] && RingOk(s.ring, s.heap, s.nextSerial) && !s.panicked
    ensures PickNext(s) == s.(ring := Kept(s), heap := s.heap - OwnedByAll(Dropped(s)))
    ensures RingOk(Kept(s), s.heap - OwnedByAll(Dropped(s)), s.nextSerial)
  {
    DroppedOk(s);
    KeptOk(s);
    ReapAllFrees(s.(ring := Kept(s)), Dropped(s), s.nextSerial);
    hide Kept, Dropped, Apart;
    forall i | 0 <= i < |Kept(s)| ensures TaskOk(Kept(s)[i], s.heap - OwnedByAll(Dropped(s)), s.nextSerial) {
      assert TaskOk(Kept(s)[i], s.heap, s.nextSerial);
      KeptApart(s, i);
    }
  }

  // ---- every step keeps the invariant ----

  lemma {:induction false} SwitchKeepsInv(s: Sched)
    requires RingOk(s.ring, s.heap, s.nextSerial) && !s.panicked && 0 !in s.heap && |s.ring| > 1
    requires s.ring[1].state != Zombie
    requires forall i :: 1 <= i < |s.ring| ==> s.ring[i].state != Running && s.ring[i].slice == TIME_SLICE
    ensures Inv(Switch(s))
  {
    var n := |s.ring|;
    var ring' := Switch(s).ring;
    var f := seq(n, i requires 0 <= i < n => if i == n - 1 then 0 else i + 1);
    forall i | 0 <= i < n ensures SameOwner(s.ring[f[i]], ring'[i]) {
      assert TaskOk(s.ring[f[i]], s.heap, s.nextSerial);
      assert i > 0 && i < n - 1 ==> ring'[i] == s.ring[i + 1];
    }
    Reindexed(s.ring, ring', f, s.heap, s.nextSerial);
    assert TaskOk(s.ring[1], s.heap, s.nextSerial);
  }

  lemma {:induction false} YieldKeepsInv(s: Sched)
    requires Inv(s)
    ensures Inv(Yield(s))
  {
    PickNextFrees(s);
    var p := PickNext(s);
    assert forall i :: 1 <= i < |p.ring| ==> p.ring[i] == s.ring[i + Leading(s.ring[1..])];
    if |p.ring| > 1 {
      assert p.ring[1] == s.ring[1..][Leading(s.ring[1..])];
      SwitchKeepsInv(p);
    }
  }

  lemma {:induction false} HeadKeepsInv(s: Sched, t: Task, s': Sched)
    requires Inv(s) && SameOwner(s.ring[0], t) && t.state != Ready
    requires s' == s.(ring := [t] + s.ring[1..], needResched := s'.needResched)
    ensures Inv(s')
  {
    var f := seq(|s.ring|, i requires 0 <= i => i);
    forall i | 0 <= i < |f| ensures SameOwner(s.ring[f[i]], s'.ring[i]) {
      assert TaskOk(s.ring[i], s.heap, s.nextSerial);
    }
    Reindexed(s.ring, s'.ring, f, s.heap, s.nextSerial);
  }

  lemma {:induction false} TimerKeepsInv(s: Sched)
    requires Inv(s)
    ensures Inv(TimerIrq(s))
  {
    assert TaskOk(s.ring[0], s.heap, s.nextSerial);
    HeadKeepsInv(s, Charged(s.ring[0]), Tick(s));
    var t := Tick(s);
    if t.needResched {
      assert Inv(t.(needResched := false));
      YieldKeepsInv(t.(needResched := false));
    }
  }

  lemma {:induction false} HeapGrows(ring: seq<Task>, heap: set<nat>, heap': set<nat>, next: nat)
    requires RingOk(ring, heap, next) && heap <= heap'
    ensures RingOk(ring, heap', next + 1) && RingOk(ring, heap', next)
  {
    forall i | 0 <= i < |ring| ensures TaskOk(ring[i], heap', next) && TaskOk(ring[i], heap', next + 1) {
      assert TaskOk(ring[i], heap, next);
    }
  }

  lemma {:induction false} InsertKeepsInv(s: Sched, heap': set<nat>, t: Task)
    requires Inv(s) && s.heap <= heap' && 0 !in heap'
    requires TaskOk(t, heap', s.nextSerial + 1) && t.serial == s.nextSerial && t.state == Ready && t.slice == TIME_SLICE
    requires Owned(t) !! OwnedByAll(s.ring)
    ensures Inv(Insert(s.(heap := heap'), t))
  {
    var s' := Insert(s.(heap := heap'), t);
    HeapGrows(s.ring, s.heap, heap', s.nextSerial);
    forall i | 0 <= i < |s.ring| ensures Apart(s.ring[i], t) && Apart(t, s.ring[i]) {
      assert TaskOk(s.ring[i], s.heap, s.nextSerial);
      assert forall a :: a in Owned(s.ring[i]) ==> a in OwnedByAll(s.ring);
    }
    assert forall i :: 2 <= i < |s'.ring| ==> s'.ring[i] == s.ring[i - 1];
  }

  lemma {:induction false} OwnedIsLive(ring: seq<Task>, heap: set<nat>, next: nat)
    requires RingOk(ring, heap, next)
    ensures OwnedByAll(ring) <= heap
  {
    forall a | a in OwnedByAll(ring) ensures a in heap {
      var i :| 0 <= i < |ring| && a in Owned(ring[i]);
      assert TaskOk(ring[i], heap, next);
    }
  }

  /** A task that cannot be created leaves no trace. */
  lemma {:induction false} FailedCreateChangesNothing(s: Sched, step: Step)
    requires Allowed(s, step)
    ensures step.CreateStep? && (step.addr == 0 || step.stack == 0) ==> Apply(s, step) == s
    ensures step.CreateUserStep? && (step.addr == 0 || step.stack == 0 || step.userStack == 0) ==> Apply(s, step) == s
  {
    if step.CreateStep? && step.addr != 0 && step.stack == 0 {
      assert s.heap + {step.addr} - {step.addr} == s.heap;
    }
    if step.CreateUserStep? && step.addr != 0 && (step.stack == 0 || step.userStack == 0) {
      var s1 := KAlloc(KAlloc(KAlloc(s, step.addr), step.stack), step.userStack);
      assert KFree(KFree(KFree(s1, step.stack), step.userStack), step.addr).heap == s.heap;
    }
  }

  lemma {:induction false} CreateKeepsInv(s: Sched, step: Step)
    requires Inv(s) && Allowed(s, step) && (step.CreateStep? || step.CreateUserStep?)
    ensures Inv(Apply(s, step))
  {
    FailedCreateChangesNothing(s, step);
    OwnedIsLive(s.ring, s.heap, s.nextSerial);
    if step.CreateStep? && step.addr != 0 && step.stack != 0 {
      InsertKeepsInv(s, s.heap + {step.addr} + {step.stack}, NewTask(s, step.name, step.addr, step.stack, false, 0, 0));
    }
    if step.CreateUserStep? && step.addr != 0 && step.stack != 0 && step.userStack != 0 {
      InsertKeepsInv(s, s.heap + {step.addr} + {step.stack} + {step.userStack},
                     NewTask(s, step.name, step.addr, step.stack, true, step.userStack, step.image));
    }
  }

  lemma {:induction false} OthersKeepInv(s: Sched, step: Step)
    requires Inv(s) && Enabled(s, step) && (step.AllocStep? || step.FreeStep?)
    ensures Inv(Apply(s, step))
  {
    if step.AllocStep? {
      HeapGrows(s.ring, s.heap, Apply(s, step).heap, s.nextSerial);
    } else {
      forall i | 0 <= i < |s.ring| ensures TaskOk(s.ring[i], s.heap - {step.a}, s.nextSerial) {
        assert TaskOk(s.ring[i], s.heap, s.nextSerial);
        assert forall a :: a in Owned(s.ring[i]) ==> a in OwnedByAll(s.ring);
      }
    }
  }

  /** Every step, taken at any point at which interrupts are on, keeps the invariant. */
  lemma {:induction false} StepKeepsInv(s: Sched, step: Step)
    requires Inv(s) && Enabled(s, step)
    ensures Inv(Apply(s, step))
  {
    match step
    case CreateStep(_, _, _) => CreateKeepsInv(s, step);
    case CreateUserStep(_, _, _, _, _) => CreateKeepsInv(s, step);
    case ExitStep =>
      assert TaskOk(s.ring[0], s.heap, s.nextSerial);
      HeadKeepsInv(s, s.ring[0].(state := Zombie), ExitMark(s));
    case YieldStep => YieldKeepsInv(s);
    case TickStep => TimerKeepsInv(s);
    case AllocStep(_) => OthersKeepInv(s, step);
    case FreeStep(_) => OthersKeepInv(s, step);
  }

  /** Starting up establishes it. */
  lemma {:induction false} InitHolds(s: Sched, addr: nat)
    requires s.ring == [] && addr != 0 && Answer(s.heap, addr) && !s.panicked
    ensures Inv(Init(s, addr))
  {
    var t := BootTask(s.nextSerial, addr);
    assert Owned(t) == {addr};
  }
}
