/**
 The round-robin scheduler (sched.rs): a table of 32 threads, the one that runs, and the registers a
 context switch loads. Every operation is one atomic step of a machine; the theorems are about runs
 of that machine: no thread waits for ever, every thread resumes exactly where it was stopped, and
 the loaded address space and the kernel stack in use are always those of a live thread.
 */
module Sched {
  import opened Pmm
  import opened PageTable
  import opened AddressSpaces
  import opened Budget
  import opened Vmm
  import opened UserMemory
  import opened Lifecycle

  const MAX_THREADS: nat := 32
  const TIMESLICE: nat := 5
  const TRAMPOLINE: nat := 0x1000       // where kthread_trampoline was linked; any address will do

  // What an interrupt saves and iretq loads.
  datatype Frame = Frame(r15: nat, r14: nat, r13: nat, r12: nat, r11: nat, r10: nat, r9: nat, r8: nat,
    rbp: nat, rdi: nat, rsi: nat, rdx: nat, rcx: nat, rbx: nat, rax: nat, vector: nat, err: nat,
    rip: nat, cs: nat, rflags: nat, rsp: nat, ss: nat)

  const ZERO_FRAME := Frame(0, 0, 0, 0, 0, 0, 0, 0, 0, 0, 0, 0, 0, 0, 0, 0, 0, 0, 0, 0, 0, 0)

  datatype ThreadState = Unused | Runnable | Zombie

  // `kstack` is the first page of the kernel stack; 0 stands for none, as address 0 does.
  datatype Thread = Thread(tid: nat, state: ThreadState, frame: Frame, space: nat, kstackTop: nat, kstack: nat,
      isUser: bool)

  const ZERO_THREAD := Thread(0, Unused, ZERO_FRAME, 0, 0, 0, false)

  // The direct map only adds a constant to these addresses, so it is left out.
  function StackTop(k: nat): nat { (k + KSTACK_PAGES) * 4096 }

  function KernelFrame(k: nat, fn: nat, arg: nat): Frame {
    ZERO_FRAME.(rip := TRAMPOLINE, cs := 0x08, ss := 0x10, rflags := 0x202, rsp := StackTop(k), rbx := fn, rdi := arg)
  }

  function UserFrame(entry: nat, rsp: nat): Frame {
    ZERO_FRAME.(rip := entry, cs := 0x23, ss := 0x1b, rsp := rsp, rflags := 0x202)
  }

  // The whole machine: the scheduler's variables, CR3, the kernel stack of the TSS, and memory.
  // `live` is the frame control last returned to.
  datatype Sys = Sys(threads: seq<Thread>, cur: nat, slice: nat, live: Frame, cr3: nat, rsp0: nat, vm: Vm)

  predicate Shape(s: Sys) { |s.threads| == MAX_THREADS && s.cur < MAX_THREADS && s.slice < TIMESLICE }

  // ---- choosing the next thread -------------------------------------------------------------------

  // How far round the table slot t lies behind slot c: 1 for the next slot, 32 for c itself.
  function Distance(c: nat, t: nat): (d: int)
    requires c < MAX_THREADS && t < MAX_THREADS
    ensures 1 <= d <= MAX_THREADS && (d == MAX_THREADS <==> t == c)
  {
    if t > c then t - c else t - c + MAX_THREADS
  }

  /** The Runnable thread nearest behind the current one; the current slot if there is none at all. */
  predicate IsNext(threads: seq<Thread>, cur: nat, n: nat)
    requires |threads| == MAX_THREADS && cur < MAX_THREADS
  {
    && n < MAX_THREADS
    && (threads[n].state == Runnable || n == cur)
    && forall t :: 0 <= t < MAX_THREADS && threads[t].state == Runnable ==>
      threads[n].state == Runnable && Distance(cur, n) <= Distance(cur, t)
  }

  // ---- the steps ----------------------------------------------------------------------------------

  datatype Event =
    | Tick(f: Frame)                                   // timer interrupt; f is the interrupted context
    | Yield(f: Frame)
    | Exit(f: Frame)
    | CreateKernel(fn: nat, arg: nat, k: nat)          // k is what the page allocator answered
    | CreateUser(entry: nat, rsp: nat, space: nat, k: nat)
    | Reap(tid: nat)
    | Memory(lost: set<nat>)                           // memory work of a spawn or an sbrk, losing these pages

  function Switch(s: Sys, f: Frame, to: nat): Sys
    requires Shape(s) && to < MAX_THREADS
  {
    if to == s.cur then s.(live := f)
    else
      var saved := s.threads[s.cur := s.threads[s.cur].(frame := f)];
      var nt := saved[to];
      s.(threads := saved, cur := to, live := nt.frame,
         cr3 := if nt.space != 0 && nt.space != s.threads[s.cur].space then nt.space else s.cr3,
         rsp0 := if nt.kstackTop != 0 then nt.kstackTop else s.rsp0)
  }

  predicate Expires(a: Sys, f: Frame, b: Sys)
    requires Shape(a)
  {
    IsNext(a.threads, a.cur, b.cur) && b == Switch(a.(slice := 0), f, b.cur)
  }

  function FreeSlot(threads: seq<Thread>, i: nat := 0): (r: nat)
    requires i <= |threads|
    ensures i <= r <= |threads| && (r < |threads| ==> threads[r].state == Unused)
    ensures forall j :: i <= j < r ==> threads[j].state != Unused
    decreases |threads| - i
  {
    if i == |threads| || threads[i].state == Unused then i else FreeSlot(threads, i + 1)
  }

  // The answer of the page allocator to a request for a kernel stack.
  ghost predicate Took(a: Vm, k: nat, b: Vm) {
    if HasRun(a.free, KSTACK_PAGES)
    then IsLowestRun(a.free, k, KSTACK_PAGES) && b == a.(free := a.free - Run(k, KSTACK_PAGES))
    else k == 0 && b == a
  }

  function KernelThread(slot: nat, space: nat, k: nat, fn: nat, arg: nat): Thread {
    Thread(slot, Runnable, KernelFrame(k, fn, arg), space, StackTop(k), k, false)
  }

  function UserThread(slot: nat, space: nat, k: nat, entry: nat, rsp: nat): Thread {
    Thread(slot, Runnable, UserFrame(entry, rsp), space, StackTop(k), k, true)
  }

  // What reaping thread t does to memory.
  ghost predicate GaveBack(a: Vm, t: Thread, ks: nat, b: Vm) {
    var user := t.isUser && t.space != 0 && t.space != ks;
    && (user ==> t.space in a.spaces)
    && b == a.(spaces := if user then a.spaces - {t.space} else a.spaces,
        free := a.free + (if user then Pages(a.spaces[t.space]) else {})
          + (if t.kstack != 0 then Run(t.kstack, KSTACK_PAGES) else {}))
  }

  // Memory work on behalf of the running thread leaves alone what threads hold.
  ghost predicate Respects(threads: seq<Thread>, a: Vm, b: Vm) {
    && Ok(b) && InRange(b) && b.half == a.half
    && (forall i :: 0 <= i < |threads| && threads[i].state != Unused && threads[i].space in a.spaces ==>
      threads[i].space in b.spaces)
    && (forall f :: Unowned(a, f) ==> Unowned(b, f))
  }

  // The pages that stop being free or part of a space are those in `lost`, and none starts to be.
  ghost predicate Loses(a: Vm, b: Vm, lost: set<nat>) {
    forall f :: (Unowned(b, f) <==> Unowned(a, f) || f in lost) && (f in lost ==> !Unowned(a, f))
  }

  /** One step of the machine; ks is the kernel's own address space. */
  ghost predicate Does(a: Sys, e: Event, b: Sys, ks: nat)
    requires Shape(a)
  {
    match e
    case Tick(f) => if a.slice + 1 < TIMESLICE then b == a.(slice := a.slice + 1, live := f) else Expires(a, f, b)
    case Yield(f) => Expires(a, f, b)
    case Exit(f) => Expires(a.(threads := a.threads[a.cur := a.threads[a.cur].(state := Zombie)]), f, b)
    case CreateKernel(fn, arg, k) => MakesKernel(a, fn, arg, k, b, ks)
    case CreateUser(entry, rsp, space, k) => MakesUser(a, entry, rsp, space, k, b)
    case Reap(tid) => tid < MAX_THREADS && Reaps(a, tid, b, ks)
    case Memory(lost) => b == a.(vm := b.vm) && Respects(a.threads, a.vm, b.vm) && Loses(a.vm, b.vm, lost)
  }

  ghost predicate MakesKernel(a: Sys, fn: nat, arg: nat, k: nat, b: Sys, ks: nat)
    requires Shape(a)
  {
    var slot := FreeSlot(a.threads);
    if slot == MAX_THREADS then b == a
    else
      && Took(a.vm, k, b.vm)
      && b == if k == 0 then a else a.(threads := a.threads[slot := KernelThread(slot, ks, k, fn, arg)], vm := b.vm)
  }

  // A slot is taken before the stack is asked for, and stays taken when there is none.
  ghost predicate MakesUser(a: Sys, entry: nat, rsp: nat, space: nat, k: nat, b: Sys)
    requires Shape(a)
  {
    var slot := FreeSlot(a.threads);
    if slot == MAX_THREADS then b == a
    else
      && Took(a.vm, k, b.vm)
      && b == a.(vm := b.vm, threads := a.threads[slot :=
           if k == 0 then ZERO_THREAD.(tid := slot, state := Runnable) else UserThread(slot, space, k, entry, rsp)])
  }

  ghost predicate Reaps(a: Sys, tid: nat, b: Sys, ks: nat)
    requires Shape(a) && tid < MAX_THREADS
  {
    if a.threads[tid].state != Zombie then b == a
    else GaveBack(a.vm, a.threads[tid], ks, b.vm) && b == a.(threads := a.threads[tid := ZERO_THREAD], vm := b.vm)
  }

  lemma StepShape(a: Sys, e: Event, b: Sys, ks: nat)
    requires Shape(a) && Does(a, e, b, ks)
    ensures Shape(b)
  {
    hide Took, Respects, GaveBack;
  }

  // ---- bounded waiting ----------------------------------------------------------------------------

  ghost predicate IsHistory(states: seq<Sys>, events: seq<Event>, ks: nat) {
    && |states| == |events| + 1
    && (forall i :: 0 <= i < |states| ==> Shape(states[i]))
    && forall i :: 0 <= i < |events| ==> Does(states[i], events[i], states[i + 1], ks)
  }

  predicate Expiry(a: Sys, e: Event) {
    e.Yield? || e.Exit? || (e.Tick? && a.slice + 1 >= TIMESLICE)
  }

  function Expiries(states: seq<Sys>, events: seq<Event>, lo: nat, hi: nat): nat
    requires lo <= hi <= |events| < |states|
  {
    if lo == hi then 0
    else Expiries(states, events, lo, hi - 1) + if Expiry(states[hi - 1], events[hi - 1]) then 1 else 0
  }

  function Ticks(events: seq<Event>, lo: nat, hi: nat): nat
    requires lo <= hi <= |events|
  {
    if lo == hi then 0 else Ticks(events, lo, hi - 1) + if events[hi - 1].Tick? then 1 else 0
  }

  // An expiry either runs the waiting thread or moves the table's hand closer to it.
  lemma HandMoves(a: Sys, e: Event, b: Sys, ks: nat, t: nat)
    requires Shape(a) && Does(a, e, b, ks) && t < MAX_THREADS && a.threads[t].state == Runnable && a.cur != t
    ensures Shape(b)
    ensures Expiry(a, e) && b.cur != t ==> Distance(b.cur, t) < Distance(a.cur, t)
    ensures !Expiry(a, e) ==> b.cur == a.cur
  {
    hide Took, Respects, GaveBack;
    if Expiry(a, e) {
      var z := if e.Exit? then a.threads[a.cur := a.threads[a.cur].(state := Zombie)] else a.threads;
      assert IsNext(z, a.cur, b.cur) && z[t].state == Runnable;
      assert Distance(a.cur, b.cur) <= Distance(a.cur, t);
    }
  }

  lemma {:induction false} HandBudget(states: seq<Sys>, events: seq<Event>, ks: nat, lo: nat, hi: nat, t: nat)
    requires IsHistory(states, events, ks) && lo <= hi <= |events| && t < MAX_THREADS
    requires forall k :: lo <= k <= hi ==> states[k].threads[t].state == Runnable && states[k].cur != t
    ensures Expiries(states, events, lo, hi) + Distance(states[hi].cur, t) <= Distance(states[lo].cur, t)
    decreases hi - lo
  {
    hide Does;
    if lo < hi {
      HandBudget(states, events, ks, lo, hi - 1, t);
      assert Does(states[hi - 1], events[hi - 1], states[hi - 1 + 1], ks);
      HandMoves(states[hi - 1], events[hi - 1], states[hi], ks, t);
    }
  }

  /** Bounded waiting: whatever the other threads do, a thread that stays Runnable runs before 31 time
      slices have ended. */
  lemma BoundedWaiting(states: seq<Sys>, events: seq<Event>, ks: nat, lo: nat, hi: nat, t: nat)
    requires IsHistory(states, events, ks) && lo <= hi <= |events| && t < MAX_THREADS
    requires forall k :: lo <= k <= hi ==> states[k].threads[t].state == Runnable
    requires Expiries(states, events, lo, hi) >= MAX_THREADS - 1
    ensures exists k :: lo <= k <= hi && states[k].cur == t
  {
    if forall k :: lo <= k <= hi ==> states[k].cur != t {
      HandBudget(states, events, ks, lo, hi, t);
    }
  }

  lemma SliceStep(a: Sys, e: Event, b: Sys, ks: nat)
    requires Shape(a) && Does(a, e, b, ks)
    ensures Expiry(a, e) ==> b.slice == 0
    ensures !Expiry(a, e) ==> b.slice == a.slice + if e.Tick? then 1 else 0
  {
    hide Took, Respects, GaveBack;
  }

  lemma {:induction false} SlicesEnd(states: seq<Sys>, events: seq<Event>, ks: nat, lo: nat, hi: nat)
    requires IsHistory(states, events, ks) && lo <= hi <= |events|
    ensures Ticks(events, lo, hi) + states[lo].slice <= 5 * Expiries(states, events, lo, hi) + states[hi].slice
    ensures (forall k :: lo <= k < hi ==> !events[k].Yield? && !events[k].Exit?) ==>
      Ticks(events, lo, hi) + states[lo].slice == 5 * Expiries(states, events, lo, hi) + states[hi].slice
    decreases hi - lo
  {
    hide Does;
    if lo < hi {
      SlicesEnd(states, events, ks, lo, hi - 1);
      assert Does(states[hi - 1], events[hi - 1], states[hi - 1 + 1], ks);
      SliceStep(states[hi - 1], events[hi - 1], states[hi], ks);
    }
  }

  lemma HandStays(a: Sys, e: Event, b: Sys, ks: nat)
    requires Shape(a) && Does(a, e, b, ks) && !Expiry(a, e)
    ensures b.cur == a.cur
  {
    hide Took, Respects, GaveBack;
  }

  lemma {:induction false} SameHand(states: seq<Sys>, events: seq<Event>, ks: nat, lo: nat, hi: nat)
    requires IsHistory(states, events, ks) && lo <= hi <= |events| && Expiries(states, events, lo, hi) == 0
    ensures states[hi].cur == states[lo].cur
    decreases hi - lo
  {
    hide Does;
    if lo < hi {
      SameHand(states, events, ks, lo, hi - 1);
      assert Does(states[hi - 1], events[hi - 1], states[hi - 1 + 1], ks);
      HandStays(states[hi - 1], events[hi - 1], states[hi], ks);
    }
  }

  /** A thread that neither yields nor exits keeps the processor for its whole slice: a thread that starts one runs
      until the fifth tick. */
  lemma WholeSlice(states: seq<Sys>, events: seq<Event>, ks: nat, lo: nat, hi: nat)
    requires IsHistory(states, events, ks) && lo <= hi <= |events| && states[lo].slice == 0
    requires (forall k :: lo <= k < hi ==> !events[k].Yield? && !events[k].Exit?) && Ticks(events, lo, hi) < 5
    ensures states[hi].cur == states[lo].cur
  {
    hide Does;
    SlicesEnd(states, events, ks, lo, hi);
    SameHand(states, events, ks, lo, hi);
  }

  /** The same in timer ticks: 155 are enough. */
  lemma BoundedWaitingTicks(states: seq<Sys>, events: seq<Event>, ks: nat, lo: nat, hi: nat, t: nat)
    requires IsHistory(states, events, ks) && lo <= hi <= |events| && t < MAX_THREADS
    requires forall k :: lo <= k <= hi ==> states[k].threads[t].state == Runnable
    requires Ticks(events, lo, hi) >= 155
    ensures exists k :: lo <= k <= hi && states[k].cur == t
  {
    hide Does;
    SlicesEnd(states, events, ks, lo, hi);
    assert states[hi].slice < TIMESLICE;
    BoundedWaiting(states, events, ks, lo, hi, t);
  }

  // ---- contexts -----------------------------------------------------------------------------------

  lemma FrameStays(a: Sys, e: Event, b: Sys, ks: nat, t: nat)
    requires Shape(a) && Does(a, e, b, ks) && t < MAX_THREADS && a.cur != t
    requires a.threads[t].state != Unused && Shape(b) && b.threads[t].state != Unused
    ensures b.threads[t].frame == a.threads[t].frame
    ensures b.cur == t ==> b.live == a.threads[t].frame
  {
    hide Took, Respects, GaveBack;
  }

  lemma {:induction false} FrameWaits(states: seq<Sys>, events: seq<Event>, ks: nat, lo: nat, hi: nat, t: nat)
    requires IsHistory(states, events, ks) && lo <= hi <= |events| && t < MAX_THREADS
    requires forall k :: lo <= k <= hi ==> states[k].threads[t].state != Unused && states[k].cur != t
    ensures states[hi].threads[t].frame == states[lo].threads[t].frame
    decreases hi - lo
  {
    hide Does;
    if lo < hi {
      FrameWaits(states, events, ks, lo, hi - 1, t);
      assert Does(states[hi - 1], events[hi - 1], states[hi - 1 + 1], ks);
      FrameStays(states[hi - 1], events[hi - 1], states[hi], ks, t);
    }
  }

  // Thread t is off the processor from step lo + 1 until step hi, which puts it back on.
  ghost predicate OffUntil(states: seq<Sys>, events: seq<Event>, ks: nat, lo: nat, hi: nat, t: nat) {
    && IsHistory(states, events, ks) && lo < hi < |events| && t < MAX_THREADS
    && (forall k :: lo < k <= hi + 1 ==> states[k].threads[t].state != Unused)
    && (forall k :: lo < k <= hi ==> states[k].cur != t)
    && states[hi + 1].cur == t
  }

  lemma LeavesWithFrame(a: Sys, e: Event, b: Sys, ks: nat)
    requires Shape(a) && Does(a, e, b, ks) && b.cur != a.cur
    ensures (e.Tick? || e.Yield? || e.Exit?) && Shape(b) && b.threads[a.cur].frame == e.f
  {
    hide Took, Respects, GaveBack;
  }

  /** A thread taken off the processor continues, however much later, with exactly the registers the
      interrupt found. */
  lemma ResumesWhereStopped(states: seq<Sys>, events: seq<Event>, ks: nat, lo: nat, hi: nat, t: nat)
    requires OffUntil(states, events, ks, lo, hi, t) && states[lo].cur == t
    ensures (events[lo].Tick? || events[lo].Yield? || events[lo].Exit?) && states[hi + 1].live == events[lo].f
  {
    hide Does;
    assert Does(states[lo], events[lo], states[lo + 1], ks) && states[lo + 1].cur != t;
    LeavesWithFrame(states[lo], events[lo], states[lo + 1], ks);
    FrameWaits(states, events, ks, lo + 1, hi, t);
    assert Does(states[hi], events[hi], states[hi + 1], ks);
    FrameStays(states[hi], events[hi], states[hi + 1], ks, t);
  }

  // The general registers and bookkeeping words of a frame, without rbx and rdi, are zero.
  predicate OthersZero(f: Frame) {
    && f.r15 == f.r14 == f.r13 == f.r12 == f.r11 == f.r10 == f.r9 == f.r8 == 0
    && f.rbp == f.rsi == f.rdx == f.rcx == f.rax == f.vector == f.err == 0
  }

  // The interrupt flag, bit 9, is set; of the rest only bit 1, which always reads as one.
  predicate InterruptsOn(rflags: nat) { rflags == 512 + 2 }

  // The privilege level of a selector.
  function Ring(selector: nat): nat { selector % 4 }

  // x is an address in the four pages from page k on.
  predicate InPagesFrom(k: nat, x: int) { x >= 0 && k <= x / 4096 < k + 4 }

  /** A user thread starts in ring 3 at its entry point, on the stack it was given: code selector entry 4 and data
      selector entry 3 of the descriptor table, interrupts on, all other registers zero. */
  predicate StartsUser(f: Frame, entry: nat, rsp: nat) {
    && f.rip == entry && f.rsp == rsp
    && Ring(f.cs) == 3 && f.cs / 8 == 4 && Ring(f.ss) == 3 && f.ss / 8 == 3
    && InterruptsOn(f.rflags) && OthersZero(f) && f.rbx == 0 && f.rdi == 0
  }

  /** A kernel thread starts in ring 0 in the trampoline, which calls rbx with argument rdi, at the very top of its
      own four stack pages: what it pushes first lies in them, and so does all of the 16 KiB below. */
  ghost predicate StartsKernel(f: Frame, fn: nat, arg: nat, k: nat) {
    && f.rip == TRAMPOLINE && f.rbx == fn && f.rdi == arg
    && Ring(f.cs) == 0 && f.cs / 8 == 1 && Ring(f.ss) == 0 && f.ss / 8 == 2
    && InterruptsOn(f.rflags) && OthersZero(f)
    && forall x :: InPagesFrom(k, x) <==> f.rsp - 16384 <= x < f.rsp
  }

  /** A new thread starts as it was created, whatever happens between its creation and its first run. */
  lemma StartsAsCreated(states: seq<Sys>, events: seq<Event>, ks: nat, lo: nat, hi: nat, t: nat)
    requires OffUntil(states, events, ks, lo, hi, t) && FreeSlot(states[lo].threads) == t
    requires (events[lo].CreateKernel? || events[lo].CreateUser?) && events[lo].k != 0
    ensures events[lo].CreateKernel? ==>
      StartsKernel(states[hi + 1].live, events[lo].fn, events[lo].arg, events[lo].k)
    ensures events[lo].CreateUser? ==> StartsUser(states[hi + 1].live, events[lo].entry, events[lo].rsp)
  {
    hide Took, Respects, GaveBack, Reaps, Expires, Switch;
    assert Does(states[lo], events[lo], states[lo + 1], ks);
    FrameWaits(states, events, ks, lo + 1, hi, t);
    assert Does(states[hi], events[hi], states[hi + 1], ks);
    FrameStays(states[hi], events[hi], states[hi + 1], ks, t);
  }

  // While a slot is in use, its thread keeps its space and its stack.
  lemma HoldingsStay(a: Sys, e: Event, b: Sys, ks: nat, t: nat)
    requires Shape(a) && Does(a, e, b, ks) && t < MAX_THREADS
    requires a.threads[t].state != Unused && Shape(b) && b.threads[t].state != Unused
    ensures b.threads[t].space == a.threads[t].space && b.threads[t].isUser == a.threads[t].isUser
    ensures b.threads[t].kstack == a.threads[t].kstack && b.threads[t].kstackTop == a.threads[t].kstackTop
  {
    hide Took, Respects, GaveBack;
  }

  lemma {:induction false} HoldingsWait(states: seq<Sys>, events: seq<Event>, ks: nat, lo: nat, hi: nat, t: nat)
    requires IsHistory(states, events, ks) && lo <= hi <= |events| && t < MAX_THREADS
    requires forall k :: lo <= k <= hi ==> states[k].threads[t].state != Unused
    ensures var x, y := states[lo].threads[t], states[hi].threads[t];
      y.space == x.space && y.isUser == x.isUser && y.kstack == x.kstack && y.kstackTop == x.kstackTop
    decreases hi - lo
  {
    hide Does;
    if lo < hi {
      HoldingsWait(states, events, ks, lo, hi - 1, t);
      assert Does(states[hi - 1], events[hi - 1], states[hi - 1 + 1], ks);
      HoldingsStay(states[hi - 1], events[hi - 1], states[hi], ks, t);
    }
  }

  // ---- what threads hold --------------------------------------------------------------------------

  ghost predicate StackHeld(vm: Vm, k: nat) {
    0 < k && k + KSTACK_PAGES <= BITMAP_PAGES && forall f :: f in Run(k, KSTACK_PAGES) ==> Unowned(vm, f)
  }

  // Slot i is free, or its thread has its own stack and a space to run in. Slot 0 is the boot context.
  ghost predicate ThreadOk(vm: Vm, t: Thread, i: nat, ks: nat) {
    t.state != Unused ==>
      && t.tid == i && t.space in vm.spaces && (t.isUser <==> t.space != ks)
      && (if i == 0 then t.state == Runnable && !t.isUser && t.kstack == 0 && t.kstackTop == 0
          else StackHeld(vm, t.kstack) && t.kstackTop == StackTop(t.kstack))
  }

  // Two threads share neither a user space nor a stack page.
  ghost predicate Separate(t: Thread, u: Thread) {
    t.state != Unused && u.state != Unused ==>
      && (t.isUser && u.isUser ==> t.space != u.space)
      && (t.kstack != 0 && u.kstack != 0 ==> Run(t.kstack, KSTACK_PAGES) !! Run(u.kstack, KSTACK_PAGES))
  }

  ghost predicate Held(threads: seq<Thread>, vm: Vm, ks: nat)
    requires |threads| == MAX_THREADS
  {
    && Ok(vm) && InRange(vm) && ks in vm.spaces
    && threads[0].state == Runnable
    && (forall i: nat :: i < MAX_THREADS ==> ThreadOk(vm, threads[i], i, ks))
    && (forall i: nat, j: nat :: i < MAX_THREADS && j < MAX_THREADS && i != j ==> Separate(threads[i], threads[j]))
  }

  /** The processor agrees with the table: a Runnable thread runs, in its own space, and an interrupt
      from user mode would use its own kernel stack. */
  ghost predicate Control(s: Sys)
    requires Shape(s)
  {
    var t := s.threads[s.cur];
    t.state == Runnable && s.cr3 == t.space && (t.isUser ==> s.rsp0 == t.kstackTop)
  }

  ghost predicate Safe(s: Sys, ks: nat) {
    Shape(s) && Held(s.threads, s.vm, ks) && Control(s)
  }

  /** Whenever a user thread runs, CR3 holds the space it was created with, and an interrupt would switch to the
      top of the four pages that were allocated for it then. */
  lemma RunsInItsSpace(states: seq<Sys>, events: seq<Event>, ks: nat, lo: nat, hi: nat, t: nat)
    requires IsHistory(states, events, ks) && lo < hi <= |events|
    requires t < MAX_THREADS && FreeSlot(states[lo].threads) == t
    requires events[lo].CreateUser? && events[lo].k != 0 && Safe(states[hi], ks) && states[hi].cur == t
    requires forall k :: lo < k <= hi ==> states[k].threads[t].state != Unused
    ensures states[hi].cr3 == events[lo].space
    ensures forall x :: InPagesFrom(events[lo].k, x) <==> states[hi].rsp0 - 16384 <= x < states[hi].rsp0
  {
    hide Took, Respects, GaveBack, Reaps, Expires, Switch, Held;
    assert Does(states[lo], events[lo], states[lo + 1], ks);
    HoldingsWait(states, events, ks, lo + 1, hi, t);
  }

  lemma ZombieStays(a: Sys, e: Event, b: Sys, ks: nat, t: nat)
    requires Shape(a) && Does(a, e, b, ks) && Shape(b) && t < MAX_THREADS && a.threads[t].state == Zombie
    requires e != Event.Reap(t)
    ensures b.threads[t].state == Zombie
  {
    hide Took, Respects, GaveBack;
  }

  lemma {:induction false} ZombieWaits(states: seq<Sys>, events: seq<Event>, ks: nat, lo: nat, hi: nat, t: nat)
    requires IsHistory(states, events, ks) && lo <= hi <= |events| && t < MAX_THREADS
    requires states[lo].threads[t].state == Zombie && forall k :: lo <= k < hi ==> events[k] != Event.Reap(t)
    ensures states[hi].threads[t].state == Zombie
    decreases hi - lo
  {
    hide Does;
    if lo < hi {
      ZombieWaits(states, events, ks, lo, hi - 1, t);
      assert Does(states[hi - 1], events[hi - 1], states[hi - 1 + 1], ks);
      ZombieStays(states[hi - 1], events[hi - 1], states[hi], ks, t);
    }
  }

  /** Exit is final: a thread that exits is off the processor at once and does not run again; its slot waits for
      the reaper. */
  lemma ExitIsFinal(states: seq<Sys>, events: seq<Event>, ks: nat, lo: nat, hi: nat)
    requires IsHistory(states, events, ks) && lo < hi <= |events| && events[lo].Exit? && Safe(states[hi], ks)
    requires forall k :: lo < k < hi ==> events[k] != Event.Reap(states[lo].cur)
    ensures states[hi].cur != states[lo].cur && states[hi].threads[states[lo].cur].state == Zombie
  {
    hide Held;
    var t := states[lo].cur;
    assert Does(states[lo], events[lo], states[lo + 1], ks);
    assert states[lo + 1].threads[t].state == Zombie;
    hide Does;
    ZombieWaits(states, events, ks, lo + 1, hi, t);
  }

  lemma SpacesNotZero(vm: Vm, r: nat)
    requires Ok(vm) && InRange(vm) && r in vm.spaces
    ensures r != 0
  {
    hide Pages, TreeOk;
    RootOwned(vm.mem, r, vm.spaces[r]);
  }

  // Held only looks at what a thread owns, so saving frames keeps it.
  lemma FramesDoNotMatter(s: seq<Thread>, t: seq<Thread>, vm: Vm, ks: nat)
    requires |s| == |t| == MAX_THREADS && Held(s, vm, ks)
    requires forall i :: 0 <= i < MAX_THREADS ==> t[i] == s[i].(frame := t[i].frame)
    ensures Held(t, vm, ks)
  {
    hide Ok, InRange, StackHeld, Run;
    forall i: nat | i < MAX_THREADS ensures ThreadOk(vm, t[i], i, ks) { assert ThreadOk(vm, s[i], i, ks); }
    forall i: nat, j: nat | i < MAX_THREADS && j < MAX_THREADS && i != j ensures Separate(t[i], t[j]) {
      assert Separate(s[i], s[j]);
    }
  }

  lemma BecomesZombie(s: seq<Thread>, c: nat, vm: Vm, ks: nat)
    requires |s| == MAX_THREADS && Held(s, vm, ks) && 0 < c < MAX_THREADS && s[c].state == Runnable
    ensures Held(s[c := s[c].(state := Zombie)], vm, ks)
  {
    hide Ok, InRange, StackHeld, Run;
    var t := s[c := s[c].(state := Zombie)];
    forall i: nat | i < MAX_THREADS ensures ThreadOk(vm, t[i], i, ks) { assert ThreadOk(vm, s[i], i, ks); }
    forall i: nat, j: nat | i < MAX_THREADS && j < MAX_THREADS && i != j ensures Separate(t[i], t[j]) {
      assert Separate(s[i], s[j]);
    }
  }

  lemma ExpirySafe(a: Sys, f: Frame, b: Sys, ks: nat)
    requires Shape(a) && Held(a.threads, a.vm, ks) && a.cr3 == a.threads[a.cur].space && Expires(a, f, b)
    requires a.threads[a.cur].state == Runnable ==> Control(a)
    ensures Safe(b, ks)
  {
    hide Ok, InRange, StackHeld, Separate;
    assert a.threads[0].state == Runnable;
    assert ThreadOk(a.vm, a.threads[b.cur], b.cur, ks);
    SpacesNotZero(a.vm, b.threads[b.cur].space);
    FramesDoNotMatter(a.threads, b.threads, a.vm, ks);
    hide Held;
  }

  lemma TookHolds(a: Vm, k: nat, b: Vm)
    requires Ok(a) && InRange(a) && Took(a, k, b) && k != 0
    ensures Ok(b) && InRange(b) && b.spaces == a.spaces && StackHeld(b, k) && Run(k, KSTACK_PAGES) <= a.free
    ensures forall f :: Unowned(a, f) ==> Unowned(b, f)
  {
    hide TreeOk, Pages;
    TakeRunOk(a, k, KSTACK_PAGES);
    forall s, f | s in a.spaces && f in Run(k, KSTACK_PAGES) ensures f !in Pages(a.spaces[s]) {
      PagesNotFree(a, s);
    }
  }

  lemma StackStays(a: Vm, b: Vm, k: nat)
    requires StackHeld(a, k) && forall f :: f in Run(k, KSTACK_PAGES) ==> Unowned(a, f) ==> Unowned(b, f)
    ensures StackHeld(b, k)
  {
    hide Unowned, Run;
  }

  // Putting a new thread into a free slot.
  lemma SlotFilled(s: seq<Thread>, a: Vm, slot: nat, t: Thread, b: Vm, ks: nat)
    requires |s| == MAX_THREADS && Held(s, a, ks) && slot < MAX_THREADS && s[slot].state == Unused
    requires Took(a, t.kstack, b) && t.kstack != 0
    requires t.state == Runnable && t.tid == slot && t.space in a.spaces && (t.isUser <==> t.space != ks)
    requires t.kstackTop == StackTop(t.kstack)
    requires t.isUser ==> Unshared(s, t.space)
    ensures Held(s[slot := t], b, ks)
  {
    hide Ok, InRange, StackHeld, Took, Run, Unowned, StackTop;
    TookHolds(a, t.kstack, b);
    var u := s[slot := t];
    forall i: nat | i < MAX_THREADS ensures ThreadOk(b, u[i], i, ks) {
      assert ThreadOk(a, s[i], i, ks);
      if i != slot && i != 0 && s[i].state != Unused { StackStays(a, b, s[i].kstack); }
    }
    forall i: nat | i < MAX_THREADS && i != slot ensures Separate(u[i], t) && Separate(t, u[i]) {
      assert ThreadOk(a, s[i], i, ks);
      if s[i].state != Unused && s[i].kstack != 0 { NotFree(a, s[i].kstack); }
    }
    forall i: nat, j: nat | i < MAX_THREADS && j < MAX_THREADS && i != j ensures Separate(u[i], u[j]) {
      assert Separate(s[i], s[j]);
    }
  }

  lemma NotFree(vm: Vm, k: nat)
    requires StackHeld(vm, k)
    ensures Run(k, KSTACK_PAGES) !! vm.free
  {
  }

  // ---- reaping ------------------------------------------------------------------------------------

  lemma GaveBackOk(a: Vm, t: Thread, ks: nat, b: Vm)
    requires Ok(a) && InRange(a) && GaveBack(a, t, ks, b) && StackHeld(a, t.kstack)
    ensures Ok(b) && InRange(b)
  {
    hide TreeOk, Pages, FlatOf, Run;
    var user := t.isUser && t.space != 0 && t.space != ks;
    var c := if user then DropSpace(a, t.space) else a;
    if user { DropSpaceOk(a, t.space); }
    assert InRange(c);
    forall s | s in c.spaces ensures Run(t.kstack, KSTACK_PAGES) !! Pages(c.spaces[s]) {
      assert forall f :: f in Run(t.kstack, KSTACK_PAGES) ==> Unowned(a, f);
    }
    GiveRunOk(c, t.kstack, KSTACK_PAGES);
    assert b == c.(free := c.free + Run(t.kstack, KSTACK_PAGES));
  }

  /** Reaping a zombie takes nothing from any other thread: its space keeps its pages, its stack stays its own. */
  lemma ReapTakesNothing(a: Sys, tid: nat, b: Sys, ks: nat, i: nat)
    requires Shape(a) && Held(a.threads, a.vm, ks) && tid < MAX_THREADS && Reaps(a, tid, b, ks)
    requires i < MAX_THREADS && i != tid && a.threads[i].state != Unused
    ensures b.threads[i] == a.threads[i]
    ensures a.threads[i].space in b.vm.spaces && b.vm.spaces[a.threads[i].space] == a.vm.spaces[a.threads[i].space]
    ensures Pages(b.vm.spaces[a.threads[i].space]) !! b.vm.free
    ensures i != 0 ==> StackHeld(b.vm, a.threads[i].kstack)
  {
    hide TreeOk, Pages, Run, StackTop, InRange;
    assert ThreadOk(a.vm, a.threads[tid], tid, ks) && ThreadOk(a.vm, a.threads[i], i, ks);
    assert Separate(a.threads[i], a.threads[tid]);
    assert tid != 0 || a.threads[tid].state != Zombie;
    if a.threads[tid].state == Zombie {
      SpaceApart(a.vm, a.threads[tid], a.threads[i].space, ks, b.vm);
      if i != 0 { StackApart(a.vm, a.threads[tid], a.threads[i].kstack, ks, b.vm); }
    }
  }

  lemma SpaceApart(a: Vm, t: Thread, r: nat, ks: nat, b: Vm)
    requires Ok(a) && GaveBack(a, t, ks, b) && StackHeld(a, t.kstack) && r in a.spaces && (t.isUser ==> t.space != r)
    ensures r in b.spaces && b.spaces[r] == a.spaces[r] && Pages(b.spaces[r]) !! b.free
  {
    hide TreeOk, Pages, Run;
    assert Run(t.kstack, KSTACK_PAGES) !! Pages(a.spaces[r]);
  }

  lemma StackApart(a: Vm, t: Thread, k: nat, ks: nat, b: Vm)
    requires GaveBack(a, t, ks, b) && StackHeld(a, k) && Run(k, KSTACK_PAGES) !! Run(t.kstack, KSTACK_PAGES)
    ensures StackHeld(b, k)
  {
    hide Pages, Run;
  }

  lemma ReapSafe(a: Sys, tid: nat, b: Sys, ks: nat)
    requires Safe(a, ks) && tid < MAX_THREADS && Reaps(a, tid, b, ks)
    ensures Safe(b, ks)
  {
    hide Ok, InRange, StackHeld, Run, Unowned, StackTop, GaveBack;
    if a.threads[tid].state == Zombie {
      assert ThreadOk(a.vm, a.threads[tid], tid, ks);
      GaveBackOk(a.vm, a.threads[tid], ks, b.vm);
      SpaceApart(a.vm, a.threads[tid], ks, ks, b.vm);
      forall i: nat | i < MAX_THREADS ensures ThreadOk(b.vm, b.threads[i], i, ks) {
        assert ThreadOk(a.vm, a.threads[i], i, ks);
        if i != tid && a.threads[i].state != Unused { ReapTakesNothing(a, tid, b, ks, i); }
      }
      forall i: nat, j: nat | i < MAX_THREADS && j < MAX_THREADS && i != j
        ensures Separate(b.threads[i], b.threads[j])
      {
        assert Separate(a.threads[i], a.threads[j]);
      }
    }
  }

  // ---- memory work --------------------------------------------------------------------------------

  lemma MemorySafe(a: Sys, b: Sys, ks: nat)
    requires Safe(a, ks) && b == a.(vm := b.vm) && Respects(a.threads, a.vm, b.vm)
    ensures Safe(b, ks)
  {
    hide Ok, InRange, StackHeld, Run, Unowned, StackTop;
    assert ThreadOk(a.vm, a.threads[0], 0, ks);
    forall i: nat | i < MAX_THREADS ensures ThreadOk(b.vm, b.threads[i], i, ks) {
      assert ThreadOk(a.vm, a.threads[i], i, ks);
      if i != 0 && a.threads[i].state != Unused { StackStays(a.vm, b.vm, a.threads[i].kstack); }
    }
  }

  /** The memory work the kernel does is of this kind: an sbrk, a spawn that filled a new space, one that
      failed, and the removal of a space no thread runs in. */
  lemma SbrkRespects(threads: seq<Thread>, a: Vm, b: Vm, r: nat, lost: set<nat>)
    requires Ok(a) && Ok(b) && InRange(b) && Balanced(a, b, r, lost)
    ensures Respects(threads, a, b) && Loses(a, b, lost)
  {
    hide TreeOk, InRange, Pages, FlatOf;
    assert b.free + Pages(b.spaces[r]) <= a.free + Pages(a.spaces[r]);
    forall f | f in lost ensures !Unowned(a, f) && Unowned(b, f) {
      assert f in a.free + Pages(a.spaces[r]);
    }
    forall f | Unowned(b, f) && f !in lost ensures Unowned(a, f) {
      assert f !in b.free + Pages(b.spaces[r]) + lost;
      assert forall s :: s in a.spaces ==> s in b.spaces;
    }
  }

  lemma SpawnRespects(threads: seq<Thread>, a: Vm, b: Vm, r: nat, lost: set<nat>)
    requires Ok(a) && Ok(b) && InRange(b) && (Spawning(a, b, r, lost) || Undone(a, b, lost))
    ensures Respects(threads, a, b) && Loses(a, b, lost)
  {
    hide TreeOk, InRange, Pages, FlatOf;
    assert b.free <= a.free;
    forall f | f in lost ensures !Unowned(a, f) && Unowned(b, f) {
      assert f in a.free;
    }
    forall f | Unowned(b, f) && f !in lost ensures Unowned(a, f) {
      assert forall s :: s in a.spaces ==> s in b.spaces;
    }
  }

  lemma DropRespects(threads: seq<Thread>, a: Vm, b: Vm, r: nat)
    requires Ok(b) && InRange(b) && Dropped(a, b, r)
    requires Unshared(threads, r)
    ensures Respects(threads, a, b) && Loses(a, b, {})
  {
    hide TreeOk, InRange, Pages, FlatOf;
    forall f | Unowned(b, f) ensures Unowned(a, f) {
      forall s | s in a.spaces ensures f !in Pages(a.spaces[s]) {
        assert s != r ==> s in b.spaces && b.spaces[s] == a.spaces[s];
      }
    }
  }

  // ---- whole runs ---------------------------------------------------------------------------------

  predicate Unshared(threads: seq<Thread>, space: nat) {
    forall i :: 0 <= i < |threads| && threads[i].state != Unused ==> threads[i].space != space
  }

  // What callers owe: the boot context never exits, and a process gets a space of its own.
  ghost predicate Proper(a: Sys, e: Event, ks: nat)
    requires Shape(a)
  {
    && (e.Exit? ==> a.cur != 0)
    && (e.CreateUser? ==> e.space in a.vm.spaces && e.space != ks && Unshared(a.threads, e.space))
  }

  /** Creating a user thread keeps the machine safe exactly when a slot was missing or a stack was found:
      a slot whose stack could not be allocated stays Runnable with an empty context. */
  lemma CreateUserSafeIff(a: Sys, e: Event, b: Sys, ks: nat)
    requires Safe(a, ks) && Does(a, e, b, ks) && Proper(a, e, ks) && e.CreateUser?
    ensures Safe(b, ks) <==> FreeSlot(a.threads) == MAX_THREADS || HasRun(a.vm.free, KSTACK_PAGES)
  {
    hide Ok, InRange, StackHeld, Run, Unowned, StackTop, Pmm.IsRun, Separate;
    var slot := FreeSlot(a.threads);
    if slot < MAX_THREADS {
      if HasRun(a.vm.free, KSTACK_PAGES) {
        StackNotZero(a.vm, e.k, b.vm);
        SlotFilled(a.threads, a.vm, slot, b.threads[slot], b.vm, ks);
      } else {
        NoStackAtZero(b.vm);
        assert slot != 0 && !ThreadOk(b.vm, b.threads[slot], slot, ks);
      }
    }
  }

  lemma NoStackAtZero(vm: Vm)
    ensures !StackHeld(vm, 0)
  {
  }

  lemma StackNotZero(a: Vm, k: nat, b: Vm)
    requires InRange(a) && Took(a, k, b) && HasRun(a.free, KSTACK_PAGES)
    ensures k != 0
  {
    assert Pmm.IsRun(a.free, k, KSTACK_PAGES);
    assert k in a.free;
  }

  // The stack of a user thread that was created could be allocated.
  ghost predicate Funded(a: Sys, e: Event)
    requires Shape(a)
  {
    e.CreateUser? ==> FreeSlot(a.threads) == MAX_THREADS || HasRun(a.vm.free, KSTACK_PAGES)
  }

  lemma KernelSafe(a: Sys, e: Event, b: Sys, ks: nat)
    requires Safe(a, ks) && Does(a, e, b, ks) && e.CreateKernel?
    ensures Safe(b, ks)
  {
    hide Ok, InRange, StackHeld, Run, Unowned, StackTop, Pmm.IsRun, Separate, Took;
    var slot := FreeSlot(a.threads);
    if slot < MAX_THREADS && e.k != 0 {
      SlotFilled(a.threads, a.vm, slot, b.threads[slot], b.vm, ks);
    }
  }

  lemma SwitchSafe(a: Sys, e: Event, b: Sys, ks: nat)
    requires Safe(a, ks) && Does(a, e, b, ks) && Proper(a, e, ks) && (e.Tick? || e.Yield? || e.Exit?)
    ensures Safe(b, ks)
  {
    hide Held, Switch;
    if e.Exit? {
      BecomesZombie(a.threads, a.cur, a.vm, ks);
      ExpirySafe(a.(threads := a.threads[a.cur := a.threads[a.cur].(state := Zombie)]), e.f, b, ks);
    } else if Expiry(a, e) {
      ExpirySafe(a, e.f, b, ks);
    }
  }

  lemma StepSafe(a: Sys, e: Event, b: Sys, ks: nat)
    requires Safe(a, ks) && Does(a, e, b, ks) && Proper(a, e, ks) && Funded(a, e)
    ensures Safe(b, ks)
  {
    hide Held, Control, Respects, Took, Reaps, Switch, Expires;
    match e
    case Tick(_) => SwitchSafe(a, e, b, ks);
    case Yield(_) => SwitchSafe(a, e, b, ks);
    case Exit(_) => SwitchSafe(a, e, b, ks);
    case CreateKernel(_, _, _) => KernelSafe(a, e, b, ks);
    case CreateUser(_, _, _, _) => CreateUserSafeIff(a, e, b, ks);
    case Reap(tid) => ReapSafe(a, tid, b, ks);
    case Memory(_) => MemorySafe(a, b, ks);
  }

  /** Over every run: the thread on the processor is alive, runs in its own space and on its own stack. */
  lemma {:induction false} RunsStaySafe(states: seq<Sys>, events: seq<Event>, ks: nat, n: nat)
    requires IsHistory(states, events, ks) && Safe(states[0], ks) && n <= |events|
    requires forall i :: 0 <= i < |events| ==> Proper(states[i], events[i], ks) && Funded(states[i], events[i])
    ensures Safe(states[n], ks)
  {
    hide Safe, Does, Proper, Funded;
    if n > 0 {
      RunsStaySafe(states, events, ks, n - 1);
      assert Does(states[n - 1], events[n - 1], states[n - 1 + 1], ks);
      assert Proper(states[n - 1], events[n - 1], ks) && Funded(states[n - 1], events[n - 1]);
      StepSafe(states[n - 1], events[n - 1], states[n], ks);
    }
  }

  // The loaded space keeps all its pages, and the stack in use stays in use.
  ghost predicate RunningSpared(a: Sys, b: Sys)
    requires Shape(a)
  {
    && a.cr3 in a.vm.spaces && a.cr3 in b.vm.spaces && b.vm.spaces[a.cr3] == a.vm.spaces[a.cr3]
    && Pages(b.vm.spaces[a.cr3]) !! b.vm.free
    && (a.cur != 0 ==> StackHeld(b.vm, a.threads[a.cur].kstack))
  }

  lemma ReapSpares(a: Sys, tid: nat, b: Sys, ks: nat)
    requires Safe(a, ks) && tid < MAX_THREADS && Reaps(a, tid, b, ks)
    ensures RunningSpared(a, b)
  {
    hide Ok, InRange, StackHeld, Pages, GaveBack, Separate, Run, StackTop;
    assert ThreadOk(a.vm, a.threads[a.cur], a.cur, ks);
    if tid == a.cur {
      PagesNotFree(a.vm, a.cr3);
    } else {
      ReapTakesNothing(a, tid, b, ks, a.cur);
    }
  }

  /** A reap anywhere in a run destroys neither the loaded space nor the kernel stack in use. */
  lemma ReapInARun(states: seq<Sys>, events: seq<Event>, ks: nat, n: nat)
    requires IsHistory(states, events, ks) && Safe(states[0], ks) && n < |events| && events[n].Reap?
    requires forall i :: 0 <= i < |events| ==> Proper(states[i], events[i], ks) && Funded(states[i], events[i])
    ensures RunningSpared(states[n], states[n + 1])
  {
    hide Safe, Proper, Funded, Reaps, RunningSpared;
    RunsStaySafe(states, events, ks, n);
    assert Does(states[n], events[n], states[n + 1], ks);
    ReapSpares(states[n], events[n].tid, states[n + 1], ks);
  }

  // ---- conservation -------------------------------------------------------------------------------

  // Page f belongs to the kernel stack of a thread.
  ghost predicate InStack(threads: seq<Thread>, f: nat) {
    exists i :: 0 <= i < |threads| && OnStack(threads[i], f)
  }

  ghost predicate OnStack(t: Thread, f: nat) { t.state != Unused && t.kstack != 0 && f in Run(t.kstack, KSTACK_PAGES) }

  /** Every managed page is in exactly one place: free, in one address space, in one kernel stack, or lost. */
  ghost predicate Books(s: Sys, lost: set<nat>, managed: set<nat>) {
    && (forall f :: f in managed <==> !Unowned(s.vm, f) || InStack(s.threads, f) || f in lost)
    && (forall f :: InStack(s.threads, f) ==> Unowned(s.vm, f) && f !in lost)
    && (forall f :: f in lost ==> Unowned(s.vm, f))
  }

  // The books of a safe machine can be opened at any time.
  lemma BooksOpen(s: Sys, ks: nat) returns (managed: set<nat>)
    requires Safe(s, ks)
    ensures Books(s, {}, managed)
  {
    managed := s.vm.half + set f: nat | f < BITMAP_PAGES && (!Unowned(s.vm, f) || InStack(s.threads, f));
    hide Ok, Run, StackTop, Separate;
    forall f: nat | InStack(s.threads, f) ensures f < BITMAP_PAGES && Unowned(s.vm, f) {
      var i :| 0 <= i < |s.threads| && OnStack(s.threads[i], f);
      assert ThreadOk(s.vm, s.threads[i], i, ks);
    }
    forall f: nat | !Unowned(s.vm, f) ensures f < BITMAP_PAGES || f in s.vm.half { TrackedInRange(s.vm, f); }
  }

  lemma TrackedInRange(vm: Vm, f: nat)
    requires InRange(vm) && !Unowned(vm, f)
    ensures f < BITMAP_PAGES || f in vm.half
  {
    hide Pages;
  }

  lemma SameStacks(s: seq<Thread>, t: seq<Thread>, f: nat)
    requires |s| == |t|
    requires forall i :: 0 <= i < |s| ==> t[i].kstack == s[i].kstack && (t[i].state == Unused <==> s[i].state == Unused)
    ensures InStack(t, f) <==> InStack(s, f)
  {
    hide Run;
    if i :| 0 <= i < |s| && OnStack(s[i], f) { assert OnStack(t[i], f); }
    if i :| 0 <= i < |t| && OnStack(t[i], f) { assert OnStack(s[i], f); }
  }

  lemma StackAdded(s: seq<Thread>, slot: nat, t: Thread, f: nat)
    requires slot < |s| && s[slot].state == Unused && t.state != Unused && t.kstack != 0
    ensures InStack(s[slot := t], f) <==> InStack(s, f) || f in Run(t.kstack, KSTACK_PAGES)
  {
    hide Run;
    var u := s[slot := t];
    if i :| 0 <= i < |s| && OnStack(s[i], f) { assert OnStack(u[i], f); }
    if f in Run(t.kstack, KSTACK_PAGES) { assert OnStack(u[slot], f); }
    if i :| 0 <= i < |u| && OnStack(u[i], f) { assert i != slot ==> OnStack(s[i], f); }
  }

  lemma StackRemoved(s: seq<Thread>, vm: Vm, ks: nat, tid: nat, f: nat)
    requires |s| == MAX_THREADS && Held(s, vm, ks) && 0 < tid < MAX_THREADS && s[tid].state != Unused
    ensures InStack(s[tid := ZERO_THREAD], f) <==> InStack(s, f) && f !in Run(s[tid].kstack, KSTACK_PAGES)
  {
    hide Run, Ok, InRange, StackTop;
    var u := s[tid := ZERO_THREAD];
    assert ThreadOk(vm, s[tid], tid, ks);
    hide ThreadOk, StackHeld;
    if i :| 0 <= i < |u| && OnStack(u[i], f) {
      assert OnStack(s[i], f) && Separate(s[i], s[tid]);
    }
    if i :| 0 <= i < |s| && OnStack(s[i], f) { assert i != tid ==> OnStack(u[i], f); }
  }

  // Taking a kernel stack.
  lemma FillBooks(a: Sys, slot: nat, t: Thread, b: Sys, lost: set<nat>, managed: set<nat>)
    requires Shape(a) && Books(a, lost, managed) && Ok(a.vm) && InRange(a.vm)
    requires slot < MAX_THREADS && a.threads[slot].state == Unused && t.state != Unused && t.kstack != 0
    requires Took(a.vm, t.kstack, b.vm) && b.threads == a.threads[slot := t]
    ensures Books(b, lost, managed)
  {
    TookLoses(a.vm, t.kstack, b.vm);
    hide Took, Run, Unowned, InStack, Ok, InRange;
    forall f ensures InStack(b.threads, f) <==> InStack(a.threads, f) || f in Run(t.kstack, KSTACK_PAGES) {
      if f >= 0 { StackAdded(a.threads, slot, t, f); }
    }
  }

  lemma TookLoses(a: Vm, k: nat, b: Vm)
    requires Ok(a) && InRange(a) && Took(a, k, b) && k != 0
    ensures Loses(a, b, Run(k, KSTACK_PAGES))
  {
    hide Ok, InRange, Took;
    TookHolds(a, k, b);
    TookIs(a, k, b);
    HalfNotFree(a);
    hide Pages, Run;
  }

  lemma TookIs(a: Vm, k: nat, b: Vm)
    requires Took(a, k, b)
    ensures b.spaces == a.spaces && b.half == a.half && b.free <= a.free && a.free - b.free <= Run(k, KSTACK_PAGES)
  {
    hide Run;
  }

  // Giving space and stack back.
  lemma ReapBooks(a: Sys, tid: nat, b: Sys, ks: nat, lost: set<nat>, managed: set<nat>)
    requires Safe(a, ks) && tid < MAX_THREADS && Reaps(a, tid, b, ks) && Books(a, lost, managed)
    ensures Books(b, lost, managed)
  {
    hide Books, Run, InStack, Ok, InRange, GaveBack, StackHeld, StackTop, Separate;
    if a.threads[tid].state == Zombie {
      var t := a.threads[tid];
      assert ThreadOk(a.vm, t, tid, ks) && tid != 0;
      NoStackAtZero(a.vm);
      GaveBackFrees(a.vm, t, ks, b.vm);
      hide Held;
      forall f: nat ensures InStack(b.threads, f) <==> InStack(a.threads, f) && f !in Run(t.kstack, KSTACK_PAGES) {
        StackRemoved(a.threads, a.vm, ks, tid, f);
      }
      forall f: nat | f in Run(t.kstack, KSTACK_PAGES) ensures InStack(a.threads, f) { StackIs(a.threads, tid, f); }
      BooksMove(a, b, Run(t.kstack, KSTACK_PAGES), lost, managed);
    }
  }

  lemma BooksMove(a: Sys, b: Sys, k: set<nat>, lost: set<nat>, managed: set<nat>)
    requires Books(a, lost, managed)
    requires forall f :: Unowned(b.vm, f) <==> Unowned(a.vm, f) && f !in k
    requires forall f :: InStack(b.threads, f) <==> InStack(a.threads, f) && f !in k
    requires forall f :: f in k ==> InStack(a.threads, f)
    ensures Books(b, lost, managed)
  {
    hide Unowned, InStack;
  }

  lemma StackIs(s: seq<Thread>, i: nat, f: nat)
    requires i < |s| && s[i].state != Unused && s[i].kstack != 0 && f in Run(s[i].kstack, KSTACK_PAGES)
    ensures InStack(s, f)
  {
    assert OnStack(s[i], f);
  }

  lemma GaveBackFrees(a: Vm, t: Thread, ks: nat, b: Vm)
    requires GaveBack(a, t, ks, b) && StackHeld(a, t.kstack)
    ensures forall f :: Unowned(b, f) <==> Unowned(a, f) && f !in Run(t.kstack, KSTACK_PAGES)
  {
    hide Pages, Run;
    forall f: nat | Unowned(b, f) ensures Unowned(a, f) {
      forall s | s in a.spaces ensures f !in Pages(a.spaces[s]) {
        assert s in b.spaces ==> b.spaces[s] == a.spaces[s];
      }
    }
  }

  lemma MemoryBooks(a: Sys, b: Sys, more: set<nat>, lost: set<nat>, managed: set<nat>)
    requires b == a.(vm := b.vm) && Loses(a.vm, b.vm, more) && Books(a, lost, managed)
    ensures Books(b, lost + more, managed)
  {
    hide Unowned, InStack;
  }

  // The pages an event loses.
  function LostIn(e: Event): set<nat> { if e.Memory? then e.lost else {} }

  lemma StepBooks(a: Sys, e: Event, b: Sys, ks: nat, lost: set<nat>, managed: set<nat>)
    requires Safe(a, ks) && Does(a, e, b, ks) && Proper(a, e, ks) && Funded(a, e) && Books(a, lost, managed)
    ensures Books(b, lost + LostIn(e), managed)
  {
    hide Books, Held, Respects, Took, Reaps, Switch, Expires, MakesKernel, MakesUser, Loses;
    assert lost + {} == lost;
    match e
    case Tick(_) => SwitchBooks(a, e, b, ks, lost, managed);
    case Yield(_) => SwitchBooks(a, e, b, ks, lost, managed);
    case Exit(_) => SwitchBooks(a, e, b, ks, lost, managed);
    case CreateKernel(_, _, _) => CreateBooks(a, e, b, ks, lost, managed);
    case CreateUser(_, _, _, _) => CreateBooks(a, e, b, ks, lost, managed);
    case Reap(tid) => ReapBooks(a, tid, b, ks, lost, managed);
    case Memory(more) => MemoryBooks(a, b, more, lost, managed);
  }

  lemma SwitchBooks(a: Sys, e: Event, b: Sys, ks: nat, lost: set<nat>, managed: set<nat>)
    requires Shape(a) && Does(a, e, b, ks) && (e.Tick? || e.Yield? || e.Exit?) && Books(a, lost, managed)
    requires a.threads[a.cur].state == Runnable
    ensures Books(b, lost, managed)
  {
    hide Unowned, InStack;
    assert b.vm == a.vm && |b.threads| == |a.threads|;
    forall f ensures InStack(b.threads, f) <==> InStack(a.threads, f) {
      if f >= 0 { SameStacks(a.threads, b.threads, f); }
    }
  }

  lemma CreateBooks(a: Sys, e: Event, b: Sys, ks: nat, lost: set<nat>, managed: set<nat>)
    requires Safe(a, ks) && Does(a, e, b, ks) && (e.CreateKernel? || e.CreateUser?) && Funded(a, e)
    requires Books(a, lost, managed)
    ensures Books(b, lost, managed)
  {
    hide Books, Ok, InRange, StackTop, HasRun;
    var slot := FreeSlot(a.threads);
    if slot < MAX_THREADS {
      if e.CreateUser? { StackNotZero(a.vm, e.k, b.vm); }
      if e.k != 0 { FillBooks(a, slot, b.threads[slot], b, lost, managed); }
    }
  }

  // The pages lost in the first n events.
  function LostBy(events: seq<Event>, n: nat): set<nat>
    requires n <= |events|
  {
    if n == 0 then {} else LostBy(events, n - 1) + LostIn(events[n - 1])
  }

  /** Conservation over every run, with any interleaving of spawns, sbrks, exits and reaps: the pages that were free,
      in a space or in a kernel stack at the start are so at every later time, each in exactly one place, except for
      the pages that memory operations lost. */
  lemma {:induction false} RunsConserve(states: seq<Sys>, events: seq<Event>, ks: nat, n: nat, managed: set<nat>)
    requires IsHistory(states, events, ks) && Safe(states[0], ks) && n <= |events| && Books(states[0], {}, managed)
    requires forall i :: 0 <= i < |events| ==> Proper(states[i], events[i], ks) && Funded(states[i], events[i])
    ensures Books(states[n], LostBy(events, n), managed)
  {
    hide Safe, Does, Proper, Funded, Books;
    if n > 0 {
      RunsConserve(states, events, ks, n - 1, managed);
      RunsStaySafe(states, events, ks, n - 1);
      assert Does(states[n - 1], events[n - 1], states[n - 1 + 1], ks);
      assert Proper(states[n - 1], events[n - 1], ks) && Funded(states[n - 1], events[n - 1]);
      StepBooks(states[n - 1], events[n - 1], states[n], ks, LostBy(events, n - 1), managed);
    }
  }

  lemma {:induction false} HalfStays(states: seq<Sys>, events: seq<Event>, ks: nat, n: nat)
    requires IsHistory(states, events, ks) && n <= |events|
    ensures states[n].vm.half == states[0].vm.half
  {
    if n > 0 {
      HalfStays(states, events, ks, n - 1);
      assert Does(states[n - 1], events[n - 1], states[n - 1 + 1], ks);
      HalfStep(states[n - 1], events[n - 1], states[n], ks);
    }
    hide IsHistory;
  }

  lemma HalfStep(a: Sys, e: Event, b: Sys, ks: nat)
    requires Shape(a) && Does(a, e, b, ks)
    ensures b.vm.half == a.vm.half
  {
    hide Pages, Run, Ok, InRange, Unowned, HasRun;
  }

  // No thread but the boot context.
  predicate Quiet(threads: seq<Thread>) { forall i :: 1 <= i < |threads| ==> threads[i].state == Unused }

  /** When all processes of a run have been reaped and the spaces are those of the start, exactly the lost pages
      are missing from the free set. */
  lemma AllComesBack(states: seq<Sys>, events: seq<Event>, ks: nat, managed: set<nat>)
    requires IsHistory(states, events, ks) && Safe(states[0], ks) && Books(states[0], {}, managed)
    requires forall i :: 0 <= i < |events| ==> Proper(states[i], events[i], ks) && Funded(states[i], events[i])
    requires var last := states[|events|];
      Quiet(states[0].threads) && Quiet(last.threads) && last.vm.spaces == states[0].vm.spaces
    ensures states[|events|].vm.free + LostBy(events, |events|) == states[0].vm.free
    ensures states[|events|].vm.free !! LostBy(events, |events|)
  {
    var a, b, lost := states[0], states[|events|], LostBy(events, |events|);
    RunsConserve(states, events, ks, |events|, managed);
    RunsStaySafe(states, events, ks, |events|);
    NoStacks(a, ks);
    NoStacks(b, ks);
    HalfStays(states, events, ks, |events|);
    hide IsHistory, Safe, Proper, Funded, InStack, Pages;
    BackFrom(a, b, ks, lost, managed);
  }

  lemma NoStacks(s: Sys, ks: nat)
    requires Safe(s, ks) && Quiet(s.threads)
    ensures Ok(s.vm) && forall f :: !InStack(s.threads, f)
  {
    hide Ok, InRange, Run, StackHeld;
    assert ThreadOk(s.vm, s.threads[0], 0, ks);
  }

  lemma BackFrom(a: Sys, b: Sys, ks: nat, lost: set<nat>, managed: set<nat>)
    requires Books(a, {}, managed) && Books(b, lost, managed) && Ok(a.vm) && Ok(b.vm)
    requires b.vm.spaces == a.vm.spaces && b.vm.half == a.vm.half
    requires forall f :: !InStack(a.threads, f) && !InStack(b.threads, f)
    ensures b.vm.free + lost == a.vm.free && b.vm.free !! lost
  {
    hide InStack, TreeOk, Pages;
    forall f ensures f in a.vm.free <==> f in b.vm.free || f in lost {
      if f >= 0 { FreeOrOwned(a.vm, f); FreeOrOwned(b.vm, f); }
    }
  }

  // Given the spaces, a tracked page is free or not.
  lemma FreeOrOwned(vm: Vm, f: nat)
    requires Ok(vm)
    ensures f in vm.free <==>
      !Unowned(vm, f) && f !in vm.half && forall r :: r in vm.spaces ==> f !in Pages(vm.spaces[r])
  {
    hide TreeOk, Pages;
  }

  // ---- where creation fails -----------------------------------------------------------------------

  // Only the boot context, in space 1.
  function BootThreads(): (r: seq<Thread>)
    ensures |r| == MAX_THREADS && r[0] == ZERO_THREAD.(state := Runnable, space := 1)
    ensures forall i :: 1 <= i < MAX_THREADS ==> r[i] == ZERO_THREAD
  {
    seq(MAX_THREADS, i => if i == 0 then ZERO_THREAD.(state := Runnable, space := 1) else ZERO_THREAD)
  }

  /** A safe machine without four free pages in a row: creating a user thread makes it unsafe. */
  lemma CreateUserExample() returns (a: Sys, e: Event, b: Sys)
    ensures Safe(a, 1) && e.CreateUser? && Does(a, e, b, 1) && Proper(a, e, 1) && !Safe(b, 1)
  {
    hide Ok, InRange, Held, BootThreads;
    var threads := BootThreads();
    var vm := TwoRoots();
    a := Sys(threads, 0, 0, ZERO_FRAME, 1, 0, vm);
    BootHeld(threads, vm, 1);
    e := CreateUser(0, 0, 2, 0);
    assert FreeSlot(threads, 1) == 1;
    assert FreeSlot(threads) == 1;
    b := a.(threads := threads[1 := ZERO_THREAD.(tid := 1, state := Runnable)]);
    NoRunInNothing();
    CreateUserSafeIff(a, e, b, 1);
  }

  lemma NoRunInNothing()
    ensures !HasRun({}, KSTACK_PAGES)
  {
    if HasRun({}, KSTACK_PAGES) {
      RunNeedsPages({}, KSTACK_PAGES);
      assert false;
    }
  }

  // Two empty spaces and no free page.
  lemma TwoRoots() returns (vm: Vm)
    ensures Ok(vm) && InRange(vm) && 1 in vm.spaces && 2 in vm.spaces && vm.free == {}
  {
    var zero := ZeroTable();
    var v0 := Vm(map[], map[], {1, 2}, {});
    NewRootOk(v0, 1, zero);
    NewRootInRange(v0, 1, zero);
    var v1 := NewRoot(v0, 1, zero);
    assert v1.free == {2};
    NewRootOk(v1, 2, zero);
    NewRootInRange(v1, 2, zero);
    vm := NewRoot(v1, 2, zero);
    assert vm.free == {};
  }

  lemma BootHeld(threads: seq<Thread>, vm: Vm, ks: nat)
    requires |threads| == MAX_THREADS && Ok(vm) && InRange(vm) && ks in vm.spaces
    requires threads[0] == ZERO_THREAD.(state := Runnable, space := ks)
    requires forall i :: 1 <= i < MAX_THREADS ==> threads[i] == ZERO_THREAD
    ensures Held(threads, vm, ks)
  {
    hide Ok, InRange, StackHeld, Run;
  }

  lemma StackSurvives(a: Vm, t: Thread, c: Vm)
    requires StackHeld(a, t.kstack) && (c == a || Dropped(a, c, t.space))
    ensures 0 < t.kstack && t.kstack + KSTACK_PAGES <= BITMAP_PAGES && Run(t.kstack, KSTACK_PAGES) !! c.free
    ensures Run(t.kstack, KSTACK_PAGES) !! c.half
    ensures forall s :: s in c.spaces ==> Run(t.kstack, KSTACK_PAGES) !! Pages(c.spaces[s])
  {
    hide Pages, Run, FlatOf;
  }

  // ---- the kernel's code --------------------------------------------------------------------------

  class Scheduler {
    const m: AddressSpaceManager
    const threads: array<Thread>
    var cur: nat
    var slice: nat
    var live: Frame
    var cr3: nat
    var rsp0: nat

    ghost function State(): Sys
      reads this, threads, m, m.pmm, m.pmm.bitmap
    {
      Sys(threads[..], cur, slice, live, cr3, rsp0, m.State())
    }

    ghost predicate Valid()
      reads this, threads, m, m.pmm, m.pmm.bitmap
    {
      m.Valid() && threads.Length == MAX_THREADS && cur < MAX_THREADS && slice < TIMESLICE
    }

    // init: slot 0 is the boot context, already running in the kernel's space.
    constructor (m: AddressSpaceManager, boot: Frame, rsp0: nat)
      requires m.Valid()
      ensures this.m == m && Valid() && fresh(threads) && m.State() == old(m.State()) && Safe(State(), m.kernelSpace)
    {
      hide Held, Ok, InRange, SharedHalf, Pmm.Allocator.Valid;
      this.m := m;
      threads := new Thread[MAX_THREADS](_ => ZERO_THREAD);
      cur, slice, live, cr3, this.rsp0 := 0, 0, boot, m.kernelSpace, rsp0;
      new;
      threads[0] := ZERO_THREAD.(state := Runnable, space := m.kernelSpace);
      BootHeld(threads[..], m.State(), m.kernelSpace);
    }

    method PickNext() returns (n: nat)
      requires Valid()
      ensures IsNext(threads[..], cur, n)
    {
      hide AddressSpaceManager.Valid;
      for i := 1 to MAX_THREADS + 1
        invariant forall t :: 0 <= t < MAX_THREADS && Distance(cur, t) < i ==> threads[t].state != Runnable
      {
        var idx := (cur + i) % MAX_THREADS;
        assert Distance(cur, idx) == i;
        if threads[idx].state == Runnable { return idx; }
        assert forall t :: 0 <= t < MAX_THREADS && Distance(cur, t) == i ==> t == idx;
      }
      return cur;
    }

    method SwitchTo(f: Frame, to: nat)
      requires Valid() && to < MAX_THREADS && to != cur
      modifies this`cur, this`live, this`cr3, this`rsp0, threads
      ensures Valid() && State() == Switch(old(State()), f, to)
    {
      hide AddressSpaceManager.Valid;
      ghost var a := State();
      var was := cur;
      threads[was] := threads[was].(frame := f);
      cur := to;
      var nt := threads[to];
      live := nt.frame;
      if nt.space != 0 && nt.space != threads[was].space { cr3 := nt.space; }
      if nt.kstackTop != 0 { rsp0 := nt.kstackTop; }
      assert threads[..] == a.threads[was := a.threads[was].(frame := f)];
    }

    // The part of sched_tick after the time slice has ended.
    method Reschedule(f: Frame)
      requires Valid() && slice == 0
      modifies this`cur, this`live, this`cr3, this`rsp0, threads
      ensures Valid() && Expires(old(State()), f, State())
    {
      hide AddressSpaceManager.Valid;
      var next := PickNext();
      if next == cur {
        live := f;
      } else {
        SwitchTo(f, next);
      }
    }

    method SchedTick(f: Frame)
      requires Valid()
      modifies this, threads
      ensures Valid() && Does(old(State()), Tick(f), State(), m.kernelSpace)
    {
      hide AddressSpaceManager.Valid;
      if slice + 1 < TIMESLICE {
        slice, live := slice + 1, f;
      } else {
        slice := 0;
        Reschedule(f);
      }
    }

    // The slice is declared over and the timer path is taken at once.
    method SchedYield(f: Frame)
      requires Valid()
      modifies this, threads
      ensures Valid() && Does(old(State()), Yield(f), State(), m.kernelSpace)
    {
      hide AddressSpaceManager.Valid;
      slice := 0;
      Reschedule(f);
    }

    method ThreadExit(f: Frame)
      requires Valid()
      modifies this, threads
      ensures Valid() && Does(old(State()), Exit(f), State(), m.kernelSpace)
    {
      hide AddressSpaceManager.Valid;
      threads[cur] := threads[cur].(state := Zombie);
      SchedYield(f);
    }

    method FindSlot() returns (slot: nat)
      requires Valid()
      ensures slot == FreeSlot(threads[..])
    {
      hide AddressSpaceManager.Valid;
      slot := 0;
      while slot < MAX_THREADS
        invariant slot <= MAX_THREADS && FreeSlot(threads[..]) == FreeSlot(threads[..], slot)
      {
        if threads[slot].state == Unused { return; }
        slot := slot + 1;
      }
    }

    method TakeStack() returns (k: nat)
      requires Valid()
      modifies m.pmm`free, m.pmm`freePages, m.pmm.bitmap
      ensures Valid() && Took(old(m.State()), k, m.State())
      ensures k == 0 ==> m.State() == old(m.State())
    {
      hide Ok, InRange, SharedHalf, Pmm.Allocator.Valid, Run;
      ghost var a := m.State();
      NoRunAtZero(a, KSTACK_PAGES);
      k := m.pmm.AllocPages(KSTACK_PAGES, PAGE_SIZE);
      TakeRunOk(a, k, KSTACK_PAGES);
    }

    method KthreadCreate(fn: nat, arg: nat) returns (tid: int, ghost k: nat)
      requires Valid()
      modifies threads, m.pmm`free, m.pmm`freePages, m.pmm.bitmap
      ensures Valid() && Does(old(State()), CreateKernel(fn, arg, k), State(), m.kernelSpace)
      ensures -1 <= tid < MAX_THREADS
      ensures tid >= 0 ==>
        threads[tid].tid == tid && threads[tid].state == Runnable && threads[tid].space == m.kernelSpace
      ensures tid >= 0 ==>
        StartsKernel(threads[tid].frame, fn, arg, k) && !threads[tid].isUser && threads[tid].kstack == k
      ensures tid == if FreeSlot(old(threads[..])) == MAX_THREADS || k == 0 then -1 else FreeSlot(old(threads[..]))
    {
      hide AddressSpaceManager.Valid, Took;
      var slot := FindSlot();
      if slot == MAX_THREADS { return -1, 0; }
      var pa := TakeStack();
      if pa == 0 { return -1, 0; }
      threads[slot] := KernelThread(slot, m.kernelSpace, pa, fn, arg);
      return slot, pa;
    }

    method ThreadCreateUser(entry: nat, rsp: nat, space: nat) returns (tid: int, ghost k: nat)
      requires Valid()
      modifies threads, m.pmm`free, m.pmm`freePages, m.pmm.bitmap
      ensures Valid() && Does(old(State()), CreateUser(entry, rsp, space, k), State(), m.kernelSpace)
      ensures -1 <= tid < MAX_THREADS
      ensures tid >= 0 ==> threads[tid].tid == tid && threads[tid].state == Runnable && threads[tid].space == space
      ensures tid >= 0 ==> StartsUser(threads[tid].frame, entry, rsp) && threads[tid].isUser && threads[tid].kstack == k
      ensures tid == if FreeSlot(old(threads[..])) == MAX_THREADS || k == 0 then -1 else FreeSlot(old(threads[..]))
    {
      hide AddressSpaceManager.Valid, Took;
      var slot := FindSlot();
      if slot == MAX_THREADS { return -1, 0; }
      threads[slot] := ZERO_THREAD.(tid := slot, state := Runnable);
      var pa := TakeStack();
      if pa == 0 { return -1, 0; }
      threads[slot] := UserThread(slot, space, pa, entry, rsp);
      return slot, pa;
    }

    method SchedReap(tid: nat)
      requires Valid() && tid < MAX_THREADS && Held(threads[..], m.State(), m.kernelSpace)
      modifies threads, m`spaces, m.pmm`free, m.pmm`freePages, m.pmm`badFrees, m.pmm.bitmap
      ensures Valid() && Does(old(State()), Event.Reap(tid), State(), m.kernelSpace)
      ensures m.pmm.badFrees == old(m.pmm.badFrees)
    {
      hide Ok, InRange, SharedHalf, Pmm.Allocator.Valid, Run, Pages, StackHeld, StackTop, Separate;
      var t := threads[tid];
      if t.state != Zombie { return; }
      ghost var a := m.State();
      assert ThreadOk(a, threads[..][tid], tid, m.kernelSpace);
      if t.isUser && t.space != 0 && t.space != m.kernelSpace {
        m.DestroySpace(t.space);
      }
      ghost var c := m.State();
      StackSurvives(a, t, c);
      if t.kstack != 0 {
        FreeStack(m, t.kstack);
      }
      threads[tid] := ZERO_THREAD;
    }
  }
}
