/** What the preemptive kernel is for, on values: n tasks, traps of the running task, round-robin choice of
    the next. Over every interleaving a task continues with what it trapped with, and no runnable task starves. */
module Scheduler {
  import opened Words

  /** What a task sees of the processor: r0-r13, PC and flags. (r14 is lost on every trap.) */
  datatype Context = Context(regs: seq<Word>, pc: Word, flags: Word)

  datatype Task = Task(ctx: Context, runnable: bool)

  datatype Sched = Sched(tasks: seq<Task>, current: nat)
  {
    ghost predicate Valid() {
      current < |tasks| && forall i :: 0 <= i < |tasks| ==> |tasks[i].ctx.regs| == 14
    }

    function Running(): Context
      requires current < |tasks|
    {
      tasks[current].ctx
    }
  }

  const SYSCALL_CAUSE: Word := 3
  const IRQ_CAUSE: Word := 6

  /** The running task traps; PC is the address it continues at. */
  datatype Trap = Trap(cause: Word, ctx: Context)
  {
    ghost predicate Valid() { |ctx.regs| == 14 }

    predicate IsWrite()
      requires |ctx.regs| == 14
    {
      cause == SYSCALL_CAUSE && ctx.regs[0] == 1
    }

    /** Interrupt, write and yield leave the task runnable; exit, a bad system call and a fault do not. */
    predicate Survives()
      requires |ctx.regs| == 14
    {
      cause == IRQ_CAUSE || (cause == SYSCALL_CAUSE && (ctx.regs[0] == 1 || ctx.regs[0] == 2))
    }

    /** What the task will continue with: a write gets its length back in r0. */
    function Returned(): Context
      requires |ctx.regs| == 14
    {
      if IsWrite() then ctx.(regs := ctx.regs[0 := ctx.regs[2]]) else ctx
    }
  }

  /** The trapped task after its trap has been served. */
  function Handle(k: Sched, t: Trap): (r: Sched)
    requires k.current < |k.tasks| && |t.ctx.regs| == 14
    ensures |r.tasks| == |k.tasks| && r.current == k.current
  {
    k.(tasks := k.tasks[k.current := Task(t.Returned(), k.tasks[k.current].runnable && t.Survives())])
  }

  /** The numbers: cause 6, an interrupt, and of cause 3, system calls, 1 (write) and 2 (yield) leave the task runnable;
      call 0 (exit), any other call and any other cause kill it. Only a write changes a register: r0 becomes r2. */
  lemma ServedByNumber(k: Sched, t: Trap)
    requires k.current < |k.tasks| && |t.ctx.regs| == 14
    ensures var was, r := k.tasks[k.current], Handle(k, t).tasks[k.current];
      && (r.runnable <==> was.runnable && (t.cause == 6 || (t.cause == 3 && t.ctx.regs[0] in {1, 2})))
      && (forall i :: 1 <= i < 14 ==> r.ctx.regs[i] == t.ctx.regs[i])
      && r.ctx.regs[0] == (if t.cause == 3 && t.ctx.regs[0] == 1 then t.ctx.regs[2] else t.ctx.regs[0])
      && r.ctx.pc == t.ctx.pc && r.ctx.flags == t.ctx.flags
    ensures forall i :: 0 <= i < |k.tasks| && i != k.current ==> Handle(k, t).tasks[i] == k.tasks[i]
  {
  }

  function After(c: nat, n: nat): nat
    requires c < n
  {
    if c + 1 < n then c + 1 else 0
  }

  /** The search: advance the candidate at most `tries` times until a runnable task is found. */
  function Search(tasks: seq<Task>, c: nat, tries: nat): (r: Option<nat>)
    requires c < |tasks|
    ensures r.Some? ==> r.value < |tasks| && tasks[r.value].runnable
    decreases tries
  {
    if tries == 0 then None else
    var d := After(c, |tasks|);
    if tasks[d].runnable then Some(d) else Search(tasks, d, tries - 1)
  }

  function Choose(k: Sched): (r: Option<Sched>)
    requires k.current < |k.tasks|
    ensures r.Some? ==> r.value.tasks == k.tasks && r.value.current < |k.tasks|
  {
    var c := Search(k.tasks, k.current, |k.tasks|);
    if c.None? then None else Some(k.(current := c.value))
  }

  /** One trap: serve it, then choose who runs next; None when all tasks are dead and the machine halts. */
  function Serve(k: Sched, t: Trap): (r: Option<Sched>)
    requires k.current < |k.tasks| && |t.ctx.regs| == 14
    ensures r.Some? ==> |r.value.tasks| == |k.tasks| && r.value.current < |k.tasks|
  {
    Choose(Handle(k, t))
  }

  /* ---- The search ---- */

  /** Number of candidates tried from `c` until `i` is reached. */
  function Distance(c: nat, i: nat, n: nat): nat
    requires c < n && i < n
  {
    if c < i then i - c else i + n - c
  }

  /** With enough tries the search finds a task no further away than any runnable one. */
  lemma {:induction false} SearchReaches(tasks: seq<Task>, c: nat, tries: nat, i: nat)
    requires c < |tasks| && i < |tasks| && tasks[i].runnable && Distance(c, i, |tasks|) <= tries
    ensures var r := Search(tasks, c, tries);
      r.Some? && 1 <= Distance(c, r.value, |tasks|) <= Distance(c, i, |tasks|)
    decreases tries
  {
    var d := After(c, |tasks|);
    if tasks[d].runnable {
    } else {
      SearchReaches(tasks, d, tries - 1, i);
    }
  }

  /** The scheduler halts exactly when no task is runnable. */
  lemma HaltsWhenAllDead(k: Sched)
    requires k.current < |k.tasks|
    ensures Choose(k).None? <==> forall i :: 0 <= i < |k.tasks| ==> !k.tasks[i].runnable
  {
    if i :| 0 <= i < |k.tasks| && k.tasks[i].runnable {
      SearchReaches(k.tasks, k.current, |k.tasks|, i);
    }
  }

  /** Round robin: the chosen task is the first runnable one after the current, in cyclic order; so nobody
      between them is runnable. */
  lemma ChosenIsNext(k: Sched, i: nat)
    requires k.current < |k.tasks| && Choose(k).Some? && i < |k.tasks|
    requires Distance(k.current, i, |k.tasks|) < Distance(k.current, Choose(k).value.current, |k.tasks|)
    ensures !k.tasks[i].runnable
  {
    if k.tasks[i].runnable {
      SearchReaches(k.tasks, k.current, |k.tasks|, i);
    }
  }

  /* ---- Runs ---- */

  predicate ValidTraps(traps: seq<Trap>) {
    forall j :: 0 <= j < |traps| ==> |traps[j].ctx.regs| == 14
  }

  /** The state after the first `m` traps; None from the halt on. */
  function At(k: Sched, traps: seq<Trap>, m: nat): (r: Option<Sched>)
    requires k.current < |k.tasks| && m <= |traps| && ValidTraps(traps)
    ensures r.Some? ==> |r.value.tasks| == |k.tasks| && r.value.current < |k.tasks|
  {
    if m == 0 then Some(k) else
    var p := At(k, traps, m - 1);
    if p.None? then None else Serve(p.value, traps[m - 1])
  }

  lemma {:induction false} PrefixRuns(k: Sched, traps: seq<Trap>, j: nat, m: nat)
    requires k.current < |k.tasks| && j <= m <= |traps| && ValidTraps(traps) && At(k, traps, m).Some?
    ensures At(k, traps, j).Some?
    decreases m
  {
    if j >= m {
    } else {
      PrefixRuns(k, traps, j, m - 1);
    }
  }

  /** A zombie stays one. */
  lemma {:induction false} NoRevival(k: Sched, traps: seq<Trap>, j: nat, m: nat, i: nat)
    requires k.current < |k.tasks| && j <= m <= |traps| && ValidTraps(traps) && At(k, traps, m).Some? && i < |k.tasks|
    ensures At(k, traps, j).Some?
    ensures At(k, traps, m).value.tasks[i].runnable ==> At(k, traps, j).value.tasks[i].runnable
    decreases m
  {
    if j >= m {
    } else {
      NoRevival(k, traps, j, m - 1, i);
    }
  }

  /** Task `i` does not run in the states `a`, ..., `b` - 1. */
  predicate Waits(k: Sched, traps: seq<Trap>, i: nat, a: nat, b: nat)
    requires k.current < |k.tasks| && b <= |traps| && ValidTraps(traps)
  {
    forall x :: a <= x < b && At(k, traps, x).Some? ==> At(k, traps, x).value.current != i
  }

  /** While a task waits, nothing touches its context. */
  lemma {:induction false} WaitingKeepsContext(k: Sched, traps: seq<Trap>, i: nat, a: nat, b: nat)
    requires k.current < |k.tasks| && a <= b <= |traps| && ValidTraps(traps) && i < |k.tasks|
    requires At(k, traps, b).Some? && Waits(k, traps, i, a, b)
    ensures At(k, traps, a).Some? && At(k, traps, b).value.tasks[i].ctx == At(k, traps, a).value.tasks[i].ctx
    decreases b
  {
    PrefixRuns(k, traps, a, b);
    if a >= b {
    } else {
      WaitingKeepsContext(k, traps, i, a, b - 1);
    }
  }

  lemma ServedContext(k: Sched, t: Trap)
    requires k.current < |k.tasks| && |t.ctx.regs| == 14 && Serve(k, t).Some?
    ensures Serve(k, t).value.tasks[k.current].ctx == t.Returned()
  {
  }

  /** Main result on contexts, over any interleaving of interrupts, yields, exits, writes and faults: when a
      task that trapped at step `j` runs again, it is with exactly the registers, PC and flags it trapped with,
      but for the result of a write. */
  lemma ResumedAsTrapped(k: Sched, traps: seq<Trap>, j: nat, m: nat, i: nat)
    requires k.current < |k.tasks| && j < m <= |traps| && ValidTraps(traps) && At(k, traps, m).Some? && i < |k.tasks|
    requires At(k, traps, j).Some? && At(k, traps, j).value.current == i
    requires Waits(k, traps, i, j + 1, m) && At(k, traps, m).value.current == i
    ensures At(k, traps, m).value.Running() == traps[j].Returned()
  {
    hide Serve, Waits;
    WaitingKeepsContext(k, traps, i, j + 1, m);
    ServedContext(At(k, traps, j).value, traps[j]);
    assert At(k, traps, j + 1) == Serve(At(k, traps, j).value, traps[j]);
  }

  /** A task that has not run yet starts with the context it was created with. */
  lemma FirstRunAsCreated(k: Sched, traps: seq<Trap>, m: nat, i: nat)
    requires k.current < |k.tasks| && m <= |traps| && ValidTraps(traps) && At(k, traps, m).Some? && i < |k.tasks|
    requires Waits(k, traps, i, 0, m) && At(k, traps, m).value.current == i
    ensures At(k, traps, m).value.Running() == k.tasks[i].ctx
  {
    WaitingKeepsContext(k, traps, i, 0, m);
  }

  /** Only runnable tasks are run (after the first trap). */
  lemma RunsRunnable(k: Sched, traps: seq<Trap>, m: nat)
    requires k.current < |k.tasks| && 0 < m <= |traps| && ValidTraps(traps) && At(k, traps, m).Some?
    ensures var s := At(k, traps, m).value; s.tasks[s.current].runnable
  {
  }

  /** One trap brings a runnable task that is not chosen strictly closer. */
  lemma ServeApproaches(k: Sched, t: Trap, i: nat)
    requires k.current < |k.tasks| && |t.ctx.regs| == 14 && i < |k.tasks|
    requires Handle(k, t).tasks[i].runnable
    ensures var r := Serve(k, t);
      r.Some? && (r.value.current == i || Distance(r.value.current, i, |k.tasks|) < Distance(k.current, i, |k.tasks|))
  {
    SearchReaches(Handle(k, t).tasks, k.current, |k.tasks|, i);
  }

  /** Main result on fairness: from any state of any run, a task that stays runnable is chosen within n traps,
      n the number of tasks; and until then the machine does not halt. */
  lemma RoundRobinIsFair(k: Sched, traps: seq<Trap>, m: nat, i: nat)
    requires k.current < |k.tasks| && m + |k.tasks| <= |traps| && ValidTraps(traps) && i < |k.tasks|
    requires At(k, traps, m).Some?
    requires forall x :: m <= x < m + |k.tasks| && At(k, traps, x).Some? ==>
        Handle(At(k, traps, x).value, traps[x]).tasks[i].runnable
    ensures exists x :: m < x <= m + |k.tasks| && At(k, traps, x).Some? && At(k, traps, x).value.current == i
  {
    var n := |k.tasks|;
    ChosenWithin(k, traps, m, i, Distance(At(k, traps, m).value.current, i, n), n);
  }

  lemma {:induction false} ChosenWithin(k: Sched, traps: seq<Trap>, m: nat, i: nat, d: nat, budget: nat)
    requires k.current < |k.tasks| && m + budget <= |traps| && ValidTraps(traps) && i < |k.tasks|
    requires At(k, traps, m).Some? && Distance(At(k, traps, m).value.current, i, |k.tasks|) == d <= budget
    requires forall x :: m <= x < m + budget && At(k, traps, x).Some? ==>
        Handle(At(k, traps, x).value, traps[x]).tasks[i].runnable
    ensures exists x :: m < x <= m + d && At(k, traps, x).Some? && At(k, traps, x).value.current == i
    decreases budget
  {
    hide Handle, Serve;
    ServeApproaches(At(k, traps, m).value, traps[m], i);
    var s := At(k, traps, m + 1).value;
    if s.current == i {
    } else {
      ChosenWithin(k, traps, m + 1, i, Distance(s.current, i, |k.tasks|), budget - 1);
    }
  }
}
