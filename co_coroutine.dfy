/** Stackful coroutines and their per-thread environment
    (examples/stackful_coroutine/co/Coroutine.h).  The environment keeps the
    call stack of coroutines `_cStack` (the running one on top) and a bounded
    LIFO of contexts left by finished coroutines, for reuse.  A context
    switch is returned as a `Transfer` value instead of being performed, and
    a coroutine's entry function is not modelled: `RoutineWrapper` starts at
    the point where it has returned. */
module CoCoroutine {
  import opened Wrappers
  import opened CoState
  import opened CoContext

  /** Size of `_recycleStack` (`std::array<…, 0xff>`). */
  const RECYCLE_CAPACITY: nat := 0xff

  class Coroutine {
    const master: Environment
    /** Identity of the entry closure `_entry`. */
    const entry: nat
    /** The address of this object, passed to the new context as argument. */
    const address: Word
    const runtime: State
    var context: Context?

    /** A coroutine that is running (started and not exited) owns a
        context. */
    ghost predicate Valid()
      reads this, runtime
    {
      && (runtime.flag & RUNNING != 0 ==> context != null && context.Valid())
      && (context != null ==> context.Valid())
    }

    /** The constructor: flag 0, no context yet. */
    constructor (master: Environment, entry: nat, address: Word)
      ensures this.master == master && this.entry == entry && this.address == address
      ensures fresh(runtime) && runtime.flag == 0 && context == null
      ensures Valid()
    {
      this.master := master;
      this.entry := entry;
      this.address := address;
      runtime := new State();
      context := null;
    }

    /** The arrays of the context `resume` would take from the recycle
        stack. */
    ghost function ReuseFootprint(): set<object>
      reads master, master.recycleStack
    {
      master.TopFootprint()
    }

    /** The first-resume half of `resume`: take a context, prepare it to
        enter `routineWrapper` with this coroutine as argument, mark the
        coroutine RUNNING. */
    method Start(freshBase: Word)
      requires master.Valid() && FitsAt(freshBase)
      modifies this, runtime, master, master.recycleStack, ReuseFootprint()
      ensures master.Valid() && Valid()
      ensures master.cStack == old(master.cStack)
      ensures runtime.flag == old(runtime.flag) | RUNNING
      ensures context != null && context.Prepared(master.wrapper, address)
      ensures old(master.recycleTop) > 0 ==>
        && context == old(master.recycleStack[master.recycleTop - 1])
        && master.recycleTop == old(master.recycleTop) - 1
        && master.recycleStack[..] == old(master.recycleStack[..])[master.recycleTop := null]
      ensures old(master.recycleTop) == 0 ==>
        && fresh(context) && master.recycleTop == 0
        && master.recycleStack[..] == old(master.recycleStack[..])
    {
      var c := master.Acquire(freshBase);
      c.Prepare(master.wrapper, address);
      context := c;
      SetRunning(runtime.flag);
      runtime.OrAssign(RUNNING);
    }

    /** `resume`.  An exited coroutine is returned as is.  On the first
        resume the coroutine gets a context, from the top of the recycle
        stack when there is one, otherwise a new one placed at `freshBase`,
        prepared to enter `routineWrapper` with this coroutine as argument,
        and RUNNING is set.  Every non-exited resume pushes the coroutine on
        the call stack and switches from the previous top's context to its
        own.  The `_runtime` the C++ returns is read after the switch comes
        back, that is after the coroutine yields, so `runtime.flag` holds it
        then. */
    method Resume(freshBase: Word) returns (t: Option<Transfer>)
      requires master.Valid() && Valid()
      requires FitsAt(freshBase)
      modifies this, runtime, master, master.recycleStack, ReuseFootprint()
      ensures master.Valid() && Valid()
      ensures old(runtime.flag) & EXIT != 0 ==>
        && t == None && runtime.flag == old(runtime.flag) && context == old(context)
        && master.cStack == old(master.cStack) && master.recycleTop == old(master.recycleTop)
        && master.recycleStack[..] == old(master.recycleStack[..])
      ensures old(runtime.flag) & EXIT == 0 ==>
        && master.cStack == old(master.cStack) + [this]
        && master.Current() == this
        && context != null
        && t == Some(SwitchFrom(master.cStack[|master.cStack| - 2].context, context))
      ensures old(runtime.flag) & (EXIT | RUNNING) == 0 ==>
        && runtime.flag == old(runtime.flag) | RUNNING
        && context != null && context.Prepared(master.wrapper, address)
        && (old(master.recycleTop) > 0 ==>
              && context == old(master.recycleStack[master.recycleTop - 1])
              && master.recycleTop == old(master.recycleTop) - 1
              && master.recycleStack[..] == old(master.recycleStack[..])[master.recycleTop := null])
        && (old(master.recycleTop) == 0 ==>
              && fresh(context) && master.recycleTop == 0
              && master.recycleStack[..] == old(master.recycleStack[..]))
      ensures old(runtime.flag) & EXIT == 0 && old(runtime.flag) & RUNNING != 0 ==>
        && runtime.flag == old(runtime.flag) && context == old(context)
        && master.recycleTop == old(master.recycleTop)
        && master.recycleStack[..] == old(master.recycleStack[..])
    {
      if runtime.And(EXIT) != 0 {
        return None;
      }
      if runtime.And(RUNNING) == 0 {
        Start(freshBase);
      }
      var previous := master.Current();
      master.Push(this);
      t := Some(SwitchFrom(previous.context, context));
    }

    /** `routineWrapper` after the entry function has returned: RUNNING is
        flipped to EXIT, the context is donated to the recycle stack if it
        has room (otherwise the coroutine keeps it), then the coroutine
        yields for good. */
    method RoutineWrapper() returns (t: Transfer)
      requires master.Valid() && Valid()
      requires |master.cStack| >= 2 && master.Current() == this
      requires runtime.flag & RUNNING != 0 && runtime.flag & EXIT == 0
      modifies this, runtime, master, master.recycleStack
      ensures master.Valid() && Valid()
      ensures runtime.flag & EXIT != 0 && runtime.flag & RUNNING == 0
      ensures runtime.flag == old(runtime.flag) ^ (EXIT | RUNNING)
      ensures master.cStack == old(master.cStack)[..|old(master.cStack)| - 1]
      ensures old(master.recycleTop) != RECYCLE_CAPACITY ==>
        && master.recycleTop == old(master.recycleTop) + 1
        && master.recycleStack[old(master.recycleTop)] == old(context)
        && context == null
        && t == SwitchOnly(master.Current().context)
      ensures old(master.recycleTop) == RECYCLE_CAPACITY ==>
        && master.recycleTop == old(master.recycleTop)
        && context == old(context)
        && t == SwitchFrom(old(context), master.Current().context)
    {
      ExitFlip(runtime.flag);
      runtime.XorAssign(EXIT | RUNNING);
      if master.Recyclable() {
        master.Recycle(context);
        context := null;
      }
      t := master.Yield();
    }
  }

  class Environment {
    var cStack: seq<Coroutine>
    var main: Coroutine?
    const recycleStack: array<Context?>
    var recycleTop: nat
    /** The address of `routineWrapper`, the entry of every new context. */
    const wrapper: Word

    /** The recycle stack is a LIFO of valid contexts in slots
        `[0, recycleTop)`; the slots above the top are empty (moved from).
        The main coroutine stays at the bottom of the call stack. */
    ghost predicate Valid()
      reads this, recycleStack
    {
      && recycleStack.Length == RECYCLE_CAPACITY
      && recycleTop <= RECYCLE_CAPACITY
      && cStack != [] && main != null && cStack[0] == main
      && (forall i :: 0 <= i < recycleTop ==> recycleStack[i] != null && recycleStack[i].Valid())
      && (forall i :: recycleTop <= i < RECYCLE_CAPACITY ==> recycleStack[i] == null)
    }

    /** The constructor: a main coroutine owning a new context is created
        and pushed, so the call stack is `[main]`. */
    constructor (wrapper: Word, mainBase: Word, mainAddress: Word)
      requires FitsAt(mainBase)
      ensures Valid() && this.wrapper == wrapper
      ensures main != null && cStack == [main] && fresh(main) && fresh(main.runtime)
      ensures main.master == this && main.context != null && fresh(main.context)
      ensures main.runtime.flag == 0 && main.Valid()
      ensures recycleTop == 0 && fresh(recycleStack)
    {
      this.wrapper := wrapper;
      recycleStack := new Context?[RECYCLE_CAPACITY](_ => null);
      recycleTop := 0;
      cStack := [];
      main := null;
      new;
      var m := new Coroutine(this, 0, mainAddress);
      var c := new Context(mainBase);
      m.context := c;
      main := m;
      Push(m);
    }

    /** `current`: the top of the call stack. */
    function Current(): (c: Coroutine)
      requires cStack != []
      reads this
      ensures c in cStack
    {
      cStack[|cStack| - 1]
    }

    method Push(c: Coroutine)
      modifies this
      ensures cStack == old(cStack) + [c]
      ensures main == old(main) && recycleTop == old(recycleTop)
    {
      cStack := cStack + [c];
    }

    method Pop()
      requires |cStack| >= 2
      modifies this
      ensures cStack == old(cStack)[..|old(cStack)| - 1]
      ensures main == old(main) && recycleTop == old(recycleTop)
    {
      cStack := cStack[..|cStack| - 1];
    }

    predicate Reusable()
      reads this
    {
      recycleTop > 0
    }

    predicate Recyclable()
      reads this
    {
      recycleTop != RECYCLE_CAPACITY
    }

    /** The arrays of the context on top of the recycle stack. */
    ghost function TopFootprint(): set<object>
      reads this, recycleStack
    {
      if 0 < recycleTop <= recycleStack.Length && recycleStack[recycleTop - 1] != null
      then
        var c := recycleStack[recycleTop - 1];
        var regs: set<object> := {c.registers};
        regs + {c.stack}
      else {}
    }

    /** `reuse`: pops the top context; its slot is left empty. */
    method Reuse() returns (c: Context)
      requires Valid() && Reusable()
      modifies this, recycleStack
      ensures Valid()
      ensures recycleTop == old(recycleTop) - 1
      ensures c == old(recycleStack[recycleTop - 1]) && c.Valid()
      ensures recycleStack[..] == old(recycleStack[..])[recycleTop := null]
      ensures cStack == old(cStack) && main == old(main)
    {
      recycleTop := recycleTop - 1;
      c := recycleStack[recycleTop];
      recycleStack[recycleTop] := null;
    }

    /** The context `resume` gives a starting coroutine: the top of the
        recycle stack when it is not empty, otherwise a new one placed at
        `freshBase`. */
    method Acquire(freshBase: Word) returns (c: Context)
      requires Valid() && FitsAt(freshBase)
      modifies this, recycleStack
      ensures Valid() && c.Valid()
      ensures cStack == old(cStack) && main == old(main)
      ensures old(recycleTop) > 0 ==>
        && c == old(recycleStack[recycleTop - 1])
        && recycleTop == old(recycleTop) - 1
        && recycleStack[..] == old(recycleStack[..])[recycleTop := null]
      ensures old(recycleTop) == 0 ==>
        && fresh(c) && fresh(c.registers) && fresh(c.stack) && recycleTop == 0
        && recycleStack[..] == old(recycleStack[..])
    {
      if Reusable() {
        c := Reuse();
      } else {
        c := new Context(freshBase);
      }
    }

    /** `recycle`: pushes a context on the recycle stack. */
    method Recycle(trash: Context)
      requires Valid() && Recyclable() && trash.Valid()
      modifies this, recycleStack
      ensures Valid()
      ensures recycleTop == old(recycleTop) + 1
      ensures recycleStack[..] == old(recycleStack[..])[old(recycleTop) := trash]
      ensures cStack == old(cStack) && main == old(main)
    {
      recycleStack[recycleTop] := trash;
      recycleTop := recycleTop + 1;
    }

    /** `createCoroutine`: a new coroutine of this environment, not yet
        started. */
    method CreateCoroutine(entry: nat, address: Word) returns (co: Coroutine)
      ensures fresh(co) && fresh(co.runtime) && co.Valid()
      ensures co.master == this && co.entry == entry && co.address == address
      ensures co.runtime.flag == 0 && co.context == null
    {
      co := new Coroutine(this, entry, address);
    }

    /** `yield`: pops the running coroutine and switches to the new top,
        saving the registers into the yielding coroutine's context when it
        still has one. */
    method Yield() returns (t: Transfer)
      requires Valid() && |cStack| >= 2
      modifies this
      ensures Valid()
      ensures cStack == old(cStack)[..|old(cStack)| - 1] && recycleTop == old(recycleTop)
      ensures old(Current().context) != null ==> t == SwitchFrom(old(Current().context), Current().context)
      ensures old(Current().context) == null ==> t == SwitchOnly(Current().context)
    {
      var coroutine := Current();
      var currentContext := coroutine.context;
      Pop();
      var previousContext := Current().context;
      if currentContext != null {
        t := SwitchFrom(currentContext, previousContext);
      } else {
        t := SwitchOnly(previousContext);
      }
    }

    /** `Coroutine::test`: the running coroutine has a context and the
        probe address (a local of the running code) lies in its stack. */
    function Test(probe: Word): (inside: bool)
      requires cStack != []
      reads this, Current()
      ensures inside ==> Current().context != null
      ensures Current().context != null && FitsAt(Current().context.base) ==>
        (inside <==> Current().context.base <= probe < Current().context.base + STACK_SIZE)
    {
      Current().context != null && Current().context.Test(probe)
    }
  }

  /** A resume followed by the yield of the resumed coroutine restores the
      call stack: `_cStack` is a stack of nested resumes. */
  method ResumeThenYield(co: Coroutine, freshBase: Word) returns (t1: Option<Transfer>, t2: Transfer)
    requires co.master.Valid() && co.Valid() && FitsAt(freshBase)
    requires co.runtime.flag & EXIT == 0
    modifies co, co.runtime, co.master, co.master.recycleStack, co.ReuseFootprint()
    ensures co.master.cStack == old(co.master.cStack)
    ensures t1.Some? && t1.value.SwitchFrom? && t1.value.resume == co.context
    ensures t2 == SwitchFrom(co.context, co.master.Current().context)
  {
    t1 := co.Resume(freshBase);
    t2 := co.master.Yield();
    assert old(co.master.cStack) + [co] == co.master.cStack + [co];
  }
}
