/** The executor over stackful coroutines and its round-robin `Looper`
    (examples/stackful_coroutine/Co_executor.hpp).  `execute` creates a
    coroutine in the thread's environment and resumes it at once; the
    `Looper` collects coroutines that yield through it and, when it is
    destroyed, resumes them in FIFO order until none re-queues itself. */
module CoExecutor {
  import opened Wrappers
  import opened CoContext
  import opened CoCoroutine

  /** The properties `Co_executor` has `query`, `require` or `prefer`
      overloads for. */
  datatype Property = BlockingNever | BlockingPossibly | BlockingAlways | MappingOther

  /** `query`: answered only for `blocking.never` and `mapping.other`, both
      true; `None` is a query the executor has no overload for. */
  function Query(p: Property): (answer: Option<bool>)
    ensures answer.Some? <==> p.BlockingNever? || p.MappingOther?
    ensures answer.Some? ==> answer.value
  {
    match p
    case BlockingNever => Some(true)
    case MappingOther => Some(true)
    case _ => None
  }

  /** `require`: the executor is unchanged, and only `blocking.never` and
      `mapping.other` can be required (`prefer` of the other two blocking
      values also gives the executor back as it is).  Every property the
      executor can be required to have, it reports having, and
      conversely. */
  function Require(p: Property): (ok: bool)
    ensures ok <==> Query(p) == Some(true)
  {
    p.BlockingNever? || p.MappingOther?
  }

  /** `execute`: a new coroutine of `env`, resumed at once from the running
      one. It starts in a context prepared to enter `routineWrapper`, and is
      pushed on the call stack above the caller. */
  method Execute(env: Environment, entry: nat, address: Word, freshBase: Word)
    returns (co: Coroutine, t: Option<Transfer>)
    requires env.Valid() && FitsAt(freshBase)
    modifies env, env.recycleStack, env.TopFootprint()
    ensures env.Valid() && fresh(co) && co.master == env && co.entry == entry
    ensures env.cStack == old(env.cStack) + [co]
    ensures co.context != null && co.context.Valid() && co.context.Prepared(env.wrapper, address)
    ensures t == Some(SwitchFrom(old(env.Current()).context, co.context))
  {
    co := env.CreateCoroutine(entry, address);
    t := co.Resume(freshBase);
  }

  /** A coroutine waiting in the looper's queue, with the number of times
      it will still print and call `yield` when resumed; resumed once more
      after that, its entry returns, and it is not queued again. */
  datatype Pending = Pending(co: Coroutine, left: nat)

  /** Resumptions a queue still has to make. */
  function Measure(q: seq<Pending>): nat
  {
    if q == [] then 0 else q[0].left + 1 + Measure(q[1..])
  }

  lemma {:induction false} MeasureAppend(p: seq<Pending>, q: seq<Pending>)
    ensures Measure(p + q) == Measure(p) + Measure(q)
  {
    if p != [] {
      assert (p + q)[1..] == p[1..] + q;
      MeasureAppend(p[1..], q);
    } else {
      assert p + q == q;
    }
  }

  /** The order in which the draining loop of `~Looper` sees coroutines
      yield: the front is resumed; if it has yields left it yields again
      and is re-queued at the back, otherwise it finishes. */
  function RoundRobin(q: seq<Pending>): seq<Coroutine>
    decreases Measure(q)
  {
    if q == [] then []
    else if q[0].left == 0 then RoundRobin(q[1..])
    else
      MeasureAppend(q[1..], [Pending(q[0].co, q[0].left - 1)]);
      [q[0].co] + RoundRobin(q[1..] + [Pending(q[0].co, q[0].left - 1)])
  }

  /** The yields still owed by `c` in the queue. */
  function Owed(q: seq<Pending>, c: Coroutine): nat
  {
    if q == [] then 0 else (if q[0].co == c then q[0].left else 0) + Owed(q[1..], c)
  }

  lemma {:induction false} OwedAppend(p: seq<Pending>, q: seq<Pending>, c: Coroutine)
    ensures Owed(p + q, c) == Owed(p, c) + Owed(q, c)
  {
    if p != [] {
      assert (p + q)[1..] == p[1..] + q;
      OwedAppend(p[1..], q, c);
    } else {
      assert p + q == q;
    }
  }

  /** Draining the queue lets every pending coroutine run to its end: each
      one yields exactly as many more times as it had left. */
  lemma {:induction false} RoundRobinFair(q: seq<Pending>, c: Coroutine)
    ensures multiset(RoundRobin(q))[c] == Owed(q, c)
    decreases Measure(q)
  {
    if q != [] {
      if q[0].left == 0 {
        RoundRobinFair(q[1..], c);
      } else {
        var back := Pending(q[0].co, q[0].left - 1);
        MeasureAppend(q[1..], [back]);
        RoundRobinFair(q[1..] + [back], c);
        OwedAppend(q[1..], [back], c);
        assert Owed([back], c) == (if back.co == c then back.left else 0);
        assert RoundRobin(q) == [q[0].co] + RoundRobin(q[1..] + [back]);
      }
    }
  }

  function Repeat(c: Coroutine, n: nat): (s: seq<Coroutine>)
    ensures |s| == n && forall i :: 0 <= i < n ==> s[i] == c
  {
    if n == 0 then [] else [c] + Repeat(c, n - 1)
  }

  /** `a, b` repeated `n` times. */
  function Alternate(a: Coroutine, b: Coroutine, n: nat): (s: seq<Coroutine>)
    ensures |s| == 2 * n
    ensures forall i :: 0 <= i < 2 * n ==> s[i] == if i % 2 == 0 then a else b
  {
    if n == 0 then [] else [a, b] + Alternate(a, b, n - 1)
  }

  /** A single pending coroutine is resumed until it has no yields left. */
  lemma {:induction false} SingleDrains(b: Coroutine, j: nat)
    ensures RoundRobin([Pending(b, j)]) == Repeat(b, j)
  {
    if j > 0 {
      assert [Pending(b, j)][1..] + [Pending(b, j - 1)] == [Pending(b, j - 1)];
      SingleDrains(b, j - 1);
    } else {
      assert [Pending(b, j)][1..] == [];
    }
  }

  /** Two pending coroutines alternate while both have yields left; then
      the longer one runs alone. */
  lemma {:induction false} TwoAlternate(a: Coroutine, b: Coroutine, i: nat, j: nat)
    ensures RoundRobin([Pending(a, i), Pending(b, i + j)]) == Alternate(a, b, i) + Repeat(b, j)
  {
    if i == 0 {
      assert [Pending(a, i), Pending(b, i + j)][1..] == [Pending(b, j)];
      SingleDrains(b, j);
    } else {
      var q := [Pending(a, i), Pending(b, i + j)];
      var q1 := [Pending(b, i + j), Pending(a, i - 1)];
      var q2 := [Pending(a, i - 1), Pending(b, i - 1 + j)];
      assert q[1..] + [Pending(a, i - 1)] == q1;
      assert q1[1..] + [Pending(b, i + j - 1)] == q2;
      assert RoundRobin(q) == [a] + RoundRobin(q1);
      assert RoundRobin(q1) == [b] + RoundRobin(q2);
      TwoAlternate(a, b, i - 1, j);
    }
  }

  class Looper {
    var pending: seq<Pending>

    constructor ()
      ensures pending == []
    {
      pending := [];
    }

    /** `yield`: throws when the caller is not running on a coroutine's
        stack; otherwise queues the running coroutine and yields it to the
        one that resumed it.  `left` is how many more times the yielding
        coroutine's entry will call `yield` after this one. */
    method Yield(env: Environment, probe: Word, left: nat) returns (r: Result<Transfer>)
      requires env.Valid() && (env.Test(probe) ==> |env.cStack| >= 2)
      modifies this, env
      ensures env.Valid()
      ensures old(env.Test(probe)) ==>
        && pending == old(pending) + [Pending(old(env.Current()), left)]
        && env.cStack == old(env.cStack)[..|old(env.cStack)| - 1]
        && r == Ok(SwitchFrom(old(env.Current().context), env.Current().context))
      ensures !old(env.Test(probe)) ==>
        && r == Throw("not a coroutine!")
        && pending == old(pending) && env.cStack == old(env.cStack)
    {
      if !env.Test(probe) {
        return Throw("not a coroutine!");
      }
      pending := pending + [Pending(env.Current(), left)];
      var t := env.Yield();
      r := Ok(t);
    }

    /** The loop `~Looper` runs in a coroutine of its own: pop the front,
        resume it; the coroutines that still have yields left re-queue
        themselves through `Yield`.  `printed` is the order in which the
        resumed coroutines yielded. */
    method Drain() returns (printed: seq<Coroutine>)
      modifies this
      ensures pending == [] && printed == RoundRobin(old(pending))
    {
      printed := [];
      while pending != []
        invariant RoundRobin(old(pending)) == printed + RoundRobin(pending)
        decreases Measure(pending)
      {
        var front := pending[0];
        pending := pending[1..];
        if front.left > 0 {
          MeasureAppend(pending, [Pending(front.co, front.left - 1)]);
          printed := printed + [front.co];
          pending := pending + [Pending(front.co, front.left - 1)];
        }
      }
    }
  }
}
