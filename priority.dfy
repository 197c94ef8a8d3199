/** The priority execution context of examples/custom_executor/priority.hpp:
    a max-priority queue of tasks drained by `run` until `stop`, and an
    executor value carrying the priority its tasks are queued with.  A task
    is identified by a number; running it is recording it. */
module PriorityContext {

  /** The `Priority` property: ordered by its value alone. */
  datatype Priority = Priority(value: int)

  const LOW: Priority := Priority(0)
  const NORMAL: Priority := Priority(1)
  const HIGH: Priority := Priority(2)

  predicate PriorityLess(a: Priority, b: Priority)
  {
    a.value < b.value
  }

  /** low < normal < high, and the order is strict and total on values. */
  lemma PriorityLevels(a: Priority, b: Priority)
    ensures PriorityLess(LOW, NORMAL) && PriorityLess(NORMAL, HIGH)
    ensures !PriorityLess(a, a)
    ensures a.value != b.value ==> PriorityLess(a, b) != PriorityLess(b, a)
  {
  }

  /** A queued task with the priority value it was enqueued with. */
  datatype Item = Item(priority: int, task: nat)

  /** `Item::operator<` compares the priorities and nothing else. */
  predicate ItemLess(a: Item, b: Item)
  {
    a.priority < b.priority
  }

  lemma ItemOrderIgnoresTask(a: Item, b: Item)
    requires a.priority == b.priority
    ensures !ItemLess(a, b) && !ItemLess(b, a)
  {
  }

  /** The index of an item `priority_queue::top` may return: one of the
      highest priority (ties go to the earliest queued). */
  function Top(q: seq<Item>): (i: nat)
    requires q != []
    ensures i < |q|
    ensures forall j :: 0 <= j < |q| ==> q[j].priority <= q[i].priority
    decreases |q|
  {
    if |q| == 1 then 0
    else
      var t := Top(q[1..]) + 1;
      if q[0].priority >= q[t].priority then 0 else t
  }

  function Remove(q: seq<Item>, i: nat): (r: seq<Item>)
    requires i < |q|
    ensures |r| == |q| - 1
    ensures multiset(r) + multiset{q[i]} == multiset(q)
  {
    assert q == q[..i] + [q[i]] + q[i + 1..];
    q[..i] + q[i + 1..]
  }

  /** The order repeated `top`/`pop` takes the items out of a queue. */
  function PopOrder(q: seq<Item>): seq<Item>
    decreases |q|
  {
    if q == [] then [] else [q[Top(q)]] + PopOrder(Remove(q, Top(q)))
  }

  /** Nothing is lost or duplicated. */
  lemma {:induction false} PopOrderPermutation(q: seq<Item>)
    ensures multiset(PopOrder(q)) == multiset(q)
    decreases |q|
  {
    if q != [] {
      PopOrderPermutation(Remove(q, Top(q)));
    }
  }

  predicate NonIncreasing(s: seq<Item>)
  {
    forall a, b :: 0 <= a < b < |s| ==> s[a].priority >= s[b].priority
  }

  /** Items come out with non-increasing priority. */
  lemma {:induction false} PopOrderSorted(q: seq<Item>)
    ensures NonIncreasing(PopOrder(q))
    decreases |q|
  {
    if q != [] {
      var t := Top(q);
      var rest := Remove(q, t);
      var pr := PopOrder(rest);
      PopOrderSorted(rest);
      PopOrderPermutation(rest);
      var p := PopOrder(q);
      assert p == [q[t]] + pr;
      forall b | 0 < b < |p|
        ensures p[0].priority >= p[b].priority
      {
        var x := pr[b - 1];
        assert x in multiset(pr);
        assert x in multiset(q);
        var j :| 0 <= j < |q| && q[j] == x;
      }
    }
  }

  /** One `top`/`pop`: the front of the pop order is taken out. */
  lemma PopStep(q: seq<Item>)
    requires q != []
    ensures PopOrder(q) == [q[Top(q)]] + PopOrder(Remove(q, Top(q)))
  {
  }

  /** Whatever is taken before the rest is of at least the rest's
      priority, and together they are the queue's items. */
  lemma PrefixDominates(q: seq<Item>, ran: seq<Item>, rest: seq<Item>)
    requires PopOrder(q) == ran + PopOrder(rest)
    ensures forall a, b :: 0 <= a < |ran| && 0 <= b < |rest| ==> ran[a].priority >= rest[b].priority
    ensures multiset(ran) + multiset(rest) == multiset(q)
  {
    var p := PopOrder(q);
    var pr := PopOrder(rest);
    PopOrderSorted(q);
    PopOrderPermutation(q);
    PopOrderPermutation(rest);
    assert NonIncreasing(p);
    forall a, b | 0 <= a < |ran| && 0 <= b < |rest|
      ensures ran[a].priority >= rest[b].priority
    {
      assert rest[b] in multiset(pr);
      var k :| 0 <= k < |pr| && pr[k] == rest[b];
      assert p[|ran| + k] == rest[b];
      assert p[a] == ran[a];
    }
  }

  /** How `run` returns: it saw `_stop`, or it waits for more work. */
  datatype RunExit = Stopped | Blocked

  class Context {
    var queue: seq<Item>
    var stop: bool

    constructor ()
      ensures queue == [] && !stop
    {
      queue := [];
      stop := false;
    }

    /** `enqueue`: exactly one item more. */
    method Enqueue(priority: int, task: nat)
      modifies this
      ensures queue == old(queue) + [Item(priority, task)] && stop == old(stop)
      ensures multiset(queue) == multiset(old(queue)) + multiset{Item(priority, task)}
    {
      queue := queue + [Item(priority, task)];
    }

    /** `stop`. */
    method Stop()
      modifies this
      ensures stop && queue == old(queue)
    {
      stop := true;
    }

    /** `run`: take the top item and run it until `_stop` is observed; an
        empty queue makes it wait, reported as `Blocked`.  Another thread's
        `stop` is the input `stopAfter`: it arrives once that many tasks
        have run.  Returns the tasks run, in order. */
    method Run(stopAfter: nat) returns (ran: seq<Item>, exit: RunExit)
      modifies this
      ensures old(stop) ==> ran == [] && queue == old(queue) && exit == Stopped
      ensures !old(stop) ==> |ran| == if stopAfter < |old(queue)| then stopAfter else |old(queue)|
      ensures exit == Stopped <==> old(stop) || stopAfter <= |old(queue)|
      ensures exit == Stopped <==> stop
      ensures exit == Blocked ==> queue == []
      ensures PopOrder(old(queue)) == ran + PopOrder(queue)
      ensures multiset(ran) + multiset(queue) == multiset(old(queue))
      ensures forall a, b :: 0 <= a < |ran| && 0 <= b < |queue| ==> ran[a].priority >= queue[b].priority
    {
      ghost var q0 := queue;
      ran := [];
      while true
        invariant PopOrder(q0) == ran + PopOrder(queue)
        invariant |ran| + |queue| == |q0|
        invariant old(stop) ==> ran == [] && queue == q0 && stop
        invariant !old(stop) ==> |ran| <= stopAfter && !stop
        decreases |queue|
      {
        if !stop && |ran| == stopAfter {
          stop := true;
        }
        if stop {
          PrefixDominates(q0, ran, queue);
          return ran, Stopped;
        }
        if queue == [] {
          PrefixDominates(q0, ran, queue);
          return ran, Blocked;
        }
        var i := Top(queue);
        var item := queue[i];
        PopStep(queue);
        queue := Remove(queue, i);
        ran := ran + [item];
      }
    }
  }

  /** `Executor_type`: the context and the priority value its tasks are
      queued with. */
  datatype Executor = Executor(context: Context, priorityValue: int)

  /** `executor()`: normal priority. */
  function DefaultExecutor(context: Context): (e: Executor)
    ensures e.context == context && QueryPriority(e) == NORMAL.value
  {
    Executor(context, NORMAL.value)
  }

  /** `query(Priority)`. */
  function QueryPriority(e: Executor): int
  {
    e.priorityValue
  }

  /** `query(execution::context)`. */
  function QueryContext(e: Executor): Context
  {
    e.context
  }

  /** `require(Priority)`: the same context with the new value. */
  function RequirePriority(e: Executor, p: Priority): (r: Executor)
    ensures QueryContext(r) == QueryContext(e) && QueryPriority(r) == p.value
  {
    Executor(e.context, p.value)
  }

  /** Requiring twice keeps only the last value; requiring what the
      executor already has gives it back. */
  lemma RequireLastWins(e: Executor, p: Priority, p': Priority)
    ensures RequirePriority(RequirePriority(e, p), p') == RequirePriority(e, p')
    ensures RequirePriority(e, Priority(QueryPriority(e))) == e
  {
  }

  /** `execute`: queue the function on the context with the executor's
      priority. */
  method Execute(e: Executor, task: nat)
    modifies e.context
    ensures e.context.queue == old(e.context.queue) + [Item(e.priorityValue, task)]
    ensures e.context.stop == old(e.context.stop)
  {
    e.context.Enqueue(e.priorityValue, task);
  }

  lemma TopOfTwo()
    ensures Top([Item(0, 0), Item(1, 2)]) == 1
  {
    assert [Item(0, 0), Item(1, 2)][1..] == [Item(1, 2)];
    assert Top([Item(1, 2)]) == 0;
  }

  lemma TopOfThree()
    ensures Top([Item(0, 0), Item(2, 1), Item(1, 2)]) == 1
  {
    var q := [Item(0, 0), Item(2, 1), Item(1, 2)];
    assert q[1..] == [Item(2, 1), Item(1, 2)];
    assert q[1..][1..] == [Item(1, 2)];
    assert Top([Item(1, 2)]) == 0;
    assert Top(q[1..]) == 0;
  }

  lemma PopTwo()
    ensures PopOrder([Item(0, 0), Item(1, 2)]) == [Item(1, 2), Item(0, 0)]
  {
    var q1 := [Item(0, 0), Item(1, 2)];
    TopOfTwo();
    PopStep(q1);
    assert Remove(q1, 1) == [Item(0, 0)];
    PopStep([Item(0, 0)]);
    assert Remove([Item(0, 0)], 0) == [];
  }

  /** Items queued at low, high and normal priority come out high,
      normal, low. */
  lemma ThreeLevelsOrder()
    ensures PopOrder([Item(0, 0), Item(2, 1), Item(1, 2)]) == [Item(2, 1), Item(1, 2), Item(0, 0)]
  {
    var q := [Item(0, 0), Item(2, 1), Item(1, 2)];
    TopOfThree();
    PopStep(q);
    assert Remove(q, 1) == [Item(0, 0), Item(1, 2)];
    PopTwo();
  }

  /** The same through the executor: tasks 0, 1, 2 executed at low, high
      and the default priority are run in the order 1, 2, 0. */
  method ThreeLevels(context: Context) returns (ran: seq<Item>)
    requires context.queue == [] && !context.stop
    modifies context
    ensures ran == [Item(2, 1), Item(1, 2), Item(0, 0)]
  {
    var e := DefaultExecutor(context);
    Execute(RequirePriority(e, LOW), 0);
    Execute(RequirePriority(e, HIGH), 1);
    Execute(e, 2);
    ghost var q := context.queue;
    assert q == [Item(0, 0), Item(2, 1), Item(1, 2)];
    ThreeLevelsOrder();
    var exit;
    ran, exit := context.Run(3);
    assert ran + PopOrder(context.queue) == [Item(2, 1), Item(1, 2), Item(0, 0)];
    assert ran == (ran + PopOrder(context.queue))[..3];
  }
}
