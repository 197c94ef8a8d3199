/** The static thread pool of include/executors/Static_thread_pool.hpp, as a
    sequential machine.  Thread-local data becomes explicit: each worker owns
    a `PrivateData` object, and every call that the C++ resolves through the
    `thread_local` instance receives the calling thread's `PrivateData` (or
    null for a thread that is not a worker of any pool) as a parameter.
    Mutex and condition-variable waits become outcomes: a worker whose wait
    condition is false reports `Blocked` and changes nothing. */
module ThreadPool {
  import opened Wrappers
  import opened FunctionList

  datatype Blocking = Never | Possibly | Always
  datatype Relationship = Fork | Continuation

  /** The three ways `execute` can dispose of a function. */
  datatype Route = Inline | PrivateQueue | SharedList

  /** Where `execute` sends a function submitted with blocking `b` and
      relationship `r`; `onOwnWorker` says that the calling thread is a worker
      of this pool. */
  function RouteOf(b: Blocking, r: Relationship, onOwnWorker: bool): (route: Route)
    ensures route == Inline <==> onOwnWorker && !b.Never?
    ensures route == PrivateQueue <==> onOwnWorker && b.Never? && r.Continuation?
    ensures !onOwnWorker ==> route == SharedList
  {
    if (b == Possibly || b == Always) && onOwnWorker then Inline
    // `Always` from elsewhere resubmits through a never + continuation
    // executor, which the same rules send to the shared list.
    else if b == Always then SharedList
    else if r == Continuation && onOwnWorker then PrivateQueue
    else SharedList
  }

  /** A slot holding a `Function_node_handle`: the private queue's `_head`, or
      the `_next` field of a node.  `_tail_ptr` and `_prev_tail_ptr` point at
      such slots. */
  datatype Slot = AtHead | AtNext(node: Node)

  /** `This_thread_private_data`: every thread has one; `owner` is the pool
      the thread works for (null for a thread that is no pool's worker), and
      the worker's lock-free FIFO of deferred continuations. */
  class PrivateData {
    const owner: StaticThreadPool?
    var head: Node?
    var tail: Slot                // _tail_ptr
    var prevTail: Option<Slot>    // _prev_tail_ptr, None for nullptr
    ghost var nodes: seq<Node>

    /** The queue is the chain owned by `head`; `tail` is the empty slot after
        its last node and `prevTail` the slot holding the last node. */
    ghost predicate Valid()
      reads this, nodes
    {
      && Chain(head, nodes)
      && (nodes == [] ==> tail == AtHead && prevTail == None)
      && (nodes != [] ==>
            && tail == AtNext(nodes[|nodes| - 1])
            && prevTail == Some(if |nodes| == 1 then AtHead else AtNext(nodes[|nodes| - 2])))
    }

    ghost function Contents(): seq<Task>
      reads this
    {
      Tasks(nodes)
    }

    /** The node stored in slot `s`. */
    function SlotValue(s: Slot): Node?
      reads this, if s.AtNext? then {s.node} else {}
    {
      match s
      case AtHead => head
      case AtNext(n) => n.next
    }

    constructor (owner: StaticThreadPool?)
      ensures this.owner == owner
      ensures Valid() && nodes == [] && tail == AtHead && prevTail == None
    {
      this.owner := owner;
      head := null;
      tail := AtHead;
      prevTail := None;
      nodes := [];
    }

    /** `private_queue_empty`: the tail slot is the head slot. */
    predicate QueueEmpty(): (b: bool)
      requires Valid()
      reads this, nodes
      ensures b <==> nodes == []
    {
      tail == AtHead
    }

    /** `private_queue_push`: appends a fresh node in the tail slot. */
    method QueuePush(t: Task) returns (ghost n: Node)
      requires Valid()
      modifies this, nodes
      ensures Valid()
      ensures fresh(n) && n.task == t
      ensures nodes == old(nodes) + [n]
      ensures Contents() == old(Contents()) + [t]
      ensures prevTail.Some? && SlotValue(prevTail.value) == n
    {
      prevTail := Some(tail);
      var node := new Node(t);
      match tail {
        case AtHead =>
          head := node;
        case AtNext(last) =>
          last.next := node;
      }
      tail := AtNext(node);
      nodes := nodes + [node];
      n := node;
    }

    /** Of a non-empty queue, `head` holds the first node and the slot
        `prevTail` names holds the last; they are the same node only when
        the queue has one node. */
    lemma LastSlot()
      requires Valid() && nodes != []
      ensures head == nodes[0] && prevTail.Some?
      ensures SlotValue(prevTail.value) == nodes[|nodes| - 1]
      ensures head == nodes[|nodes| - 1] <==> |nodes| == 1
    {
      if |nodes| > 1 {
        assert nodes[|nodes| - 2].next == nodes[|nodes| - 1];
      }
    }

    /** `private_queue_detach`: splices the whole private queue, in order, in
        front of the owner's shared list, then resets the queue to empty.
        Nothing happens to an empty queue. */
    method QueueDetach()
      requires owner != null
      requires Valid() && owner.list.Valid()
      requires Disjoint(nodes, owner.list.nodes)
      modifies this, owner.list, nodes
      ensures Valid() && owner.list.Valid()
      ensures nodes == [] && tail == AtHead && prevTail == None
      ensures owner.list.nodes == old(nodes) + old(owner.list.nodes)
      ensures owner.list.Contents() == old(Contents()) + old(owner.list.Contents())
      ensures old(nodes) == [] ==> unchanged(this) && unchanged(owner.list)
    {
      if !QueueEmpty() {
        Splice();
        head := null;
        tail := AtHead;
        prevTail := None;
        nodes := [];
      }
    }

    /** The splice of `private_queue_detach` for a non-empty queue: a single
        node is pushed alone, a longer chain as a range from `head` to the
        node in `prevTail`. */
    method Splice()
      requires owner != null && nodes != []
      requires Valid() && owner.list.Valid()
      requires Disjoint(nodes, owner.list.nodes)
      modifies owner.list, nodes
      ensures owner.list.Valid()
      ensures owner.list.nodes == old(nodes) + old(owner.list.nodes)
      ensures owner.list.Contents() == old(Contents()) + old(owner.list.Contents())
    {
      var list := owner.list;
      LastSlot();
      var last := SlotValue(prevTail.value);
      if head == last {
        assert nodes == [head];
        list.Push(head);
      } else {
        list.PushRange(head, last, nodes);
      }
    }
  }

  /** Why a worker's `attach` loop stopped. `OutOfScript` means the scripted
      run ended while the worker still had a task to take. */
  datatype WorkerExit = Blocked | Stopped | Drained | OutOfScript

  /** Result of running a worker: how it stopped, which functions it ran
      and what the shared list holds afterwards. */
  datatype AttachOutcome = AttachOutcome(exit: WorkerExit, ran: seq<Task>, shared: seq<Task>)

  /** The worker loop on abstract state.  `script[k]` lists the functions
      that the k-th task of this worker submits, from the worker, with never
      blocking and continuation relationship; they land in its private queue
      and are flushed in front of the shared list after that task. */
  function AttachSpec(stopped: bool, running: nat, shared: seq<Task>, script: seq<seq<Task>>): AttachOutcome
    decreases |script|
  {
    if !(stopped || running == 0 || shared != []) then AttachOutcome(Blocked, [], shared)
    else if stopped then AttachOutcome(Stopped, [], shared)
    else if running == 0 && shared == [] then AttachOutcome(Drained, [], shared)
    else if script == [] then AttachOutcome(OutOfScript, [], shared)
    else
      var rest := AttachSpec(stopped, running, script[0] + shared[1..], script[1..]);
      AttachOutcome(rest.exit, [shared[0]] + rest.ran, rest.shared)
  }

  /** All functions the first `k` scripted tasks submit, in order. */
  function Submitted(script: seq<seq<Task>>, k: nat): seq<Task>
    requires k <= |script|
  {
    if k == 0 then [] else Submitted(script, k - 1) + script[k - 1]
  }

  /** `Static_thread_pool`. `executed` records every function invoked through
      this pool, inline or by a worker, in order. */
  class StaticThreadPool {
    const list: ListHead
    var stopped: bool
    var running: nat
    var threads: nat
    var executed: seq<Task>

    /** `_running` starts at 1 and only `wait` decrements it, once, while the
        pool still holds its threads. */
    ghost predicate Valid()
      reads this, list, list.nodes
    {
      && list.Valid()
      && running <= 1
      && (threads > 0 ==> running == 1)
    }

    /** The constructor with `n` threads; their `attach` loops are run
        by calling `Attach`. */
    constructor (n: nat)
      ensures Valid() && fresh(list)
      ensures list.nodes == [] && !stopped && running == 1 && threads == n && executed == []
    {
      list := new ListHead();
      stopped := false;
      running := 1;
      threads := n;
      executed := [];
    }

    /** `execute`, called from the thread whose private data is `caller`.
        Possibly/Always from one of this pool's workers run the function
        inline; never + continuation from one of them defers it to the
        worker's private queue; everything else pushes one new node in front
        of the shared list. */
    method Execute(b: Blocking, r: Relationship, caller: PrivateData, t: Task) returns (route: Route)
      requires Valid() && caller.Valid()
      requires caller.owner == this ==> Disjoint(caller.nodes, list.nodes)
      modifies this, list, caller, caller.nodes
      ensures Valid() && caller.Valid()
      ensures stopped == old(stopped) && running == old(running) && threads == old(threads)
      ensures route == RouteOf(b, r, caller.owner == this)
      ensures caller.owner == this ==> Disjoint(caller.nodes, list.nodes)
      ensures route == Inline ==>
        && executed == old(executed) + [t]
        && list.nodes == old(list.nodes)
        && caller.nodes == old(caller.nodes)
      ensures route == PrivateQueue ==>
        && |caller.nodes| == |old(caller.nodes)| + 1
        && caller.nodes[..|old(caller.nodes)|] == old(caller.nodes)
        && fresh(caller.nodes[|old(caller.nodes)|])
        && caller.Contents() == old(caller.Contents()) + [t]
        && executed == old(executed)
        && list.nodes == old(list.nodes)
      ensures route == SharedList ==>
        && list.nodes != [] && fresh(list.nodes[0])
        && list.nodes[1..] == old(list.nodes)
        && list.Contents() == [t] + old(list.Contents())
        && executed == old(executed)
        && caller.nodes == old(caller.nodes)
    {
      var onOwnWorker := caller.owner == this;
      if (b == Possibly || b == Always) && onOwnWorker {
        executed := executed + [t];
        route := Inline;
      } else if b == Never && r == Continuation && onOwnWorker {
        ghost var n := caller.QueuePush(t);
        route := PrivateQueue;
      } else {
        // Includes `Always` from a thread that is not one of this pool's
        // workers: the function, wrapped with a completion signal, is
        // resubmitted through the never + continuation executor and the
        // caller waits for it.
        PushShared(t);
        route := SharedList;
      }
    }

    /** The shared-list branch of `execute`: one new node in front. */
    method PushShared(t: Task)
      requires Valid()
      modifies list
      ensures Valid()
      ensures list.nodes != [] && fresh(list.nodes[0]) && list.nodes[1..] == old(list.nodes)
      ensures list.Contents() == [t] + old(list.Contents())
    {
      var node := new Node(t);
      list.Push(node);
    }

    /** `twoway_execute`: the same dispatch for the function wrapped to fill
        the returned future. */
    method TwowayExecute(b: Blocking, r: Relationship, caller: PrivateData, t: Task) returns (route: Route)
      requires Valid() && caller.Valid()
      requires caller.owner == this ==> Disjoint(caller.nodes, list.nodes)
      modifies this, list, caller, caller.nodes
      ensures Valid() && caller.Valid()
      ensures stopped == old(stopped) && running == old(running) && threads == old(threads)
      ensures route == RouteOf(b, r, caller.owner == this)
      ensures caller.owner == this ==> Disjoint(caller.nodes, list.nodes)
      ensures route == Inline ==>
        && executed == old(executed) + [t]
        && list.nodes == old(list.nodes)
        && caller.nodes == old(caller.nodes)
      ensures route == PrivateQueue ==>
        && |caller.nodes| == |old(caller.nodes)| + 1
        && caller.nodes[..|old(caller.nodes)|] == old(caller.nodes)
        && fresh(caller.nodes[|old(caller.nodes)|])
        && caller.Contents() == old(caller.Contents()) + [t]
        && executed == old(executed)
        && list.nodes == old(list.nodes)
      ensures route == SharedList ==>
        && list.nodes != [] && fresh(list.nodes[0])
        && list.nodes[1..] == old(list.nodes)
        && list.Contents() == [t] + old(list.Contents())
        && executed == old(executed)
        && caller.nodes == old(caller.nodes)
    {
      route := Execute(b, r, caller, t);
    }

    /** The body of one task run by worker `pd`, whose private queue is
        empty when it starts: the body submits `subs`, in order, with
        never blocking and continuation relationship, and they make up the
        private queue afterwards, as fresh nodes. */
    method InvokeTask(pd: PrivateData, subs: seq<Task>)
      requires Valid() && pd.Valid() && pd.owner == this && pd.nodes == []
      modifies this, list, pd
      ensures Valid() && pd.Valid() && Disjoint(pd.nodes, list.nodes)
      ensures Tasks(pd.nodes) == subs
      ensures forall j :: 0 <= j < |pd.nodes| ==> fresh(pd.nodes[j])
      ensures list.nodes == old(list.nodes) && executed == old(executed)
      ensures stopped == old(stopped) && running == old(running) && threads == old(threads)
    {
      for k := 0 to |subs|
        invariant Valid() && pd.Valid() && Disjoint(pd.nodes, list.nodes)
        invariant Tasks(pd.nodes) == subs[..k]
        invariant forall j :: 0 <= j < |pd.nodes| ==> fresh(pd.nodes[j])
        invariant list.nodes == old(list.nodes) && executed == old(executed)
        invariant stopped == old(stopped) && running == old(running) && threads == old(threads)
      {
        Defer(pd, subs[k]);
        assert subs[..k + 1] == subs[..k] + [subs[k]];
      }
    }

    /** A submission with never blocking and continuation relationship from
        worker `pd` of this pool: `execute` appends one fresh node to the
        worker's private queue. */
    method Defer(pd: PrivateData, t: Task)
      requires Valid() && pd.Valid() && pd.owner == this
      requires Disjoint(pd.nodes, list.nodes)
      modifies this, list, pd, pd.nodes
      ensures Valid() && pd.Valid() && Disjoint(pd.nodes, list.nodes)
      ensures |pd.nodes| == |old(pd.nodes)| + 1 && pd.nodes[..|old(pd.nodes)|] == old(pd.nodes)
      ensures fresh(pd.nodes[|old(pd.nodes)|])
      ensures Tasks(pd.nodes) == Tasks(old(pd.nodes)) + [t]
      ensures list.nodes == old(list.nodes) && executed == old(executed)
      ensures stopped == old(stopped) && running == old(running) && threads == old(threads)
    {
      var route := Execute(Never, Continuation, pd, t);
      assert route == PrivateQueue;
    }

    /** `attach`, the worker loop of worker `pd`, run for at most `|script|`
        tasks.  At every evaluation of the wait condition the private queue is
        empty (a loop invariant).  The worker proceeds only when the pool is
        stopped, `_running` is 0, or the shared list is non-empty; it returns
        on `_stopped` even with queued tasks, and on `_running == 0` with an
        empty list; otherwise it takes exactly one front node, runs it, and
        flushes its private queue before the next check. */
    method Attach(pd: PrivateData, script: seq<seq<Task>>) returns (exit: WorkerExit)
      requires Valid() && pd.Valid() && pd.owner == this && pd.nodes == []
      modifies this, list, list.nodes, pd
      ensures Valid() && pd.Valid() && pd.nodes == []
      ensures stopped == old(stopped) && running == old(running) && threads == old(threads)
      ensures var s := AttachSpec(old(stopped), old(running), old(list.Contents()), script);
        && exit == s.exit
        && executed == old(executed) + s.ran
        && list.Contents() == s.shared
    {
      ghost var shared := Tasks(list.nodes);
      ghost var total := AttachSpec(old(stopped), old(running), shared, script);
      ghost var ran: seq<Task> := [];
      var i := 0;
      while true
        invariant 0 <= i <= |script|
        invariant Valid() && pd.Valid() && pd.nodes == []
        invariant stopped == old(stopped) && running == old(running) && threads == old(threads)
        invariant forall j :: 0 <= j < |list.nodes| ==> list.nodes[j] in old(list.nodes) || fresh(list.nodes[j])
        invariant executed == old(executed) + ran
        invariant Tasks(list.nodes) == shared
        invariant var now := AttachSpec(old(stopped), old(running), shared, script[i..]);
          total == AttachOutcome(now.exit, ran + now.ran, now.shared)
        decreases |script| - i
      {
        var halt := CheckExit(script, i, total, ran, shared);
        if halt.Some? {
          exit := halt.value;
          break;
        }
        RunOne(pd, script[i]);
        AttachAdvance(total, ran, running, shared, script[i] + shared[1..], script, i);
        ran := ran + [shared[0]];
        shared := script[i] + shared[1..];
        i := i + 1;
      }
    }

    /** The checks at the top of the loop of `attach`: the wait condition,
        then `_stopped`, then `_running == 0` with an empty list, then the
        end of the script.  A check that ends the loop gives the outcome
        reached so far; otherwise the pool runs and a task is at the front. */
    method CheckExit(script: seq<seq<Task>>, i: nat, ghost total: AttachOutcome, ghost ran: seq<Task>,
                     ghost shared: seq<Task>)
      returns (halt: Option<WorkerExit>)
      requires Valid() && i <= |script| && Tasks(list.nodes) == shared
      requires var now := AttachSpec(stopped, running, shared, script[i..]);
        total == AttachOutcome(now.exit, ran + now.ran, now.shared)
      ensures halt.Some? ==> total == AttachOutcome(halt.value, ran, shared)
      ensures halt.None? ==> !stopped && shared != [] && i < |script|
    {
      AttachHalts(stopped, running, shared, script[i..], total, ran);
      if !(stopped || running == 0 || !list.Empty()) {
        return Some(Blocked);
      }
      if stopped {
        return Some(Stopped);
      }
      if running == 0 && list.Empty() {
        return Some(Drained);
      }
      if i == |script| {
        return Some(OutOfScript);
      }
      return None;
    }

    /** One turn of the worker loop: take the front node of the shared
        list, invoke it, then flush the private queue it filled in front
        of the list. */
    method RunOne(pd: PrivateData, subs: seq<Task>)
      requires Valid() && pd.Valid() && pd.owner == this && pd.nodes == []
      requires list.nodes != []
      modifies this, list, list.nodes, pd
      ensures Valid() && pd.Valid() && pd.nodes == []
      ensures stopped == old(stopped) && running == old(running) && threads == old(threads)
      ensures executed == old(executed) + [old(list.Contents())[0]]
      ensures list.Contents() == subs + old(list.Contents())[1..]
      ensures forall j :: 0 <= j < |list.nodes| ==> list.nodes[j] in old(list.nodes) || fresh(list.nodes[j])
    {
      TakeFront();
      ghost var rest := list.nodes;
      InvokeAndFlush(pd, subs);
    }

    /** `consume_one` on the shared list, then the invocation of the taken
        function. */
    method TakeFront()
      requires Valid() && list.nodes != []
      modifies this, list, list.nodes[0]
      ensures Valid()
      ensures stopped == old(stopped) && running == old(running) && threads == old(threads)
      ensures executed == old(executed) + [old(list.Contents())[0]]
      ensures list.nodes == old(list.nodes)[1..]
    {
      var node := list.ConsumeOne();
      executed := executed + [node.task];
    }

    /** Runs a task body that submits `subs`, then `private_queue_detach`. */
    method InvokeAndFlush(pd: PrivateData, subs: seq<Task>)
      requires Valid() && pd.Valid() && pd.owner == this && pd.nodes == []
      modifies this, list, pd
      ensures Valid() && pd.Valid() && pd.nodes == []
      ensures stopped == old(stopped) && running == old(running) && threads == old(threads)
      ensures executed == old(executed)
      ensures list.Contents() == subs + old(list.Contents())
      ensures |list.nodes| == |subs| + |old(list.nodes)|
      ensures list.nodes[|subs|..] == old(list.nodes)
      ensures forall j :: 0 <= j < |subs| ==> fresh(list.nodes[j])
    {
      InvokeTask(pd, subs);
      ghost var queued := pd.nodes;
      pd.QueueDetach();
      assert list.nodes == queued + old(list.nodes);
      TasksAppend(queued, old(list.nodes));
    }

    /** `stop`: force stop; workers return at their next check even if tasks
        remain queued. */
    method Stop()
      requires Valid()
      modifies this
      ensures Valid() && stopped
      ensures running == old(running) && threads == old(threads) && executed == old(executed)
    {
      stopped := true;
    }

    /** `wait`: moves the threads out; if there were any, decrements
        `_running` once and joins them.  A second `wait` finds no threads and
        does nothing. */
    method Wait()
      requires Valid()
      modifies this
      ensures Valid() && threads == 0 && stopped == old(stopped) && executed == old(executed)
      ensures running == if old(threads) > 0 then old(running) - 1 else old(running)
    {
      if threads > 0 {
        threads := 0;
        running := running - 1;
      }
    }

    /** The destructor: `stop` then `wait`, so tasks still queued are
        abandoned. */
    method Destroy()
      requires Valid()
      modifies this
      ensures Valid() && stopped && threads == 0 && executed == old(executed)
      ensures running == if old(threads) > 0 then 0 else old(running)
    {
      Stop();
      Wait();
    }
  }

  /** One turn of the worker loop on abstract state: the front task runs
      and what it submitted goes in front of the rest of the list. */
  lemma AttachStep(running: nat, shared: seq<Task>, script: seq<seq<Task>>, i: nat)
    requires shared != [] && i < |script|
    ensures var rest := AttachSpec(false, running, script[i] + shared[1..], script[i + 1..]);
      AttachSpec(false, running, shared, script[i..]) == AttachOutcome(rest.exit, [shared[0]] + rest.ran, rest.shared)
  {
    assert script[i..][1..] == script[i + 1..];
  }

  /** The four ways out of the loop of `attach`: the outcome is the one
      reached so far. */
  lemma AttachHalts(stopped: bool, running: nat, shared: seq<Task>, rest: seq<seq<Task>>,
                    total: AttachOutcome, ran: seq<Task>)
    requires var now := AttachSpec(stopped, running, shared, rest);
      total == AttachOutcome(now.exit, ran + now.ran, now.shared)
    ensures !(stopped || running == 0 || shared != []) ==> total == AttachOutcome(Blocked, ran, shared)
    ensures stopped ==> total == AttachOutcome(Stopped, ran, shared)
    ensures !stopped && running == 0 && shared == [] ==> total == AttachOutcome(Drained, ran, shared)
    ensures !stopped && shared != [] && rest == [] ==>
      total == AttachOutcome(OutOfScript, ran, shared)
  {
    assert ran + [] == ran;
  }

  /** The loop invariant of `attach` carried over one turn. */
  lemma AttachAdvance(total: AttachOutcome, ran: seq<Task>, running: nat, before: seq<Task>, after: seq<Task>,
                      script: seq<seq<Task>>, i: nat)
    requires before != [] && i < |script| && after == script[i] + before[1..]
    requires var now := AttachSpec(false, running, before, script[i..]);
      total == AttachOutcome(now.exit, ran + now.ran, now.shared)
    ensures var now := AttachSpec(false, running, after, script[i + 1..]);
      total == AttachOutcome(now.exit, (ran + [before[0]]) + now.ran, now.shared)
  {
    AttachStep(running, before, script, i);
  }

  /** A stopped pool's worker returns at once and runs nothing: queued
      tasks are abandoned. */
  lemma StoppedWorkerRunsNothing(running: nat, shared: seq<Task>, script: seq<seq<Task>>)
    ensures AttachSpec(true, running, shared, script) == AttachOutcome(Stopped, [], shared)
  {
  }

  /** A worker of a running pool (`_running` still 1) with nothing queued
      blocks. */
  lemma IdleWorkerBlocks(script: seq<seq<Task>>)
    ensures AttachSpec(false, 1, [], script).exit == Blocked
  {
  }

  /** No task is lost or run twice: what a worker ran plus what is left on
      the shared list is exactly what was there plus what its tasks
      submitted. */
  lemma {:induction false} AttachConserves(stopped: bool, running: nat, shared: seq<Task>, script: seq<seq<Task>>)
    ensures var s := AttachSpec(stopped, running, shared, script);
      && |s.ran| <= |script|
      && multiset(s.ran) + multiset(s.shared) == multiset(shared) + multiset(Submitted(script, |s.ran|))
    decreases |script|, 1
  {
    var s := AttachSpec(stopped, running, shared, script);
    if !stopped && shared != [] && script != [] {
      AttachConservesStep(running, shared, script);
    } else if stopped {
      assert s == AttachOutcome(Stopped, [], shared);
    } else if shared == [] {
      assert s.shared == shared && s.ran == [];
    } else {
      assert s == AttachOutcome(OutOfScript, [], shared);
    }
  }

  /** The case of `AttachConserves` where the worker takes a task. */
  lemma {:induction false} AttachConservesStep(running: nat, shared: seq<Task>, script: seq<seq<Task>>)
    requires shared != [] && script != []
    ensures var s := AttachSpec(false, running, shared, script);
      && |s.ran| <= |script|
      && multiset(s.ran) + multiset(s.shared) == multiset(shared) + multiset(Submitted(script, |s.ran|))
    decreases |script|, 0
  {
    var s := AttachSpec(false, running, shared, script);
    var shared' := script[0] + shared[1..];
    var rest := AttachSpec(false, running, shared', script[1..]);
    assert s.ran == [shared[0]] + rest.ran && s.shared == rest.shared;
    AttachConserves(false, running, shared', script[1..]);
    SubmittedShift(script, |rest.ran|);
    assert shared == [shared[0]] + shared[1..];
    MultisetStep(shared[0], rest.ran, rest.shared, script[0], shared[1..], Submitted(script[1..], |rest.ran|));
  }

  /** The bookkeeping step of `AttachConserves`: running the front task `x`
      moves it from the list to the ran log, and the submitted functions
      `s0` of that task move from the list to the submitted log. */
  lemma MultisetStep(x: Task, ran: seq<Task>, left: seq<Task>, s0: seq<Task>, tail: seq<Task>, sub: seq<Task>)
    requires multiset(ran) + multiset(left) == multiset(s0 + tail) + multiset(sub)
    ensures multiset([x] + ran) + multiset(left) == multiset([x] + tail) + multiset(s0 + sub)
  {
    calc {
      multiset([x] + ran) + multiset(left);
      multiset{x} + (multiset(ran) + multiset(left));
      multiset{x} + (multiset(s0) + multiset(tail) + multiset(sub));
      (multiset{x} + multiset(tail)) + (multiset(s0) + multiset(sub));
    }
  }

  lemma {:induction false} SubmittedShift(script: seq<seq<Task>>, k: nat)
    requires 0 < |script| && k < |script|
    ensures Submitted(script, k + 1) == script[0] + Submitted(script[1..], k)
  {
    if k > 0 {
      SubmittedShift(script, k - 1);
    }
  }

  /** Drain: once `_running` is 0 and the pool is not stopped, a worker
      whose tasks submit nothing runs the whole shared list front to back
      and returns with the list empty. */
  lemma {:induction false} DrainRunsEverything(shared: seq<Task>, script: seq<seq<Task>>)
    requires |script| >= |shared|
    requires forall k :: 0 <= k < |shared| ==> script[k] == []
    ensures AttachSpec(false, 0, shared, script) == AttachOutcome(Drained, shared, [])
    decreases |shared|
  {
    if shared != [] {
      assert script[0] + shared[1..] == shared[1..];
      DrainRunsEverything(shared[1..], script[1..]);
    }
  }

  /** A worker that is not stopped and whose next `|p|` tasks submit nothing
      runs the first `|p|` queued tasks in list order. */
  lemma {:induction false} RunsPrefixInOrder(running: nat, p: seq<Task>, q: seq<Task>, script: seq<seq<Task>>)
    requires |script| >= |p|
    requires forall k :: 0 <= k < |p| ==> script[k] == []
    ensures var s := AttachSpec(false, running, p + q, script);
      |s.ran| >= |p| && s.ran[..|p|] == p
    decreases |p|
  {
    if p != [] {
      assert script[0] + (p + q)[1..] == p[1..] + q;
      RunsPrefixInOrder(running, p[1..], q, script[1..]);
    }
  }

  /** FIFO law of the private queue: the continuations c1..cN that a task
      submits from its worker run next, in submission order. */
  lemma ContinuationsRunInOrder(running: nat, shared: seq<Task>, cs: seq<Task>, rest: seq<seq<Task>>)
    requires shared != []
    requires |rest| >= |cs|
    requires forall k :: 0 <= k < |cs| ==> rest[k] == []
    ensures var s := AttachSpec(false, running, shared, [cs] + rest);
      |s.ran| >= 1 + |cs| && s.ran[0] == shared[0] && s.ran[1..1 + |cs|] == cs
  {
    assert ([cs] + rest)[1..] == rest;
    RunsPrefixInOrder(running, cs, shared[1..], rest);
  }
}
