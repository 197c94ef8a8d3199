/** The future/promise pair with continuations
    (examples/future_then/Future/impl/ControlBlock.h, Promise.h, Future.h).
    A promise and its futures share a `ControlBlock`; `then` and `cancelIf`
    register a continuation that, once the value is set, is posted as a
    request to the executor; the request runs the continuation, which sets
    (or cancels) the promise of the next future, and marks the block DONE.
    All futures of a chain carry the same value type `T`.  Locks and the
    atomic state are not modelled (one step at a time). */
module Future {
  import opened Wrappers

  datatype State = NEW | READY | POSTED | DONE | DEAD | CANCEL

  /** A continuation: `then(f)` maps the value into the next promise;
      `cancelIf(pred)` cancels the next promise when `pred` holds and
      forwards the value otherwise. */
  datatype Kind<!T> = MapWith(f: T -> T) | CancelWhen(pred: T -> bool)

  /** What `setValue` did: stored the value (and posted the continuation
      when there was one), ignored it on a cancelled block, or threw. */
  datatype SetOutcome = Stored(posted: bool) | Ignored | Throws(message: string)

  const SET_TWICE: string := "promise can only set once."

  /** The state change of `setValue` on a block in state `s`; `hasThen`
      says whether a continuation is registered. */
  function SetTransition(s: State, hasThen: bool): (r: (State, SetOutcome))
    ensures r.1.Stored? <==> s == NEW
    ensures r.1.Ignored? <==> s == CANCEL
    ensures r.1.Stored? ==> r.0 == (if hasThen then POSTED else READY) && r.1.posted == hasThen
    ensures !r.1.Stored? ==> r.0 == s
    ensures r.1.Throws? ==> r.1.message == SET_TWICE
  {
    if s == NEW then (if hasThen then (POSTED, Stored(true)) else (READY, Stored(false)))
    else if s == CANCEL then (s, Ignored)
    else (s, Throws(SET_TWICE))
  }

  /** What `futureRoutine` does to the upstream block. */
  datatype RegisterOutcome = RegisterOutcome(upstream: State, registered: bool, posted: bool, downstreamCancelled: bool)

  /** The state change of `then`/`cancelIf` on a block in state `s`: the
      continuation is registered on NEW and READY, and posted at once on
      READY; on CANCEL the next future's promise is cancelled; on POSTED,
      DONE and DEAD nothing happens and the next future is never set. */
  function RegisterTransition(s: State): (r: RegisterOutcome)
    ensures r.registered <==> s == NEW || s == READY
    ensures r.posted <==> s == READY
    ensures r.downstreamCancelled <==> s == CANCEL
    ensures r.upstream == (if s == READY then POSTED else s)
  {
    match s
    case NEW => RegisterOutcome(NEW, true, false, false)
    case READY => RegisterOutcome(POSTED, true, true, false)
    case CANCEL => RegisterOutcome(CANCEL, false, false, true)
    case _ => RegisterOutcome(s, false, false, false)
  }

  /** A value can be set only once: after a stored `setValue`, every
      further one throws. */
  lemma SetOnlyOnce(s: State, hasThen: bool, hasThen': bool)
    requires SetTransition(s, hasThen).1.Stored?
    ensures SetTransition(SetTransition(s, hasThen).0, hasThen').1 == Throws(SET_TWICE)
  {
  }

  /** Whichever comes first, the value or the continuation, the
      continuation is posted exactly once and the block ends POSTED. */
  lemma PostedExactlyOnce()
    ensures var r := RegisterTransition(NEW);
      && !r.posted && r.registered
      && SetTransition(r.upstream, r.registered) == (POSTED, Stored(true))
    ensures var (s, o) := SetTransition(NEW, false);
      && o == Stored(false)
      && RegisterTransition(s).posted && RegisterTransition(s).upstream == POSTED
  {
  }

  /** A cancelled block stays cancelled: setting it is ignored and a
      continuation registered on it cancels the next future, so the
      cancellation runs down the chain. */
  lemma CancelPropagates(hasThen: bool)
    ensures SetTransition(CANCEL, hasThen) == (CANCEL, Ignored)
    ensures RegisterTransition(CANCEL) == RegisterOutcome(CANCEL, false, false, true)
  {
  }

  class ControlBlock<T(0)> {
    var state: State
    var value: T
    var continuation: Option<Continuation<T>>

    /** `ControlBlock()`: state NEW, no continuation. */
    constructor ()
      ensures state == NEW && continuation == None
    {
      state := NEW;
      continuation := None;
    }
  }

  /** A registered continuation and the promise of the next future. */
  datatype Continuation<!T(0)> = Continuation(kind: Kind<T>, next: Promise<T>)

  /** The executor requests are posted to.  A request is identified by the
      block whose continuation it runs. */
  class Executor<T(0)> {
    var posted: seq<ControlBlock<T>>

    constructor ()
      ensures posted == []
    {
      posted := [];
    }

    /** `execute` of a request. */
    method Post(cb: ControlBlock<T>)
      modifies this
      ensures posted == old(posted) + [cb]
    {
      posted := posted + [cb];
    }

    /** Runs the oldest posted request: the block's continuation is called
        with its value, then the block becomes DONE.  `outcome` is what the
        next promise's `setValue` did, `None` if it was cancelled.  The next
        promise's block is a different block from this one. */
    method RunOne() returns (cb: ControlBlock<T>, outcome: Option<SetOutcome>)
      requires posted != [] && posted[0].continuation.Some?
      requires posted[0].continuation.value.next.shared != posted[0]
      requires posted[0].continuation.value.next.executor == this
      modifies this, posted[0], posted[0].continuation.value.next.shared
      ensures cb == old(posted[0]) && cb.state == DONE
      ensures cb.value == old(cb.value) && cb.continuation == old(cb.continuation)
      ensures var c := old(cb.continuation.value);
        var ds := c.next.shared;
        var forward := c.kind.MapWith? || !c.kind.pred(old(cb.value));
        var arg := if c.kind.MapWith? then c.kind.f(old(cb.value)) else old(cb.value);
        var (s, o) := SetTransition(old(ds.state), old(ds.continuation).Some?);
        && (forward ==>
              && outcome == Some(o) && ds.state == s
              && (o.Stored? ==> ds.value == arg)
              && posted == old(posted)[1..] + (if o == Stored(true) then [ds] else []))
        && ds.continuation == old(ds.continuation)
        && (!forward ==>
              && outcome == None && ds.state == CANCEL && ds.value == old(ds.value)
              && posted == old(posted)[1..])
    {
      cb := posted[0];
      posted := posted[1..];
      var c := cb.continuation.value;
      match c.kind {
        case MapWith(f) =>
          var o := c.next.SetValue(f(cb.value));
          outcome := Some(o);
        case CancelWhen(pred) =>
          if pred(cb.value) {
            c.next.Cancel();
            outcome := None;
          } else {
            var o := c.next.SetValue(cb.value);
            outcome := Some(o);
          }
      }
      cb.state := DONE;
    }
  }

  class Promise<T(0)> {
    const executor: Executor<T>
    const shared: ControlBlock<T>

    /** `Promise(executor)`: a new block in state NEW. */
    constructor (executor: Executor<T>)
      ensures this.executor == executor && fresh(shared)
      ensures shared.state == NEW && shared.continuation == None
    {
      this.executor := executor;
      shared := new ControlBlock();
    }

    /** `setValue`, proved against `SetTransition`: on NEW the value is
        stored and the state becomes READY, or POSTED with the
        continuation posted when there is one; on CANCEL nothing happens;
        otherwise it throws. */
    method SetValue(v: T) returns (r: SetOutcome)
      modifies shared, executor
      ensures (shared.state, r) == SetTransition(old(shared.state), old(shared.continuation).Some?)
      ensures shared.value == (if r.Stored? then v else old(shared.value))
      ensures shared.continuation == old(shared.continuation)
      ensures executor.posted == old(executor.posted) + (if r == Stored(true) then [shared] else [])
    {
      if shared.state == NEW {
        shared.value := v;
        shared.state := READY;
        if shared.continuation.Some? {
          shared.state := POSTED;
          executor.Post(shared);
          return Stored(true);
        }
        return Stored(false);
      } else if shared.state == CANCEL {
        return Ignored;
      } else {
        return Throws(SET_TWICE);
      }
    }

    /** `cancel`. */
    method Cancel()
      modifies shared
      ensures shared.state == CANCEL
      ensures shared.value == old(shared.value) && shared.continuation == old(shared.continuation)
    {
      shared.state := CANCEL;
    }

    /** `get`: a future sharing this promise's block. */
    method GetFuture() returns (f: Future<T>)
      ensures fresh(f) && f.shared == shared && f.executor == executor
    {
      f := new Future(executor, shared);
    }
  }

  /** A promise and its future over a new block in state NEW. */
  method NewPair<T(0)>(executor: Executor<T>) returns (p: Promise<T>, f: Future<T>)
    ensures fresh(p) && fresh(f) && fresh(p.shared)
    ensures f.shared == p.shared && p.executor == executor && f.executor == executor
    ensures p.shared.state == NEW && p.shared.continuation == None
  {
    p := new Promise(executor);
    f := p.GetFuture();
  }

  class Future<T(0)> {
    const executor: Executor<T>
    const shared: ControlBlock<T>

    constructor (executor: Executor<T>, shared: ControlBlock<T>)
      ensures this.executor == executor && this.shared == shared
    {
      this.executor := executor;
      this.shared := shared;
    }

    /** `futureRoutine`, proved against `RegisterTransition`: a new
        promise/future pair for the next step; on NEW or READY the
        continuation is registered on this block (and posted at once on
        READY); on CANCEL the next promise is cancelled. */
    method FutureRoutine(kind: Kind<T>) returns (next: Future<T>)
      modifies shared, executor
      ensures fresh(next) && fresh(next.shared) && next.executor == executor
      ensures var r := RegisterTransition(old(shared.state));
        && shared.state == r.upstream && shared.value == old(shared.value)
        && (r.registered ==> shared.continuation.Some? && shared.continuation.value.kind == kind
                             && shared.continuation.value.next.shared == next.shared
                             && shared.continuation.value.next.executor == executor)
        && (!r.registered ==> shared.continuation == old(shared.continuation))
        && executor.posted == old(executor.posted) + (if r.posted then [shared] else [])
        && next.shared.state == (if r.downstreamCancelled then CANCEL else NEW)
        && next.shared.continuation == None
    {
      var promise, future := NewPair(executor);
      var state := shared.state;
      if state == NEW || state == READY {
        shared.continuation := Some(Continuation(kind, promise));
        if state == READY {
          shared.state := POSTED;
          executor.Post(shared);
        }
      } else if state == CANCEL {
        promise.Cancel();
      }
      next := future;
    }

    /** `then(f)`. */
    method Then(f: T -> T) returns (next: Future<T>)
      modifies shared, executor
      ensures fresh(next) && fresh(next.shared) && next.executor == executor
      ensures var r := RegisterTransition(old(shared.state));
        && shared.state == r.upstream
        && (r.registered ==> shared.continuation.Some? && shared.continuation.value.kind == MapWith(f)
                             && shared.continuation.value.next.shared == next.shared
                             && shared.continuation.value.next.executor == executor)
        && executor.posted == old(executor.posted) + (if r.posted then [shared] else [])
        && next.shared.state == (if r.downstreamCancelled then CANCEL else NEW)
        && next.shared.continuation == None
    {
      next := FutureRoutine(MapWith(f));
    }

    /** `cancelIf(pred)`. */
    method CancelIf(pred: T -> bool) returns (next: Future<T>)
      modifies shared, executor
      ensures fresh(next) && fresh(next.shared) && next.executor == executor
      ensures var r := RegisterTransition(old(shared.state));
        && shared.state == r.upstream
        && (r.registered ==> shared.continuation.Some? && shared.continuation.value.kind == CancelWhen(pred)
                             && shared.continuation.value.next.shared == next.shared
                             && shared.continuation.value.next.executor == executor)
        && executor.posted == old(executor.posted) + (if r.posted then [shared] else [])
        && next.shared.state == (if r.downstreamCancelled then CANCEL else NEW)
        && next.shared.continuation == None
    {
      next := FutureRoutine(CancelWhen(pred));
    }

    /** `hasResult`: the value is set and its continuation not yet
        posted. */
    predicate HasResult()
      reads shared
    {
      shared.state == READY
    }

    /** `get`: takes the value and marks the block DEAD, after which a
        `setValue` throws. */
    method Get() returns (v: T)
      modifies shared
      ensures v == old(shared.value) && shared.state == DEAD
      ensures SetTransition(shared.state, shared.continuation.Some?).1 == Throws(SET_TWICE)
    {
      v := shared.value;
      shared.state := DEAD;
    }
  }

  /** Promise, `then(f)`, `setValue(v)`, run: the continuation runs once
      and the next future holds `f(v)`, ready to be read. */
  method ThenChain<T(0)>(executor: Executor<T>, f: T -> T, v: T) returns (result: Future<T>)
    requires executor.posted == []
    modifies executor
    ensures result.HasResult() && result.shared.value == f(v)
  {
    var p, fut := NewPair(executor);
    result := fut.Then(f);
    var o := p.SetValue(v);
    assert executor.posted == [p.shared];
    var cb, outcome := executor.RunOne();
  }
}
