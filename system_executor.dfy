/** The `System_executor` of examples/pipeline/System_executor.hpp: two
    flags, `inplace` and `synchronized`, decide how `execute` launches a
    function, and the blocking property is answered from them. */
module SystemExecutor {

  datatype Executor = Executor(inplace: bool, synchronized: bool)

  datatype Blocking = Never | Possibly | Always

  /** Where `execute` runs the function: in the caller, on a new thread
      that is joined, or on a new thread that is detached. */
  datatype Launch = InCaller | JoinedThread | DetachedThread

  /** `require(blocking)`: never is `{false, false}`, possibly
      `{false, true}`, always `{true}` (so `synchronized` is false). */
  function Require(b: Blocking): (e: Executor)
    ensures e.inplace <==> b == Always
    ensures e.synchronized <==> b == Possibly
  {
    match b
    case Never => Executor(false, false)
    case Possibly => Executor(false, true)
    case Always => Executor(true, false)
  }

  /** `query(blocking)`. */
  function Query(e: Executor, b: Blocking): bool
  {
    match b
    case Never => !e.inplace && !e.synchronized
    case Possibly => !e.inplace && e.synchronized
    case Always => e.inplace
  }

  /** Every required executor reports exactly the blocking property it was
      required with. */
  lemma RequireQuery(b: Blocking, b': Blocking)
    ensures Query(Require(b), b') <==> b == b'
  {
  }

  /** Every executor reports exactly one blocking property. */
  lemma QueryExactlyOne(e: Executor)
    ensures Query(e, Never) || Query(e, Possibly) || Query(e, Always)
    ensures !(Query(e, Never) && Query(e, Possibly))
    ensures !(Query(e, Never) && Query(e, Always))
    ensures !(Query(e, Possibly) && Query(e, Always))
  {
  }

  /** `execute`'s branch: in the caller iff `inplace`, otherwise a thread
      joined iff `synchronized`. */
  function ExecuteBranch(e: Executor): (l: Launch)
    ensures l == InCaller <==> e.inplace
    ensures l == JoinedThread <==> !e.inplace && e.synchronized
    ensures l == DetachedThread <==> !e.inplace && !e.synchronized
  {
    if !e.inplace then (if e.synchronized then JoinedThread else DetachedThread)
    else InCaller
  }

  /** What `execute` does agrees with the blocking property the executor
      reports: always-blocking runs in the caller, possibly-blocking waits
      for its thread, never-blocking leaves it running. */
  lemma ExecuteMatchesQuery(e: Executor)
    ensures Query(e, Always) <==> ExecuteBranch(e) == InCaller
    ensures Query(e, Possibly) <==> ExecuteBranch(e) == JoinedThread
    ensures Query(e, Never) <==> ExecuteBranch(e) == DetachedThread
  {
  }
}
