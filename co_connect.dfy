/** The hooked `connect` and `usleep` of the coroutine library
    (examples/stackful_coroutine/co/posix.h).  Each connection attempt's
    system call results are inputs; the backoff waits `connect` performs
    through the hooked `poll` are returned as a list of milliseconds. */
module CoConnect {
  import opened Wrappers
  import opened CoPosix

  const EPERM: int := 1
  const EAGAIN: int := 11
  const EINVAL: int := 22
  const EADDRINUSE: int := 98
  const EADDRNOTAVAIL: int := 99
  const ENETUNREACH: int := 101
  const EISCONN: int := 106
  const ETIMEDOUT: int := 110
  const ECONNREFUSED: int := 111
  const EALREADY: int := 114
  const EINPROGRESS: int := 115

  /** The results one iteration of the retry loop sees: whether `addEvent`
      accepted the WRITE registration, whether `getsockopt` succeeded, the
      `SO_ERROR` value, and whether `getpeername` succeeded. */
  datatype Attempt = Attempt(registered: bool, sockoptOk: bool, soerr: int, peerOk: bool)

  /** What one iteration decides. */
  datatype Verdict = Done | Retry | Fail(errno: int)

  /** `SO_ERROR` values after which the socket may be connected. */
  predicate MayBeConnected(soerr: int)
  {
    soerr == 0 || soerr == EINTR || soerr == EINPROGRESS || soerr == EALREADY || soerr == EISCONN
  }

  /** `SO_ERROR` values that are retried. */
  predicate Transient(soerr: int)
  {
    soerr == EAGAIN || soerr == EADDRINUSE || soerr == EADDRNOTAVAIL || soerr == ENETUNREACH || soerr == ECONNREFUSED
  }

  /** The classification of one attempt: a refused registration or a
      failing `getsockopt` is EPERM; a possibly connected socket is done
      when it has a peer and retried otherwise; a transient error is
      retried; any other error is reported as it is. */
  function Judge(a: Attempt): (v: Verdict)
    ensures v.Done? <==> a.registered && a.sockoptOk && MayBeConnected(a.soerr) && a.peerOk
    ensures v.Retry? <==>
      a.registered && a.sockoptOk && ((MayBeConnected(a.soerr) && !a.peerOk) || Transient(a.soerr))
    ensures v.Fail? ==> v.errno == EPERM || (!MayBeConnected(v.errno) && !Transient(v.errno))
  {
    if !a.registered || !a.sockoptOk then Fail(EPERM)
    else if MayBeConnected(a.soerr) then (if a.peerOk then Done else Retry)
    else if Transient(a.soerr) then Retry
    else Fail(a.soerr)
  }

  function Pow2(n: nat): (p: nat)
    ensures p >= 1
  {
    if n == 0 then 1 else 2 * Pow2(n - 1)
  }

  lemma {:induction false} Pow2Add(a: nat, b: nat)
    ensures Pow2(a + b) == Pow2(a) * Pow2(b)
    decreases a
  {
    if a > 0 {
      Pow2Add(a - 1, b);
    }
  }

  const INT_RANGE: int := 0x1_0000_0000

  /** A value reduced to a 32-bit two's complement `int`, as C++20 defines
      the result of `<<` on `int`. */
  function Wrap32(x: int): (r: int)
    ensures -0x8000_0000 <= r < 0x8000_0000
    ensures (r - x) % INT_RANGE == 0
  {
    var m := x % INT_RANGE;
    if m >= 0x8000_0000 then m - INT_RANGE else m
  }

  /** The wait before the attempt with 0-based index `k`: none for the
      first three, then the `int` `1024 << (k - 2)` milliseconds. */
  function WaitBefore(k: nat): seq<int>
  {
    if k > 2 then [Wrap32(1024 * Pow2(k - 2))] else []
  }

  lemma {:induction false} Pow2Mono(a: nat, b: nat)
    requires a <= b
    ensures Pow2(a) <= Pow2(b)
    decreases b
  {
    if a < b {
      Pow2Mono(a, b - 1);
    }
  }

  lemma Pow2Constants()
    ensures Pow2(10) == 1024 && Pow2(20) == 0x10_0000 && Pow2(31) == 0x8000_0000 && Pow2(32) == INT_RANGE
  {
    assert Pow2(5) == 32;
    Pow2Add(5, 5);
    Pow2Add(10, 10);
    Pow2Add(20, 10);
    assert Pow2(31) == 2 * Pow2(30);
    assert Pow2(32) == 2 * Pow2(31);
  }

  /** The doubling wait stays exact up to 2^30 ms, before attempt 22. */
  lemma WaitExact(k: nat)
    requires 2 < k < 23
    ensures WaitBefore(k) == [1024 * Pow2(k - 2)]
  {
    Pow2Constants();
    Pow2Mono(k - 2, 20);
    var x := 1024 * Pow2(k - 2);
    assert 0 < x < 0x8000_0000;
    assert x % INT_RANGE == x;
  }

  /** The shift before attempt 23 reaches the sign bit: INT_MIN. */
  lemma WaitIntMin()
    ensures WaitBefore(23) == [-0x8000_0000]
  {
    Pow2Constants();
    Pow2Add(10, 21);
    assert 1024 * Pow2(21) == 0x8000_0000;
  }

  /** The shifts before attempts 24 to 33 push every bit out: 0. */
  lemma WaitZero(k: nat)
    requires 23 < k < 34
    ensures WaitBefore(k) == [0]
  {
    Pow2Constants();
    Pow2Add(10, k - 2);
    Pow2Add(32, k - 24);
    var n := Pow2(k - 24);
    assert 1024 * Pow2(k - 2) == INT_RANGE * n;
    assert (INT_RANGE * n) % INT_RANGE == 0;
  }

  /** The waits before the attempts `[lo, hi)`. */
  function Backoff(lo: nat, hi: nat): (ws: seq<int>)
    decreases hi
  {
    if hi <= lo then [] else Backoff(lo, hi - 1) + WaitBefore(hi - 1)
  }

  lemma {:induction false} BackoffFront(lo: nat, hi: nat)
    requires lo < hi
    ensures Backoff(lo, hi) == WaitBefore(lo) + Backoff(lo + 1, hi)
    decreases hi
  {
    if lo + 1 < hi {
      BackoffFront(lo, hi - 1);
    }
  }

  /** The outcome of `connect`: the return value, the errno set, the waits
      made, and how many attempts were made. */
  datatype ConnectResult = ConnectResult(ret: int, errno: Option<int>, waits: seq<int>, made: nat)

  /** The attempts from index `k` on, up to `maxRetries` attempts in all. */
  function ConnectFrom(attempts: seq<Attempt>, k: nat, maxRetries: nat): (r: ConnectResult)
    requires k <= maxRetries <= |attempts|
    ensures k <= r.made <= maxRetries
    ensures r.waits == Backoff(k, r.made)
    decreases maxRetries - k
  {
    if k == maxRetries then ConnectResult(-1, Some(ETIMEDOUT), [], k)
    else
      var w := WaitBefore(k);
      match Judge(attempts[k])
      case Fail(e) => ConnectResult(-1, Some(e), w, k + 1)
      case Done => ConnectResult(0, None, w, k + 1)
      case Retry =>
        var rest := ConnectFrom(attempts, k + 1, maxRetries);
        BackoffFront(k, rest.made);
        rest.(waits := w + rest.waits)
  }

  /** What `ConnectFrom` decides: every attempt before the last one made
      was retried; the last one made, when it was not retried, gives the
      result (success, or its errno); when no attempt decided, all
      `maxRetries` were made and the result is ETIMEDOUT.  The return value
      is 0 exactly when no errno is set, and -1 otherwise. */
  lemma {:induction false} ConnectOutcome(attempts: seq<Attempt>, k: nat, maxRetries: nat)
    requires k <= maxRetries <= |attempts|
    ensures var r := ConnectFrom(attempts, k, maxRetries);
      && (r.ret == 0 <==> r.errno.None?)
      && (r.ret == 0 || r.ret == -1)
      && (forall j :: k <= j < r.made - 1 ==> Judge(attempts[j]).Retry?)
      && (r.made > k && !Judge(attempts[r.made - 1]).Retry? ==>
            r.errno == (if Judge(attempts[r.made - 1]).Done? then None else Some(Judge(attempts[r.made - 1]).errno)))
      && (r.made == k || Judge(attempts[r.made - 1]).Retry? ==>
            r.made == maxRetries && r.ret == -1 && r.errno == Some(ETIMEDOUT))
    decreases maxRetries - k
  {
    if k < maxRetries && Judge(attempts[k]).Retry? {
      ConnectOutcome(attempts, k + 1, maxRetries);
    }
  }

  /** One unfolding of `ConnectFrom`: attempt `k` decides, or its wait is
      followed by the rest. */
  lemma ConnectStep(attempts: seq<Attempt>, k: nat, maxRetries: nat)
    requires k < maxRetries <= |attempts|
    ensures var r, v := ConnectFrom(attempts, k, maxRetries), Judge(attempts[k]);
      && (v.Fail? ==> r.ret == -1 && r.errno == Some(v.errno) && r.waits == WaitBefore(k))
      && (v.Done? ==> r.ret == 0 && r.errno == None && r.waits == WaitBefore(k))
      && (v.Retry? ==> var rest := ConnectFrom(attempts, k + 1, maxRetries);
            r.ret == rest.ret && r.errno == rest.errno && r.waits == WaitBefore(k) + rest.waits)
  {
  }

  /** A retried attempt hands the rest of the result to the next one, its
      wait appended to the waits made so far. */
  lemma RetryStep(attempts: seq<Attempt>, k: nat, maxRetries: nat, total: ConnectResult, before: seq<int>)
    requires k < maxRetries <= |attempts| && Judge(attempts[k]).Retry?
    requires var r := ConnectFrom(attempts, k, maxRetries);
      total.ret == r.ret && total.errno == r.errno && total.waits == before + r.waits
    ensures var r := ConnectFrom(attempts, k + 1, maxRetries);
      total.ret == r.ret && total.errno == r.errno && total.waits == (before + WaitBefore(k)) + r.waits
  {
    ConnectStep(attempts, k, maxRetries);
    var rest := ConnectFrom(attempts, k + 1, maxRetries);
    assert before + (WaitBefore(k) + rest.waits) == (before + WaitBefore(k)) + rest.waits;
  }

  /** `connect`: at most `maxRetries` attempts (the `connectRetries` of the
      thread's poll configuration); from the fourth on, each is preceded by
      a wait that doubles from 2048 ms.  `1024 << (retries - 3)` is an `int`
      shift, reduced modulo 2^32; a shift count of 32 or more, from
      `maxRetries` 35 on, is undefined. */
  method Connect(attempts: seq<Attempt>, maxRetries: nat) returns (ret: int, errno: Option<int>, waits: seq<int>)
    requires maxRetries <= |attempts| && maxRetries <= 34
    ensures var r := ConnectFrom(attempts, 0, maxRetries);
      ret == r.ret && errno == r.errno && waits == r.waits
  {
    ghost var total := ConnectFrom(attempts, 0, maxRetries);
    var retries: nat := 0;
    waits := [];
    while retries < maxRetries
      invariant retries <= maxRetries
      invariant var r := ConnectFrom(attempts, retries, maxRetries);
        total.ret == r.ret && total.errno == r.errno && total.waits == waits + r.waits
      decreases maxRetries - retries
    {
      var k := retries;
      ghost var before := waits;
      retries := retries + 1;
      if k > 2 {
        waits := waits + [Wrap32(1024 * Pow2(retries - 3))];
      }
      assert waits == before + WaitBefore(k);
      ConnectStep(attempts, k, maxRetries);
      var a := attempts[k];
      if !a.registered {
        return -1, Some(EPERM), waits;
      }
      if !a.sockoptOk {
        return -1, Some(EPERM), waits;
      }
      if MayBeConnected(a.soerr) {
        if !a.peerOk {
          RetryStep(attempts, k, maxRetries, total, before);
          continue;
        }
        return 0, None, waits;
      } else if Transient(a.soerr) {
        RetryStep(attempts, k, maxRetries, total, before);
        continue;
      } else {
        return -1, Some(a.soerr), waits;
      }
    }
    ret, errno := -1, Some(ETIMEDOUT);
  }

  /** With the default eight attempts, the waits are 2, 4, 8, 16 and 32
      seconds, before attempts four to eight. */
  lemma DefaultBackoff()
    ensures Backoff(0, DEFAULT_CONNECT_RETRIES) == [2048, 4096, 8192, 16384, 32768]
  {
    assert Backoff(0, 3) == [];
    assert Pow2(1) == 2 && Pow2(2) == 4 && Pow2(3) == 8 && Pow2(4) == 16 && Pow2(5) == 32;
  }

  /** When every attempt is retried, `connect` waits before each attempt past
      the third and gives up with ETIMEDOUT. */
  lemma AllRetriesTimeOut(attempts: seq<Attempt>, maxRetries: nat)
    requires maxRetries <= |attempts|
    requires forall j :: 0 <= j < maxRetries ==> Judge(attempts[j]).Retry?
    ensures ConnectFrom(attempts, 0, maxRetries)
         == ConnectResult(-1, Some(ETIMEDOUT), Backoff(0, maxRetries), maxRetries)
  {
    var r := ConnectFrom(attempts, 0, maxRetries);
    ConnectOutcome(attempts, 0, maxRetries);
    if r.made > 0 {
      assert Judge(attempts[r.made - 1]).Retry?;
    }
  }

  /** The outcome of `usleep`: the return value, the errno set, and the
      `tv_nsec` armed on the timer. */
  datatype UsleepResult = UsleepResult(ret: int, errno: Option<int>, armed: Option<int>)

  /** `usleep(usec)`: a second or more is EINVAL; a failing
      `timerfd_create`, `timerfd_settime` or `timerfd_gettime` is EINTR.
      Otherwise a one-shot timer of `usec * 1000` ns is armed, the coroutine
      yields until it fires, and the remaining time read back after the
      wake-up (`remainingNsec`) is returned in microseconds. */
  function Usleep(usec: nat, createOk: bool, setOk: bool, getOk: bool, remainingNsec: nat): (r: UsleepResult)
    ensures r.errno == Some(EINVAL) <==> usec >= 1000000
    ensures r.ret == -1 <==> r.errno.Some?
    ensures r.errno.Some? ==> r.errno.value == EINVAL || r.errno.value == EINTR
    ensures r.armed.Some? ==> r.armed.value == usec * 1000 && 0 <= r.armed.value < 1000000000
    ensures r.errno.None? ==> r.armed.Some? && r.ret == remainingNsec / 1000
  {
    if usec >= 1000000 then UsleepResult(-1, Some(EINVAL), None)
    else if !createOk then UsleepResult(-1, Some(EINTR), None)
    else
      var nsec := usec * 1000;
      if !setOk then UsleepResult(-1, Some(EINTR), Some(nsec))
      else if !getOk then UsleepResult(-1, Some(EINTR), Some(nsec))
      else UsleepResult(remainingNsec / 1000, None, Some(nsec))
  }

  /** The armed nanoseconds convert back to the requested microseconds: a
      successful `usleep` returns at most `usec`, and exactly `usec` when
      none of the armed time has elapsed. */
  lemma UsleepRoundTrip(usec: nat, remainingNsec: nat)
    requires usec < 1000000 && remainingNsec <= usec * 1000
    ensures 0 <= Usleep(usec, true, true, true, remainingNsec).ret <= usec
    ensures Usleep(usec, true, true, true, usec * 1000).ret == usec
  {
  }
}
