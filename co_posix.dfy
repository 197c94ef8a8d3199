/** The epoll reactor of the coroutine library
    (examples/stackful_coroutine/co/posix.h): the per-thread `PollConfig`
    with its fd → `Event` table, `addEvent`, one turn of `loop`, the
    hooked `read`/`write`/`accept4` and `poll`.  Every system call result is
    an input; `epoll_ctl` calls are recorded in `ctlLog`; a coroutine yield
    is reported as `yielded` (the reactor resumes the coroutine later). */
module CoPosix {
  import opened Wrappers
  import opened CoCoroutine

  type Mask = bv32

  const EPOLLIN: Mask := 0x001
  const EPOLLOUT: Mask := 0x004
  const EPOLLERR: Mask := 0x008

  const EPOLL_CTL_ADD: int := 1
  const EPOLL_CTL_DEL: int := 2
  const EPOLL_CTL_MOD: int := 3

  const EINTR: int := 4

  /** `PollConfig::DEFAULT_TIMEOUT` in milliseconds. */
  const DEFAULT_TIMEOUT: int := 1000
  const DEFAULT_CONNECT_RETRIES: nat := 8

  datatype EventType = Read | Write | Error

  /** The epoll bit `addEvent` requests for each type. */
  function Bit(t: EventType): (b: Mask)
    ensures b == EPOLLIN || b == EPOLLOUT || b == EPOLLERR
  {
    match t
    case Read => EPOLLIN
    case Write => EPOLLOUT
    case Error => EPOLLERR
  }

  lemma BitsDistinct(t: EventType, u: EventType)
    ensures Bit(t) & Bit(u) != 0 <==> t == u
  {
  }

  /** An entry of the event table: the coroutine waiting for each type,
      the requested mask and `data.fd`. */
  datatype Event = Event(read: Option<Coroutine>, write: Option<Coroutine>,
                         error: Option<Coroutine>, mask: Mask, dataFd: int)

  function Slot(e: Event, t: EventType): Option<Coroutine>
  {
    match t
    case Read => e.read
    case Write => e.write
    case Error => e.error
  }

  function WithSlot(e: Event, t: EventType, c: Coroutine): (e': Event)
    ensures Slot(e', t) == Some(c)
    ensures forall u :: u != t ==> Slot(e', u) == Slot(e, u)
    ensures e'.mask == e.mask && e'.dataFd == e.dataFd
  {
    match t
    case Read => e.(read := Some(c))
    case Write => e.(write := Some(c))
    case Error => e.(error := Some(c))
  }

  /** An `epoll_ctl(epfd, op, fd, e)` call, with the mask passed. */
  datatype Ctl = Ctl(op: int, fd: int, mask: Mask)

  /** An entry is keyed by its `data.fd`, and every waiting coroutine has
      its type's bit in the mask. */
  predicate EntryOk(fd: int, e: Event)
  {
    && e.dataFd == fd
    && (e.read.Some? ==> e.mask & EPOLLIN != 0)
    && (e.write.Some? ==> e.mask & EPOLLOUT != 0)
    && (e.error.Some? ==> e.mask & EPOLLERR != 0)
  }

  /** The table invariant. */
  ghost predicate WellFormed(events: map<int, Event>)
  {
    forall fd :: fd in events ==> EntryOk(fd, events[fd])
  }

  /** What `addEvent` does to the table. */
  datatype Registration = Registration(events: map<int, Event>, ctl: Option<Ctl>, registered: bool)

  /** `addEvent(fd, type)`.  An unknown fd gets a new entry with
      `data.fd = fd`, the caller in the slot for `type`, and `EPOLL_CTL_ADD`
      of that bit (the new entry's mask is 0, so the refusal below, and the
      erase of a just-inserted entry it would do, never happen for it).  A
      known fd is re-armed with `EPOLL_CTL_MOD` and its slots are left as
      they are: if the bit is already requested the call is refused
      (`end()`), otherwise the bit is or-ed into the mask. */
  function Register(events: map<int, Event>, fd: int, t: EventType, current: Coroutine): (r: Registration)
    ensures r.registered <==> fd !in events || events[fd].mask & Bit(t) == 0
    ensures !r.registered ==> r.events == events && r.ctl == None
    ensures r.registered ==>
      && fd in r.events && r.events[fd].mask & Bit(t) != 0
      && r.ctl == Some(Ctl(if fd in events then EPOLL_CTL_MOD else EPOLL_CTL_ADD, fd, r.events[fd].mask))
  {
    if fd !in events then
      var e := WithSlot(Event(None, None, None, Bit(t), fd), t, current);
      Registration(events[fd := e], Some(Ctl(EPOLL_CTL_ADD, fd, e.mask)), true)
    else if events[fd].mask & Bit(t) != 0 then
      Registration(events, None, false)
    else
      var e := events[fd].(mask := events[fd].mask | Bit(t));
      Registration(events[fd := e], Some(Ctl(EPOLL_CTL_MOD, fd, e.mask)), true)
  }

  /** A registration touches only the entry of its fd. */
  lemma RegisterKeepsOthers(events: map<int, Event>, fd: int, t: EventType, current: Coroutine)
    ensures var r := Register(events, fd, t, current);
      && (forall g :: g in events ==> g in r.events)
      && (forall g :: g in r.events && g != fd ==> g in events && r.events[g] == events[g])
  {
  }

  /** A first registration for an fd always succeeds, records the caller
      and is an `EPOLL_CTL_ADD` of that one bit. */
  lemma RegisterNew(events: map<int, Event>, fd: int, t: EventType, current: Coroutine)
    requires fd !in events
    ensures var r := Register(events, fd, t, current);
      && r.registered
      && r.events[fd] == WithSlot(Event(None, None, None, Bit(t), fd), t, current)
      && Dispatch(r.events[fd]) == [current]
  {
  }

  /** Re-arming a known fd does not record the caller: the loop will resume
      exactly the coroutines it would have resumed before. */
  lemma RegisterExistingKeepsSlots(events: map<int, Event>, fd: int, t: EventType, current: Coroutine)
    requires fd in events
    ensures var r := Register(events, fd, t, current);
      && fd in r.events
      && forall u :: Slot(r.events[fd], u) == Slot(events[fd], u)
  {
  }

  /** Registrations keep the table invariant. */
  lemma RegisterWellFormed(events: map<int, Event>, fd: int, t: EventType, current: Coroutine)
    requires WellFormed(events)
    ensures WellFormed(Register(events, fd, t, current).events)
  {
    if fd !in events {
      var e := WithSlot(Event(None, None, None, Bit(t), fd), t, current);
      NewEntryOk(fd, t, current);
      assert Register(events, fd, t, current).events == events[fd := e];
      UpdateWellFormed(events, fd, e);
    } else if events[fd].mask & Bit(t) == 0 {
      var e := events[fd].(mask := events[fd].mask | Bit(t));
      RearmedEntryOk(fd, events[fd], Bit(t));
      assert Register(events, fd, t, current).events == events[fd := e];
      UpdateWellFormed(events, fd, e);
    }
  }

  /** `addEvent` works on the entry it finds, or on one it inserts with an
      empty mask and the caller in the slot: `Register` refuses exactly when
      that entry already has the bit, and otherwise stores it with the bit
      or-ed in, with `EPOLL_CTL_ADD` for an inserted entry. */
  lemma RegisterByEntry(events: map<int, Event>, fd: int, t: EventType, current: Coroutine)
    ensures var e := if fd in events then events[fd] else WithSlot(Event(None, None, None, 0, fd), t, current);
      var r := Register(events, fd, t, current);
      && (r.registered <==> e.mask & Bit(t) == 0)
      && (!r.registered ==> r.events == events && r.ctl == None)
      && (r.registered ==>
            && r.events == events[fd := e.(mask := e.mask | Bit(t))]
            && r.ctl == Some(Ctl(if fd in events then EPOLL_CTL_MOD else EPOLL_CTL_ADD, fd, e.mask | Bit(t))))
  {
    if fd !in events {
      match t
      case Read =>
      case Write =>
      case Error =>
    }
  }

  lemma OverwriteEntry(events: map<int, Event>, fd: int, e: Event, e': Event)
    ensures events[fd := e][fd := e'] == events[fd := e']
  {
  }

  lemma UpdateWellFormed(events: map<int, Event>, fd: int, e: Event)
    requires WellFormed(events) && EntryOk(fd, e)
    ensures WellFormed(events[fd := e])
  {
  }

  lemma NewEntryOk(fd: int, t: EventType, current: Coroutine)
    ensures EntryOk(fd, WithSlot(Event(None, None, None, Bit(t), fd), t, current))
  {
    match t
    case Read =>
    case Write =>
    case Error =>
  }

  /** Or-ing a bit into a mask keeps the bits it had. */
  lemma RearmedEntryOk(fd: int, e: Event, extra: Mask)
    requires EntryOk(fd, e)
    ensures EntryOk(fd, e.(mask := e.mask | extra))
  {
  }

  /** The coroutines one dispatch of an entry resumes: the READ, WRITE and
      ERROR slots in that order, skipping empty ones. */
  function Dispatch(e: Event): (cs: seq<Coroutine>)
    ensures |cs| <= 3
    ensures forall i :: 0 <= i < |cs| ==> Some(cs[i]) in [e.read, e.write, e.error]
    ensures e.read.Some? ==> |cs| > 0 && cs[0] == e.read.value
    ensures e.read.Some? && e.write.Some? && e.error.Some? ==>
      cs == [e.read.value, e.write.value, e.error.value]
    ensures e.read.None? && e.write.None? && e.error.None? ==> cs == []
  {
    (if e.read.Some? then [e.read.value] else [])
    + (if e.write.Some? then [e.write.value] else [])
    + (if e.error.Some? then [e.error.value] else [])
  }

  /** The descriptor of a `pollfd`; `revents` is a `short`. */
  datatype PollFd = PollFd(fd: int, events: bv16, revents: bv16)

  /** A ready event `epoll_wait` returned: `data.u64` and the event bits. */
  datatype Ready = Ready(id: nat, events: Mask)

  class PollConfig {
    var epfd: int
    var timeout: int
    var events: map<int, Event>
    var connectRetries: nat
    /** The `epoll_ctl` calls made on `epfd`. */
    var ctlLog: seq<Ctl>

    ghost predicate Valid()
      reads this
    {
      WellFormed(events)
    }

    /** The constructor: the given fd, or a new epoll instance when it is
        negative, with the default timeout and retry count.  The constructor
        of the source throws when both are negative; `NewPollConfig` models
        that. */
    constructor (epfd: int)
      ensures Valid() && this.epfd == epfd
      ensures timeout == DEFAULT_TIMEOUT && connectRetries == DEFAULT_CONNECT_RETRIES
      ensures events == map[] && ctlLog == []
    {
      this.epfd := epfd;
      timeout := DEFAULT_TIMEOUT;
      events := map[];
      connectRetries := DEFAULT_CONNECT_RETRIES;
      ctlLog := [];
    }

    /** `addEvent`, proved against `Register`. */
    method AddEvent(fd: int, t: EventType, current: Coroutine) returns (registered: bool)
      requires Valid()
      modifies this
      ensures Valid()
      ensures var r := Register(old(events), fd, t, current);
        && events == r.events && registered == r.registered
        && ctlLog == old(ctlLog) + (if r.ctl.Some? then [r.ctl.value] else [])
      ensures epfd == old(epfd) && timeout == old(timeout) && connectRetries == old(connectRetries)
    {
      RegisterWellFormed(events, fd, t, current);
      RegisterByEntry(events, fd, t, current);
      ghost var before := events;
      var newAdd := fd !in events;
      var op := if newAdd then EPOLL_CTL_ADD else EPOLL_CTL_MOD;
      if newAdd {
        events := events[fd := WithSlot(Event(None, None, None, 0, fd), t, current)];
      }
      var e := events[fd];
      var newEvent := Bit(t);
      if e.mask & newEvent != 0 {
        events := if newAdd then events - {fd} else events;
        return false;
      }
      e := e.(mask := e.mask | newEvent);
      if newAdd {
        OverwriteEntry(before, fd, events[fd], e);
      }
      events := events[fd := e];
      ctlLog := ctlLog + [Ctl(op, fd, e.mask)];
      registered := true;
    }

    /** One turn of `loop`.  `ready` is the fd `epoll_wait` reported when it
        returned one event.  Readiness of an fd without an entry is ignored;
        otherwise the fd is deleted from epoll and its entry erased before
        any coroutine is resumed, and `resumed` lists the coroutines resumed,
        in order, whatever bits fired. */
    method LoopStep(ready: Option<int>) returns (resumed: seq<Coroutine>)
      requires Valid()
      modifies this
      ensures Valid()
      ensures ready.None? || ready.value !in old(events) ==>
        && resumed == [] && events == old(events) && ctlLog == old(ctlLog)
      ensures ready.Some? && ready.value in old(events) ==>
        && resumed == Dispatch(old(events)[ready.value])
        && events == old(events) - {ready.value}
        && ctlLog == old(ctlLog) + [Ctl(EPOLL_CTL_DEL, ready.value, 0)]
      ensures epfd == old(epfd) && timeout == old(timeout) && connectRetries == old(connectRetries)
    {
      resumed := [];
      if ready.None? || ready.value !in events {
        return;
      }
      var fd := ready.value;
      ctlLog := ctlLog + [Ctl(EPOLL_CTL_DEL, fd, 0)];
      var routines := events[fd];
      events := events - {fd};
      if routines.read.Some? {
        resumed := resumed + [routines.read.value];
      }
      if routines.write.Some? {
        resumed := resumed + [routines.write.value];
      }
      if routines.error.Some? {
        resumed := resumed + [routines.error.value];
      }
    }
  }

  /** `PollConfig(fd)`: `created` is the result of `epoll_create1`, used
      only when `fd` is negative; a negative descriptor throws. */
  method NewPollConfig(fd: int, created: int) returns (r: Result<PollConfig>)
    ensures r.Ok? <==> fd >= 0 || created >= 0
    ensures r.Ok? ==>
      && fresh(r.value) && r.value.Valid()
      && r.value.epfd == (if fd >= 0 then fd else created) && r.value.events == map[]
    ensures r.Throw? ==> r.message == "poll config"
  {
    var epfd := fd;
    if epfd < 0 {
      epfd := created;
    }
    if epfd < 0 {
      return Throw("poll config");
    }
    var config := new PollConfig(epfd);
    r := Ok(config);
  }

  /** A coroutine that waits on a fresh fd is the one the loop resumes when
      that fd becomes ready, and the table is as before. */
  method RegisterThenDispatch(config: PollConfig, fd: int, t: EventType, current: Coroutine)
    returns (resumed: seq<Coroutine>)
    requires config.Valid() && fd !in config.events
    modifies config
    ensures resumed == [current]
    ensures config.events == old(config.events)
  {
    RegisterNew(config.events, fd, t, current);
    var ok := config.AddEvent(fd, t, current);
    resumed := config.LoopStep(Some(fd));
  }

  /** The common slow path of `read`, `write` and `accept4`: register for
      `t`; if refused return 0, otherwise yield and return the result of the
      retried call. */
  method WaitThenRetry(config: PollConfig, fd: int, t: EventType, current: Coroutine, retried: int)
    returns (ret: int, yielded: bool)
    requires config.Valid()
    modifies config
    ensures config.Valid()
    ensures var r := Register(old(config.events), fd, t, current);
      && config.events == r.events
      && yielded == r.registered
      && ret == (if r.registered then retried else 0)
  {
    var registered := config.AddEvent(fd, t, current);
    if !registered {
      return 0, false;
    }
    ret, yielded := retried, true;
  }

  /** `read`: a positive first result is returned at once; otherwise wait
      for EPOLLIN and read again. */
  method HookedRead(config: PollConfig, fd: int, current: Coroutine, first: int, retried: int)
    returns (ret: int, yielded: bool)
    requires config.Valid()
    modifies config
    ensures config.Valid()
    ensures first > 0 ==> ret == first && !yielded && config.events == old(config.events)
    ensures first <= 0 ==> var r := Register(old(config.events), fd, Read, current);
      config.events == r.events && yielded == r.registered && ret == (if r.registered then retried else 0)
  {
    if first > 0 {
      return first, false;
    }
    ret, yielded := WaitThenRetry(config, fd, Read, current, retried);
  }

  /** `write`: a positive first result is returned at once; otherwise wait
      for EPOLLOUT and write again. */
  method HookedWrite(config: PollConfig, fd: int, current: Coroutine, first: int, retried: int)
    returns (ret: int, yielded: bool)
    requires config.Valid()
    modifies config
    ensures config.Valid()
    ensures first > 0 ==> ret == first && !yielded && config.events == old(config.events)
    ensures first <= 0 ==> var r := Register(old(config.events), fd, Write, current);
      config.events == r.events && yielded == r.registered && ret == (if r.registered then retried else 0)
  {
    if first > 0 {
      return first, false;
    }
    ret, yielded := WaitThenRetry(config, fd, Write, current, retried);
  }

  /** `accept4`: a non-negative first result (a descriptor) is returned at
      once; otherwise wait for EPOLLIN and accept again. */
  method HookedAccept4(config: PollConfig, fd: int, current: Coroutine, first: int, retried: int)
    returns (ret: int, yielded: bool)
    requires config.Valid()
    modifies config
    ensures config.Valid()
    ensures first >= 0 ==> ret == first && !yielded && config.events == old(config.events)
    ensures first < 0 ==> var r := Register(old(config.events), fd, Read, current);
      config.events == r.events && yielded == r.registered && ret == (if r.registered then retried else 0)
  {
    if first >= 0 {
      return first, false;
    }
    ret, yielded := WaitThenRetry(config, fd, Read, current, retried);
  }

  /** C's `/` on `int`, truncating toward zero. */
  function CDiv(a: int, b: int): (q: int)
    requires b > 0
    ensures a >= 0 ==> 0 <= b * q <= a < b * q + b
    ensures a < 0 ==> b * q - b < a <= b * q <= 0
  {
    if a >= 0 then DivBounds(a, b); a / b
    else DivBounds(-a, b); -((-a) / b)
  }

  lemma DivBounds(n: nat, b: int)
    requires b > 0
    ensures 0 <= b * (n / b) <= n < b * (n / b) + b
  {
    assert n == b * (n / b) + n % b;
  }

  /** C's `%` on `int`, with the sign of the dividend. */
  function CMod(a: int, b: int): (r: int)
    requires b > 0
    ensures a == b * CDiv(a, b) + r
    ensures a >= 0 ==> 0 <= r < b
    ensures a < 0 ==> -b < r <= 0
  {
    a - b * CDiv(a, b)
  }

  /** The timer `poll` arms for a timeout of `t` milliseconds. */
  datatype TimerSpec = TimerSpec(sec: int, nsec: int)

  /** `tv_sec = timeout / 1000`, `tv_nsec = timeout % 1000 * 1000000`.
      The split loses nothing; a non-negative timeout gives a valid
      `timespec`, and a negative one (the infinite wait of `::poll`) gives a
      negative field, which `timerfd_settime` rejects. */
  function TimerSetting(timeout: int): (s: TimerSpec)
    ensures s.sec * 1000 + s.nsec / 1000000 == timeout
    ensures s.nsec % 1000000 == 0
    ensures timeout >= 0 ==> s.sec >= 0 && 0 <= s.nsec < 1000000000
    ensures timeout < 0 ==> s.sec < 0 || s.nsec < 0
  {
    TimerSpec(CDiv(timeout, 1000), CMod(timeout, 1000) * 1000000)
  }

  /** The `data.u64` → fd table of `poll`: descriptor `i` gets id `i`, and
      the timer gets the next id, `nfds`. */
  function Indices(fds: seq<PollFd>, timerfd: int): (m: map<nat, int>)
    ensures forall i: nat :: i in m <==> i <= |fds|
    ensures |fds| in m && m[|fds|] == timerfd
  {
    map i: nat | i <= |fds| :: if i < |fds| then fds[i].fd else timerfd
  }

  /** The registration loop of `poll`: every descriptor gets the next id
      from a counter starting at 0, then the timer gets one. */
  method BuildIndices(fds: array<PollFd>, timerfd: int) returns (indices: map<nat, int>, timerId: nat)
    ensures indices == Indices(fds[..], timerfd)
    ensures timerId == fds.Length
  {
    indices := map[];
    var counter: nat := 0;
    for i := 0 to fds.Length
      invariant counter == i
      invariant indices == map k: nat | k < i :: fds[k].fd
    {
      var id := counter;
      counter := counter + 1;
      indices := indices[id := fds[i].fd];
    }
    timerId := counter;
    counter := counter + 1;
    indices := indices[timerId := timerfd];
  }

  /** `fds[index].revents = e.events`: the event bits cut to a `short`. */
  function Truncate(m: Mask): bv16
  {
    (m & 0xFFFF) as bv16
  }

  /** The descriptors after the reported events are copied in, one after
      another; events whose id maps to the timer are skipped. */
  function Applied(fds: seq<PollFd>, events: seq<Ready>, indices: map<nat, int>, timerfd: int): (r: seq<PollFd>)
    requires forall k :: 0 <= k < |events| ==> events[k].id in indices
    requires forall k :: 0 <= k < |events| ==> indices[events[k].id] != timerfd ==> events[k].id < |fds|
    ensures |r| == |fds|
    ensures forall i :: 0 <= i < |fds| ==> r[i].fd == fds[i].fd && r[i].events == fds[i].events
  {
    if events == [] then fds
    else
      var prev := Applied(fds, events[..|events| - 1], indices, timerfd);
      var e := events[|events| - 1];
      if indices[e.id] == timerfd then prev
      else prev[e.id := prev[e.id].(revents := Truncate(e.events))]
  }

  /** The number of reported events that are not the timer's. */
  function Reported(events: seq<Ready>, indices: map<nat, int>, timerfd: int): (n: nat)
    requires forall k :: 0 <= k < |events| ==> events[k].id in indices
    ensures n <= |events|
  {
    if events == [] then 0
    else
      var last := if indices[events[|events| - 1].id] == timerfd then 0 else 1;
      Reported(events[..|events| - 1], indices, timerfd) + last
  }

  /** With distinct ids, each reported descriptor ends up with its own
      event bits, and a descriptor nothing was reported for is left as it
      was. */
  lemma {:induction false} AppliedReports(fds: seq<PollFd>, events: seq<Ready>, indices: map<nat, int>, timerfd: int, k: nat)
    requires forall j :: 0 <= j < |events| ==> events[j].id in indices
    requires forall j :: 0 <= j < |events| ==> indices[events[j].id] != timerfd ==> events[j].id < |fds|
    requires forall i, j :: 0 <= i < j < |events| ==> events[i].id != events[j].id
    requires k < |events| && indices[events[k].id] != timerfd
    ensures Applied(fds, events, indices, timerfd)[events[k].id].revents == Truncate(events[k].events)
  {
    var last := |events| - 1;
    if k < last {
      AppliedReports(fds, events[..last], indices, timerfd, k);
    }
  }

  lemma {:induction false} AppliedUntouched(fds: seq<PollFd>, events: seq<Ready>, indices: map<nat, int>, timerfd: int, i: nat)
    requires forall j :: 0 <= j < |events| ==> events[j].id in indices
    requires forall j :: 0 <= j < |events| ==> indices[events[j].id] != timerfd ==> events[j].id < |fds|
    requires i < |fds| && forall j :: 0 <= j < |events| ==> events[j].id != i
    ensures Applied(fds, events, indices, timerfd)[i] == fds[i]
  {
    if events != [] {
      AppliedUntouched(fds, events[..|events| - 1], indices, timerfd, i);
    }
  }

  /** The collection loop at the end of `poll`: `ret` starts at the
      number of events and drops by one for each timer event; the others
      are copied into `fds`. */
  method Collect(fds: array<PollFd>, indices: map<nat, int>, timerfd: int, events: seq<Ready>) returns (ret: int)
    requires forall k :: 0 <= k < |events| ==> events[k].id in indices
    requires forall k :: 0 <= k < |events| ==> indices[events[k].id] != timerfd ==> events[k].id < fds.Length
    modifies fds
    ensures ret == Reported(events, indices, timerfd)
    ensures fds[..] == Applied(old(fds[..]), events, indices, timerfd)
  {
    ret := |events|;
    for i := 0 to |events|
      invariant ret == |events| - i + Reported(events[..i], indices, timerfd)
      invariant fds[..] == Applied(old(fds[..]), events[..i], indices, timerfd)
    {
      assert events[..i + 1][..i] == events[..i];
      var e := events[i];
      var fd := indices[e.id];
      if fd == timerfd {
        ret := ret - 1;
        continue;
      }
      fds[e.id] := fds[e.id].(revents := Truncate(e.events));
    }
    assert events[..|events|] == events;
  }

  /** The system call results `poll` sees, in order. */
  datatype PollCalls = PollCalls(
    first: int,                  // ::poll(fds, nfds, 0)
    epfd: int,                   // epoll_create1
    timerfd: int,                // timerfd_create
    settimeOk: bool,             // timerfd_settime
    timerCtlOk: bool,            // epoll_ctl ADD of the timer
    waited: Option<seq<Ready>>)  // epoll_wait after the yield; None on error

  /** `poll`.  A non-zero first poll or a zero timeout returns at once.
      Otherwise a private epoll instance watching the descriptors and a
      timer is registered with the reactor, the coroutine yields, and on
      wake-up the events are collected; the timer's is not counted.  A
      failing creation, timer registration or `epoll_wait` returns -1, a
      failing `timerfd_settime` also sets EINTR. */
  method Poll(config: PollConfig, current: Coroutine, fds: array<PollFd>, timeout: int, calls: PollCalls)
    returns (ret: int, errno: Option<int>, armed: Option<TimerSpec>, yielded: bool)
    requires config.Valid()
    requires calls.waited.Some? ==>
      && |calls.waited.value| <= fds.Length + 1
      && forall k :: 0 <= k < |calls.waited.value| ==> calls.waited.value[k].id <= fds.Length
    modifies config, fds
    ensures config.Valid()
    ensures calls.first != 0 || timeout == 0 ==>
      ret == calls.first && errno == None && armed == None && !yielded
      && config.events == old(config.events) && fds[..] == old(fds[..])
    ensures calls.first == 0 && timeout != 0 && (calls.epfd < 0 || calls.timerfd < 0) ==>
      ret == -1 && errno == None && armed == None && !yielded
    ensures calls.first == 0 && timeout != 0 && calls.epfd >= 0 && calls.timerfd >= 0 ==>
      armed == Some(TimerSetting(timeout))
    ensures armed.Some? && !calls.settimeOk ==> ret == -1 && errno == Some(EINTR) && !yielded
    ensures yielded <==> armed.Some? && calls.settimeOk && calls.timerCtlOk
    ensures armed.Some? && calls.settimeOk && !calls.timerCtlOk ==> ret == -1 && errno == None
    ensures !yielded ==> config.events == old(config.events) && fds[..] == old(fds[..])
    ensures yielded ==> config.events == Register(old(config.events), calls.epfd, Read, current).events
    ensures yielded && calls.waited.None? ==> ret == -1 && errno == None && fds[..] == old(fds[..])
    ensures yielded && calls.waited.Some? ==>
      var indices := Indices(old(fds[..]), calls.timerfd);
      && ret == Reported(calls.waited.value, indices, calls.timerfd)
      && fds[..] == Applied(old(fds[..]), calls.waited.value, indices, calls.timerfd)
      && errno == None
  {
    errno, armed, yielded := None, None, false;
    if calls.first != 0 || timeout == 0 {
      return calls.first, errno, armed, yielded;
    }
    if calls.epfd < 0 || calls.timerfd < 0 {
      return -1, errno, armed, yielded;
    }
    armed := Some(TimerSetting(timeout));
    if !calls.settimeOk {
      return -1, Some(EINTR), armed, yielded;
    }
    var indices, timerId := BuildIndices(fds, calls.timerfd);
    if !calls.timerCtlOk {
      return -1, errno, armed, yielded;
    }
    var registered := config.AddEvent(calls.epfd, Read, current);
    yielded := true;
    if calls.waited.None? {
      return -1, errno, armed, yielded;
    }
    ret := Collect(fds, indices, calls.timerfd, calls.waited.value);
  }
}
