/** The stoppable FIFO of examples/pipeline/queue.hpp and its `In`/`Out`
    views.  A `pop` that would wait on the condition variable reports
    `Blocked` and changes nothing. */
module PipeQueue {
  import opened Wrappers

  /** What `pop` gives: it would wait, a null pointer, or the front item. */
  datatype Popped<T> = Blocked | Null | Item(data: T)

  const BAD_PIPE: string := "Bad pipe."

  class Queue<T> {
    var items: seq<T>
    var stopped: bool

    constructor ()
      ensures items == [] && !stopped
    {
      items := [];
      stopped := false;
    }

    /** `push`: at the back. */
    method Push(data: T)
      modifies this
      ensures items == old(items) + [data] && stopped == old(stopped)
    {
      items := items + [data];
    }

    /** `pop` as written: it proceeds once the queue is non-empty or
        stopped, and then answers null whenever the queue is stopped, even
        with items left in it. */
    method PopAsWritten() returns (r: Popped<T>)
      modifies this
      ensures stopped == old(stopped)
      ensures old(stopped) ==> r == Null && items == old(items)
      ensures !old(stopped) && old(items) == [] ==> r == Blocked && items == old(items)
      ensures !old(stopped) && old(items) != [] ==> r == Item(old(items)[0]) && items == old(items)[1..]
    {
      if !stopped && items == [] {
        return Blocked;
      }
      if stopped {
        return Null;
      }
      r := Item(items[0]);
      items := items[1..];
    }

    /** `pop` as evidently intended: the front item while there is one,
        null only once the queue is stopped and empty. */
    method Pop() returns (r: Popped<T>)
      modifies this
      ensures stopped == old(stopped)
      ensures old(items) != [] ==> r == Item(old(items)[0]) && items == old(items)[1..]
      ensures old(items) == [] ==> items == [] && r == if stopped then Null else Blocked
    {
      if !stopped && items == [] {
        return Blocked;
      }
      if items == [] {
        return Null;
      }
      r := Item(items[0]);
      items := items[1..];
    }

    /** `stop`: sets the flag; the items stay. */
    method Stop()
      modifies this
      ensures stopped && items == old(items)
    {
      stopped := true;
    }
  }

  /** As written, an item pushed before `stop` is never delivered: the pop
      after the stop is null and the item stays queued. */
  method StopLosesItem<T>(x: T) returns (r: Popped<T>, left: seq<T>)
    ensures r == Null && left == [x]
  {
    var q := new Queue<T>();
    q.Push(x);
    q.Stop();
    r := q.PopAsWritten();
    left := q.items;
  }

  /** With the draining `pop`, the item pushed before `stop` is delivered
      first, and only then does `pop` answer null. */
  method StopDeliversItem<T>(x: T) returns (r: Popped<T>, r': Popped<T>)
    ensures r == Item(x) && r' == Null
  {
    var q := new Queue<T>();
    q.Push(x);
    q.Stop();
    r := q.Pop();
    r' := q.Pop();
  }

  /** `In`: the reading end, which only pops. */
  class In<T> {
    const queue: Queue<T>

    constructor (queue: Queue<T>)
      ensures this.queue == queue
    {
      this.queue := queue;
    }

    /** `In::pop` is the queue's `pop` as written. */
    method Pop() returns (r: Popped<T>)
      modifies queue
      ensures queue.stopped == old(queue.stopped)
      ensures old(queue.stopped) ==> r == Null && queue.items == old(queue.items)
      ensures !old(queue.stopped) && old(queue.items) == [] ==> r == Blocked && queue.items == old(queue.items)
      ensures !old(queue.stopped) && old(queue.items) != [] ==>
        r == Item(old(queue.items)[0]) && queue.items == old(queue.items)[1..]
    {
      r := queue.PopAsWritten();
    }
  }

  /** `Out`: the writing end, which pushes and stops. */
  class Out<T> {
    const queue: Queue<T>

    constructor (queue: Queue<T>)
      ensures this.queue == queue
    {
      this.queue := queue;
    }

    method Push(data: T)
      modifies queue
      ensures queue.items == old(queue.items) + [data] && queue.stopped == old(queue.stopped)
    {
      queue.Push(data);
    }

    method Stop()
      modifies queue
      ensures queue.stopped && queue.items == old(queue.items)
    {
      queue.Stop();
    }
  }

  /** The `Pipe` constructor behind `In`: a null queue throws. */
  method MakeIn<T>(queue: Queue?<T>) returns (r: Result<In<T>>)
    ensures r.Throw? <==> queue == null
    ensures r.Throw? ==> r.message == BAD_PIPE
    ensures r.Ok? ==> fresh(r.value) && r.value.queue == queue
  {
    if queue == null {
      return Throw(BAD_PIPE);
    }
    var i := new In(queue);
    r := Ok(i);
  }

  /** The `Pipe` constructor behind `Out`: a null queue throws. */
  method MakeOut<T>(queue: Queue?<T>) returns (r: Result<Out<T>>)
    ensures r.Throw? <==> queue == null
    ensures r.Throw? ==> r.message == BAD_PIPE
    ensures r.Ok? ==> fresh(r.value) && r.value.queue == queue
  {
    if queue == null {
      return Throw(BAD_PIPE);
    }
    var o := new Out(queue);
    r := Ok(o);
  }
}
