/** The intrusive, ownership-transferring singly-linked task list of the
    thread pool (include/impl/Functions.hpp).  A `ListHead` is the sentinel
    `Function_intrusive_list`: it owns the first real node through its `_next`
    field, and every node owns its successor.  Ownership by `unique_ptr` is
    modelled by the `Chain` predicate: the nodes reachable from the head form a
    null-terminated sequence without repetitions, so no node belongs twice. */
module FunctionList {

  /** Identity of the closure a node carries (the node's `_func`). */
  type Task = nat

  /** A `Function_node`: a closure and the owning link to the next node. */
  class Node {
    const task: Task
    var next: Node?

    constructor (t: Task)
      ensures task == t && next == null
    {
      task := t;
      next := null;
    }
  }

  /** `nodes` is the null-terminated chain that starts at `first`. */
  ghost predicate Chain(first: Node?, nodes: seq<Node>)
    reads nodes
  {
    && (nodes == [] <==> first == null)
    && (nodes != [] ==> first == nodes[0] && nodes[|nodes| - 1].next == null)
    && (forall i :: 0 <= i < |nodes| - 1 ==> nodes[i].next == nodes[i + 1])
    && (forall i, j :: 0 <= i < j < |nodes| ==> nodes[i] != nodes[j])
  }

  /** No node is owned by both chains. */
  ghost predicate Disjoint(a: seq<Node>, b: seq<Node>)
  {
    forall i, j :: 0 <= i < |a| && 0 <= j < |b| ==> a[i] != b[j]
  }

  /** The closures of a chain, front to back. */
  ghost function Tasks(nodes: seq<Node>): (ts: seq<Task>)
    ensures |ts| == |nodes|
    ensures forall i :: 0 <= i < |nodes| ==> ts[i] == nodes[i].task
  {
    seq(|nodes|, i requires 0 <= i < |nodes| => nodes[i].task)
  }

  lemma TasksAppend(a: seq<Node>, b: seq<Node>)
    ensures Tasks(a + b) == Tasks(a) + Tasks(b)
  {
  }

  /** The sentinel head of an intrusive list; `first` is its `_next`. */
  class ListHead {
    var first: Node?
    ghost var nodes: seq<Node>

    ghost predicate Valid()
      reads this, nodes
    {
      Chain(first, nodes)
    }

    ghost function Contents(): seq<Task>
      reads this
    {
      Tasks(nodes)
    }

    constructor ()
      ensures Valid() && nodes == []
    {
      first := null;
      nodes := [];
    }

    /** `Function_node_access::empty`: the head owns no node. */
    predicate Empty(): (b: bool)
      requires Valid()
      reads this, nodes
      ensures b <==> nodes == []
    {
      first == null
    }

    /** Single `push`: the new node goes in front (LIFO) and now owns the old
        first node. */
    method Push(n: Node)
      requires Valid()
      requires n !in nodes
      modifies this, n
      ensures Valid()
      ensures nodes == [n] + old(nodes)
      ensures Contents() == [n.task] + old(Contents())
    {
      n.next := first;
      first := n;
      nodes := [n] + nodes;
    }

    /** Range `push`: splices the whole chain `range`, from `head` to `last`,
        in front of the current contents in O(1), keeping the range's order.
        `last` is not a sentinel and its `_next` is null on entry. */
    method PushRange(head: Node, last: Node, ghost range: seq<Node>)
      requires Valid()
      requires Chain(head, range) && range[|range| - 1] == last
      requires Disjoint(range, nodes)
      modifies this, last
      ensures Valid()
      ensures nodes == range + old(nodes)
      ensures Contents() == Tasks(range) + old(Contents())
    {
      last.next := first;
      first := head;
      nodes := range + nodes;
      TasksAppend(range, old(nodes));
    }

    /** `consume_one`: detaches and returns the front node; the rest keeps
        its order.  The returned node no longer owns a successor. */
    method ConsumeOne() returns (n: Node)
      requires Valid()
      requires nodes != []
      modifies this, nodes[0]
      ensures Valid()
      ensures n == old(nodes[0]) && n.next == null
      ensures nodes == old(nodes[1..])
      ensures Contents() == old(Contents()[1..])
    {
      n := first;
      assert |nodes| > 1 ==> n.next == nodes[1];
      first := n.next;
      n.next := null;
      nodes := nodes[1..];
      assert n !in nodes;
    }
  }

  /** A push followed by `consume_one` hands back the pushed node and
      restores the list. */
  method PushThenConsume(l: ListHead, n: Node) returns (r: Node)
    requires l.Valid() && n !in l.nodes
    modifies l, n
    ensures l.Valid() && r == n
    ensures l.nodes == old(l.nodes) && l.Contents() == old(l.Contents())
  {
    l.Push(n);
    r := l.ConsumeOne();
  }
}
