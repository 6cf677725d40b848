/** The singly linked callback queue of redis/async.c, with head and tail pointers. */
module CallbackLists {
  import opened Options

  /** A registered callback: its function may be null. */
  datatype Callback = NoFunction | Function(privdata: nat)

  class Node {
    const callback: Callback
    var next: Node?

    constructor (callback: Callback)
      ensures this.callback == callback && next == null
    {
      this.callback, next := callback, null;
    }
  }

  ghost predicate Linked(nodes: seq<Node>)
    reads nodes`next
  {
    forall i {:trigger Next(nodes, i)} :: 0 <= i < |nodes| ==> nodes[i].next == Next(nodes, i)
  }

  ghost function Next(nodes: seq<Node>, i: nat): Node? { if i + 1 < |nodes| then nodes[i + 1] else null }

  ghost function Callbacks(nodes: seq<Node>): (cs: seq<Callback>)
    ensures |cs| == |nodes|
  {
    seq(|nodes|, i requires 0 <= i < |nodes| => nodes[i].callback)
  }

  class CallbackList {
    var head: Node?
    var tail: Node?
    ghost var nodes: seq<Node>
    ghost var footprint: set<Node>

    ghost predicate Valid()
      reads this, footprint
    {
      && (forall n :: n in nodes ==> n in footprint)
      && (forall i, j :: 0 <= i < j < |nodes| ==> nodes[i] != nodes[j])
      && Linked(nodes)
      && head == (if nodes == [] then null else nodes[0])
      && tail == (if nodes == [] then null else nodes[|nodes| - 1])
    }

    /** The callbacks, first come first. */
    ghost function Contents(): seq<Callback>
      reads this
    {
      Callbacks(nodes)
    }

    constructor ()
      ensures Valid() && Contents() == [] && footprint == {}
    {
      head, tail, nodes, footprint := null, null, [], {};
    }

    /** __redisPushCallback. */
    method Push(callback: Callback)
      requires Valid()
      modifies this, footprint
      ensures Valid() && Contents() == old(Contents()) + [callback] && fresh(footprint - old(footprint))
    {
      var cb := new Node(callback);
      ghost var before := nodes;
      if head == null { head := cb; }
      if tail != null { tail.next := cb; }
      tail := cb;
      nodes, footprint := nodes + [cb], footprint + {cb};
      forall i | 0 <= i < |nodes|
        ensures nodes[i].next == Next(nodes, i)
      {
        if i < |before| { assert old(nodes[i].next) == Next(before, i); }
      }
    }

    /** __redisShiftCallback. */
    method Shift() returns (callback: Option<Callback>)
      requires Valid()
      modifies this
      ensures Valid()
      ensures if old(Contents()) == [] then callback == None && Contents() == []
              else callback == Some(old(Contents())[0]) && Contents() == old(Contents())[1..]
      ensures footprint == old(footprint)
    {
      var cb := head;
      if cb == null { return None; }
      assert cb.next == Next(nodes, 0);
      ghost var before := nodes;
      head := cb.next;
      if cb == tail { tail := null; }
      nodes := nodes[1..];
      forall i | 0 <= i < |nodes|
        ensures nodes[i].next == Next(nodes, i)
      {
        assert before[i + 1].next == Next(before, i + 1);
      }
      return Some(cb.callback);
    }
  }
}
