/** The timer queue as eloop.c keeps it: a singly linked list edited through `next` pointers. */
module TimerList {
  import opened Words
  import opened TimerQueue

  class Node {
    const timer: Timer
    var next: Node?

    constructor (timer: Timer)
      ensures this.timer == timer && next == null
    {
      this.timer, next := timer, null;
    }
  }

  function TimersOf(ns: seq<Node>): (q: seq<Timer>)
    ensures |q| == |ns| && forall i :: 0 <= i < |ns| ==> q[i] == ns[i].timer
  {
    var n := |ns|;
    seq(n, i requires 0 <= i < n => ns[i].timer)
  }

  /** The node at position `i`, null past the end. */
  function At(ns: seq<Node>, i: nat): Node? {
    if i < |ns| then ns[i] else null
  }

  /** `ns` are the nodes reached from `head`, in order. */
  ghost predicate Chain(head: Node?, ns: seq<Node>)
    reads ns
  {
    && head == At(ns, 0)
    && (forall i {:trigger ns[i].next} :: 0 <= i < |ns| ==> ns[i].next == At(ns, i + 1))
    && (forall i, j :: 0 <= i < j < |ns| ==> ns[i] != ns[j])
  }

  class Eloop {
    var timeout: Node?
    var registered: nat
    ghost var nodes: seq<Node>

    ghost predicate Valid()
      reads this, nodes
    {
      Chain(timeout, nodes)
    }

    ghost function Queue(): seq<Timer>
      reads this
    {
      TimersOf(nodes)
    }

    constructor ()
      ensures Valid() && Queue() == [] && registered == 0
    {
      timeout, registered, nodes := null, 0, [];
    }

    /** Walk to the first later timer; `prev` is the node before it. */
    method FindPlace(t: Time) returns (prev: Node?, ghost p: nat)
      requires Valid()
      ensures p == Place(Queue(), t, 0) <= |nodes|
      ensures if p == 0 then prev == null else prev == nodes[p - 1]
    {
      prev, p := null, 0;
      var tmp := timeout;
      while tmp != null && !Before(t, tmp.timer.time)
        invariant p <= |nodes| && tmp == At(nodes, p)
        invariant if p == 0 then prev == null else prev == nodes[p - 1]
        invariant Place(Queue(), t, 0) == Place(Queue(), t, p)
        decreases |nodes| - p
      {
        prev := tmp;
        tmp := tmp.next;
        p := p + 1;
      }
    }

    /** Put a node between `prev` and what follows it. */
    method Link(prev: Node?, node: Node, ghost p: nat)
      requires Valid() && p <= |nodes| && node !in nodes
      requires if p == 0 then prev == null else prev == nodes[p - 1]
      modifies this`timeout, this`nodes, nodes, node
      ensures Valid() && nodes == old(nodes[..p] + [node] + nodes[p..])
    {
      ghost var r := nodes[..p] + [node] + nodes[p..];
      forall i | 0 <= i < |r| ensures r[i] == if i < p then nodes[i] else if i == p then node else nodes[i - 1] {
        InsertedAt(nodes, node, p, i);
      }
      assert |r| == |nodes| + 1;
      if prev == null {
        node.next := timeout;
        timeout := node;
      } else {
        node.next := prev.next;
        prev.next := node;
      }
      nodes := r;
    }

    /** eloop_register_timeout. */
    method Register(now: Time, secs: nat, usecs: nat, handler: int, data: Context, user: Context)
      requires Valid() && Normal(now)
      modifies this, nodes
      ensures Valid() && registered == old(registered) + 1
      ensures exists t: Time :: Normal(t) && Micros(t) == Micros(now) + secs * SECOND + usecs
                && Queue() == Insert(old(Queue()), Timer(t, handler, data, user, old(registered)))
      ensures forall n :: n in nodes ==> n in old(nodes) || fresh(n)
    {
      hide TimersOf, Chain, Place;
      var t := Deadline(now, secs, usecs);
      var timer := Timer(t, handler, data, user, registered);
      var node := new Node(timer);
      var prev, p := FindPlace(t);
      TimersInsert(nodes, node, p);
      Link(prev, node, p);
      registered := registered + 1;
    }

    /** The timer part of eloop_run: fire the first timer if it is due. */
    method FireDue(now: Time) returns (fired: Option<Timer>)
      requires Valid()
      modifies this
      ensures Valid() && registered == old(registered)
      ensures fired.Some? == Due(old(Queue()), now)
      ensures if fired.Some? then fired.value == old(Queue())[0] && Queue() == old(Queue())[1..] else Queue() == old(Queue())
      ensures nodes == if fired.Some? then old(nodes)[1..] else old(nodes)
    {
      fired := None;
      if timeout != null && !Before(now, timeout.timer.time) {
        fired := Some(timeout.timer);
        timeout := timeout.next;
        nodes := nodes[1..];
      }
    }

    /** Take the node after `prev` out of the list. */
    method Unlink(prev: Node?, next: Node?, ghost i: nat)
      requires Valid() && i < |nodes| && next == nodes[i].next
      requires if i == 0 then prev == null else prev == nodes[i - 1]
      modifies this`timeout, this`nodes, if prev == null then {} else {prev}
      ensures Valid() && nodes == old(nodes[..i] + nodes[i + 1..])
    {
      if prev == null {
        timeout := next;
      } else {
        prev.next := next;
      }
      nodes := nodes[..i] + nodes[i + 1..];
    }

    /** `node` is at position `i`, `prev` before it. */
    ghost predicate Cursor(prev: Node?, node: Node?, i: nat)
      requires Valid()
      reads this, nodes
    {
      i <= |nodes| && node == At(nodes, i) && if i == 0 then prev == null else prev == nodes[i - 1]
    }

    /** One round of the cancellation loop, at position `i`. */
    method CancelAt(before: Node?, node: Node, ghost i: nat, handler: int, data: Context, user: Context)
      returns (prev: Node?, next: Node?, gone: bool)
      requires Valid() && Cursor(before, node, i)
      modifies this`timeout, this`nodes, if before == null then {} else {before}
      ensures Valid() && gone == Matches(node.timer, handler, data, user)
      ensures nodes == if gone then old(nodes[..i] + nodes[i + 1..]) else old(nodes)
      ensures Cursor(prev, next, if gone then i else i + 1)
    {
      FollowsOn(timeout, nodes, i);
      next := node.next;
      gone := Matches(node.timer, handler, data, user);
      if gone {
        Unlink(before, next, i);
        prev := before;
      } else {
        prev := node;
      }
    }

    /** A cancellation of the queue `q`, whose nodes were `ns`, that has reached position `i`. */
    ghost predicate Cancelling(prev: Node?, node: Node?, i: nat, removed: nat, q: seq<Timer>, ns: seq<Node>,
                               h: int, d: Context, u: Context)
      reads this, nodes
    {
      && Valid() && AllIn(nodes, ns) && i <= |nodes| && Cursor(prev, node, i)
      && Progress(q, nodes, i, removed, h, d, u)
    }

    /** One round; `left` is what is still to be visited. */
    method CancelRound(before: Node?, node: Node, ghost i: nat, removed: nat, ghost q: seq<Timer>, ghost ns: seq<Node>,
                       handler: int, data: Context, user: Context)
      returns (prev: Node?, next: Node?, total: nat, ghost at: nat, ghost left: nat)
      requires Cancelling(before, node, i, removed, q, ns, handler, data, user)
      modifies this`timeout, this`nodes, ns
      ensures Cancelling(prev, next, at, total, q, ns, handler, data, user)
      ensures left == |nodes| - at && left < old(|nodes|) - i
    {
      hide TimersOf, Kept, Removed, Chain, Progress, AllIn;
      assert i < |nodes| && node == nodes[i];
      ProgressStep(q, nodes, i, removed, handler, data, user);
      StillIn(nodes, ns, i);
      var gone;
      prev, next, gone := CancelAt(before, node, i, handler, data, user);
      if gone {
        total, at := removed + 1, i;
      } else {
        total, at := removed, i + 1;
      }
      left := |nodes| - at;
    }

    /** The cancellation loop. */
    method CancelAll(handler: int, data: Context, user: Context, ghost q: seq<Timer>, ghost ns: seq<Node>)
      returns (removed: nat, ghost prev: Node?, ghost i: nat)
      requires Cancelling(null, timeout, 0, 0, q, ns, handler, data, user)
      modifies this`timeout, this`nodes, ns
      ensures Cancelling(prev, null, i, removed, q, ns, handler, data, user)
    {
      hide *;
      removed, i := 0, 0;
      var before: Node?, node := null, timeout;
      ghost var left := |nodes|;
      while node != null
        invariant Cancelling(before, node, i, removed, q, ns, handler, data, user)
        invariant left == |nodes| - i
        decreases left
      {
        before, node, removed, i, left := CancelRound(before, node, i, removed, q, ns, handler, data, user);
      }
      prev := before;
    }

    /** eloop_cancel_timeout. */
    method Cancel(handler: int, data: Context, user: Context) returns (removed: nat)
      requires Valid()
      modifies this, nodes
      ensures Valid() && registered == old(registered)
      ensures Queue() == Kept(old(Queue()), handler, data, user)
      ensures removed == |Removed(old(Queue()), handler, data, user)|
      ensures AllIn(nodes, old(nodes))
    {
      hide *;
      CancelStart(handler, data, user);
      ghost var prev, i;
      removed, prev, i := CancelAll(handler, data, user, Queue(), nodes);
      CursorFacts(prev, null, i, removed, old(Queue()), old(nodes), handler, data, user);
    }

    lemma CancelStart(h: int, d: Context, u: Context)
      requires Valid()
      ensures Cancelling(null, timeout, 0, 0, Queue(), nodes, h, d, u)
    {
    }

    lemma CursorFacts(prev: Node?, node: Node?, i: nat, removed: nat, q: seq<Timer>, ns: seq<Node>,
                      h: int, d: Context, u: Context)
      requires Cancelling(prev, node, i, removed, q, ns, h, d, u)
      ensures Valid() && (node != null <==> i < |nodes|)
      ensures node == null ==> Queue() == Kept(q, h, d, u) && removed == |Removed(q, h, d, u)|
      ensures AllIn(nodes, ns)
    {
      if node == null {
        ProgressEnd(q, nodes, removed, h, d, u);
      }
    }
  }

  /** No nodes but those of `all`. */
  ghost predicate AllIn(ns: seq<Node>, all: seq<Node>) {
    forall k :: 0 <= k < |ns| ==> ns[k] in all
  }

  lemma StillIn(ns: seq<Node>, all: seq<Node>, i: nat)
    requires i < |ns| && AllIn(ns, all)
    ensures AllIn(ns[..i] + ns[i + 1..], all) && ns[i] in all && (i > 0 ==> ns[i - 1] in all)
  {
  }

  /** A cancellation of the queue `q` that has reached position `i`. */
  ghost predicate Progress(q: seq<Timer>, ns: seq<Node>, i: nat, removed: nat, h: int, d: Context, u: Context)
    requires i <= |ns|
  {
    && Kept(q, h, d, u) == TimersOf(ns)[..i] + Kept(TimersOf(ns)[i..], h, d, u)
    && |Removed(q, h, d, u)| == removed + |Removed(TimersOf(ns)[i..], h, d, u)|
  }

  lemma ProgressStep(q: seq<Timer>, ns: seq<Node>, i: nat, removed: nat, h: int, d: Context, u: Context)
    requires i < |ns| && Progress(q, ns, i, removed, h, d, u)
    ensures if Matches(ns[i].timer, h, d, u) then Progress(q, ns[..i] + ns[i + 1..], i, removed + 1, h, d, u)
            else Progress(q, ns, i + 1, removed, h, d, u)
  {
    CancelStep(TimersOf(ns), i, h, d, u);
    TimersRemove(ns, i);
  }

  lemma ProgressEnd(q: seq<Timer>, ns: seq<Node>, removed: nat, h: int, d: Context, u: Context)
    requires Progress(q, ns, |ns|, removed, h, d, u)
    ensures TimersOf(ns) == Kept(q, h, d, u) && removed == |Removed(q, h, d, u)|
  {
    assert TimersOf(ns)[|ns|..] == [] && TimersOf(ns)[..|ns|] == TimersOf(ns);
  }

  lemma FollowsOn(head: Node?, ns: seq<Node>, i: nat)
    requires Chain(head, ns) && i < |ns|
    ensures ns[i].next == At(ns, i + 1)
  {
  }

  /** What a cancellation does with the timer at `i`. */
  lemma CancelStep(q: seq<Timer>, i: nat, h: int, d: Context, u: Context)
    requires i < |q|
    ensures Matches(q[i], h, d, u) ==>
              Kept(q[i..], h, d, u) == Kept(q[i..][1..], h, d, u) && |Removed(q[i..], h, d, u)| == 1 + |Removed(q[i..][1..], h, d, u)|
    ensures !Matches(q[i], h, d, u) ==>
              && q[..i] + Kept(q[i..], h, d, u) == q[..i + 1] + Kept(q[i + 1..], h, d, u)
              && |Removed(q[i..], h, d, u)| == |Removed(q[i + 1..], h, d, u)|
  {
    assert q[i..][1..] == q[i + 1..] && q[..i + 1] == q[..i] + [q[i]];
  }

  lemma TimersInsert(ns: seq<Node>, n: Node, p: nat)
    requires p <= |ns|
    ensures TimersOf(ns[..p] + [n] + ns[p..]) == TimersOf(ns)[..p] + [n.timer] + TimersOf(ns)[p..]
  {
    hide TimersOf;
    var a, b := TimersOf(ns[..p] + [n] + ns[p..]), TimersOf(ns)[..p] + [n.timer] + TimersOf(ns)[p..];
    assert |a| == |b|;
    forall i | 0 <= i < |a| ensures a[i] == b[i] {
      InsertedAt(ns, n, p, i);
    }
  }

  /** Element `i` of a sequence with `n` put in at `p`. */
  lemma InsertedAt(ns: seq<Node>, n: Node, p: nat, i: nat)
    requires p <= |ns| && i <= |ns|
    ensures (ns[..p] + [n] + ns[p..])[i] == if i < p then ns[i] else if i == p then n else ns[i - 1]
  {
  }

  lemma TimersRemove(ns: seq<Node>, i: nat)
    requires i < |ns|
    ensures TimersOf(ns[..i] + ns[i + 1..])[..i] == TimersOf(ns)[..i]
    ensures TimersOf(ns[..i] + ns[i + 1..])[i..] == TimersOf(ns)[i..][1..]
  {
  }
}
