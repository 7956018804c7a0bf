// The data structures under the mailbox protocol: the ring buffer of one queue
// and the intrusive list of the queues that wait for a worker.  Each method is
// a body under its lock, and does what the step of the same name does in
// module Mailbox.

module MessageQueue {
  import opened Mailbox

  const DEFAULT_QUEUE_SIZE: nat := 64
  const MQ_OVERLOAD: nat := 1024

  // The messages of a ring, oldest first.
  ghost function Ring(data: seq<Message>, head: nat, tail: nat): seq<Message>
    requires head < |data| && tail < |data|
  {
    if head <= tail then data[head..tail] else data[head..] + data[..tail]
  }

  lemma RingLength(data: seq<Message>, head: nat, tail: nat)
    requires head < |data| && tail < |data|
    ensures |Ring(data, head, tail)| == if head <= tail then tail - head else tail - head + |data|
  {
  }

  lemma RingEmpty(data: seq<Message>, head: nat, tail: nat)
    requires head < |data| && tail < |data|
    ensures Ring(data, head, tail) == [] <==> head == tail
  {
  }

  lemma RingFirst(data: seq<Message>, head: nat, tail: nat)
    requires head < |data| && tail < |data| && head != tail
    ensures var next := if head + 1 == |data| then 0 else head + 1;
      Ring(data, head, tail) == [data[head]] + Ring(data, next, tail)
  {
    assert data[head..] == [data[head]] + data[head + 1..];
    if head < tail {
      assert data[head..tail] == [data[head]] + data[head + 1..tail];
    } else if head + 1 < |data| {
      assert data[head..] + data[..tail] == [data[head]] + (data[head + 1..] + data[..tail]);
    }
  }

  // A limit, doubled until it allows a length.
  function Doubled(limit: nat, length: nat): (r: nat)
    ensures limit > 0 ==> r >= limit
    decreases length - limit
  {
    if length <= limit || limit == 0 then limit else Doubled(limit * 2, length)
  }

  function Two(k: nat): nat { if k == 0 then 1 else 2 * Two(k - 1) }

  // That is the limit times the least power of two with which it allows the length.
  lemma {:induction false} DoubledIs(limit: nat, length: nat) returns (k: nat)
    requires limit > 0
    ensures Doubled(limit, length) == limit * Two(k) && length <= limit * Two(k)
    ensures k > 0 ==> limit * Two(k - 1) < length
    decreases length - limit
  {
    if length <= limit {
      k := 0;
    } else {
      var j := DoubledIs(limit * 2, length);
      k := j + 1;
      Twice(limit, j);
      if j > 0 {
        Twice(limit, j - 1);
      } else {
        Once(limit);
      }
      hide Two;
    }
  }

  lemma Twice(limit: nat, j: nat)
    ensures limit * Two(j + 1) == (limit * 2) * Two(j)
  {
    var x := Two(j);
    assert Two(j + 1) == 2 * x;
    hide Two;
  }

  lemma Once(limit: nat)
    ensures limit * Two(0) == limit
  {
  }

  class Queue {
    const handle: Handle
    var cap: nat
    var head: nat
    var tail: nat
    var release: bool
    var inGlobal: bool
    var overload: nat
    var threshold: nat
    var queue: array<Message>
    var next: Queue?

    ghost predicate Valid()
      reads this`cap, this`head, this`tail, this`threshold, this`queue
    {
      cap == queue.Length && head < cap && tail < cap && threshold > 0
    }

    // The messages, oldest first.
    ghost function Contents(): seq<Message>
      requires Valid()
      reads this`cap, this`head, this`tail, this`threshold, this`queue, queue
    {
      Ring(queue[..], head, tail)
    }

    constructor (h: Handle)
      ensures Valid() && Contents() == [] && inGlobal && !release && handle == h && next == null && fresh(queue)
    {
      handle := h;
      cap, head, tail := DEFAULT_QUEUE_SIZE, 0, 0;
      inGlobal, release := true, false;
      overload, threshold := 0, MQ_OVERLOAD;
      queue := new Message[DEFAULT_QUEUE_SIZE](_ => 0);
      next := null;
    }

    method Length() returns (n: nat)
      requires Valid()
      ensures n == |Contents()|
    {
      if head <= tail {
        return tail - head;
      }
      return tail + cap - head;
    }

    method TakeOverload() returns (n: nat)
      modifies this`overload
      ensures n == old(overload) && overload == 0
    {
      n := overload;
      if overload != 0 {
        overload := 0;
      }
    }

    // Take the oldest message.  An empty queue leaves the global list; a queue
    // that is longer than ever since it was last empty reports it once.
    method Pop() returns (empty: bool, m: Message)
      requires Valid()
      modifies this`head, this`inGlobal, this`overload, this`threshold
      ensures Valid() && empty == (old(Contents()) == [])
      ensures !empty ==> old(Contents()) == [m] + Contents() && inGlobal == old(inGlobal)
      ensures empty ==> Contents() == [] && !inGlobal && threshold == MQ_OVERLOAD && overload == old(overload)
      ensures !empty ==> threshold == Doubled(old(threshold), |Contents()|)
      ensures !empty ==> overload == if |Contents()| > old(threshold) then |Contents()| else old(overload)
    {
      hide Ring, Doubled;
      empty, m := true, 0;
      RingEmpty(queue[..], head, tail);
      if head != tail {
        RingFirst(queue[..], head, tail);
        m := queue[head];
        head := head + 1;
        empty := false;
        if head >= cap {
          head := 0;
        }
        RingLength(queue[..], head, tail);
        var length := tail - head;
        if length < 0 {
          length := length + cap;
        }
        Report(length);
      } else {
        threshold := MQ_OVERLOAD;
        inGlobal := false;
      }
    }

    // Remember a length that no limit since the queue was empty has allowed.
    method Report(length: nat)
      requires threshold > 0
      modifies this`overload, this`threshold
      ensures threshold == Doubled(old(threshold), length)
      ensures overload == if length > old(threshold) then length else old(overload)
    {
      while length > threshold
        invariant threshold >= old(threshold) && (threshold != old(threshold) ==> length > old(threshold))
        invariant Doubled(threshold, length) == Doubled(old(threshold), length)
        invariant overload == if threshold == old(threshold) then old(overload) else length
        decreases length - threshold
      {
        overload := length;
        threshold := threshold * 2;
      }
    }

    // Twice the room, the messages at its start.
    method Expand()
      requires cap == queue.Length && head == tail < cap && threshold > 0
      modifies this`queue, this`cap, this`head, this`tail
      ensures Valid() && fresh(queue) && head == 0 && tail == old(cap) && cap == 2 * old(cap)
      ensures Contents() == old(queue[head..] + queue[..head])
    {
      var bigger := new Message[cap * 2](_ => 0);
      ghost var all := queue[head..] + queue[..head];
      var i := 0;
      while i < cap
        invariant head == old(head) == tail && cap == old(cap) == queue.Length && threshold == old(threshold)
        invariant 0 <= i <= cap && bigger.Length == cap * 2 && queue == old(queue) && queue[..] == old(queue[..])
        invariant forall k :: 0 <= k < i ==> bigger[k] == all[k]
      {
        Wrap(head + i, cap);
        bigger[i] := queue[(head + i) % cap];
        i := i + 1;
      }
      assert bigger[0..cap] == all;
      head := 0;
      tail := cap;
      cap := cap * 2;
      queue := bigger;
    }

    // Add a message; a full ring grows, and a queue that no one has is listed.
    method Push(m: Message, g: GlobalQueue)
      requires Valid() && g.Valid() && (!inGlobal ==> this !in g.list && next == null)
      modifies this, queue, g, g.list`next
      ensures Valid() && g.Valid() && Contents() == old(Contents()) + [m]
      ensures inGlobal && g.list == if old(inGlobal) then old(g.list) else old(g.list) + [this]
      ensures release == old(release) && threshold == old(threshold) && overload == old(overload)
      ensures queue == old(queue) || fresh(queue)
    {
      hide Ring;
      PutLast(m);
      if !inGlobal {
        inGlobal := true;
        g.Push(this);
      }
    }

    method PutLast(m: Message)
      requires Valid()
      modifies this`queue, this`cap, this`head, this`tail, queue
      ensures Valid() && Contents() == old(Contents()) + [m]
      ensures queue == old(queue) || fresh(queue)
    {
      queue[tail] := m;
      tail := tail + 1;
      if tail >= cap {
        tail := 0;
      }
      if head == tail {
        assert queue[head..] + queue[..head] == old(Contents()) + [m];
        Expand();
      } else {
        assert Contents() == old(Contents()) + [m];
      }
    }

    // The context is gone: the queue must reach a worker, who will drop it.
    method MarkRelease(g: GlobalQueue)
      requires Valid() && g.Valid() && !release && (!inGlobal ==> this !in g.list && next == null)
      modifies this`release, this`next, g, g.list`next
      ensures Valid() && g.Valid() && release && inGlobal == old(inGlobal) && Contents() == old(Contents())
      ensures g.list == if inGlobal then old(g.list) else old(g.list) + [this]
    {
      release := true;
      if !inGlobal {
        g.Push(this);
      }
    }

    // A worker found no context: drop what is left, or wait for the mark.
    method Release(g: GlobalQueue) returns (freed: bool, dropped: seq<Message>)
      requires Valid() && g.Valid() && this !in g.list && next == null
      modifies this, g, g.list`next
      ensures Valid() && g.Valid() && freed == old(release) && release == old(release)
      ensures freed ==> dropped == old(Contents()) && Contents() == [] && !inGlobal && g.list == old(g.list)
      ensures !freed ==> dropped == [] && Contents() == old(Contents()) && g.list == old(g.list) + [this]
    {
      freed, dropped := release, [];
      if release {
        dropped := Drop();
      } else {
        g.Push(this);
      }
    }

    method Drop() returns (dropped: seq<Message>)
      requires Valid()
      modifies this`head, this`inGlobal, this`overload, this`threshold
      ensures Valid() && dropped == old(Contents()) && Contents() == [] && !inGlobal
    {
      hide Queue.Valid, Queue.Contents, Doubled, Ring;
      dropped := [];
      var empty, m := Pop();
      while !empty
        invariant Valid() && (empty ==> Contents() == [] && !inGlobal)
        invariant old(Contents()) == dropped + (if empty then [] else [m] + Contents())
        decreases |Contents()|, !empty
      {
        dropped := dropped + [m];
        empty, m := Pop();
      }
    }
  }

  lemma Wrap(x: nat, n: nat)
    requires n > 0 && x < 2 * n
    ensures x % n == if x < n then x else x - n
  {
  }

  class GlobalQueue {
    var head: Queue?
    var tail: Queue?
    ghost var list: seq<Queue>

    ghost function After(k: nat): Queue?
      requires k < |list|
      reads this
    {
      if k + 1 < |list| then list[k + 1] else null
    }

    // The list is linked from head to tail, each queue once.
    ghost predicate Valid()
      reads this, list
    {
      && (forall j, k :: 0 <= j < k < |list| ==> list[j] != list[k])
      && head == (if list == [] then null else list[0])
      && tail == (if list == [] then null else list[|list| - 1])
      && (forall k {:trigger list[k].next} {:trigger After(k)} :: 0 <= k < |list| ==> list[k].next == After(k))
    }

    constructor ()
      ensures Valid() && list == []
    {
      head, tail, list := null, null, [];
    }

    method Push(q: Queue)
      requires Valid() && q !in list && q.next == null
      modifies this, list`next
      ensures Valid() && list == old(list) + [q]
    {
      if tail != null {
        tail.next := q;
        tail := q;
      } else {
        head := q;
        tail := q;
      }
      list := list + [q];
    }

    method Pop() returns (q: Queue?)
      requires Valid()
      modifies this, list`next
      ensures Valid()
      ensures old(list) == [] ==> q == null && list == []
      ensures old(list) != [] ==> q == old(list)[0] && q.next == null && list == old(list)[1..]
    {
      q := head;
      if q != null {
        head := q.next;
        if head == null {
          tail := null;
        }
        q.next := null;
        ghost var was := list;
        assert forall k {:trigger was[k]} :: 0 < k < |was| ==> was[k].next == if k + 1 < |was| then was[k + 1] else null;
        list := list[1..];
        assert forall k :: 0 <= k < |list| ==> list[k] == was[k + 1];
      }
    }
  }
}
