/** The linked message queue, its links updated in place. */
module MessageQueue {
  import opened Chains
  import opened Ids
  import opened Options
  import opened QueueSpec

  class MessageNode {
    const msg: Message
    var next: MessageNode?

    constructor (msg: Message)
      ensures this.msg == msg && next == null
    {
      this.msg := msg;
      next := null;
    }
  }

  ghost function MessagesOf(nodes: seq<MessageNode>): (q: seq<Message>)
    ensures |q| == |nodes|
    ensures forall i | 0 <= i < |q| :: q[i] == nodes[i].msg
  {
    seq(|nodes|, i requires 0 <= i < |nodes| => nodes[i].msg)
  }

  class MessageQueue {
    var head: MessageNode?
    var tail: MessageNode?
    ghost var nodes: seq<MessageNode>

    ghost function Repr(): set<object>
      reads this
    {
      set n | n in nodes
    }

    /** head leads through every node to tail, and nowhere else. */
    ghost predicate Valid()
      reads this, Repr()
    {
      && (forall i, j | 0 <= i < j < |nodes| :: nodes[i] != nodes[j])
      && (forall i {:trigger nodes[i].next} | 0 <= i < |nodes| ::
            nodes[i].next == At<MessageNode?>(nodes, i + 1, null))
      && head == At<MessageNode?>(nodes, 0, null)
      && tail == At<MessageNode?>(nodes, |nodes| - 1, null)
    }

    ghost function Contents(): (q: seq<Message>)
      reads this
    {
      MessagesOf(nodes)
    }

    /** init_queue. */
    constructor ()
      ensures Valid() && Contents() == []
    {
      head, tail := null, null;
      nodes := [];
    }

    /** push_message, between lock and unlock. */
    method Push(msg: Message)
      requires Valid()
      modifies this, Repr()
      ensures Valid() && Contents() == old(Contents()) + [msg]
      ensures fresh(Repr() - old(Repr()))
    {
      var n := new MessageNode(msg);
      if tail == null {
        head, tail := n, n;
      } else {
        tail.next := n;
        tail := n;
      }
      nodes := nodes + [n];
    }

    /** Takes node k, found as current after prev, out of the chain. */
    method Unlink(prev: MessageNode?, current: MessageNode, ghost k: nat)
      requires Valid() && k < |nodes| && current == nodes[k] && prev == At<MessageNode?>(nodes, k - 1, null)
      modifies this, Repr()
      ensures Valid() && Repr() <= old(Repr())
      ensures Contents() == RemoveAt(old(Contents()), k)
    {
      if prev != null {
        prev.next := current.next;
      } else {
        head := current.next;
      }
      if current == tail {
        tail := prev;
      }
      nodes := nodes[..k] + nodes[k + 1..];
    }

    /** One search of pop_message under the lock: the first message with the identifier is unlinked and
        returned; None means the caller goes to wait. */
    method TryPop(id: nat) returns (r: Option<Message>)
      requires Valid()
      modifies this, Repr()
      ensures Valid()
      ensures r.Some? <==> HasId(old(Contents()), id)
      ensures r.None? ==> Contents() == old(Contents())
      ensures r.Some? ==>
                var i := FirstIndex(old(Contents()), id);
                r == Some(old(Contents())[i]) && Contents() == RemoveAt(old(Contents()), i)
      ensures Repr() <= old(Repr())
    {
      var prev: MessageNode? := null;
      var current := head;
      ghost var k := 0;
      while current != null
        invariant 0 <= k <= |nodes|
        invariant current == At<MessageNode?>(nodes, k, null) && prev == At<MessageNode?>(nodes, k - 1, null)
        invariant forall j | 0 <= j < k :: Contents()[j].requestId != id
        decreases |nodes| - k
      {
        if current.msg.requestId == id {
          Unlink(prev, current, k);
          return Some(current.msg);
        }
        prev := current;
        current := current.next;
        k := k + 1;
      }
      return None;
    }
  }
}
