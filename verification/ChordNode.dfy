/** The node object and the network of nodes, updated in place as the source does; each method is tied
    to the pointer rules and lookup functions the theorems are about. Nodes are named by identifier
    where the source keeps a locally made copy of the remote node. */
module ChordNode {
  import opened Ids
  import opened Options
  import opened Lookup
  import opened FingerRepair
  import Ring
  import opened Convergence

  class Node {
    const id: Id
    var successor: Id
    var predecessor: Option<Id>
    const finger: array<Id>
    var next: nat

    /** create_node: its own successor, no predecessor, every finger at itself. */
    constructor (id: Id)
      ensures this.id == id && successor == id && predecessor == None && next == 0
      ensures fresh(finger) && finger[..] == seq(M, _ => id)
    {
      this.id := id;
      successor := id;
      predecessor := None;
      next := 0;
      finger := new Id[M](_ => id);
    }

    /** closest_preceding_node: the fingers are scanned from the highest slot down. */
    method ClosestPrecedingNode(key: Id) returns (c: Id)
      ensures c == Lookup.Closest(id, finger[..], key)
    {
      var i := finger.Length;
      while i > 0
        invariant 0 <= i <= finger.Length
        invariant Lookup.Closest(id, finger[..], key) == Lookup.ScanDown(id, finger[..], i, key)
      {
        i := i - 1;
        if InInterval(finger[i], id, key) {
          return finger[i];
        }
      }
      return id;
    }

    /** handle_requests, STABILIZE: the predecessor is reported if there is one. */
    method HandleStabilize() returns (reply: Option<Id>)
      ensures reply == predecessor
    {
      reply := predecessor;
    }

    /** handle_requests, NOTIFY. */
    method HandleNotify(candidate: Id)
      modifies this`predecessor
      ensures predecessor == Ring.NotifiedPredecessor(id, old(predecessor), candidate)
    {
      if predecessor == None || InInterval(candidate, predecessor.value, id) {
        predecessor := Some(candidate);
      }
    }

    /** stabilize, once the reply is there; the result is the node to notify. */
    method HandleReply(x: Id) returns (notified: Id)
      modifies this`successor
      ensures successor == Ring.AdoptedSuccessor(id, old(successor), x) && notified == successor
    {
      if InInterval(x, id, successor) {
        successor := x;
      }
      notified := successor;
    }

    /** check_predecessor, given whether the heartbeat could be sent. */
    method CheckPredecessor(reachable: bool)
      modifies this`predecessor
      ensures predecessor == if reachable then old(predecessor) else None
    {
      if predecessor != None && !reachable {
        predecessor := None;
      }
    }
  }

  /** The nodes of the ring, each filed under its identifier. Its abstract state is a set of maps; the
      Shows predicates say which maps the objects currently represent. */
  class Network {
    var nodes: map<Id, Node>

    constructor ()
      ensures Valid() && nodes == map[]
    {
      nodes := map[];
    }

    ghost function Peers(): set<Node>
      reads this
    {
      set i | i in nodes :: nodes[i]
    }

    ghost function FingerArrays(): set<array<Id>>
      reads this
    {
      set i | i in nodes :: nodes[i].finger
    }

    /** Nodes are filed under their identifiers and share no finger table. */
    ghost predicate Valid()
      reads this
    {
      && (forall i | i in nodes :: nodes[i].id == i)
      && (forall i, j | i in nodes && j in nodes && i != j :: nodes[i].finger != nodes[j].finger)
    }

    ghost predicate Has(n: Node)
      reads this
    {
      Valid() && n.id in nodes && nodes[n.id] == n
    }

    ghost predicate ShowsSucc(succ: Succ)
      reads this, Peers()`successor
    {
      succ.Keys == nodes.Keys && forall i | i in nodes :: succ[i] == nodes[i].successor
    }

    ghost predicate ShowsPred(pred: Ring.Pred)
      reads this, Peers()`predecessor
    {
      pred.Keys == nodes.Keys && forall i | i in nodes :: pred[i] == nodes[i].predecessor
    }

    ghost predicate ShowsFingers(fingers: Fingers)
      reads this, FingerArrays()
    {
      fingers.Keys == nodes.Keys && forall i | i in nodes :: fingers[i] == nodes[i].finger[..]
    }

    ghost predicate ShowsNext(next: map<Id, nat>)
      reads this, Peers()`next
    {
      next.Keys == nodes.Keys && forall i | i in nodes :: next[i] == nodes[i].next
    }

    /** find_successor and find_successor_remote; the request sent on is answered by the same method
        of the node it names. */
    method FindSuccessor(n: Node, key: Id, ghost succ: Succ, ghost fingers: Fingers) returns (s: Id)
      requires Has(n) && ShowsSucc(succ) && ShowsFingers(fingers) && Closed(succ, fingers)
      ensures s == Lookup.FindSuccessor(succ, fingers, n.id, key)
      decreases Gap(n.id, key)
    {
      if InInterval(key, n.id, n.successor) || key == n.successor {
        return n.successor;
      }
      var c := n.ClosestPrecedingNode(key);
      if c == n.id {
        return n.successor;
      }
      assert c in succ;
      s := FindSuccessor(nodes[c], key, succ, fingers);
    }

    /** fix_fingers. */
    method FixFingers(n: Node, ghost succ: Succ, ghost t: Tables)
      requires Has(n) && ShowsSucc(succ) && ShowsFingers(t.fingers) && ShowsNext(t.next) && Ready(succ, t)
      modifies n`next, n.finger
      ensures ShowsSucc(succ)
      ensures var t' := FingerRepair.FixFingers(succ, t, n.id); ShowsFingers(t'.fingers) && ShowsNext(t'.next)
    {
      AdvanceNext(n, succ, t);
      FixSlot(n, n.next, succ, t.fingers, t.next[n.id := Slot(t, n.id)]);
    }

    method AdvanceNext(n: Node, ghost succ: Succ, ghost t: Tables)
      requires Has(n) && ShowsSucc(succ) && ShowsFingers(t.fingers) && ShowsNext(t.next)
      modifies n`next
      ensures n.next == Slot(t, n.id) && ShowsNext(t.next[n.id := n.next])
      ensures ShowsSucc(succ) && ShowsFingers(t.fingers)
    {
      n.next := (n.next + 1) % M;
    }

    /** The slot's own identifier is looked up, and the slot set to the answer. */
    method FixSlot(n: Node, i: nat, ghost succ: Succ, ghost fingers: Fingers, ghost next: map<Id, nat>)
      requires Has(n) && ShowsSucc(succ) && ShowsFingers(fingers) && ShowsNext(next)
      requires Closed(succ, fingers) && i < M
      modifies n.finger
      ensures ShowsFingers(fingers[n.id := Fixed(succ, fingers, n.id, i)])
      ensures ShowsSucc(succ) && ShowsNext(next)
    {
      assert FullTable(succ, fingers[n.id]);
      var f := FindSuccessor(n, n.finger[i], succ, fingers);
      SetFinger(n, i, f, fingers, Fixed(succ, fingers, n.id, i));
    }

    method SetFinger(n: Node, i: nat, f: Id, ghost fingers: Fingers, ghost table: seq<Id>)
      requires Has(n) && ShowsFingers(fingers) && i < n.finger.Length
      requires table == fingers[n.id][i := f]
      modifies n.finger
      ensures ShowsFingers(fingers[n.id := table])
    {
      n.finger[i] := f;
    }

    /** A NOTIFY reaches the member s. */
    method Notify(s: Node, candidate: Id, ghost pred: Ring.Pred)
      requires Has(s) && ShowsPred(pred)
      modifies s`predecessor
      ensures ShowsPred(pred[s.id := Ring.NotifiedPredecessor(s.id, pred[s.id], candidate)])
    {
      s.HandleNotify(candidate);
    }

    /** check_predecessor at the member s: an unreachable predecessor is reset, as in Ring.AfterReset. */
    method ResetPredecessor(s: Node, reachable: bool, ghost pred: Ring.Pred)
      requires Has(s) && ShowsPred(pred)
      modifies s`predecessor
      ensures ShowsPred(if reachable then pred else pred[s.id := None])
    {
      s.CheckPredecessor(reachable);
    }

    method TakeReply(n: Node, x: Id, ghost succ: Succ) returns (notified: Id)
      requires Has(n) && ShowsSucc(succ)
      modifies n`successor
      ensures notified == Ring.AdoptedSuccessor(n.id, succ[n.id], x)
      ensures ShowsSucc(succ[n.id := notified])
    {
      notified := n.HandleReply(x);
    }

    /** stabilize with its messages delivered. When the successor has no predecessor no reply comes and
        nothing changes; otherwise it is the completed call of the convergence theorem. */
    method Stabilize(n: Node, ghost g: Pointers) returns (answered: bool)
      requires Has(n) && ShowsSucc(g.succ) && ShowsPred(g.pred)
      requires NextIn(g.succ, n.id) && PredNamesMembers(g.succ, g.pred)
      modifies n`successor, Peers()`predecessor
      ensures answered <==> g.pred[g.succ[n.id]].Some?
      ensures !answered ==> ShowsSucc(g.succ) && ShowsPred(g.pred)
      ensures answered ==>
                var s := Ring.AdoptedSuccessor(n.id, g.succ[n.id], g.pred[g.succ[n.id]].value);
                && s in g.pred
                && ShowsSucc(AfterStabilize(g, n.id, s).succ) && ShowsPred(AfterStabilize(g, n.id, s).pred)
    {
      assert PredNamesMember(g.succ, g.pred, n.successor);
      var reply := nodes[n.successor].HandleStabilize();
      if reply == None {
        return false;
      }
      var s := TakeReply(n, reply.value, g.succ);
      Notify(nodes[s], n.id, g.pred);
      return true;
    }

    /** Files a node that is not filed yet. */
    method AddNode(n: Node)
      requires Valid() && n.id !in nodes && n.finger !in FingerArrays()
      modifies this
      ensures nodes == old(nodes)[n.id := n] && Has(n)
    {
      nodes := nodes[n.id := n];
    }

    lemma ShowsFiledPointers(before: map<Id, Node>, n: Node, succ: Succ, pred: Ring.Pred)
      requires nodes == before[n.id := n] && succ.Keys == before.Keys && pred.Keys == before.Keys
      requires n.id !in before
      requires forall i | i in before :: succ[i] == before[i].successor && pred[i] == before[i].predecessor
      ensures ShowsSucc(succ[n.id := n.successor]) && ShowsPred(pred[n.id := n.predecessor])
    {}

    lemma ShowsFiledTables(before: map<Id, Node>, n: Node, t: Tables)
      requires nodes == before[n.id := n] && t.fingers.Keys == before.Keys && t.next.Keys == before.Keys
      requires n.id !in before
      requires forall i | i in before :: t.fingers[i] == before[i].finger[..] && t.next[i] == before[i].next
      ensures ShowsFingers(t.fingers[n.id := n.finger[..]]) && ShowsNext(t.next[n.id := n.next])
    {}

    method FileNode(n: Node, ghost succ: Succ, ghost pred: Ring.Pred, ghost t: Tables)
      requires Valid() && n.id !in nodes && n.finger !in FingerArrays()
      requires ShowsSucc(succ) && ShowsPred(pred) && ShowsFingers(t.fingers) && ShowsNext(t.next)
      modifies this
      ensures nodes == old(nodes)[n.id := n] && Has(n)
      ensures ShowsSucc(succ[n.id := n.successor]) && ShowsPred(pred[n.id := n.predecessor])
      ensures ShowsFingers(t.fingers[n.id := n.finger[..]]) && ShowsNext(t.next[n.id := n.next])
    {
      ghost var before := nodes;
      AddNode(n);
      ShowsFiledPointers(before, n, succ, pred);
      ShowsFiledTables(before, n, t);
    }

    /** A node outside the ring takes its successor; the ring does not notice. */
    method SetPointers(n: Node, s: Id, ghost st: Ring.State)
      requires Valid() && n.id !in nodes
      requires ShowsSucc(st.succ) && ShowsPred(st.pred) && ShowsFingers(st.tables.fingers) && ShowsNext(st.tables.next)
      modifies n`successor, n`predecessor
      ensures n.predecessor == None && n.successor == s
      ensures ShowsSucc(st.succ) && ShowsPred(st.pred) && ShowsFingers(st.tables.fingers) && ShowsNext(st.tables.next)
    {
      assert n !in Peers();
      n.predecessor := None;
      n.successor := s;
    }

    method AdoptAndFile(n: Node, s: Id, ghost st: Ring.State)
      requires Valid() && n.id !in nodes && n.finger !in FingerArrays()
      requires ShowsSucc(st.succ) && ShowsPred(st.pred) && ShowsFingers(st.tables.fingers) && ShowsNext(st.tables.next)
      modifies this, n`successor, n`predecessor
      ensures nodes == old(nodes)[n.id := n] && Has(n) && n.predecessor == None && n.successor == s
      ensures ShowsSucc(st.succ[n.id := s]) && ShowsPred(st.pred[n.id := None])
      ensures ShowsFingers(st.tables.fingers[n.id := n.finger[..]]) && ShowsNext(st.tables.next[n.id := n.next])
    {
      SetPointers(n, s, st);
      FileNode(n, st.succ, st.pred, st.tables);
    }

    /** The pointer part of join_ring: via looks up the joiner, which adopts the answer. A joiner fresh from
        create_node makes it the Join step of the ring theorems. */
    method JoinRing(n: Node, via: Node, ghost st: Ring.State)
      requires Has(via) && n.id !in nodes && n.finger !in FingerArrays()
      requires ShowsSucc(st.succ) && ShowsPred(st.pred) && ShowsFingers(st.tables.fingers) && ShowsNext(st.tables.next)
      requires Closed(st.succ, st.tables.fingers)
      modifies this, n`successor, n`predecessor
      ensures nodes == old(nodes)[n.id := n] && Has(n)
      ensures n.predecessor == None
      ensures n.successor == Lookup.FindSuccessor(st.succ, st.tables.fingers, via.id, n.id)
      ensures var st' := Ring.AfterJoin(st, n.id, n.successor);
              && ShowsSucc(st'.succ) && ShowsPred(st'.pred)
              && (n.finger[..] == seq(M, _ => n.id) && n.next == 0 ==>
                    ShowsFingers(st'.tables.fingers) && ShowsNext(st'.tables.next))
    {
      var s := FindSuccessor(via, n.id, st.succ, st.tables.fingers);
      AdoptAndFile(n, s, st);
    }
  }

  /** In a primed ring every stabilize call is answered and is the step the convergence theorem counts. */
  lemma PrimedCallIsStabilize(g: Pointers, n: Id)
    requires Primed(g) && n in g.succ
    ensures NextIn(g.succ, n) && PredNamesMembers(g.succ, g.pred) && g.pred[g.succ[n]].Some?
    ensures var s := Ring.AdoptedSuccessor(n, g.succ[n], g.pred[g.succ[n]].value);
            s in g.pred && AfterStabilize(g, n, s) == Convergence.Stabilize(g, n)
  {
    var x := Reported(g, n);
  }
}
