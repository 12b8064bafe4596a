/** Key lookup over the whole ring: the local decision of find_successor, the reverse finger scan, and
    the forwarding that happens when the scan names another node. Every FIND_SUCCESSOR request is taken
    to be answered, so a forward is a recursive call. */
module Lookup {
  import opened Ids

  /** Who each member believes follows it. Its keys are the members. */
  type Succ = map<Id, Id>

  /** The finger table of each member. */
  type Fingers = map<Id, seq<Id>>

  /** Successors and fingers name members; they may be stale in every other way. */
  ghost predicate Closed(succ: Succ, fingers: Fingers) {
    && fingers.Keys == succ.Keys
    && ClosedSucc(succ)
    && (forall n {:trigger fingers[n]} | n in succ :: FullTable(succ, fingers[n]))
  }

  /** The successor of n is a member. (Stated through a predicate of its own, so that the verifier
      follows a successor edge only where it is asked to.) */
  ghost predicate NextIn(succ: Succ, n: Id) {
    n in succ && succ[n] in succ
  }

  ghost predicate ClosedSucc(succ: Succ) {
    forall n {:trigger NextIn(succ, n)} | n in succ :: NextIn(succ, n)
  }

  ghost predicate FullTable(succ: Succ, table: seq<Id>) {
    |table| == M && forall i | 0 <= i < M :: table[i] in succ
  }

  /** The interval branch of find_successor: id lies in the half-open arc (n, s]. */
  predicate Owns(n: Id, s: Id, id: Id) {
    InInterval(id, n, s) || id == s
  }

  /** The scan of closest_preceding_node over the slots below k, highest first. */
  function ScanDown(n: Id, table: seq<Id>, k: nat, id: Id): (c: Id)
    requires k <= |table|
    ensures c == n <==> forall i | 0 <= i < k :: !InInterval(table[i], n, id)
    ensures c != n ==>
              exists i ::
                && 0 <= i < k && table[i] == c && InInterval(c, n, id)
                && forall j | i < j < k :: !InInterval(table[j], n, id)
  {
    if k == 0 then n
    else if InInterval(table[k - 1], n, id) then table[k - 1]
    else ScanDown(n, table, k - 1, id)
  }

  function Closest(n: Id, table: seq<Id>, id: Id): Id {
    ScanDown(n, table, |table|, id)
  }

  function FindSuccessor(succ: Succ, fingers: Fingers, n: Id, id: Id): (s: Id)
    requires Closed(succ, fingers) && n in succ
    ensures s in succ
    decreases Gap(n, id)
  {
    assert NextIn(succ, n);
    if Owns(n, succ[n], id) then succ[n]
    else
      var c := Closest(n, fingers[n], id);
      if c == n then succ[n] else FindSuccessor(succ, fingers, c, id)
  }

  // ----- termination and hop count, in any closed state -----

  /** The nodes a lookup visits, in order. */
  function Path(succ: Succ, fingers: Fingers, n: Id, id: Id): (p: seq<Id>)
    requires Closed(succ, fingers) && n in succ
    ensures |p| > 0 && p[0] == n
    ensures forall i | 0 <= i < |p| :: p[i] in succ
    decreases Gap(n, id)
  {
    if Owns(n, succ[n], id) then [n]
    else
      var c := Closest(n, fingers[n], id);
      if c == n then [n] else [n] + Path(succ, fingers, c, id)
  }

  /** The node whose own successor becomes the answer. */
  function Terminal(succ: Succ, fingers: Fingers, n: Id, id: Id): (t: Id)
    requires Closed(succ, fingers) && n in succ
    ensures t in succ
  {
    var p := Path(succ, fingers, n, id);
    p[|p| - 1]
  }

  lemma {:induction false} AnswerIsTerminalsSuccessor(succ: Succ, fingers: Fingers, n: Id, id: Id)
    requires Closed(succ, fingers) && n in succ
    ensures FindSuccessor(succ, fingers, n, id) == succ[Terminal(succ, fingers, n, id)]
    decreases Gap(n, id)
  {
    var c := Closest(n, fingers[n], id);
    if !Owns(n, succ[n], id) && c != n {
      AnswerIsTerminalsSuccessor(succ, fingers, c, id);
    }
  }

  /** Every node of p after the first lies inside the arc its predecessors still had to cover. */
  ghost predicate Advancing(p: seq<Id>, id: Id) {
    forall i, j | 0 <= i < j < |p| :: InInterval(p[j], p[i], id)
  }

  /** Each forward goes to a node strictly between the current one and the key, so the distance left
      strictly falls and no node is visited twice. */
  lemma {:induction false} LookupNeverRevisits(succ: Succ, fingers: Fingers, n: Id, id: Id)
    requires Closed(succ, fingers) && n in succ
    ensures var p := Path(succ, fingers, n, id);
            && Advancing(p, id)
            && (forall i, j | 0 <= i < j < |p| :: Gap(p[j], id) < Gap(p[i], id))
            && (forall i, j | 0 <= i < j < |p| :: p[i] != p[j])
    decreases Gap(n, id)
  {
    var c := Closest(n, fingers[n], id);
    if !Owns(n, succ[n], id) && c != n {
      LookupNeverRevisits(succ, fingers, c, id);
      var p, rest := Path(succ, fingers, n, id), Path(succ, fingers, c, id);
      assert p == [n] + rest;
      forall i, j | 0 <= i < j < |p| ensures InInterval(p[j], p[i], id) {
        if i > 0 {
          assert InInterval(rest[j - 1], rest[i - 1], id);
        } else if j > 1 {
          assert InInterval(rest[j - 1], rest[0], id);
        }
      }
    }
  }

  ghost function Between(succ: Succ, n: Id, id: Id): set<Id> {
    set m | m in succ && InInterval(m, n, id)
  }

  /** A lookup forwards at most once per member lying strictly between its start and the key. */
  lemma {:induction false} HopsBoundedByMembersBetween(succ: Succ, fingers: Fingers, n: Id, id: Id)
    requires Closed(succ, fingers) && n in succ
    ensures |Path(succ, fingers, n, id)| - 1 <= |Between(succ, n, id)|
    decreases Gap(n, id)
  {
    var c := Closest(n, fingers[n], id);
    if !Owns(n, succ[n], id) && c != n {
      HopsBoundedByMembersBetween(succ, fingers, c, id);
      var rest := Between(succ, c, id);
      SubsetCardinality(rest + {c}, Between(succ, n, id));
    }
  }

  lemma {:induction false} SubsetCardinality<T>(a: set<T>, b: set<T>)
    requires a <= b
    ensures |a| <= |b|
  {
    if a != {} {
      var x :| x in a;
      SubsetCardinality(a - {x}, b - {x});
    }
  }

  // ----- correctness over correct successors -----

  /** o is the first member at or clockwise after id. */
  ghost predicate IsOwner(members: set<Id>, id: Id, o: Id) {
    o in members && forall m {:trigger Dist(id, m)} | m in members :: Dist(id, o) <= Dist(id, m)
  }

  /** s is the first member strictly clockwise after n (n itself when alone). */
  ghost predicate IsNext(members: set<Id>, n: Id, s: Id) {
    s in members && forall m {:trigger Gap(n, m)} | m in members :: Gap(n, s) <= Gap(n, m)
  }

  ghost predicate Correct(succ: Succ) {
    forall n {:trigger IsNext(succ.Keys, n, succ[n])} | n in succ :: IsNext(succ.Keys, n, succ[n])
  }

  /** n can move a lookup on: its successor is itself or among its fingers. */
  ghost predicate Healed(succ: Succ, n: Id, table: seq<Id>)
    requires n in succ
  {
    succ[n] == n || succ[n] in table
  }

  /** The owner of a key is determined by the members, and a correct successor owns its own arc only. */
  lemma OwnsIffOwner(succ: Succ, n: Id, id: Id)
    requires Correct(succ) && n in succ
    ensures Owns(n, succ[n], id) <==> IsOwner(succ.Keys, id, succ[n])
  {
    var s := succ[n];
    assert IsNext(succ.Keys, n, s);
    if Owns(n, s, id) {
      forall m | m in succ ensures Dist(id, s) <= Dist(id, m) {
        assert Gap(n, s) <= Gap(n, m);
      }
    } else {
      assert Dist(id, n) < Dist(id, s);
    }
  }

  /** One lookup is right exactly when it ends at a node whose arc holds the key. */
  lemma LookupRightIffIntervalBranch(succ: Succ, fingers: Fingers, n: Id, id: Id)
    requires Closed(succ, fingers) && Correct(succ) && n in succ
    ensures var t := Terminal(succ, fingers, n, id);
            IsOwner(succ.Keys, id, FindSuccessor(succ, fingers, n, id)) <==> Owns(t, succ[t], id)
  {
    AnswerIsTerminalsSuccessor(succ, fingers, n, id);
    OwnsIffOwner(succ, Terminal(succ, fingers, n, id), id);
  }

  lemma {:induction false} HealedLookupIsRight(succ: Succ, fingers: Fingers, n: Id, id: Id)
    requires Closed(succ, fingers) && Correct(succ) && n in succ
    requires forall m | m in succ :: Healed(succ, m, fingers[m])
    ensures IsOwner(succ.Keys, id, FindSuccessor(succ, fingers, n, id))
    decreases Gap(n, id)
  {
    OwnsIffOwner(succ, n, id);
    if !Owns(n, succ[n], id) {
      var i :| 0 <= i < M && fingers[n][i] == succ[n];
      assert InInterval(fingers[n][i], n, id);
      HealedLookupIsRight(succ, fingers, Closest(n, fingers[n], id), id);
    }
  }

  /** Without its successor among its fingers, a node misroutes the key that follows its successor. */
  lemma UnhealedLookupIsWrong(succ: Succ, fingers: Fingers, n: Id)
    requires Closed(succ, fingers) && Correct(succ) && n in succ
    requires !Healed(succ, n, fingers[n])
    ensures NextIn(succ, n) && FindSuccessor(succ, fingers, n, succ[succ[n]]) == succ[n]
    ensures !IsOwner(succ.Keys, succ[succ[n]], succ[n])
  {
    assert NextIn(succ, n) && NextIn(succ, succ[n]);
    var s := succ[n];
    var key := succ[s];
    assert Gap(n, s) <= Gap(n, key) by {
      assert IsNext(succ.Keys, n, s);
    }
    assert Gap(s, key) <= Gap(s, n) by {
      assert IsNext(succ.Keys, s, key);
    }
    assert key != s;
    forall i | 0 <= i < M ensures !InInterval(fingers[n][i], n, key) {
      var f := fingers[n][i];
      assert f in succ && f != s;
      assert Gap(n, s) <= Gap(n, f) && Gap(s, key) <= Gap(s, f);
    }
    assert Dist(key, key) == 0;
  }

  /** Over correct successors, every lookup from every node is right exactly when every node has its
      successor among its fingers. */
  lemma AllLookupsRightIffHealed(succ: Succ, fingers: Fingers)
    requires Closed(succ, fingers) && Correct(succ)
    ensures (forall n, id: Id | n in succ :: IsOwner(succ.Keys, id, FindSuccessor(succ, fingers, n, id)))
            <==> (forall n | n in succ :: Healed(succ, n, fingers[n]))
  {
    if forall n | n in succ :: Healed(succ, n, fingers[n]) {
      forall n, id: Id | n in succ ensures IsOwner(succ.Keys, id, FindSuccessor(succ, fingers, n, id)) {
        HealedLookupIsRight(succ, fingers, n, id);
      }
    } else {
      var n :| n in succ && !Healed(succ, n, fingers[n]);
      UnhealedLookupIsWrong(succ, fingers, n);
      assert !IsOwner(succ.Keys, succ[succ[n]], FindSuccessor(succ, fingers, n, succ[succ[n]]));
    }
  }

  /** A lookup for a member's own identifier never passes it, whatever the fingers hold. */
  lemma {:induction false} LookupOfMemberStaysBefore(succ: Succ, fingers: Fingers, n: Id, x: Id)
    requires Closed(succ, fingers) && Correct(succ) && n in succ && x in succ
    ensures var r := FindSuccessor(succ, fingers, n, x); r == x || InInterval(r, n, x)
    decreases Gap(n, x)
  {
    assert Gap(n, succ[n]) <= Gap(n, x) by {
      assert IsNext(succ.Keys, n, succ[n]);
    }
    var c := Closest(n, fingers[n], x);
    if !Owns(n, succ[n], x) && c != n {
      LookupOfMemberStaysBefore(succ, fingers, c, x);
    }
  }
}
