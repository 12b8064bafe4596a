/** fix_fingers over a ring whose successors are settled. The call looks up the identifier the finger
    already holds, not the point n + 2^i; these are the consequences. */
module FingerRepair {
  import opened Ids
  import opened Lookup

  /** The finger tables together with each node's index of the finger it fixed last. */
  datatype Tables = Tables(fingers: Fingers, next: map<Id, nat>)

  ghost predicate Ready(succ: Succ, t: Tables) {
    && Closed(succ, t.fingers)
    && t.next.Keys == succ.Keys
  }

  function Slot(t: Tables, n: Id): (i: nat)
    requires n in t.next
    ensures i < M
  {
    (t.next[n] + 1) % M
  }

  /** The table after one call that fixes slot i. */
  function Fixed(succ: Succ, fingers: Fingers, n: Id, i: nat): (table: seq<Id>)
    requires Closed(succ, fingers) && n in succ && i < M
    ensures FullTable(succ, table)
  {
    fingers[n][i := FindSuccessor(succ, fingers, n, fingers[n][i])]
  }

  function FixFingers(succ: Succ, t: Tables, n: Id): (t': Tables)
    requires Ready(succ, t) && n in succ
    ensures Ready(succ, t')
  {
    var i := Slot(t, n);
    Tables(t.fingers[n := Fixed(succ, t.fingers, n, i)], t.next[n := i])
  }

  /** Any interleaving of the nodes' calls. */
  function RunFixes(succ: Succ, t: Tables, schedule: seq<Id>): (t': Tables)
    requires Ready(succ, t)
    requires forall n | n in schedule :: n in succ
    ensures Ready(succ, t')
    decreases |schedule|
  {
    if schedule == [] then t
    else RunFixes(succ, FixFingers(succ, t, schedule[0]), schedule[1..])
  }

  /** No finger of the table is closer to n, clockwise, than finger i. */
  ghost predicate Least(n: Id, table: seq<Id>, i: nat) {
    i < |table| && forall j | 0 <= j < |table| :: Gap(n, table[i]) <= Gap(n, table[j])
  }

  /** Calls of n still needed until its pointer reaches slot i. */
  function Wait(next: nat, i: nat): (w: nat)
    requires i < M
    ensures 1 <= w <= M
    ensures w == 1 <==> (next + 1) % M == i
  {
    var s := (next + 1) % M;
    if s <= i then i - s + 1 else i - s + 1 + M
  }

  /** Fixing the closest finger turns it into the successor. */
  lemma FixingLeastHeals(succ: Succ, fingers: Fingers, n: Id, i: nat)
    requires Closed(succ, fingers) && n in succ && i < M
    requires Least(n, fingers[n], i)
    ensures Fixed(succ, fingers, n, i)[i] == succ[n]
  {
    var table := fingers[n];
    forall j | 0 <= j < M ensures !InInterval(table[j], n, table[i]) {
      assert Gap(n, table[i]) <= Gap(n, table[j]);
    }
  }

  /** Fixing any finger k yields the successor or a finger beyond some finger of the table. */
  lemma FixingStaysBeyondLeast(succ: Succ, fingers: Fingers, n: Id, k: nat, i: nat)
    requires Closed(succ, fingers) && Correct(succ) && n in succ && k < M
    requires Least(n, fingers[n], i)
    ensures var r := Fixed(succ, fingers, n, k)[k]; r == succ[n] || Gap(n, fingers[n][i]) < Gap(n, r)
  {
    var table := fingers[n];
    var x := table[k];
    var c := Closest(n, table, x);
    if !Owns(n, succ[n], x) && c != n {
      var h :| 0 <= h < M && table[h] == c && InInterval(c, n, x);
      assert Gap(n, table[i]) <= Gap(n, table[h]);
      LookupOfMemberStaysBefore(succ, fingers, c, x);
    }
  }

  /** Fixing another finger heals the table too, or leaves the closest finger the closest. */
  lemma FixingOtherKeepsLeast(succ: Succ, fingers: Fingers, n: Id, k: nat, i: nat)
    requires Closed(succ, fingers) && Correct(succ) && n in succ && k < M && k != i
    requires Least(n, fingers[n], i)
    ensures var table' := Fixed(succ, fingers, n, k); table'[k] == succ[n] || Least(n, table', i)
  {
    FixingStaysBeyondLeast(succ, fingers, n, k, i);
    var table, table' := fingers[n], Fixed(succ, fingers, n, k);
    if table'[k] != succ[n] {
      forall j | 0 <= j < M ensures Gap(n, table'[i]) <= Gap(n, table'[j]) {
        assert Gap(n, table[i]) <= Gap(n, table[j]);
      }
    }
  }

  /** A finger equal to the successor is never lost: looking it up returns it. */
  lemma FixingKeepsSuccessorFinger(succ: Succ, t: Tables, n: Id, m: Id)
    requires Ready(succ, t) && n in succ && m in succ
    requires succ[m] in t.fingers[m]
    ensures succ[m] in FixFingers(succ, t, n).fingers[m]
  {
    if n == m {
      var table, k := t.fingers[m], Slot(t, m);
      var table' := Fixed(succ, t.fingers, m, k);
      var h :| 0 <= h < M && table[h] == succ[m];
      assert table'[h] == succ[m];
    }
  }

  lemma {:induction false} KeepsSuccessorFinger(succ: Succ, t: Tables, schedule: seq<Id>, m: Id)
    requires Ready(succ, t) && m in succ
    requires forall n | n in schedule :: n in succ
    requires succ[m] in t.fingers[m]
    ensures succ[m] in RunFixes(succ, t, schedule).fingers[m]
    decreases |schedule|
  {
    if schedule != [] {
      FixingKeepsSuccessorFinger(succ, t, schedule[0], m);
      KeepsSuccessorFinger(succ, FixFingers(succ, t, schedule[0]), schedule[1..], m);
    }
  }

  /** Fixing slot k heals the table, or k is not the closest finger and that finger stays closest. */
  lemma FixingHealsOrKeepsLeast(succ: Succ, fingers: Fingers, n: Id, k: nat, i: nat)
    requires Closed(succ, fingers) && Correct(succ) && n in succ && k < M
    requires Least(n, fingers[n], i)
    ensures var table' := Fixed(succ, fingers, n, k); succ[n] in table' || (k != i && Least(n, table', i))
  {
    var table' := Fixed(succ, fingers, n, k);
    if k == i {
      FixingLeastHeals(succ, fingers, n, i);
      assert table'[i] in table';
    } else {
      FixingOtherKeepsLeast(succ, fingers, n, k, i);
      assert table'[k] in table';
    }
  }

  /** One call of n heals its table or brings its pointer a step closer to the closest finger. */
  lemma NextCallOfNode(succ: Succ, t: Tables, n: Id, i: nat)
    requires Ready(succ, t) && Correct(succ) && n in succ
    requires Least(n, t.fingers[n], i)
    ensures var t' := FixFingers(succ, t, n);
            || succ[n] in t'.fingers[n]
            || (Least(n, t'.fingers[n], i) && Wait(t'.next[n], i) == Wait(t.next[n], i) - 1)
  {
    var k := Slot(t, n);
    FixingHealsOrKeepsLeast(succ, t.fingers, n, k, i);
    if succ[n] !in Fixed(succ, t.fingers, n, k) {
      assert Wait(k, i) == Wait(t.next[n], i) - 1 by {
      }
    }
  }

  lemma {:induction false} HealsWithinWait(succ: Succ, t: Tables, schedule: seq<Id>, n: Id, i: nat)
    requires Ready(succ, t) && Correct(succ) && n in succ
    requires forall m | m in schedule :: m in succ
    requires Least(n, t.fingers[n], i)
    requires multiset(schedule)[n] >= Wait(t.next[n], i)
    ensures succ[n] in RunFixes(succ, t, schedule).fingers[n]
    decreases |schedule|
  {
    var m, rest := schedule[0], schedule[1..];
    assert schedule == [m] + rest;
    var t' := FixFingers(succ, t, m);
    if m != n {
      HealsWithinWait(succ, t', rest, n, i);
    } else {
      NextCallOfNode(succ, t, n, i);
      if succ[n] in t'.fingers[n] {
        KeepsSuccessorFinger(succ, t', rest, n);
      } else {
        HealsWithinWait(succ, t', rest, n, i);
      }
    }
  }

  lemma {:induction false} LeastExists(n: Id, table: seq<Id>) returns (i: nat)
    requires |table| > 0
    ensures Least(n, table, i)
  {
    i := 0;
    for k := 1 to |table|
      invariant i < |table| && forall j | 0 <= j < k :: Gap(n, table[i]) <= Gap(n, table[j])
    {
      if Gap(n, table[k]) < Gap(n, table[i]) {
        i := k;
      }
    }
  }

  /** M calls of a node, interleaved with any calls of the others and started from any fingers that
      name members, leave its successor among its fingers. */
  lemma FingersHeal(succ: Succ, t: Tables, schedule: seq<Id>, n: Id)
    requires Ready(succ, t) && Correct(succ) && n in succ
    requires forall m | m in schedule :: m in succ
    requires multiset(schedule)[n] >= M
    ensures succ[n] in RunFixes(succ, t, schedule).fingers[n]
  {
    var i := LeastExists(n, t.fingers[n]);
    HealsWithinWait(succ, t, schedule, n, i);
  }

  /** Once every node has made M calls, every lookup from every node is right. */
  lemma LookupsRightAfterRounds(succ: Succ, t: Tables, schedule: seq<Id>, n: Id, id: Id)
    requires Ready(succ, t) && Correct(succ) && n in succ
    requires forall m | m in schedule :: m in succ
    requires forall m | m in succ :: multiset(schedule)[m] >= M
    ensures IsOwner(succ.Keys, id, FindSuccessor(succ, RunFixes(succ, t, schedule).fingers, n, id))
  {
    var t' := RunFixes(succ, t, schedule);
    forall m | m in succ ensures Healed(succ, m, t'.fingers[m]) {
      FingersHeal(succ, t, schedule, m);
    }
    HealedLookupIsRight(succ, t'.fingers, n, id);
  }

  // ----- a healed ring's tables are frozen -----

  ghost predicate AllHealed(succ: Succ, fingers: Fingers)
    requires Closed(succ, fingers)
  {
    forall n | n in succ :: Healed(succ, n, fingers[n])
  }

  lemma MemberOwnsItself(members: set<Id>, x: Id, o: Id)
    requires x in members && IsOwner(members, x, o)
    ensures o == x
  {
    assert Dist(x, o) <= Dist(x, x);
  }

  /** With right lookups, looking up a finger's own identifier returns that finger. */
  lemma FixedHealedIsSame(succ: Succ, fingers: Fingers, n: Id, i: nat)
    requires Closed(succ, fingers) && Correct(succ) && n in succ && AllHealed(succ, fingers) && i < M
    ensures Fixed(succ, fingers, n, i) == fingers[n]
  {
    var x := fingers[n][i];
    HealedLookupIsRight(succ, fingers, n, x);
    MemberOwnsItself(succ.Keys, x, FindSuccessor(succ, fingers, n, x));
  }

  lemma FixingHealedChangesNothing(succ: Succ, t: Tables, n: Id)
    requires Ready(succ, t) && Correct(succ) && n in succ && AllHealed(succ, t.fingers)
    ensures FixFingers(succ, t, n).fingers == t.fingers
  {
    FixedHealedIsSame(succ, t.fingers, n, Slot(t, n));
  }

  /** So no schedule ever changes a healed table again; in particular tables that are not the powers of
      two of the paper never become so. */
  lemma {:induction false} HealedTablesAreFrozen(succ: Succ, t: Tables, schedule: seq<Id>)
    requires Ready(succ, t) && Correct(succ) && AllHealed(succ, t.fingers)
    requires forall m | m in schedule :: m in succ
    ensures RunFixes(succ, t, schedule).fingers == t.fingers
    decreases |schedule|
  {
    if schedule != [] {
      FixingHealedChangesNothing(succ, t, schedule[0]);
      HealedTablesAreFrozen(succ, FixFingers(succ, t, schedule[0]), schedule[1..]);
    }
  }
}
