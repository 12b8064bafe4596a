/** Lookup over the tables the Chord paper prescribes (finger i is the owner of n + 2^i). The code
    assumes such tables without building them; these are the properties they would have here. */
module PowerTables {
  import opened Ids
  import opened Lookup
  import opened FingerRepair

  function Pow2(k: nat): (p: int)
    ensures p > 0
  {
    if k == 0 then 1 else 2 * Pow2(k - 1)
  }

  lemma {:induction false} Pow2Adds(a: nat, b: nat)
    ensures Pow2(a + b) == Pow2(a) * Pow2(b)
  {
    if a > 0 {
      Pow2Adds(a - 1, b);
      assert Pow2(a + b) == 2 * Pow2(a - 1 + b);
    }
  }

  lemma Pow2Doubles(a: nat, p: int)
    requires Pow2(a) == p
    ensures Pow2(2 * a) == p * p
  {
    Pow2Adds(a, a);
  }

  lemma Pow2Ring()
    ensures Pow2(M) == RING
  {
    assert Pow2(5) == 32;
    Pow2Doubles(5, 32);
    Pow2Doubles(10, 0x400);
    Pow2Doubles(20, 0x10_0000);
    Pow2Doubles(40, 0x100_0000_0000);
    Pow2Doubles(80, 0x1_0000_0000_0000_0000_0000);
  }

  lemma {:induction false} Pow2Grows(a: nat, b: nat)
    requires a < b
    ensures 2 * Pow2(a) <= Pow2(b)
  {
    if a + 1 < b {
      Pow2Grows(a, b - 1);
    }
  }

  /** The largest power of two not exceeding g. */
  lemma {:induction false} Log2(g: int, b: nat) returns (k: nat)
    requires 0 < g < Pow2(b)
    ensures k < b && Pow2(k) <= g < 2 * Pow2(k)
  {
    if Pow2(b - 1) <= g {
      k := b - 1;
    } else {
      k := Log2(g, b - 1);
    }
  }

  /** The point 2^k past n. */
  function Target(n: Id, k: nat): (p: Id)
    requires k < M
    ensures Dist(n, p) == Pow2(k)
  {
    Pow2Ring();
    Pow2Grows(k, M);
    if n + Pow2(k) < RING then n + Pow2(k) else n + Pow2(k) - RING
  }

  ghost predicate PowerTable(succ: Succ, n: Id, table: seq<Id>) {
    |table| == M && forall k {:trigger table[k]} | 0 <= k < M :: IsOwner(succ.Keys, Target(n, k), table[k])
  }

  ghost predicate AllPower(succ: Succ, fingers: Fingers)
    requires Closed(succ, fingers)
  {
    forall n {:trigger fingers[n]} | n in succ :: PowerTable(succ, n, fingers[n])
  }

  /** The owner of n + 2^k lies at least 2^k past n, and no member lies between. */
  lemma PowerFinger(succ: Succ, n: Id, table: seq<Id>, k: nat, m: Id)
    requires PowerTable(succ, n, table) && n in succ && m in succ && k < M
    ensures Pow2(k) <= Gap(n, table[k])
    ensures Pow2(k) <= Gap(n, m) ==> Gap(n, table[k]) <= Gap(n, m)
  {
    var t, f := Target(n, k), table[k];
    assert IsOwner(succ.Keys, t, f);
    assert Dist(t, f) <= Dist(t, n);
    assert Dist(t, f) <= Dist(t, m);
  }

  /** Power-of-two tables are healed: slot 0 holds the successor. */
  lemma PowerTablesAreHealed(succ: Succ, fingers: Fingers)
    requires Closed(succ, fingers) && Correct(succ) && AllPower(succ, fingers)
    ensures AllHealed(succ, fingers)
  {
    forall n | n in succ ensures Healed(succ, n, fingers[n]) {
      var s, f := succ[n], fingers[n][0];
      assert IsNext(succ.Keys, n, s);
      PowerFinger(succ, n, fingers[n], 0, s);
      assert Gap(n, s) <= Gap(n, f);
    }
  }

  /** Every schedule of fix_fingers calls keeps the tables power-of-two tables, slot by slot. */
  lemma PowerTablesPreserved(succ: Succ, t: Tables, schedule: seq<Id>)
    requires Ready(succ, t) && Correct(succ) && AllPower(succ, t.fingers)
    requires forall m | m in schedule :: m in succ
    ensures RunFixes(succ, t, schedule).fingers == t.fingers
    ensures AllPower(succ, RunFixes(succ, t, schedule).fingers)
  {
    PowerTablesAreHealed(succ, t.fingers);
    HealedTablesAreFrozen(succ, t, schedule);
  }

  /** From healed tables no schedule ends in power-of-two tables unless it starts with them. */
  lemma PowerTablesNeverBuilt(succ: Succ, t: Tables, schedule: seq<Id>)
    requires Ready(succ, t) && Correct(succ) && AllHealed(succ, t.fingers)
    requires forall m | m in schedule :: m in succ
    ensures AllPower(succ, RunFixes(succ, t, schedule).fingers) <==> AllPower(succ, t.fingers)
  {
    HealedTablesAreFrozen(succ, t, schedule);
  }

  /** The reverse scan returns the finger closest before the key. */
  lemma ScanPicksClosestPreceding(succ: Succ, n: Id, table: seq<Id>, id: Id, j: nat)
    requires PowerTable(succ, n, table) && n in succ && j < M
    requires forall k | 0 <= k < M :: table[k] in succ
    requires InInterval(table[j], n, id)
    ensures var c := Closest(n, table, id); InInterval(c, n, id) && Gap(n, table[j]) <= Gap(n, c)
  {
    var c := Closest(n, table, id);
    var i :| 0 <= i < M && table[i] == c && forall h | i < h < M :: !InInterval(table[h], n, id);
    assert j <= i;
    if j < i {
      Pow2Grows(j, i);
      PowerFinger(succ, n, table, i, c);
      PowerFinger(succ, n, table, j, c);
    }
  }

  /** p is the member whose arc holds the key; a node before it forwards to finger k, where
      2^k <= Gap(n, p) < 2^(k+1), so the distance to p loses its leading bit. */
  lemma ForwardHalves(succ: Succ, n: Id, table: seq<Id>, id: Id, p: Id, k: nat)
    requires Correct(succ) && PowerTable(succ, n, table) && n in succ && p in succ && k < M
    requires forall j | 0 <= j < M :: table[j] in succ
    requires Owns(p, succ[p], id) && InInterval(p, n, id)
    requires Pow2(k) <= Gap(n, p) < 2 * Pow2(k)
    ensures var c := Closest(n, table, id);
            c != n && c in succ && (c == p || InInterval(p, c, id)) && Dist(c, p) < Pow2(k)
  {
    PowerFinger(succ, n, table, k, p);
    assert InInterval(table[k], n, id);
    var c := Closest(n, table, id);
    ScanPicksClosestPreceding(succ, n, table, id, k);
    assert IsNext(succ.Keys, p, succ[p]);
    assert Gap(p, succ[p]) <= Gap(p, c);
    assert Gap(n, c) <= Gap(n, p);
  }

  lemma {:induction false} HopsBelowLog(succ: Succ, fingers: Fingers, n: Id, id: Id, p: Id, b: nat)
    requires Closed(succ, fingers) && Correct(succ) && AllPower(succ, fingers)
    requires n in succ && p in succ && Owns(p, succ[p], id)
    requires n == p || InInterval(p, n, id)
    requires Dist(n, p) < Pow2(b) && b <= M
    ensures |Path(succ, fingers, n, id)| - 1 <= b
    decreases b
  {
    if !Owns(n, succ[n], id) {
      var k := Log2(Gap(n, p), b);
      ForwardHalves(succ, n, fingers[n], id, p, k);
      HopsBelowLog(succ, fingers, Closest(n, fingers[n], id), id, p, k);
    }
  }

  /** With power-of-two tables a lookup forwards at most 160 times. */
  lemma LookupForwardsAtMost160Times(succ: Succ, fingers: Fingers, n: Id, id: Id)
    requires Closed(succ, fingers) && Correct(succ) && AllPower(succ, fingers) && n in succ
    ensures |Path(succ, fingers, n, id)| - 1 <= M
  {
    PowerTablesAreHealed(succ, fingers);
    HealedLookupIsRight(succ, fingers, n, id);
    LookupRightIffIntervalBranch(succ, fingers, n, id);
    LookupNeverRevisits(succ, fingers, n, id);
    Pow2Ring();
    var path := Path(succ, fingers, n, id);
    var p := Terminal(succ, fingers, n, id);
    assert |path| > 1 ==> InInterval(path[|path| - 1], path[0], id);
    HopsBelowLog(succ, fingers, n, id, p, M);
  }
}
