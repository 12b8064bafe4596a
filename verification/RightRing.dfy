/** What a ring that no stabilize call would change looks like. */
module RightRing {
  import opened Ids
  import opened Lookup
  import opened Options
  import opened Ring
  import opened RingRuns

  /** Every queried successor has a predecessor to report, and a stabilize call with its NOTIFY would
      change neither pointer. */
  ghost predicate QuietAt(succ: Succ, pred: Pred, n: Id)
    requires n in succ
  {
    var s := succ[n];
    && s in pred && pred[s].Some?
    && AdoptedSuccessor(n, s, pred[s].value) == s
    && NotifiedPredecessor(s, pred[s], n) == pred[s]
  }

  ghost predicate Quiet(succ: Succ, pred: Pred) {
    forall n {:trigger QuietAt(succ, pred, n)} | n in succ :: QuietAt(succ, pred, n)
  }

  ghost predicate Inverse(succ: Succ, pred: Pred) {
    forall n {:trigger InverseAt(succ, pred, n)} | n in succ :: InverseAt(succ, pred, n)
  }

  ghost predicate InverseAt(succ: Succ, pred: Pred, n: Id)
    requires n in succ
  {
    succ[n] in pred && pred[succ[n]] == Some(n)
  }

  /** Successor is the next member clockwise, predecessor its inverse, and there is one cycle. */
  ghost predicate Right(succ: Succ, pred: Pred) {
    && Correct(succ)
    && Inverse(succ, pred)
    && forall u, v {:trigger Connected(succ, u, v)} | u in succ && v in succ :: Connected(succ, u, v)
  }

  /** Quiet means that predecessor inverts successor. */
  lemma QuietIffInverse(succ: Succ, pred: Pred)
    ensures Quiet(succ, pred) <==> Inverse(succ, pred)
  {
    if Quiet(succ, pred) {
      forall n | n in succ ensures InverseAt(succ, pred, n) {
        assert QuietAt(succ, pred, n);
      }
    }
    if Inverse(succ, pred) {
      forall n | n in succ ensures QuietAt(succ, pred, n) {
        assert InverseAt(succ, pred, n);
      }
    }
  }

  // ----- an invertible successor map is onto -----

  ghost function Image(succ: Succ, dom: set<Id>): set<Id>
    requires dom <= succ.Keys
  {
    set n | n in dom :: succ[n]
  }

  lemma {:induction false} ImageSize(succ: Succ, pred: Pred, dom: set<Id>)
    requires dom <= succ.Keys && Inverse(succ, pred)
    ensures |Image(succ, dom)| == |dom|
  {
    if dom != {} {
      var x :| x in dom;
      ImageSize(succ, pred, dom - {x});
      forall y | y in dom - {x} ensures succ[y] != succ[x] {
        assert InverseAt(succ, pred, x) && InverseAt(succ, pred, y);
      }
      assert Image(succ, dom) == Image(succ, dom - {x}) + {succ[x]};
    }
  }

  lemma {:induction false} SubsetOfSameSize(a: set<Id>, b: set<Id>)
    requires a <= b && |a| == |b|
    ensures a == b
  {
    if x :| x in b && x !in a {
      SubsetCardinality(a, b - {x});
    }
  }

  lemma Before(succ: Succ, pred: Pred, m: Id) returns (p: Id)
    requires ClosedSucc(succ) && Inverse(succ, pred) && m in succ
    ensures p in succ && succ[p] == m
  {
    ImageSize(succ, pred, succ.Keys);
    assert Image(succ, succ.Keys) <= succ.Keys by {
      forall n | n in succ ensures succ[n] in succ {
        assert NextIn(succ, n);
      }
    }
    SubsetOfSameSize(Image(succ, succ.Keys), succ.Keys);
    assert m in Image(succ, succ.Keys);
    p :| p in succ && succ[p] == m;
  }

  // ----- no edge over f, and invertible: the order of the circle -----

  /** No member lies between n and its successor, measured from f. */
  lemma {:induction false} NothingBetween(succ: Succ, pred: Pred, f: Id, n: Id, m: Id)
    requires ClosedSucc(succ) && Inverse(succ, pred) && NoJump(succ, f)
    requires f in succ && n in succ && m in succ
    requires Dist(f, n) < Dist(f, m)
    ensures succ[n] != f && Dist(f, succ[n]) <= Dist(f, m)
    decreases Dist(f, m)
  {
    var p := Before(succ, pred, m);
    if p != n {
      if Dist(f, n) < Dist(f, p) {
        NothingBetween(succ, pred, f, n, p);
      } else {
        NothingBetween(succ, pred, f, p, n);
      }
    }
  }

  lemma {:induction false} CorrectReaches(succ: Succ, u: Id, v: Id)
    requires Correct(succ) && u in succ && v in succ
    ensures Reaches(succ, u, v)
    decreases Gap(u, v)
  {
    assert IsNext(succ.Keys, u, succ[u]);
    assert Gap(u, succ[u]) <= Gap(u, v);
    if u != v && succ[u] != v {
      CorrectReaches(succ, succ[u], v);
    }
  }

  lemma QuietIsCorrect(succ: Succ, pred: Pred, f: Id)
    requires ClosedSucc(succ) && f in succ && NoJump(succ, f) && Inverse(succ, pred)
    ensures Correct(succ)
  {
    forall n | n in succ ensures IsNext(succ.Keys, n, succ[n]) {
      assert NextIn(succ, n);
      forall m | m in succ ensures Gap(n, succ[n]) <= Gap(n, m) {
        if Dist(f, n) < Dist(f, m) {
          NothingBetween(succ, pred, f, n, m);
        } else if succ[n] == f {
          assert Gap(n, f) <= Gap(n, m);
        } else {
          assert Gap(n, succ[n]) <= Gap(n, m);
        }
      }
    }
  }

  lemma CorrectNeverJumps(succ: Succ, f: Id)
    requires Correct(succ) && f in succ
    ensures NoJump(succ, f)
  {
    forall n | n in succ ensures !InInterval(f, n, succ[n]) {
      assert IsNext(succ.Keys, n, succ[n]);
      assert Gap(n, succ[n]) <= Gap(n, f);
    }
  }

  /** A ring that stabilization leaves alone is the right ring exactly when no edge jumps over a
      member f, whichever member f is; and the right ring is left alone. */
  lemma QuietRingIsRight(succ: Succ, pred: Pred, f: Id)
    requires ClosedSucc(succ) && f in succ
    ensures Quiet(succ, pred) && NoJump(succ, f) <==> Right(succ, pred)
  {
    QuietIffInverse(succ, pred);
    if Inverse(succ, pred) && NoJump(succ, f) {
      QuietIsCorrect(succ, pred, f);
      forall u, v | u in succ && v in succ ensures Connected(succ, u, v) {
        CorrectReaches(succ, u, v);
        ReachesConnects(succ, u, v);
      }
    }
    if Right(succ, pred) {
      CorrectNeverJumps(succ, f);
    }
  }

  /** The same over whole runs: a quiet state reached from a clear one by interval-branch joins, any
      stabilization and any message faults is the right ring. */
  lemma QuietReachedStateIsRight(st: State, run: seq<Step>, f: Id)
    requires Inv(st) && Possible(st, run) && Clear(st, f) && IntervalRun(st, run)
    requires Quiet(Exec(st, run).succ, Exec(st, run).pred)
    ensures Right(Exec(st, run).succ, Exec(st, run).pred)
  {
    NeverJumps(st, run, f);
    QuietRingIsRight(Exec(st, run).succ, Exec(st, run).pred, f);
  }

  /** Without that condition a quiet ring can be wrong: four members in one cycle that winds twice
      round the circle. Every stored predecessor is even backed by a successor edge. */
  lemma QuietRingCanWindTwice()
    ensures var succ: Succ := map[0 := 20, 20 := 10, 10 := 30, 30 := 0];
            var pred: Pred := map[20 := Some(0), 10 := Some(20), 30 := Some(10), 0 := Some(30)];
            && ClosedSucc(succ) && Quiet(succ, pred) && PredBacked(succ, pred)
            && !Correct(succ)
            && forall f | f in succ :: !NoJump(succ, f)
  {
    var succ: Succ := map[0 := 20, 20 := 10, 10 := 30, 30 := 0];
    var pred: Pred := map[20 := Some(0), 10 := Some(20), 30 := Some(10), 0 := Some(30)];
    QuietIffInverse(succ, pred);
    assert Backed(succ, 0, 20) && Backed(succ, 20, 10) && Backed(succ, 10, 30) && Backed(succ, 30, 0);
    assert !IsNext(succ.Keys, 0, succ[0]) by {
      assert Gap(0, 10) < Gap(0, 20);
    }
    assert InInterval(0, 20, succ[20]) && InInterval(10, 0, succ[0]);
    assert InInterval(20, 10, succ[10]) && InInterval(30, 20, succ[20]);
  }
}
