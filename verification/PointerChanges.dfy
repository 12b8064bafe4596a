/** How much stabilization can change over a run. */
module PointerChanges {
  import opened Ids
  import opened Lookup
  import opened FingerRepair
  import opened Options
  import opened Ring
  import opened RingRuns

  // ----- a potential: pairs a pointer could still improve to -----

  /** Members that would be closer successors than the present ones. */
  ghost function SuccPairs(succ: Succ): set<(Id, Id)> {
    set n, m | n in succ && m in succ && Gap(n, m) < Gap(n, succ[n]) :: (n, m)
  }

  ghost predicate CloserPredecessor(s: Id, current: Option<Id>, p: Id) {
    current.None? || Gap(p, s) < Gap(current.value, s)
  }

  /** Members that would be closer predecessors than the present ones. */
  ghost function PredPairs(pred: Pred): set<(Id, Id)> {
    set s, p | s in pred && p in pred && CloserPredecessor(s, pred[s], p) :: (s, p)
  }

  ghost function Pairs(a: set<Id>, b: set<Id>): set<(Id, Id)> {
    set x, y | x in a && y in b :: (x, y)
  }

  lemma {:induction false} PairsOfOne(x: Id, b: set<Id>)
    ensures |Pairs({x}, b)| == |b|
  {
    if b != {} {
      var y :| y in b;
      PairsOfOne(x, b - {y});
      assert Pairs({x}, b) == Pairs({x}, b - {y}) + {(x, y)};
    }
  }

  lemma PairsSplit(a: set<Id>, b: set<Id>, x: Id)
    requires x in a
    ensures |Pairs(a, b)| == |Pairs(a - {x}, b)| + |Pairs({x}, b)|
  {
    assert Pairs(a, b) == Pairs(a - {x}, b) + Pairs({x}, b);
    assert Pairs(a - {x}, b) !! Pairs({x}, b);
  }

  lemma {:induction false} PairsSize(a: set<Id>, b: set<Id>)
    ensures |Pairs(a, b)| == |a| * |b|
  {
    if a != {} {
      var x :| x in a;
      PairsSize(a - {x}, b);
      PairsOfOne(x, b);
      PairsSplit(a, b, x);
    }
  }

  lemma PotentialBound(succ: Succ, pred: Pred)
    requires pred.Keys == succ.Keys
    ensures |SuccPairs(succ)| <= |succ| * |succ|
    ensures |PredPairs(pred)| <= |succ| * |succ|
  {
    var members := succ.Keys;
    PairsSize(members, members);
    SubsetCardinality(SuccPairs(succ), Pairs(members, members));
    SubsetCardinality(PredPairs(pred), Pairs(members, members));
  }

  lemma ProperSubsetSmaller<T>(a: set<T>, b: set<T>, x: T)
    requires a <= b && x in b && x !in a
    ensures |a| < |b|
  {
    SubsetCardinality(a + {x}, b);
  }

  lemma AdoptSpendsPair(succ: Succ, n: Id, x: Id)
    requires n in succ && x in succ
    ensures var succ' := succ[n := AdoptedSuccessor(n, succ[n], x)];
            if succ' == succ then SuccPairs(succ') == SuccPairs(succ)
            else |SuccPairs(succ')| < |SuccPairs(succ)|
  {
    var s := AdoptedSuccessor(n, succ[n], x);
    var succ' := succ[n := s];
    if s == succ[n] {
      assert succ' == succ;
    } else {
      assert succ'[n] == x && Gap(n, x) < Gap(n, succ[n]);
      assert SuccPairs(succ') <= SuccPairs(succ);
      ProperSubsetSmaller(SuccPairs(succ'), SuccPairs(succ), (n, x));
    }
  }

  lemma HearSpendsPair(pred: Pred, s: Id, p: Id)
    requires s in pred && p in pred
    ensures var pred' := pred[s := NotifiedPredecessor(s, pred[s], p)];
            if pred' == pred then PredPairs(pred') == PredPairs(pred)
            else |PredPairs(pred')| < |PredPairs(pred)|
  {
    var q := NotifiedPredecessor(s, pred[s], p);
    var pred' := pred[s := q];
    if q == pred[s] {
      assert pred' == pred;
    } else {
      assert pred'[s] == Some(p);
      assert CloserPredecessor(s, pred[s], p);
      forall t, r | (t, r) in PredPairs(pred') ensures (t, r) in PredPairs(pred) {
        if t == s && pred[s].Some? {
          assert Gap(r, s) < Gap(p, s) < Gap(pred[s].value, s);
        }
      }
      ProperSubsetSmaller(PredPairs(pred'), PredPairs(pred), (s, p));
    }
  }

  // ----- pointer changes over any run with fixed membership -----

  ghost predicate NoJoins(run: seq<Step>) {
    forall i | 0 <= i < |run| :: !run[i].Join?
  }

  ghost predicate NoResets(run: seq<Step>) {
    forall i | 0 <= i < |run| :: !run[i].ResetPredecessor?
  }

  ghost function SuccChanges(st: State, run: seq<Step>): nat
    requires Inv(st) && Possible(st, run)
    decreases |run|
  {
    if run == [] then 0
    else
      StepKeepsInv(st, run[0]);
      var st' := Apply(st, run[0]);
      (if st'.succ == st.succ then 0 else 1) + SuccChanges(st', run[1..])
  }

  ghost function PredChanges(st: State, run: seq<Step>): nat
    requires Inv(st) && Possible(st, run)
    decreases |run|
  {
    if run == [] then 0
    else
      StepKeepsInv(st, run[0]);
      var st' := Apply(st, run[0]);
      (if st'.pred == st.pred then 0 else 1) + PredChanges(st', run[1..])
  }

  lemma StepSpendsSucc(st: State, step: Step)
    requires Inv(st) && Enabled(st, step) && !step.Join?
    ensures var st' := Apply(st, step);
            if st'.succ == st.succ then SuccPairs(st'.succ) == SuccPairs(st.succ)
            else |SuccPairs(st'.succ)| < |SuccPairs(st.succ)|
  {
    match step
    case Adopt(n, x) =>
      ReplyIsBacked(st, n, x);
      AdoptSpendsPair(st.succ, n, x);
    case _ =>
  }

  lemma StepSpendsPred(st: State, step: Step)
    requires Inv(st) && Enabled(st, step) && !step.Join? && !step.ResetPredecessor?
    ensures var st' := Apply(st, step);
            if st'.pred == st.pred then PredPairs(st'.pred) == PredPairs(st.pred)
            else |PredPairs(st'.pred)| < |PredPairs(st.pred)|
  {
    match step
    case Hear(s, p) =>
      assert (s, p) in st.notifies;
      HearSpendsPair(st.pred, s, p);
    case _ =>
  }

  lemma {:induction false} SuccChangesSpent(st: State, run: seq<Step>)
    requires Inv(st) && Possible(st, run) && NoJoins(run)
    ensures SuccChanges(st, run) + |SuccPairs(Exec(st, run).succ)| <= |SuccPairs(st.succ)|
    decreases |run|
  {
    if run != [] {
      StepKeepsInv(st, run[0]);
      StepSpendsSucc(st, run[0]);
      SuccChangesSpent(Apply(st, run[0]), run[1..]);
    }
  }

  lemma {:induction false} PredChangesSpent(st: State, run: seq<Step>)
    requires Inv(st) && Possible(st, run) && NoJoins(run) && NoResets(run)
    ensures PredChanges(st, run) + |PredPairs(Exec(st, run).pred)| <= |PredPairs(st.pred)|
    decreases |run|
  {
    if run != [] {
      StepKeepsInv(st, run[0]);
      StepSpendsPred(st, run[0]);
      PredChangesSpent(Apply(st, run[0]), run[1..]);
    }
  }

  /** Over k members, any run without joins changes at most k*k successors, and without resets at
      most k*k predecessors, whatever the interleaving and whatever happens to messages. */
  lemma PointerChangesBounded(st: State, run: seq<Step>)
    requires Inv(st) && Possible(st, run) && NoJoins(run)
    ensures SuccChanges(st, run) <= |st.succ| * |st.succ|
    ensures NoResets(run) ==> PredChanges(st, run) <= |st.succ| * |st.succ|
  {
    PotentialBound(st.succ, st.pred);
    SuccChangesSpent(st, run);
    if NoResets(run) {
      PredChangesSpent(st, run);
    }
  }

  // ----- where one node's pointers go, joins included -----

  lemma StepMovesSuccessorCloser(st: State, step: Step, n: Id)
    requires Inv(st) && Enabled(st, step) && n in st.succ
    ensures var st' := Apply(st, step);
            n in st'.succ && (st'.succ[n] == st.succ[n] || Gap(n, st'.succ[n]) < Gap(n, st.succ[n]))
  {}

  /** Over any run a successor pointer is where it was or strictly closer. */
  lemma {:induction false} SuccessorOnlyCloser(st: State, run: seq<Step>, n: Id)
    requires Inv(st) && Possible(st, run) && n in st.succ
    ensures n in Exec(st, run).succ
    ensures Exec(st, run).succ[n] == st.succ[n] || Gap(n, Exec(st, run).succ[n]) < Gap(n, st.succ[n])
    decreases |run|
  {
    if run != [] {
      StepKeepsInv(st, run[0]);
      StepMovesSuccessorCloser(st, run[0], n);
      SuccessorOnlyCloser(Apply(st, run[0]), run[1..], n);
    }
  }

  /** A node never returns to a successor it left, joins included. */
  lemma NeverReturns(st: State, run: seq<Step>, more: seq<Step>, n: Id)
    requires Inv(st) && Possible(st, run) && Possible(Exec(st, run), more)
    requires n in st.succ && n in Exec(st, run).succ && Exec(st, run).succ[n] != st.succ[n]
    ensures n in Exec(Exec(st, run), more).succ
    ensures Exec(Exec(st, run), more).succ[n] != st.succ[n]
  {
    SuccessorOnlyCloser(st, run, n);
    SuccessorOnlyCloser(Exec(st, run), more, n);
  }

  /** s has a predecessor in st, and in st' the same one or one strictly closer before s. */
  ghost predicate PredecessorCloser(st: State, st': State, s: Id) {
    && s in st.pred && st.pred[s].Some? && s in st'.pred && st'.pred[s].Some?
    && (st'.pred[s] == st.pred[s] || Gap(st'.pred[s].value, s) < Gap(st.pred[s].value, s))
  }

  lemma StepMovesPredecessorCloser(st: State, step: Step, s: Id)
    requires Inv(st) && Enabled(st, step) && !step.ResetPredecessor?
    requires s in st.pred && st.pred[s].Some?
    ensures PredecessorCloser(st, Apply(st, step), s)
  {}

  /** Over any run in which no node drops its predecessor, a predecessor pointer is where it was or strictly
      closer. */
  lemma {:induction false} PredecessorOnlyCloser(st: State, run: seq<Step>, s: Id)
    requires Inv(st) && Possible(st, run) && NoResets(run)
    requires s in st.pred && st.pred[s].Some?
    ensures PredecessorCloser(st, Exec(st, run), s)
    decreases |run|
  {
    if run != [] {
      StepKeepsInv(st, run[0]);
      StepMovesPredecessorCloser(st, run[0], s);
      PredecessorOnlyCloser(Apply(st, run[0]), run[1..], s);
    }
  }

  /** Without resets a node never returns to a predecessor it left, joins included. */
  lemma NeverReturnsToPredecessor(st: State, run: seq<Step>, more: seq<Step>, s: Id)
    requires Inv(st) && Possible(st, run) && NoResets(run) && Possible(Exec(st, run), more) && NoResets(more)
    requires s in st.pred && st.pred[s].Some?
    requires s in Exec(st, run).pred && Exec(st, run).pred[s] != st.pred[s]
    ensures PredecessorCloser(st, Exec(Exec(st, run), more), s)
    ensures Exec(Exec(st, run), more).pred[s] != st.pred[s]
  {
    PredecessorOnlyCloser(st, run, s);
    PredecessorOnlyCloser(Exec(st, run), more, s);
  }
}
