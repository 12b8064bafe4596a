/** Convergence without atomic calls: any interleaving of the protocol's steps, with messages lost,
    repeated and reordered, as long as every member keeps completing stabilize calls. */
module FairRuns {
  import opened Ids
  import opened Lookup
  import opened FingerRepair
  import opened Options
  import opened Ring
  import opened RingRuns
  import opened RightRing
  import opened PointerChanges

  // ----- runs with their states -----

  ghost predicate StepsTo(st: State, step: Step, st': State) {
    Inv(st) && Inv(st') && Enabled(st, step) && Apply(st, step) == st'
  }

  ghost predicate StepsAt(sts: seq<State>, run: seq<Step>, i: nat)
  {
    && i < |run| && |sts| == |run| + 1
    && StepsTo(sts[i], run[i], sts[i + 1])
  }

  /** run and the states it passes through; membership is fixed and no predecessor is reset. */
  ghost predicate IsTrace(sts: seq<State>, run: seq<Step>) {
    && |sts| == |run| + 1 && Inv(sts[0])
    && NoJoins(run) && NoResets(run)
    && forall i: nat {:trigger StepsAt(sts, run, i)} | i < |run| :: StepsAt(sts, run, i)
  }

  lemma TraceStep(sts: seq<State>, run: seq<Step>, i: nat)
    requires IsTrace(sts, run) && i < |run|
    ensures StepsTo(sts[i], run[i], sts[i + 1])
    ensures !run[i].Join? && !run[i].ResetPredecessor?
  {
    assert StepsAt(sts, run, i);
  }

  lemma TraceInv(sts: seq<State>, run: seq<Step>, i: nat)
    requires IsTrace(sts, run) && i <= |run|
    ensures Inv(sts[i])
  {
    if i > 0 {
      TraceStep(sts, run, i - 1);
    }
  }

  /** Every possible run has its trace. */
  lemma {:induction false} RunHasTrace(st: State, run: seq<Step>) returns (sts: seq<State>)
    requires Inv(st) && Possible(st, run) && NoJoins(run) && NoResets(run)
    ensures IsTrace(sts, run) && sts[0] == st && sts[|run|] == Exec(st, run)
    decreases |run|
  {
    if run == [] {
      sts := [st];
    } else {
      StepKeepsInv(st, run[0]);
      var rest := RunHasTrace(Apply(st, run[0]), run[1..]);
      sts := [st] + rest;
      forall i: nat | i < |run| ensures StepsAt(sts, run, i) {
        assert i > 0 ==> StepsAt(rest, run[1..], i - 1);
      }
    }
  }

  lemma TailIsTrace(sts: seq<State>, run: seq<Step>)
    requires IsTrace(sts, run) && run != []
    ensures IsTrace(sts[1..], run[1..])
  {
    assert StepsAt(sts, run, 0);
    forall i: nat | i < |run[1..]| ensures StepsAt(sts[1..], run[1..], i) {
      assert StepsAt(sts, run, i + 1);
    }
  }

  /** A trace ends where its run does. */
  lemma {:induction false} TraceIsExec(sts: seq<State>, run: seq<Step>)
    requires IsTrace(sts, run)
    ensures Possible(sts[0], run) && Exec(sts[0], run) == sts[|run|]
    decreases |run|
  {
    if run != [] {
      TraceStep(sts, run, 0);
      TailIsTrace(sts, run);
      TraceIsExec(sts[1..], run[1..]);
    }
  }

  // ----- what a step can do to the pointers -----

  ghost function Improvements(st: State): nat {
    |SuccPairs(st.succ)| + |PredPairs(st.pred)|
  }

  ghost predicate SamePointers(a: State, b: State) {
    a.succ == b.succ && a.pred == b.pred
  }

  ghost predicate Spent(st: State, st': State) {
    st'.succ.Keys == st.succ.Keys && Improvements(st') <= Improvements(st)
  }

  lemma StepSpends(st: State, step: Step, st': State)
    requires StepsTo(st, step, st') && !step.Join? && !step.ResetPredecessor?
    ensures SamePointers(st, st') || Improvements(st') < Improvements(st)
    ensures Spent(st, st')
  {
    StepSpendsSucc(st, step);
    StepSpendsPred(st, step);
  }

  /** No pointer changes between a and b. */
  ghost predicate Still(sts: seq<State>, a: nat, b: nat) {
    a <= b < |sts| && forall c | a <= c <= b :: SamePointers(sts[a], sts[c])
  }

  lemma StillLonger(sts: seq<State>, a: nat, b: nat)
    requires Still(sts, a, b) && b + 1 < |sts| && SamePointers(sts[b], sts[b + 1])
    ensures Still(sts, a, b + 1)
  {}

  /** Improvements are used up between a and b, or no pointer changes at all. */
  ghost predicate Progress(sts: seq<State>, a: nat, b: nat) {
    && a <= b < |sts|
    && Spent(sts[a], sts[b])
    && (Improvements(sts[b]) < Improvements(sts[a]) || Still(sts, a, b))
  }

  lemma ProgressLonger(sts: seq<State>, a: nat, b: nat)
    requires Progress(sts, a, b) && b + 1 < |sts| && Spent(sts[b], sts[b + 1])
    requires SamePointers(sts[b], sts[b + 1]) || Improvements(sts[b + 1]) < Improvements(sts[b])
    ensures Progress(sts, a, b + 1)
  {
    if Still(sts, a, b) && SamePointers(sts[b], sts[b + 1]) {
      StillLonger(sts, a, b);
    }
  }

  lemma StretchOneMore(sts: seq<State>, run: seq<Step>, a: nat, b: nat)
    requires IsTrace(sts, run) && b < |run| && Progress(sts, a, b)
    ensures Progress(sts, a, b + 1)
  {
    TraceStep(sts, run, b);
    StepSpends(sts[b], run[b], sts[b + 1]);
    ProgressLonger(sts, a, b);
  }

  /** Over a stretch the pointers stay throughout, or improvements are used up. */
  lemma {:induction false} StretchSpends(sts: seq<State>, run: seq<Step>, a: nat, b: nat)
    requires IsTrace(sts, run) && a <= b <= |run|
    ensures Progress(sts, a, b)
    decreases b
  {
    if a < b {
      StretchSpends(sts, run, a, b - 1);
      StretchOneMore(sts, run, a, b - 1);
    }
  }

  lemma StepKeepsNoJump(st: State, step: Step, st': State, f: Id)
    requires StepsTo(st, step, st') && !step.Join? && NoJump(st.succ, f)
    ensures NoJump(st'.succ, f)
  {
    match step
    case Adopt(n, x) =>
    case _ =>
  }

  lemma {:induction false} TraceKeepsNoJump(sts: seq<State>, run: seq<Step>, a: nat, b: nat, f: Id)
    requires IsTrace(sts, run) && a <= b <= |run| && NoJump(sts[a].succ, f)
    ensures NoJump(sts[b].succ, f)
    decreases b
  {
    if a < b {
      TraceKeepsNoJump(sts, run, a, b - 1, f);
      TraceStep(sts, run, b - 1);
      StepKeepsNoJump(sts[b - 1], run[b - 1], sts[b], f);
    }
  }

  // ----- the right ring is stable under every message -----

  lemma AdoptInRightRing(succ: Succ, n: Id, x: Id)
    requires Correct(succ) && n in succ && x in succ
    ensures AdoptedSuccessor(n, succ[n], x) == succ[n]
  {
    assert IsNext(succ.Keys, n, succ[n]);
    assert Gap(n, succ[n]) <= Gap(n, x);
  }

  lemma HearInRightRing(succ: Succ, pred: Pred, s: Id, p: Id)
    requires ClosedSucc(succ) && Correct(succ) && Inverse(succ, pred) && s in succ && p in succ
    ensures s in pred && NotifiedPredecessor(s, pred[s], p) == pred[s]
  {
    var q := Before(succ, pred, s);
    assert InverseAt(succ, pred, q);
    assert IsNext(succ.Keys, q, s);
    assert Gap(q, s) <= Gap(q, p);
  }

  /** Messages sent long ago included, no step changes a pointer of a right ring. */
  lemma RightRingIsStable(st: State, step: Step, st': State)
    requires StepsTo(st, step, st') && !step.Join? && !step.ResetPredecessor?
    requires Right(st.succ, st.pred)
    ensures SamePointers(st, st')
  {
    match step
    case Adopt(n, x) =>
      ReplyIsBacked(st, n, x);
      AdoptInRightRing(st.succ, n, x);
      assert st.succ[n := st.succ[n]] == st.succ;
    case Hear(s, p) =>
      assert (s, p) in st.notifies;
      HearInRightRing(st.succ, st.pred, s, p);
      assert st.pred[s := st.pred[s]] == st.pred;
    case _ =>
  }

  lemma {:induction false} RightRingStays(sts: seq<State>, run: seq<Step>, a: nat, b: nat)
    requires IsTrace(sts, run) && a <= b <= |run| && Right(sts[a].succ, sts[a].pred)
    ensures Right(sts[b].succ, sts[b].pred)
    decreases b
  {
    if a < b {
      RightRingStays(sts, run, a, b - 1);
      TraceStep(sts, run, b - 1);
      RightRingIsStable(sts[b - 1], run[b - 1], sts[b]);
    }
  }

  // ----- completed calls -----

  /** At step i node n adopts a reply to a request that was sent after a. */
  ghost predicate AdoptsFresh(sts: seq<State>, run: seq<Step>, a: nat, i: nat, n: Id)
  {
    && |sts| == |run| + 1 && a <= i < |run|
    && run[i].Adopt? && run[i].n == n && n in sts[i].waiting && sts[i].waiting[n].Some?
    && sts[i].waiting[n].value !in sts[a].asked
  }

  /** At step j the node n then takes for its successor hears n's NOTIFY. */
  ghost predicate HearsFrom(sts: seq<State>, run: seq<Step>, i: nat, j: nat, n: Id)
  {
    && |sts| == |run| + 1 && i < j < |run|
    && n in sts[i + 1].succ && run[j] == Hear(sts[i + 1].succ[n], n)
  }

  /** Between a and b node n completes a call: fresh request, reply, adoption, heard NOTIFY. */
  ghost predicate Completes(sts: seq<State>, run: seq<Step>, a: nat, b: nat, n: Id)
  {
    && |sts| == |run| + 1 && a <= b <= |run|
    && exists i, j :: a <= i < j < b && AdoptsFresh(sts, run, a, i, n) && HearsFrom(sts, run, i, j, n)
  }

  ghost predicate FullStretch(sts: seq<State>, run: seq<Step>, a: nat, b: nat)
  {
    && |sts| == |run| + 1 && a <= b <= |run|
    && forall n | n in sts[a].succ :: Completes(sts, run, a, b, n)
  }

  /** Replies to requests sent after some point report the predecessor there has been all along. */
  ghost predicate FreshReplies(st: State, before: map<nat, Ask>, pred: Pred) {
    && (forall rid | rid in before :: rid in st.asked)
    && forall r | r in st.replies && r.0 !in before ::
         r.0 in st.asked && st.asked[r.0].to in pred && pred[st.asked[r.0].to] == Some(r.1)
  }

  lemma StepKeepsFresh(st: State, step: Step, st': State, before: map<nat, Ask>)
    requires StepsTo(st, step, st') && !step.Join? && SamePointers(st, st')
    requires FreshReplies(st, before, st.pred)
    ensures FreshReplies(st', before, st'.pred)
  {
    match step
    case AnswerStabilize(rid) => assert AskTyped(st.succ, st.asked, rid);
    case _ =>
  }

  lemma {:induction false} StretchKeepsFresh(sts: seq<State>, run: seq<Step>, a: nat, b: nat)
    requires IsTrace(sts, run) && a <= b <= |run|
    requires Still(sts, a, b)
    ensures FreshReplies(sts[b], sts[a].asked, sts[a].pred)
    decreases b
  {
    if a < b {
      StretchKeepsFresh(sts, run, a, b - 1);
      TraceStep(sts, run, b - 1);
      assert SamePointers(sts[a], sts[b - 1]) && SamePointers(sts[a], sts[b]);
      StepKeepsFresh(sts[b - 1], run[b - 1], sts[b], sts[a].asked);
    } else {
      TraceInv(sts, run, a);
    }
  }

  /** Adopting a fresh reply without any change: the successor reported a predecessor that does not lie in
      between. */
  lemma FreshAdoptionIsIdle(st: State, n: Id, x: Id, st': State, before: map<nat, Ask>)
    requires StepsTo(st, Adopt(n, x), st') && SamePointers(st, st')
    requires FreshReplies(st, before, st.pred) && st.waiting[n].Some? && st.waiting[n].value !in before
    ensures n in st.succ && st.succ[n] in st.pred && st.pred[st.succ[n]] == Some(x)
    ensures AdoptedSuccessor(n, st.succ[n], x) == st.succ[n]
  {
    assert WaitsAt(st.succ, st.waiting, st.asked, n);
    assert st'.succ[n] == AdoptedSuccessor(n, st.succ[n], x);
  }

  lemma HearingIsIdle(st: State, s: Id, p: Id, st': State)
    requires StepsTo(st, Hear(s, p), st') && SamePointers(st, st')
    ensures s in st.pred && NotifiedPredecessor(s, st.pred[s], p) == st.pred[s]
  {
    assert (s, p) in st.notifies;
    assert st'.pred[s] == NotifiedPredecessor(s, st.pred[s], p);
  }

  /** A member that completes a call while no pointer changes is quiet. */
  lemma CompletedCallIsQuiet(sts: seq<State>, run: seq<Step>, a: nat, b: nat, n: Id)
    requires IsTrace(sts, run) && a <= b <= |run| && n in sts[a].succ
    requires Still(sts, a, b)
    requires Completes(sts, run, a, b, n)
    ensures QuietAt(sts[a].succ, sts[a].pred, n)
  {
    var i, j :| a <= i < j < b && AdoptsFresh(sts, run, a, i, n) && HearsFrom(sts, run, i, j, n);
    assert SamePointers(sts[a], sts[i]) && SamePointers(sts[a], sts[i + 1]);
    assert SamePointers(sts[a], sts[j]) && SamePointers(sts[a], sts[j + 1]);
    StretchKeepsFresh(sts, run, a, i);
    TraceStep(sts, run, i);
    FreshAdoptionIsIdle(sts[i], n, run[i].x, sts[i + 1], sts[a].asked);
    TraceStep(sts, run, j);
    HearingIsIdle(sts[j], sts[i + 1].succ[n], n, sts[j + 1]);
  }

  /** A stretch in which every member completes a call makes progress or finds the right ring. */
  lemma FullStretchProgresses(sts: seq<State>, run: seq<Step>, a: nat, b: nat, f: Id)
    requires IsTrace(sts, run) && a <= b <= |run| && FullStretch(sts, run, a, b)
    requires f in sts[a].succ && NoJump(sts[a].succ, f)
    ensures Improvements(sts[b]) < Improvements(sts[a]) || Right(sts[a].succ, sts[a].pred)
  {
    StretchSpends(sts, run, a, b);
    if Improvements(sts[b]) >= Improvements(sts[a]) {
      forall n | n in sts[a].succ ensures QuietAt(sts[a].succ, sts[a].pred, n) {
        CompletedCallIsQuiet(sts, run, a, b, n);
      }
      TraceInv(sts, run, a);
      QuietRingIsRight(sts[a].succ, sts[a].pred, f);
    }
  }

  // ----- enough stretches -----

  ghost predicate Stretches(sts: seq<State>, run: seq<Step>, cuts: seq<nat>)
  {
    && |sts| == |run| + 1
    && (forall i | 0 <= i < |cuts| :: cuts[i] <= |run|)
    && forall i: nat | i + 1 < |cuts| :: cuts[i] <= cuts[i + 1] && FullStretch(sts, run, cuts[i], cuts[i + 1])
  }

  lemma {:induction false} StretchesConverge(sts: seq<State>, run: seq<Step>, cuts: seq<nat>, m: nat, f: Id)
    requires IsTrace(sts, run) && Stretches(sts, run, cuts) && m < |cuts|
    requires f in sts[cuts[m]].succ && NoJump(sts[cuts[m]].succ, f)
    requires Right(sts[cuts[m]].succ, sts[cuts[m]].pred) || |cuts| - 1 - m > Improvements(sts[cuts[m]])
    ensures Right(sts[|run|].succ, sts[|run|].pred)
    decreases |cuts| - m
  {
    var a := cuts[m];
    if Right(sts[a].succ, sts[a].pred) {
      RightRingStays(sts, run, a, |run|);
    } else {
      var b := cuts[m + 1];
      FullStretchProgresses(sts, run, a, b, f);
      StretchSpends(sts, run, a, b);
      TraceKeepsNoJump(sts, run, a, b, f);
      StretchesConverge(sts, run, cuts, m + 1, f);
    }
  }

  /** Any run over k members, with no join and no reset, in whose first state no edge jumps over f: if it
      has more than 2*k*k consecutive stretches in each of which every member completes a call, it ends in
      the right ring, whatever else happens and whatever becomes of the other messages. */
  lemma FairRunsConverge(sts: seq<State>, run: seq<Step>, cuts: seq<nat>, f: Id)
    requires IsTrace(sts, run) && Stretches(sts, run, cuts)
    requires f in sts[0].succ && NoJump(sts[0].succ, f)
    requires |cuts| - 1 > 2 * (|sts[0].succ| * |sts[0].succ|)
    ensures Possible(sts[0], run)
    ensures Right(Exec(sts[0], run).succ, Exec(sts[0], run).pred)
  {
    TraceIsExec(sts, run);
    var a := cuts[0];
    StretchSpends(sts, run, 0, a);
    TraceKeepsNoJump(sts, run, 0, a, f);
    TraceInv(sts, run, a);
    assert |sts[a].succ| == |sts[0].succ| by {
      assert |sts[a].succ.Keys| == |sts[0].succ.Keys|;
    }
    PotentialBound(sts[a].succ, sts[a].pred);
    StretchesConverge(sts, run, cuts, 0, f);
  }
}
