/** Whole runs of the ring protocol: what holds in every reachable state. */
module RingRuns {
  import opened Ids
  import opened Lookup
  import opened FingerRepair
  import opened Options
  import opened Ring

  ghost predicate Possible(st: State, run: seq<Step>)
    requires Inv(st)
    decreases |run|
  {
    run == [] ||
    (Enabled(st, run[0]) && (StepKeepsInv(st, run[0]); Possible(Apply(st, run[0]), run[1..])))
  }

  /** The state a run ends in; it satisfies the invariant again. */
  ghost function Exec(st: State, run: seq<Step>): (st': State)
    requires Inv(st) && Possible(st, run)
    ensures Inv(st')
    decreases |run|
  {
    if run == [] then st
    else
      StepKeepsInv(st, run[0]);
      Exec(Apply(st, run[0]), run[1..])
  }

  // ----- who is a member -----

  /** The nodes that join in the run. */
  ghost function Newcomers(run: seq<Step>): set<Id> {
    set i | 0 <= i < |run| && run[i].Join? :: run[i].n
  }

  lemma NewcomersFirst(run: seq<Step>)
    requires run != []
    ensures Newcomers(run) == (if run[0].Join? then {run[0].n} else {}) + Newcomers(run[1..])
  {
    var rest := run[1..];
    forall n | n in Newcomers(run) ensures n in (if run[0].Join? then {run[0].n} else {}) + Newcomers(rest) {
      var i :| 0 <= i < |run| && run[i].Join? && run[i].n == n;
      assert i > 0 ==> rest[i - 1] == run[i];
    }
    forall n | n in Newcomers(rest) ensures n in Newcomers(run) {
      var i :| 0 <= i < |rest| && rest[i].Join? && rest[i].n == n;
      assert run[i + 1] == rest[i];
    }
  }

  lemma UnionAssociates(a: set<Id>, b: set<Id>, c: set<Id>)
    ensures (a + b) + c == a + (b + c)
    ensures c !! a + b && b !! a ==> b + c !! a
  {}

  lemma MembersAfterStep(st: State, step: Step)
    requires Inv(st) && Enabled(st, step)
    ensures Apply(st, step).succ.Keys == st.succ.Keys + (if step.Join? then {step.n} else {})
    ensures (if step.Join? then {step.n} else {}) !! st.succ.Keys
  {}

  /** The members after any run: those there were and the nodes that joined. */
  lemma {:induction false} MembersAfterRun(st: State, run: seq<Step>)
    requires Inv(st) && Possible(st, run)
    ensures Exec(st, run).succ.Keys == st.succ.Keys + Newcomers(run)
    ensures Newcomers(run) !! st.succ.Keys
    decreases |run|
  {
    if run != [] {
      StepKeepsInv(st, run[0]);
      MembersAfterStep(st, run[0]);
      MembersAfterRun(Apply(st, run[0]), run[1..]);
      NewcomersFirst(run);
      UnionAssociates(st.succ.Keys, if run[0].Join? then {run[0].n} else {}, Newcomers(run[1..]));
    }
  }

  // ----- messages -----

  lemma StepKeepsMessages(st: State, step: Step)
    requires Inv(st) && Enabled(st, step)
    ensures var st' := Apply(st, step);
            && st.asked.Keys <= st'.asked.Keys && (forall rid | rid in st.asked :: st'.asked[rid] == st.asked[rid])
            && st.replies <= st'.replies && st.notifies <= st'.notifies && st.answers <= st'.answers
  {}

  /** The network forgets nothing: whatever was sent can still be delivered, however often it was before. */
  lemma {:induction false} MessagesAreNeverUsedUp(st: State, run: seq<Step>)
    requires Inv(st) && Possible(st, run)
    ensures var st' := Exec(st, run);
            && st.asked.Keys <= st'.asked.Keys && (forall rid | rid in st.asked :: st'.asked[rid] == st.asked[rid])
            && st.replies <= st'.replies && st.notifies <= st'.notifies && st.answers <= st'.answers
    decreases |run|
  {
    if run != [] {
      StepKeepsInv(st, run[0]);
      StepKeepsMessages(st, run[0]);
      MessagesAreNeverUsedUp(Apply(st, run[0]), run[1..]);
    }
  }

  // ----- stabilization never disconnects -----

  function Walk(succ: Succ, u: Id, k: nat): Id
    decreases k
  {
    if k == 0 || u !in succ then u else Walk(succ, succ[u], k - 1)
  }

  /** Following successors from u arrives at v. */
  ghost predicate Connected(succ: Succ, u: Id, v: Id) {
    exists k: nat :: Walk(succ, u, k) == v
  }

  lemma {:induction false} WalkAdds(succ: Succ, u: Id, j: nat, k: nat)
    ensures Walk(succ, u, j + k) == Walk(succ, Walk(succ, u, j), k)
    decreases j
  {
    if j > 0 && u in succ {
      WalkAdds(succ, succ[u], j - 1, k);
    } else if j > 0 {
      assert Walk(succ, u, k) == u;
    }
  }

  lemma ConnectedJoins(succ: Succ, u: Id, v: Id, w: Id)
    requires Connected(succ, u, v) && Connected(succ, v, w)
    ensures Connected(succ, u, w)
  {
    var j: nat :| Walk(succ, u, j) == v;
    var k: nat :| Walk(succ, v, k) == w;
    WalkAdds(succ, u, j, k);
  }

  lemma {:induction false} ReachesConnects(succ: Succ, p: Id, s: Id)
    requires Reaches(succ, p, s)
    ensures Connected(succ, p, s)
    decreases Gap(p, s)
  {
    if p == s {
      assert Walk(succ, p, 0) == s;
    } else {
      assert Walk(succ, p, 1) == Walk(succ, succ[p], 0) == succ[p];
      if succ[p] != s {
        ReachesConnects(succ, succ[p], s);
        ConnectedJoins(succ, p, succ[p], s);
      }
    }
  }

  lemma {:induction false} WalkSurvives(succ: Succ, succ': Succ, u: Id, k: nat)
    requires Extends(succ, succ')
    requires ClosedSucc(succ)
    ensures Connected(succ', u, Walk(succ, u, k))
    decreases k
  {
    if k == 0 || u !in succ {
      assert Walk(succ', u, 0) == u;
    } else {
      assert NextIn(succ, u) && Backed(succ, u, succ[u]);
      assert Backed(succ', u, succ[u]);
      ReachesConnects(succ', u, succ[u]);
      WalkSurvives(succ, succ', succ[u], k - 1);
      ConnectedJoins(succ', u, succ[u], Walk(succ, u, k));
    }
  }

  lemma {:induction false} RunExtends(st: State, run: seq<Step>)
    requires Inv(st) && Possible(st, run)
    ensures Extends(st.succ, Exec(st, run).succ)
    decreases |run|
  {
    if run != [] {
      StepExtends(st, run[0]);
      StepKeepsInv(st, run[0]);
      RunExtends(Apply(st, run[0]), run[1..]);
    }
  }

  /** Through any run of joins, stabilization, lost, duplicated and reordered messages, predecessor
      resets and finger repairs, a node that could reach another by following successors still can. */
  lemma NeverDisconnects(st: State, run: seq<Step>, u: Id, v: Id)
    requires Inv(st) && Possible(st, run)
    requires Connected(st.succ, u, v)
    ensures Connected(Exec(st, run).succ, u, v)
  {
    var k: nat :| Walk(st.succ, u, k) == v;
    RunExtends(st, run);
    WalkSurvives(st.succ, Exec(st, run).succ, u, k);
  }

  // ----- no successor edge jumps over a chosen member -----

  ghost predicate NoJump(succ: Succ, f: Id) {
    forall n {:trigger succ[n]} | n in succ :: !InInterval(f, n, succ[n])
  }

  ghost predicate AnswersNoJump(answers: set<(Id, Id)>, f: Id) {
    forall a | a in answers :: !InInterval(f, a.0, a.1)
  }

  ghost predicate Clear(st: State, f: Id) {
    f in st.succ && NoJump(st.succ, f) && AnswersNoJump(st.answers, f)
  }

  /** The lookup for a joiner ended in find_successor's interval branch. */
  ghost predicate IntervalAnswer(st: State, step: Step)
    requires Typed(st) && Enabled(st, step)
  {
    step.AnswerJoin? ==>
      var t := Terminal(st.succ, st.tables.fingers, step.via, step.n);
      Owns(t, st.succ[t], step.n)
  }

  ghost predicate IntervalRun(st: State, run: seq<Step>)
    requires Inv(st) && Possible(st, run)
    decreases |run|
  {
    run == [] ||
    (IntervalAnswer(st, run[0]) && (StepKeepsInv(st, run[0]); IntervalRun(Apply(st, run[0]), run[1..])))
  }

  lemma StepKeepsClear(st: State, f: Id, step: Step)
    requires Inv(st) && Clear(st, f) && Enabled(st, step) && IntervalAnswer(st, step)
    ensures Clear(Apply(st, step), f)
  {
    match step
    case AnswerJoin(via, n) =>
      var t := Terminal(st.succ, st.tables.fingers, via, n);
      AnswerIsTerminalsSuccessor(st.succ, st.tables.fingers, via, n);
    case Join(n, s) =>
      assert (n, s) in st.answers;
    case Adopt(n, x) =>
    case _ =>
  }

  /** When every joiner was answered by the interval branch, no edge ever jumps over f. */
  lemma {:induction false} NeverJumps(st: State, run: seq<Step>, f: Id)
    requires Inv(st) && Possible(st, run) && Clear(st, f) && IntervalRun(st, run)
    ensures Clear(Exec(st, run), f)
    decreases |run|
  {
    if run != [] {
      StepKeepsInv(st, run[0]);
      StepKeepsClear(st, f, run[0]);
      NeverJumps(Apply(st, run[0]), run[1..], f);
    }
  }
}
