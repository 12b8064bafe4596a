/** From joining nodes to right lookups: what a run leaves behind when joins stop, stabilization goes on for
    long enough and the fingers are then fixed. */
module SettledRings {
  import opened Ids
  import opened Lookup
  import opened FingerRepair
  import opened Options
  import opened Ring
  import opened RingRuns
  import opened RightRing
  import opened PointerChanges
  import opened Convergence
  import opened FairRuns

  // ----- fingers over runs of a ring with right successors -----

  /** The nodes that fix a finger, in the order of the run. */
  function FixCalls(run: seq<Step>): (calls: seq<Id>) {
    if run == [] then []
    else (if run[0].Fix? then [run[0].n] else []) + FixCalls(run[1..])
  }

  /** No message, of whatever age, changes a successor once all are right; predecessors may be dropped. */
  lemma RightSuccessorsStay(st: State, step: Step)
    requires Inv(st) && Enabled(st, step) && !step.Join? && Correct(st.succ)
    ensures Apply(st, step).succ == st.succ
  {
    match step
    case Adopt(n, x) =>
      ReplyIsBacked(st, n, x);
      AdoptInRightRing(st.succ, n, x);
      assert st.succ[n := st.succ[n]] == st.succ;
    case _ =>
  }

  lemma StepTables(st: State, step: Step)
    requires Inv(st) && Enabled(st, step) && !step.Join?
    ensures step.Fix? ==> step.n in st.succ
    ensures Apply(st, step).tables == if step.Fix? then FixFingers(st.succ, st.tables, step.n) else st.tables
  {}

  lemma FirstFix(succ: Succ, t: Tables, n: Id, calls: seq<Id>)
    requires Ready(succ, t) && n in succ && forall m | m in calls :: m in succ
    ensures forall m | m in [n] + calls :: m in succ
    ensures RunFixes(succ, t, [n] + calls) == RunFixes(succ, FixFingers(succ, t, n), calls)
  {
    assert ([n] + calls)[1..] == calls;
  }

  lemma FixCallsFirst(run: seq<Step>)
    requires run != []
    ensures FixCalls(run) == if run[0].Fix? then [run[0].n] + FixCalls(run[1..]) else FixCalls(run[1..])
  {}

  ghost predicate FixesTables(st: State, run: seq<Step>, st': State)
    requires Inv(st)
  {
    && st'.succ == st.succ
    && (forall m | m in FixCalls(run) :: m in st.succ)
    && st'.tables == RunFixes(st.succ, st.tables, FixCalls(run))
  }

  lemma FixesTablesFirst(st: State, run: seq<Step>, st1: State, st': State)
    requires Inv(st) && Inv(st1) && run != [] && FixesTables(st1, run[1..], st') && st1.succ == st.succ
    requires run[0].Fix? ==> run[0].n in st.succ
    requires st1.tables == if run[0].Fix? then FixFingers(st.succ, st.tables, run[0].n) else st.tables
    ensures FixesTables(st, run, st')
  {
    FixCallsFirst(run);
    if run[0].Fix? {
      FirstFix(st.succ, st.tables, run[0].n, FixCalls(run[1..]));
    }
  }

  /** A run over right successors leaves them alone and does to the tables what its fix_fingers calls do. */
  lemma {:induction false} TablesAreFixed(st: State, run: seq<Step>)
    requires Inv(st) && Possible(st, run) && NoJoins(run) && Correct(st.succ)
    ensures FixesTables(st, run, Exec(st, run))
    decreases |run|
  {
    if run != [] {
      StepKeepsInv(st, run[0]);
      RightSuccessorsStay(st, run[0]);
      StepTables(st, run[0]);
      TablesAreFixed(Apply(st, run[0]), run[1..]);
      FixesTablesFirst(st, run, Apply(st, run[0]), Exec(st, run));
    }
  }

  /** Any schedule of fix_fingers calls of members that wait for nothing is a run, and nothing but the tables
      changes. */
  lemma {:induction false} FixesAreARun(st: State, schedule: seq<Id>) returns (run: seq<Step>)
    requires Inv(st) && forall m | m in schedule :: m in st.succ && st.waiting[m] == None
    ensures Possible(st, run) && FixCalls(run) == schedule
    ensures Exec(st, run) == st.(tables := RunFixes(st.succ, st.tables, schedule))
    decreases |schedule|
  {
    run := [];
    if schedule != [] {
      var m := schedule[0];
      StepKeepsInv(st, Fix(m));
      var rest := FixesAreARun(AfterFix(st, m), schedule[1..]);
      run := [Fix(m)] + rest;
      FixThenRest(st, m, rest);
      assert [m] + schedule[1..] == schedule;
    }
  }

  lemma FixThenRest(st: State, m: Id, rest: seq<Step>)
    requires Inv(st) && m in st.succ && st.waiting[m] == None && Inv(AfterFix(st, m)) && Possible(AfterFix(st, m), rest)
    ensures Possible(st, [Fix(m)] + rest) && Exec(st, [Fix(m)] + rest) == Exec(AfterFix(st, m), rest)
    ensures FixCalls([Fix(m)] + rest) == [m] + FixCalls(rest)
  {
    OneStep(st, Fix(m), AfterFix(st, m), rest);
    assert ([Fix(m)] + rest)[1..] == rest;
  }

  ghost predicate EveryMemberFixes(members: set<Id>, run: seq<Step>) {
    forall m | m in members :: multiset(FixCalls(run))[m] >= M
  }

  /** Every lookup, from whatever member for whatever identifier, returns the owner. */
  ghost predicate AllLookupsRight(st: State)
    requires Inv(st)
  {
    forall n, id {:trigger FindSuccessor(st.succ, st.tables.fingers, n, id)} | n in st.succ ::
      IsOwner(st.succ.Keys, id, FindSuccessor(st.succ, st.tables.fingers, n, id))
  }

  /** Over right successors, any run without joins in which every member makes 160 fix_fingers calls ends
      with every lookup right, whatever else it does. */
  lemma FixedLookupsAreRight(st: State, run: seq<Step>)
    requires Inv(st) && Possible(st, run) && NoJoins(run) && Correct(st.succ)
    requires EveryMemberFixes(st.succ.Keys, run)
    ensures AllLookupsRight(Exec(st, run)) && Exec(st, run).succ == st.succ
  {
    TablesAreFixed(st, run);
    var st' := Exec(st, run);
    forall n, id | n in st'.succ
      ensures IsOwner(st'.succ.Keys, id, FindSuccessor(st'.succ, st'.tables.fingers, n, id))
    {
      LookupsRightAfterRounds(st.succ, st.tables, FixCalls(run), n, id);
    }
  }

  // ----- joins, then a fair run, then fix_fingers -----

  /** A fair run: no join, no reset, and more than 2*k*k stretches in which every member completes a call.
      That its last state satisfies the invariant follows. */
  ghost predicate Fair(sts: seq<State>, run: seq<Step>, cuts: seq<nat>) {
    && IsTrace(sts, run) && Stretches(sts, run, cuts)
    && |cuts| - 1 > 2 * (|sts[0].succ| * |sts[0].succ|)
    && Inv(sts[|run|])
  }

  /** From a state in which no edge jumps over f, let nodes join by the interval branch while others
      stabilize, drop predecessors and lose or repeat messages; a fair run then ends in the right ring of
      all of them. */
  lemma JoinsThenFairRunConverge(st: State, early: seq<Step>, sts: seq<State>, run: seq<Step>, cuts: seq<nat>,
                                 f: Id)
    requires Inv(st) && Possible(st, early) && Clear(st, f) && IntervalRun(st, early)
    requires Fair(sts, run, cuts) && sts[0] == Exec(st, early)
    ensures Possible(st, early + run)
    ensures var st' := Exec(st, early + run);
            Right(st'.succ, st'.pred) && st'.succ.Keys == st.succ.Keys + Newcomers(early)
  {
    MembersAfterRun(st, early);
    NeverJumps(st, early, f);
    FairRunsConverge(sts, run, cuts, f);
    TraceIsExec(sts, run);
    StretchSpends(sts, run, 0, |run|);
    RunsJoin(st, early, run);
  }

  /** And once every member has then made 160 fix_fingers calls, in any run without joins, every lookup from
      every node is right. */
  lemma JoinsThenFairRunThenLookups(st: State, early: seq<Step>, sts: seq<State>, run: seq<Step>, cuts: seq<nat>,
                                    fixing: seq<Step>, f: Id)
    requires Inv(st) && Possible(st, early) && Clear(st, f) && IntervalRun(st, early)
    requires Fair(sts, run, cuts) && sts[0] == Exec(st, early)
    requires Possible(sts[|run|], fixing) && NoJoins(fixing) && EveryMemberFixes(sts[0].succ.Keys, fixing)
    ensures Possible(st, early + run + fixing)
    ensures AllLookupsRight(Exec(st, early + run + fixing))
    ensures Exec(st, early + run + fixing).succ.Keys == st.succ.Keys + Newcomers(early)
  {
    JoinsThenFairRunConverge(st, early, sts, run, cuts, f);
    TraceIsExec(sts, run);
    RunsJoin(st, early, run);
    StretchSpends(sts, run, 0, |run|);
    FixedLookupsAreRight(sts[|run|], fixing);
    RunsJoin(st, early + run, fixing);
  }

  // ----- a ring that grows for ever -----

  /** The right ring with a healed table at every member, and no stray answer that would let a joiner jump
      over f. */
  ghost predicate Settled(st: State, f: Id)
    requires Inv(st)
  {
    && Right(st.succ, st.pred) && AllHealed(st.succ, st.tables.fingers)
    && f in st.succ && AnswersNoJump(st.answers, f)
  }

  /** Nodes join through members; then a fair run; then every member fixes its fingers. */
  datatype Growth = Growth(joins: seq<Step>, sts: seq<State>, run: seq<Step>, cuts: seq<nat>, fixing: seq<Step>)

  ghost predicate NoAnswers(run: seq<Step>) {
    forall i | 0 <= i < |run| :: !run[i].AnswerJoin?
  }

  ghost predicate Grows(st: State, g: Growth)
    requires Inv(st)
  {
    && Possible(st, g.joins) && OnlyJoins(g.joins) && ThroughMembers(st.succ.Keys, g.joins)
    && Fair(g.sts, g.run, g.cuts) && g.sts[0] == Exec(st, g.joins) && NoAnswers(g.run)
    && Possible(g.sts[|g.run|], g.fixing)
    && NoJoins(g.fixing) && NoResets(g.fixing) && NoAnswers(g.fixing)
    && EveryMemberFixes(g.sts[0].succ.Keys, g.fixing)
  }

  ghost function AfterGrowth(st: State, g: Growth): (st': State)
    requires Inv(st) && Grows(st, g)
    ensures Inv(st')
  {
    Exec(g.sts[|g.run|], g.fixing)
  }

  lemma {:induction false} AnswersStay(st: State, run: seq<Step>)
    requires Inv(st) && Possible(st, run) && NoAnswers(run)
    ensures Exec(st, run).answers == st.answers
    decreases |run|
  {
    if run != [] {
      StepKeepsInv(st, run[0]);
      AnswersStay(Apply(st, run[0]), run[1..]);
    }
  }

  lemma SettledJoinsAreInterval(st: State, joins: seq<Step>, f: Id)
    requires Inv(st) && Settled(st, f)
    requires Possible(st, joins) && OnlyJoins(joins) && ThroughMembers(st.succ.Keys, joins)
    ensures Clear(st, f) && IntervalRun(st, joins) && Clear(Exec(st, joins), f)
  {
    CorrectNeverJumps(st.succ, f);
    HealedJoinsAreInterval(st.succ, st.tables.fingers, st, joins);
    NeverJumps(st, joins, f);
  }

  lemma RightRingOutlastsRun(st: State, run: seq<Step>)
    requires Inv(st) && Possible(st, run) && NoJoins(run) && NoResets(run) && Right(st.succ, st.pred)
    ensures Right(Exec(st, run).succ, Exec(st, run).pred) && Exec(st, run).succ.Keys == st.succ.Keys
  {
    var sts := RunHasTrace(st, run);
    RightRingStays(sts, run, 0, |run|);
    StretchSpends(sts, run, 0, |run|);
  }

  lemma RightLookupsHeal(st: State)
    requires Inv(st) && Correct(st.succ) && AllLookupsRight(st)
    ensures AllHealed(st.succ, st.tables.fingers)
  {
    AllLookupsRightIffHealed(st.succ, st.tables.fingers);
  }

  /** Growth is a run that ends in a settled ring again, of the old members and the newcomers. */
  lemma GrowthSettles(st: State, g: Growth, f: Id)
    requires Inv(st) && Settled(st, f) && Grows(st, g)
    ensures Possible(st, g.joins + g.run + g.fixing)
    ensures AfterGrowth(st, g) == Exec(st, g.joins + g.run + g.fixing)
    ensures Settled(AfterGrowth(st, g), f) && AllLookupsRight(AfterGrowth(st, g))
    ensures AfterGrowth(st, g).succ.Keys == st.succ.Keys + Newcomers(g.joins)
  {
    SettledJoinsAreInterval(st, g.joins, f);
    JoinsThenFairRunConverge(st, g.joins, g.sts, g.run, g.cuts, f);
    TraceIsExec(g.sts, g.run);
    RunsJoin(st, g.joins, g.run);
    var settled := g.sts[|g.run|];
    StretchSpends(g.sts, g.run, 0, |g.run|);
    FixedLookupsAreRight(settled, g.fixing);
    RightRingOutlastsRun(settled, g.fixing);
    RightLookupsHeal(AfterGrowth(st, g));
    AnswersStay(g.sts[0], g.run);
    AnswersStay(settled, g.fixing);
    RunsJoin(st, g.joins + g.run, g.fixing);
  }

  ghost predicate GrowsOn(st: State, gs: seq<Growth>)
    requires Inv(st)
    decreases |gs|
  {
    gs == [] || (Grows(st, gs[0]) && GrowsOn(AfterGrowth(st, gs[0]), gs[1..]))
  }

  ghost function AfterAll(st: State, gs: seq<Growth>): (st': State)
    requires Inv(st) && GrowsOn(st, gs)
    ensures Inv(st')
    decreases |gs|
  {
    if gs == [] then st else AfterAll(AfterGrowth(st, gs[0]), gs[1..])
  }

  lemma SettledLookups(st: State, f: Id)
    requires Inv(st) && Settled(st, f)
    ensures AllLookupsRight(st)
  {
    AllLookupsRightIffHealed(st.succ, st.tables.fingers);
  }

  ghost function AllNewcomers(gs: seq<Growth>): set<Id> {
    if gs == [] then {} else Newcomers(gs[0].joins) + AllNewcomers(gs[1..])
  }

  lemma {:induction false} GrowthKeepsSettled(st: State, gs: seq<Growth>, f: Id)
    requires Inv(st) && Settled(st, f) && GrowsOn(st, gs)
    ensures Settled(AfterAll(st, gs), f)
    decreases |gs|
  {
    if gs != [] {
      GrowthSettles(st, gs[0], f);
      GrowthKeepsSettled(AfterGrowth(st, gs[0]), gs[1..], f);
    }
  }

  lemma {:induction false} MembersAfterAll(st: State, gs: seq<Growth>, f: Id)
    requires Inv(st) && Settled(st, f) && GrowsOn(st, gs)
    ensures AfterAll(st, gs).succ.Keys == st.succ.Keys + AllNewcomers(gs)
    decreases |gs|
  {
    if gs != [] {
      GrowthSettles(st, gs[0], f);
      MembersAfterAll(AfterGrowth(st, gs[0]), gs[1..], f);
      UnionAssociates(st.succ.Keys, Newcomers(gs[0].joins), AllNewcomers(gs[1..]));
    }
  }

  /** However often a settled ring grows, it is settled, every lookup is right, and its members are those it
      had and all that joined. */
  lemma GrowingRingStaysSettled(st: State, gs: seq<Growth>, f: Id)
    requires Inv(st) && Settled(st, f) && GrowsOn(st, gs)
    ensures Settled(AfterAll(st, gs), f) && AllLookupsRight(AfterAll(st, gs))
    ensures AfterAll(st, gs).succ.Keys == st.succ.Keys + AllNewcomers(gs)
  {
    GrowthKeepsSettled(st, gs, f);
    MembersAfterAll(st, gs, f);
    SettledLookups(AfterAll(st, gs), f);
  }
}
