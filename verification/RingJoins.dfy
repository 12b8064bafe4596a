/** What join_ring leaves behind: where a newcomer hangs, what it knows, and what it answers until it has
    fixed a finger. */
module RingJoins {
  import opened Ids
  import opened Lookup
  import opened FingerRepair
  import opened Options
  import opened Ring
  import opened RingRuns
  import opened Convergence

  /** n is a member as create_node and join_ring leave it, with successor s. */
  ghost predicate JustJoined(st: State, n: Id, s: Id) {
    && Holds(st, n) && st.succ[n] == s && st.pred[n] == None
    && st.tables.fingers[n] == seq(M, _ => n) && st.tables.next[n] == 0
  }

  /** n has an entry in every table of the state. */
  ghost predicate Holds(st: State, n: Id) {
    n in st.succ && n in st.pred && n in st.tables.fingers && n in st.tables.next
  }

  /** What st says of a member is what base says of it. */
  ghost predicate KeepsMember(base: State, st: State, m: Id) {
    && Holds(base, m) && Holds(st, m)
    && st.succ[m] == base.succ[m] && st.pred[m] == base.pred[m]
    && st.tables.fingers[m] == base.tables.fingers[m] && st.tables.next[m] == base.tables.next[m]
  }

  /** Any node outside can join through any member: the join is possible, and gives it the answer of that
      member's lookup. */
  lemma JoinIsARun(st: State, via: Id, n: Id) returns (run: seq<Step>)
    requires Inv(st) && via in st.succ && n !in st.succ
    ensures Possible(st, run) && Newcomers(run) == {n}
    ensures var st' := Exec(st, run);
            && JustJoined(st', n, FindSuccessor(st.succ, st.tables.fingers, via, n))
            && forall m | m in st.succ :: KeepsMember(st, st', m)
  {
    var s := FindSuccessor(st.succ, st.tables.fingers, via, n);
    var answer, join := AnswerJoin(via, n), Join(n, s);
    var st1 := AfterAnswerJoin(st, via, n);
    AnswerComesFirst(st, via, n);
    StepKeepsInv(st1, join);
    run := [answer, join];
    TwoSteps(st, answer, st1, join, AfterJoin(st1, n, s), []);
    NewcomersOfTwo(answer, join);
    JustJoinedAfter(st, st1, n, s);
    assert Exec(st, run) == AfterJoin(st1, n, s);
  }

  lemma AnswerComesFirst(st: State, via: Id, n: Id)
    requires Inv(st) && via in st.succ && n !in st.succ
    ensures Enabled(st, AnswerJoin(via, n))
    ensures var st1 := AfterAnswerJoin(st, via, n);
            && Apply(st, AnswerJoin(via, n)) == st1
            && Inv(st1) && Enabled(st1, Join(n, FindSuccessor(st.succ, st.tables.fingers, via, n)))
            && st1.succ == st.succ && st1.pred == st.pred && st1.tables == st.tables
  {
    StepKeepsInv(st, AnswerJoin(via, n));
    assert (n, FindSuccessor(st.succ, st.tables.fingers, via, n)) in AfterAnswerJoin(st, via, n).answers;
  }

  lemma NewcomersOfTwo(answer: Step, join: Step)
    requires !answer.Join? && join.Join?
    ensures Newcomers([answer, join]) == {join.n}
  {
    assert [answer, join][1].Join?;
  }

  lemma JustJoinedAfter(st: State, st1: State, n: Id, s: Id)
    requires Typed(st1) && Enabled(st1, Join(n, s))
    requires st1.succ == st.succ && st1.pred == st.pred && st1.tables == st.tables
    ensures JustJoined(AfterJoin(st1, n, s), n, s)
    ensures forall m | m in st.succ :: KeepsMember(st, AfterJoin(st1, n, s), m)
  {}

  // ----- joining a right ring -----

  /** Right successors and a healed table at every member. */
  ghost predicate HealedRing(base: State) {
    && Closed(base.succ, base.tables.fingers)
    && Correct(base.succ) && AllHealed(base.succ, base.tables.fingers)
  }

  ghost predicate AnswersRight(members: set<Id>, answers: set<(Id, Id)>) {
    forall a {:trigger a in answers} | a in answers :: IsOwner(members, a.0, a.1)
  }

  /** The newcomer hangs on the old member that owns its identifier. */
  ghost predicate HangsRight(base: State, st: State, n: Id) {
    n in st.succ && IsOwner(base.succ.Keys, n, st.succ[n]) && JustJoined(st, n, st.succ[n])
  }

  /** Old members are untouched, and each newcomer hangs where it belongs. */
  ghost predicate Grown(base: State, st: State) {
    && base.succ.Keys <= st.succ.Keys
    && (forall m {:trigger KeepsMember(base, st, m)} | m in base.succ :: KeepsMember(base, st, m))
    && (forall n {:trigger HangsRight(base, st, n)} | n in st.succ && n !in base.succ :: HangsRight(base, st, n))
  }

  lemma GrownExtends(base: State, st: State)
    requires Grown(base, st) && base.tables.fingers.Keys == base.succ.Keys
    requires st.tables.fingers.Keys == st.succ.Keys
    ensures Extended(base.succ, base.tables.fingers, st.succ, st.tables.fingers)
  {
    forall m | m in base.succ ensures SameAt(base.succ, base.tables.fingers, st.succ, st.tables.fingers, m) {
      assert KeepsMember(base, st, m);
    }
  }

  lemma OldMemberAnswersOwner(base: Succ, fingers: Fingers, succ: Succ, tables: Fingers, via: Id, id: Id)
    requires Closed(base, fingers) && Correct(base) && AllHealed(base, fingers)
    requires Closed(succ, tables) && Extended(base, fingers, succ, tables) && via in base
    ensures via in succ && IsOwner(base.Keys, id, FindSuccessor(succ, tables, via, id))
  {
    SamePath(base, fingers, succ, tables, via, id);
    AnswerIsTerminalsSuccessor(base, fingers, via, id);
    AnswerIsTerminalsSuccessor(succ, tables, via, id);
    HealedLookupIsRight(base, fingers, via, id);
    assert SameAt(base, fingers, succ, tables, Terminal(base, fingers, via, id));
  }

  lemma AnswerIsRight(base: State, st: State, via: Id, n: Id)
    requires HealedRing(base) && Inv(st) && Grown(base, st) && via in base.succ
    ensures via in st.succ && IsOwner(base.succ.Keys, n, FindSuccessor(st.succ, st.tables.fingers, via, n))
  {
    GrownExtends(base, st);
    OldMemberAnswersOwner(base.succ, base.tables.fingers, st.succ, st.tables.fingers, via, n);
  }

  lemma AnswerGrows(base: State, st: State, via: Id, n: Id)
    requires HealedRing(base) && Inv(st) && Grown(base, st) && AnswersRight(base.succ.Keys, st.answers)
    requires via in base.succ && Enabled(st, AnswerJoin(via, n)) && Inv(AfterAnswerJoin(st, via, n))
    ensures Grown(base, AfterAnswerJoin(st, via, n))
    ensures AnswersRight(base.succ.Keys, AfterAnswerJoin(st, via, n).answers)
  {
    AnswerIsRight(base, st, via, n);
    SameGrown(base, st, AfterAnswerJoin(st, via, n));
  }

  lemma SameGrown(base: State, st: State, st': State)
    requires Grown(base, st)
    requires st'.succ == st.succ && st'.pred == st.pred && st'.tables == st.tables
    ensures Grown(base, st')
  {
    forall m | m in base.succ ensures KeepsMember(base, st', m) {
      assert KeepsMember(base, st, m);
    }
    forall m | m in st'.succ && m !in base.succ ensures HangsRight(base, st', m) {
      assert HangsRight(base, st, m);
    }
  }

  lemma JoinGrows(base: State, st: State, n: Id, s: Id)
    requires Inv(st) && Grown(base, st) && AnswersRight(base.succ.Keys, st.answers)
    requires Enabled(st, Join(n, s)) && Inv(AfterJoin(st, n, s))
    ensures Grown(base, AfterJoin(st, n, s))
  {
    var st' := AfterJoin(st, n, s);
    assert (n, s) in st.answers;
    forall m | m in base.succ ensures KeepsMember(base, st', m) {
      assert KeepsMember(base, st, m);
    }
    forall m | m in st'.succ && m !in base.succ ensures HangsRight(base, st', m) {
      assert m != n ==> HangsRight(base, st, m);
    }
  }

  lemma StepGrows(base: State, st: State, step: Step)
    requires HealedRing(base) && Inv(st) && Grown(base, st) && AnswersRight(base.succ.Keys, st.answers)
    requires Enabled(st, step) && Inv(Apply(st, step))
    requires if step.AnswerJoin? then step.via in base.succ else step.Join?
    ensures Grown(base, Apply(st, step)) && AnswersRight(base.succ.Keys, Apply(st, step).answers)
  {
    match step
    case AnswerJoin(via, n) => AnswerGrows(base, st, via, n);
    case Join(n, s) => JoinGrows(base, st, n, s);
  }

  /** However many nodes join a right ring with healed tables through its members: every newcomer's
      successor is the old member that owns its identifier, it has no predecessor and only itself for
      fingers, and the old members are as they were. */
  lemma {:induction false} NewcomersHangRight(base: State, st: State, joins: seq<Step>)
    requires HealedRing(base) && Inv(st) && Grown(base, st) && AnswersRight(base.succ.Keys, st.answers)
    requires Possible(st, joins) && OnlyJoins(joins) && ThroughMembers(base.succ.Keys, joins)
    ensures Grown(base, Exec(st, joins)) && AnswersRight(base.succ.Keys, Exec(st, joins).answers)
    decreases |joins|
  {
    if joins != [] {
      StepKeepsInv(st, joins[0]);
      StepGrows(base, st, joins[0]);
      NewcomersHangRight(base, Apply(st, joins[0]), joins[1..]);
    }
  }

  /** The ring right after such joins: its members are the old ones, as they were, and the newcomers, each
      of which hangs on the owner of its identifier. */
  lemma JoiningHangsEveryNewcomer(st: State, joins: seq<Step>)
    requires Inv(st) && HealedRing(st) && AnswersRight(st.succ.Keys, st.answers)
    requires Possible(st, joins) && OnlyJoins(joins) && ThroughMembers(st.succ.Keys, joins)
    ensures Exec(st, joins).succ.Keys == st.succ.Keys + Newcomers(joins)
    ensures forall m | m in st.succ :: KeepsMember(st, Exec(st, joins), m)
    ensures forall n | n in Newcomers(joins) :: HangsRight(st, Exec(st, joins), n)
  {
    NewcomersHangRight(st, st, joins);
    MembersAfterRun(st, joins);
  }

  // ----- lookups of a newcomer -----

  lemma StepKeepsTable(st: State, step: Step, n: Id)
    requires Inv(st) && Enabled(st, step) && n in st.succ && step != Fix(n)
    ensures n in Apply(st, step).succ && Apply(st, step).tables.fingers[n] == st.tables.fingers[n]
  {}

  lemma {:induction false} RunKeepsTable(st: State, run: seq<Step>, n: Id)
    requires Inv(st) && Possible(st, run) && n in st.succ && Fix(n) !in run
    ensures n in Exec(st, run).succ && Exec(st, run).tables.fingers[n] == st.tables.fingers[n]
    decreases |run|
  {
    if run != [] {
      StepKeepsInv(st, run[0]);
      StepKeepsTable(st, run[0], n);
      RunKeepsTable(Apply(st, run[0]), run[1..], n);
    }
  }

  /** Until it first fixes a finger, whatever else happens, a newcomer answers every lookup with its own
      successor. */
  lemma NewcomerAnswersItsSuccessor(st: State, run: seq<Step>, n: Id, s: Id, id: Id)
    requires Inv(st) && Possible(st, run) && JustJoined(st, n, s) && Fix(n) !in run
    ensures n in Exec(st, run).succ
    ensures FindSuccessor(Exec(st, run).succ, Exec(st, run).tables.fingers, n, id) == Exec(st, run).succ[n]
  {
    RunKeepsTable(st, run, n);
    var st' := Exec(st, run);
    assert Closest(n, st'.tables.fingers[n], id) == n;
  }
}
