/** Completed stabilize calls end in the right ring. */
module Convergence {
  import opened Ids
  import opened Lookup
  import opened FingerRepair
  import opened Options
  import opened Ring
  import opened RingRuns
  import opened RightRing
  import opened PointerChanges

  // ----- rounds of completed stabilize calls -----

  datatype Pointers = Pointers(succ: Succ, pred: Pred)

  ghost predicate PredNamesMembers(succ: Succ, pred: Pred) {
    forall s {:trigger PredNamesMember(succ, pred, s)} | s in pred :: PredNamesMember(succ, pred, s)
  }

  ghost predicate PredNamesMember(succ: Succ, pred: Pred, s: Id)
    requires s in pred
  {
    pred[s].Some? ==> pred[s].value in succ
  }

  /** Every queried successor has a predecessor to report. */
  ghost predicate Answerable(succ: Succ, pred: Pred) {
    forall n {:trigger AnswerableAt(succ, pred, n)} | n in succ :: AnswerableAt(succ, pred, n)
  }

  ghost predicate AnswerableAt(succ: Succ, pred: Pred, n: Id)
    requires n in succ
  {
    succ[n] in pred && pred[succ[n]].Some?
  }

  ghost predicate Primed(g: Pointers) {
    && ClosedSucc(g.succ)
    && g.pred.Keys == g.succ.Keys
    && PredNamesMembers(g.succ, g.pred)
    && Answerable(g.succ, g.pred)
  }

  lemma EdgeKeepsClosed(succ: Succ, n: Id, s: Id)
    requires ClosedSucc(succ) && n in succ && s in succ
    ensures ClosedSucc(succ[n := s])
  {
    forall m | m in succ ensures NextIn(succ[n := s], m) {
      assert NextIn(succ, m);
    }
  }

  lemma HearKeepsNames(succ: Succ, pred: Pred, succ': Succ, s: Id, n: Id)
    requires PredNamesMembers(succ, pred) && succ'.Keys == succ.Keys && n in succ && s in pred
    ensures PredNamesMembers(succ', pred[s := NotifiedPredecessor(s, pred[s], n)])
  {
    var pred' := pred[s := NotifiedPredecessor(s, pred[s], n)];
    forall t | t in pred' ensures PredNamesMember(succ', pred', t) {
      assert PredNamesMember(succ, pred, t);
    }
  }

  lemma HearKeepsAnswerable(succ: Succ, pred: Pred, n: Id, s: Id)
    requires Answerable(succ, pred) && s in pred && n in succ
    ensures Answerable(succ[n := s], pred[s := NotifiedPredecessor(s, pred[s], n)])
  {
    var succ', pred' := succ[n := s], pred[s := NotifiedPredecessor(s, pred[s], n)];
    forall m | m in succ' ensures AnswerableAt(succ', pred', m) {
      assert AnswerableAt(succ, pred, m);
    }
  }

  /** The predecessor n's successor reports to it. */
  ghost function Reported(g: Pointers, n: Id): (x: Id)
    requires Primed(g) && n in g.succ
    ensures NextIn(g.succ, n) && x in g.succ
    ensures g.succ[n] in g.pred && g.pred[g.succ[n]] == Some(x)
  {
    assert NextIn(g.succ, n) && AnswerableAt(g.succ, g.pred, n);
    assert PredNamesMember(g.succ, g.pred, g.succ[n]);
    g.pred[g.succ[n]].value
  }

  /** The successor a completed stabilize call leaves n with. */
  ghost function Target(g: Pointers, n: Id): (s: Id)
    requires Primed(g) && n in g.succ
    ensures s in g.succ && s in g.pred
  {
    AdoptedSuccessor(n, g.succ[n], Reported(g, n))
  }

  ghost function AfterStabilize(g: Pointers, n: Id, s: Id): Pointers
    requires s in g.pred
  {
    Pointers(g.succ[n := s], g.pred[s := NotifiedPredecessor(s, g.pred[s], n)])
  }

  lemma StabilizeKeepsPrimed(g: Pointers, n: Id, s: Id)
    requires Primed(g) && n in g.succ && s in g.succ && s in g.pred
    ensures Primed(AfterStabilize(g, n, s))
    ensures AfterStabilize(g, n, s).succ.Keys == g.succ.Keys
  {
    EdgeKeepsClosed(g.succ, n, s);
    SameKeys(g.succ, n, s);
    SameKeys(g.pred, s, NotifiedPredecessor(s, g.pred[s], n));
    HearKeepsNames(g.succ, g.pred, g.succ[n := s], s, n);
    HearKeepsAnswerable(g.succ, g.pred, n, s);
  }

  /** One stabilize call of n with its request, reply and NOTIFY all delivered. */
  ghost function Stabilize(g: Pointers, n: Id): (g': Pointers)
    requires Primed(g) && n in g.succ
    ensures Primed(g') && g'.succ.Keys == g.succ.Keys
  {
    var s := Target(g, n);
    StabilizeKeepsPrimed(g, n, s);
    AfterStabilize(g, n, s)
  }

  ghost function Potential(g: Pointers): nat {
    |SuccPairs(g.succ)| + |PredPairs(g.pred)|
  }

  lemma StabilizeSpends(g: Pointers, n: Id)
    requires Primed(g) && n in g.succ
    ensures var g' := Stabilize(g, n);
            if g' == g then QuietAt(g.succ, g.pred, n) else Potential(g') < Potential(g)
  {
    var x := Reported(g, n);
    var s := AdoptedSuccessor(n, g.succ[n], x);
    AdoptSpendsPair(g.succ, n, x);
    HearSpendsPair(g.pred, s, n);
    var g' := Stabilize(g, n);
    if g' == g {
      assert g'.succ[n] == s && g'.pred[s] == NotifiedPredecessor(s, g.pred[s], n);
    }
  }

  ghost function StabilizeAll(g: Pointers, calls: seq<Id>): (g': Pointers)
    requires Primed(g)
    requires forall n | n in calls :: n in g.succ
    ensures Primed(g') && g'.succ.Keys == g.succ.Keys
    decreases |calls|
  {
    if calls == [] then g else StabilizeAll(Stabilize(g, calls[0]), calls[1..])
  }

  ghost predicate AllQuiet(g: Pointers, calls: seq<Id>) {
    forall i | 0 <= i < |calls| :: calls[i] in g.succ && QuietAt(g.succ, g.pred, calls[i])
  }

  /** A round spends potential, or changes nothing and finds every caller quiet. */
  lemma {:induction false} RoundSpends(g: Pointers, calls: seq<Id>)
    requires Primed(g)
    requires forall n | n in calls :: n in g.succ
    ensures var g' := StabilizeAll(g, calls);
            Potential(g') < Potential(g) || (g' == g && AllQuiet(g, calls))
    decreases |calls|
  {
    if calls != [] {
      var g1 := Stabilize(g, calls[0]);
      StabilizeSpends(g, calls[0]);
      RoundSpends(g1, calls[1..]);
      if g1 == g && AllQuiet(g, calls[1..]) {
        forall i | 0 <= i < |calls| ensures calls[i] in g.succ && QuietAt(g.succ, g.pred, calls[i]) {
          assert i > 0 ==> calls[i] == calls[1..][i - 1];
        }
      }
    }
  }

  lemma {:induction false} RoundKeepsNoJump(g: Pointers, calls: seq<Id>, f: Id)
    requires Primed(g) && NoJump(g.succ, f)
    requires forall n | n in calls :: n in g.succ
    ensures NoJump(StabilizeAll(g, calls).succ, f)
    decreases |calls|
  {
    if calls != [] {
      RoundKeepsNoJump(Stabilize(g, calls[0]), calls[1..], f);
    }
  }

  /** Each round lets every member call stabilize at least once, in any order. */
  ghost predicate FullRounds(members: set<Id>, rounds: seq<seq<Id>>) {
    forall i, n | 0 <= i < |rounds| :: n in rounds[i] <==> n in members
  }

  ghost function RunRounds(g: Pointers, rounds: seq<seq<Id>>): (g': Pointers)
    requires Primed(g) && FullRounds(g.succ.Keys, rounds)
    ensures Primed(g') && g'.succ.Keys == g.succ.Keys
    decreases |rounds|
  {
    if rounds == [] then g
    else
      assert forall n | n in rounds[0] :: n in g.succ;
      RunRounds(StabilizeAll(g, rounds[0]), rounds[1..])
  }

  /** The right ring is a fixed point of stabilization. */
  lemma {:induction false} RightStays(g: Pointers, calls: seq<Id>)
    requires Primed(g) && Inverse(g.succ, g.pred)
    requires forall n | n in calls :: n in g.succ
    ensures StabilizeAll(g, calls) == g
    decreases |calls|
  {
    if calls != [] {
      var n := calls[0];
      assert InverseAt(g.succ, g.pred, n);
      assert g.succ[n := g.succ[n]] == g.succ && g.pred[g.succ[n] := Some(n)] == g.pred;
      RightStays(g, calls[1..]);
    }
  }

  lemma {:induction false} RoundsConverge(g: Pointers, rounds: seq<seq<Id>>, f: Id)
    requires Primed(g) && FullRounds(g.succ.Keys, rounds)
    requires f in g.succ && NoJump(g.succ, f)
    requires Right(g.succ, g.pred) || |rounds| > Potential(g)
    ensures Right(RunRounds(g, rounds).succ, RunRounds(g, rounds).pred)
    decreases |rounds|
  {
    if rounds != [] {
      assert forall n | n in rounds[0] :: n in g.succ;
      var g' := StabilizeAll(g, rounds[0]);
      RoundSpends(g, rounds[0]);
      RoundKeepsNoJump(g, rounds[0], f);
      if Right(g.succ, g.pred) {
        RightStays(g, rounds[0]);
      } else if g' == g {
        assert Quiet(g.succ, g.pred) by {
          forall n | n in g.succ ensures QuietAt(g.succ, g.pred, n) {
            assert n in rounds[0];
          }
        }
        QuietRingIsRight(g.succ, g.pred, f);
      }
      RoundsConverge(g', rounds[1..], f);
    }
  }

  /** From any primed state over k members without an edge over f, more than 2*k*k rounds of completed
      stabilize calls end in the right ring, in whatever order the members call. */
  lemma StabilizationConverges(g: Pointers, rounds: seq<seq<Id>>, f: Id)
    requires Primed(g) && FullRounds(g.succ.Keys, rounds)
    requires f in g.succ && NoJump(g.succ, f)
    requires |rounds| > 2 * (|g.succ| * |g.succ|)
    ensures Right(RunRounds(g, rounds).succ, RunRounds(g, rounds).pred)
  {
    PotentialBound(g.succ, g.pred);
    RoundsConverge(g, rounds, f);
  }

  // ----- such calls are runs of the protocol -----

  lemma SetAndReset<T>(m: map<Id, Option<T>>, n: Id, v: Option<T>)
    requires n in m && m[n] == None
    ensures m[n := v][n := None] == m
  {}

  /** Request and reply: the caller waits and its successor's answer is on the way. */
  lemma RequestAndReply(st: State, n: Id, rid: nat) returns (run: seq<Step>)
    requires Inv(st) && n in st.succ && st.waiting[n] == None && rid !in st.asked
    requires Primed(Pointers(st.succ, st.pred))
    ensures Possible(st, run)
    ensures var st' := Exec(st, run);
            && st'.succ == st.succ && st'.pred == st.pred
            && st'.waiting == st.waiting[n := Some(rid)]
            && st'.tables == st.tables && st'.answers == st.answers
    ensures (rid, Reported(Pointers(st.succ, st.pred), n)) in Exec(st, run).replies
  {
    var x := Reported(Pointers(st.succ, st.pred), n);
    var s1, s2 := SendStabilize(n, rid), AnswerStabilize(rid);
    var st1 := AfterSendStabilize(st, n, rid);
    StepKeepsInv(st, s1);
    var st2 := AfterAnswerStabilize(st1, rid);
    StepKeepsInv(st1, s2);
    run := [s1, s2];
    TwoSteps(st, s1, st1, s2, st2, []);
  }

  /** Adoption and NOTIFY, from the state in which the answer is on the way. */
  lemma AdoptAndNotify(st: State, n: Id, rid: nat) returns (run: seq<Step>)
    requires Inv(st) && n in st.succ && st.waiting[n] == Some(rid)
    requires Primed(Pointers(st.succ, st.pred))
    requires (rid, Reported(Pointers(st.succ, st.pred), n)) in st.replies
    ensures Possible(st, run)
    ensures var st' := Exec(st, run);
            && Pointers(st'.succ, st'.pred) == Stabilize(Pointers(st.succ, st.pred), n)
            && st'.waiting == st.waiting[n := None]
            && st'.tables == st.tables && st'.answers == st.answers
  {
    var g := Pointers(st.succ, st.pred);
    var x, s := Reported(g, n), Target(g, n);
    var s1, s2 := Adopt(n, x), Hear(s, n);
    var st1 := AfterAdopt(st, n, x);
    StepKeepsInv(st, s1);
    var st2 := AfterHear(st1, s, n);
    StepKeepsInv(st1, s2);
    run := [s1, s2];
    TwoSteps(st, s1, st1, s2, st2, []);
  }

  /** An idle node's completed call is four steps of the protocol: request, reply, adoption, NOTIFY. */
  lemma StabilizeIsARun(st: State, n: Id, rid: nat) returns (run: seq<Step>)
    requires Inv(st) && n in st.succ && st.waiting[n] == None && rid !in st.asked
    requires Primed(Pointers(st.succ, st.pred))
    ensures Possible(st, run)
    ensures var st' := Exec(st, run);
            && Pointers(st'.succ, st'.pred) == Stabilize(Pointers(st.succ, st.pred), n)
            && st'.waiting == st.waiting && st'.tables == st.tables && st'.answers == st.answers
  {
    var asking := RequestAndReply(st, n, rid);
    var adopting := AdoptAndNotify(Exec(st, asking), n, rid);
    run := asking + adopting;
    RunsJoin(st, asking, adopting);
    SetAndReset(st.waiting, n, Some(rid));
  }

  lemma TwoSteps(st: State, step1: Step, st1: State, step2: Step, st2: State, rest: seq<Step>)
    requires Inv(st) && Enabled(st, step1) && Apply(st, step1) == st1
    requires Inv(st1) && Enabled(st1, step2) && Apply(st1, step2) == st2
    requires Inv(st2) && Possible(st2, rest)
    ensures var run := [step1, step2] + rest; Possible(st, run) && Exec(st, run) == Exec(st2, rest)
  {}

  lemma OneStep(st: State, step: Step, st': State, rest: seq<Step>)
    requires Inv(st) && Enabled(st, step) && Apply(st, step) == st'
    requires Inv(st') && Possible(st', rest)
    ensures Possible(st, [step] + rest) && Exec(st, [step] + rest) == Exec(st', rest)
  {}

  lemma FirstOfConcat<T>(a: seq<T>, b: seq<T>)
    requires a != []
    ensures a + b == [a[0]] + (a[1..] + b)
  {}

  lemma {:induction false} RunsJoin(st: State, run: seq<Step>, more: seq<Step>)
    requires Inv(st) && Possible(st, run) && Possible(Exec(st, run), more)
    ensures Possible(st, run + more) && Exec(st, run + more) == Exec(Exec(st, run), more)
    decreases |run|
  {
    if run == [] {
      assert run + more == more;
    } else {
      var step, rest := run[0], run[1..];
      StepKeepsInv(st, step);
      var st' := Apply(st, step);
      RunsJoin(st', rest, more);
      FirstOfConcat(run, more);
      OneStep(st, step, st', rest + more);
      assert Exec(st, run) == Exec(st', rest);
    }
  }

  lemma {:induction false} Above(rids: set<nat>) returns (b: nat)
    ensures forall r | r in rids :: r < b
  {
    b := 0;
    if rids != {} {
      var r :| r in rids;
      b := Above(rids - {r});
      assert rids == (rids - {r}) + {r};
      b := if r < b then b else r + 1;
    }
  }

  ghost predicate Idle(st: State) {
    forall n | n in st.waiting :: st.waiting[n] == None
  }

  /** Any sequence of completed calls is a run of the protocol between idle states. */
  lemma {:induction false} CallsAreARun(st: State, calls: seq<Id>) returns (run: seq<Step>)
    requires Inv(st) && Idle(st) && Primed(Pointers(st.succ, st.pred))
    requires forall n | n in calls :: n in st.succ
    ensures Possible(st, run) && Idle(Exec(st, run))
    ensures Pointers(Exec(st, run).succ, Exec(st, run).pred) == StabilizeAll(Pointers(st.succ, st.pred), calls)
    decreases |calls|
  {
    run := [];
    if calls != [] {
      var rid := Above(st.asked.Keys);
      var first := StabilizeIsARun(st, calls[0], rid);
      var rest := CallsAreARun(Exec(st, first), calls[1..]);
      RunsJoin(st, first, rest);
      run := first + rest;
    }
  }

  /** So the protocol itself, with no message lost, brings every idle primed state without an edge over
      f to the right ring. */
  lemma ProtocolConverges(st: State, rounds: seq<seq<Id>>, f: Id) returns (run: seq<Step>)
    requires Inv(st) && Idle(st) && Primed(Pointers(st.succ, st.pred))
    requires f in st.succ && NoJump(st.succ, f)
    requires FullRounds(st.succ.Keys, rounds) && |rounds| > 2 * (|st.succ| * |st.succ|)
    ensures Possible(st, run) && Idle(Exec(st, run))
    ensures Right(Exec(st, run).succ, Exec(st, run).pred)
  {
    StabilizationConverges(Pointers(st.succ, st.pred), rounds, f);
    run := RoundsAreARun(st, rounds);
  }

  lemma {:induction false} RoundsAreARun(st: State, rounds: seq<seq<Id>>) returns (run: seq<Step>)
    requires Inv(st) && Idle(st) && Primed(Pointers(st.succ, st.pred))
    requires FullRounds(st.succ.Keys, rounds)
    ensures Possible(st, run) && Idle(Exec(st, run))
    ensures Pointers(Exec(st, run).succ, Exec(st, run).pred) == RunRounds(Pointers(st.succ, st.pred), rounds)
    decreases |rounds|
  {
    run := [];
    if rounds != [] {
      assert forall n | n in rounds[0] :: n in st.succ;
      var first := CallsAreARun(st, rounds[0]);
      var rest := RoundsAreARun(Exec(st, first), rounds[1..]);
      RunsJoin(st, first, rest);
      run := first + rest;
    }
  }

  // ----- joining a right ring and repairing it -----

  ghost predicate OnlyJoins(run: seq<Step>) {
    forall i | 0 <= i < |run| :: run[i].AnswerJoin? || run[i].Join?
  }

  /** A right ring with some newcomers hanging on it: newcomers have no predecessor yet and are nobody's
      successor. */
  ghost predicate Hanging(base: Succ, st: State) {
    && base.Keys <= st.succ.Keys
    && (forall n {:trigger HangsAt(base, st.succ, n)} | n in st.succ :: HangsAt(base, st.succ, n))
    && (forall a | a in st.answers :: a.1 in base)
    && HasPredecessors(base, st.pred)
  }

  ghost predicate HasPredecessors(base: Succ, pred: Pred) {
    forall s | s in base :: s in pred && pred[s].Some?
  }

  ghost predicate HangsAt(base: Succ, succ: Succ, n: Id) {
    n in succ && succ[n] in base
  }

  lemma AnswerJoinHangs(base: Succ, st: State, via: Id, n: Id)
    requires Inv(st) && Hanging(base, st) && Enabled(st, AnswerJoin(via, n))
    ensures Hanging(base, AfterAnswerJoin(st, via, n))
  {
    var t := Terminal(st.succ, st.tables.fingers, via, n);
    AnswerIsTerminalsSuccessor(st.succ, st.tables.fingers, via, n);
    assert HangsAt(base, st.succ, t);
  }

  lemma JoinHangs(base: Succ, st: State, n: Id, s: Id)
    requires Inv(st) && Hanging(base, st) && Enabled(st, Join(n, s))
    ensures Hanging(base, AfterJoin(st, n, s))
  {
    var st' := AfterJoin(st, n, s);
    assert (n, s) in st.answers;
    forall m | m in st'.succ ensures HangsAt(base, st'.succ, m) {
      assert m != n ==> HangsAt(base, st.succ, m);
    }
    forall m | m in base ensures m in st'.pred && st'.pred[m].Some? {
      assert m != n && st.pred[m].Some?;
    }
  }

  lemma {:induction false} JoinsHang(base: Succ, st: State, run: seq<Step>)
    requires Inv(st) && Hanging(base, st) && Possible(st, run) && OnlyJoins(run)
    ensures Hanging(base, Exec(st, run))
    decreases |run|
  {
    if run != [] {
      StepKeepsInv(st, run[0]);
      match run[0] {
        case AnswerJoin(via, n) => AnswerJoinHangs(base, st, via, n);
        case Join(n, s) => JoinHangs(base, st, n, s);
      }
      JoinsHang(base, Apply(st, run[0]), run[1..]);
    }
  }

  lemma BackedNamesMembers(succ: Succ, pred: Pred)
    requires PredBacked(succ, pred)
    ensures PredNamesMembers(succ, pred)
  {
    forall s | s in pred ensures PredNamesMember(succ, pred, s) {
      assert PredBackedAt(succ, pred, s);
    }
  }

  lemma HangingIsAnswerable(base: Succ, succ: Succ, pred: Pred)
    requires forall n {:trigger HangsAt(base, succ, n)} | n in succ :: HangsAt(base, succ, n)
    requires HasPredecessors(base, pred)
    ensures Answerable(succ, pred)
  {
    forall n | n in succ ensures AnswerableAt(succ, pred, n) {
      assert HangsAt(base, succ, n);
    }
  }

  lemma HangingIsPrimed(base: Succ, st: State)
    requires Inv(st) && Hanging(base, st)
    ensures Primed(Pointers(st.succ, st.pred))
  {
    BackedNamesMembers(st.succ, st.pred);
    HangingIsAnswerable(base, st.succ, st.pred);
  }

  lemma RightRingHangs(st: State)
    requires Inv(st) && Right(st.succ, st.pred) && st.answers == {}
    ensures Hanging(st.succ, st)
  {
    forall n | n in st.succ ensures HangsAt(st.succ, st.succ, n) {
      assert NextIn(st.succ, n);
    }
    forall s | s in st.succ ensures s in st.pred && st.pred[s].Some? {
      var p := Before(st.succ, st.pred, s);
      assert InverseAt(st.succ, st.pred, p);
    }
  }

  // ----- lookups through the old members of a healed ring -----

  /** The old members' successors and fingers are still in place. */
  ghost predicate Extended(base: Succ, fingers: Fingers, succ: Succ, tables: Fingers) {
    && base.Keys <= succ.Keys && base.Keys <= tables.Keys && base.Keys == fingers.Keys
    && (forall n {:trigger SameAt(base, fingers, succ, tables, n)} | n in base ::
          SameAt(base, fingers, succ, tables, n))
  }

  ghost predicate SameAt(base: Succ, fingers: Fingers, succ: Succ, tables: Fingers, n: Id) {
    && n in base && n in fingers && n in succ && n in tables
    && succ[n] == base[n] && tables[n] == fingers[n]
  }

  /** A lookup that starts at an old member goes the way it went in the old ring. */
  lemma {:induction false} SamePath(base: Succ, fingers: Fingers, succ: Succ, tables: Fingers, n: Id, id: Id)
    requires Closed(base, fingers) && Closed(succ, tables) && Extended(base, fingers, succ, tables) && n in base
    ensures n in succ && Path(succ, tables, n, id) == Path(base, fingers, n, id)
    decreases Gap(n, id)
  {
    assert SameAt(base, fingers, succ, tables, n);
    var c := Closest(n, fingers[n], id);
    if !Owns(n, base[n], id) && c != n {
      assert FullTable(base, fingers[n]);
      SamePath(base, fingers, succ, tables, c, id);
    }
  }

  /** In a healed right ring every lookup through an old member ends in the interval branch. */
  lemma OldMemberAnswersByInterval(base: Succ, fingers: Fingers, succ: Succ, tables: Fingers, via: Id, id: Id)
    requires Closed(base, fingers) && Correct(base) && AllHealed(base, fingers)
    requires Closed(succ, tables) && Extended(base, fingers, succ, tables) && via in base
    ensures via in succ && var t := Terminal(succ, tables, via, id); Owns(t, succ[t], id)
  {
    SamePath(base, fingers, succ, tables, via, id);
    var t := Terminal(base, fingers, via, id);
    HealedLookupIsRight(base, fingers, via, id);
    LookupRightIffIntervalBranch(base, fingers, via, id);
    assert SameAt(base, fingers, succ, tables, t);
  }

  /** Every joiner asks one of the members the ring started with. */
  ghost predicate ThroughMembers(members: set<Id>, run: seq<Step>) {
    forall i | 0 <= i < |run| && run[i].AnswerJoin? :: run[i].via in members
  }

  lemma JoinKeepsExtended(base: Succ, fingers: Fingers, succ: Succ, tables: Fingers, n: Id, s: Id, table: seq<Id>)
    requires Extended(base, fingers, succ, tables) && n !in succ
    ensures Extended(base, fingers, succ[n := s], tables[n := table])
  {
    forall m | m in base ensures SameAt(base, fingers, succ[n := s], tables[n := table], m) {
      assert SameAt(base, fingers, succ, tables, m);
    }
  }

  lemma {:induction false} HealedJoinsAreInterval(base: Succ, fingers: Fingers, st: State, joins: seq<Step>)
    requires Closed(base, fingers) && Correct(base) && AllHealed(base, fingers)
    requires Inv(st) && Extended(base, fingers, st.succ, st.tables.fingers)
    requires Possible(st, joins) && OnlyJoins(joins) && ThroughMembers(base.Keys, joins)
    ensures IntervalRun(st, joins)
    decreases |joins|
  {
    if joins != [] {
      StepKeepsInv(st, joins[0]);
      match joins[0] {
        case AnswerJoin(via, n) =>
          OldMemberAnswersByInterval(base, fingers, st.succ, st.tables.fingers, via, n);
        case Join(n, s) =>
          JoinKeepsExtended(base, fingers, st.succ, st.tables.fingers, n, s, seq(M, _ => n));
      }
      HealedJoinsAreInterval(base, fingers, Apply(st, joins[0]), joins[1..]);
    }
  }

  /** Any number of nodes may join a right ring through the interval branch; afterwards more than 2*k*k
      rounds of completed stabilize calls, k now counting the newcomers, make it a right ring again. */
  lemma IntervalJoinsAreRepaired(st: State, joins: seq<Step>, f: Id, rounds: seq<seq<Id>>)
    requires Inv(st) && Right(st.succ, st.pred) && st.answers == {} && f in st.succ
    requires Possible(st, joins) && OnlyJoins(joins) && IntervalRun(st, joins)
    requires FullRounds(Exec(st, joins).succ.Keys, rounds)
    requires |rounds| > 2 * (|Exec(st, joins).succ| * |Exec(st, joins).succ|)
    ensures var g := Pointers(Exec(st, joins).succ, Exec(st, joins).pred);
            && Primed(g)
            && RunRounds(g, rounds).succ.Keys == st.succ.Keys + Newcomers(joins)
            && Right(RunRounds(g, rounds).succ, RunRounds(g, rounds).pred)
  {
    RightRingHangs(st);
    JoinsHang(st.succ, st, joins);
    MembersAfterRun(st, joins);
    var st' := Exec(st, joins);
    HangingIsPrimed(st.succ, st');
    CorrectNeverJumps(st.succ, f);
    NeverJumps(st, joins, f);
    StabilizationConverges(Pointers(st'.succ, st'.pred), rounds, f);
  }

  /** Any number of nodes may join a right ring with healed tables by asking its members; more than 2*k*k
      rounds of completed stabilize calls, k now counting the newcomers, make it a right ring again. */
  lemma JoiningARightRingIsRepaired(st: State, joins: seq<Step>, f: Id, rounds: seq<seq<Id>>)
    requires Inv(st) && Right(st.succ, st.pred) && AllHealed(st.succ, st.tables.fingers)
    requires st.answers == {} && f in st.succ
    requires Possible(st, joins) && OnlyJoins(joins) && ThroughMembers(st.succ.Keys, joins)
    requires FullRounds(Exec(st, joins).succ.Keys, rounds)
    requires |rounds| > 2 * (|Exec(st, joins).succ| * |Exec(st, joins).succ|)
    ensures var g := Pointers(Exec(st, joins).succ, Exec(st, joins).pred);
            && Primed(g)
            && RunRounds(g, rounds).succ.Keys == st.succ.Keys + Newcomers(joins)
            && Right(RunRounds(g, rounds).succ, RunRounds(g, rounds).pred)
  {
    HealedJoinsAreInterval(st.succ, st.tables.fingers, st, joins);
    IntervalJoinsAreRepaired(st, joins, f, rounds);
  }
}
