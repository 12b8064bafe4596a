/** What check_predecessor's reset leads to: a node that has dropped its predecessor answers no STABILIZE,
    so nobody notifies it again, unless a message from before is still on its way. */
module LostPredecessors {
  import opened Ids
  import opened Lookup
  import opened Options
  import opened Ring
  import opened RingRuns
  import opened RightRing
  import opened PointerChanges
  import opened Convergence
  import opened FairRuns
  import opened SettledRings

  /** A NOTIFY for s is on its way, or the reply that will cause one. */
  ghost predicate Pending(st: State, s: Id)
    requires Inv(st)
  {
    || (exists p :: (s, p) in st.notifies)
    || (exists n, x :: Enabled(st, Adopt(n, x)) && st.succ[n] == s)
  }

  /** s has no predecessor, and nothing on its way gives it one. */
  ghost predicate Lost(st: State, s: Id)
    requires Inv(st)
  {
    s in st.succ && st.pred[s] == None && !Pending(st, s)
  }

  lemma AdoptKeepsLost(st: State, n: Id, x: Id, s: Id)
    requires Inv(st) && Correct(st.succ) && Lost(st, s) && Enabled(st, Adopt(n, x)) && Inv(AfterAdopt(st, n, x))
    ensures Lost(AfterAdopt(st, n, x), s)
  {
    ReplyIsBacked(st, n, x);
    AdoptInRightRing(st.succ, n, x);
    var st' := AfterAdopt(st, n, x);
    assert st'.succ == st.succ;
    if m, y :| Enabled(st', Adopt(m, y)) && st'.succ[m] == s {
      assert Enabled(st, Adopt(m, y));
    }
  }

  lemma AnswerKeepsLost(st: State, rid: nat, s: Id)
    requires Inv(st) && Lost(st, s) && Enabled(st, AnswerStabilize(rid)) && Inv(Apply(st, AnswerStabilize(rid)))
    ensures Lost(Apply(st, AnswerStabilize(rid)), s)
  {
    var st' := Apply(st, AnswerStabilize(rid));
    if m, y :| Enabled(st', Adopt(m, y)) && st'.succ[m] == s {
      assert WaitsAt(st.succ, st.waiting, st.asked, m);
      assert Enabled(st, Adopt(m, y));
    }
  }

  lemma SendKeepsLost(st: State, n: Id, rid: nat, s: Id)
    requires Inv(st) && Lost(st, s) && Enabled(st, SendStabilize(n, rid)) && Inv(AfterSendStabilize(st, n, rid))
    ensures Lost(AfterSendStabilize(st, n, rid), s)
  {
    assert forall r | r in st.replies :: r.0 in st.asked;
    assert forall m, x | m != n && Enabled(AfterSendStabilize(st, n, rid), Adopt(m, x)) :: Enabled(st, Adopt(m, x));
  }

  /** Steps that touch neither s's predecessor nor what may give it one. */
  lemma OtherKeepsLost(st: State, st': State, s: Id)
    requires Inv(st) && Inv(st') && Lost(st, s) && s in st'.succ && st'.pred[s] == None
    requires st'.succ == st.succ && st'.waiting == st.waiting
    requires st'.replies == st.replies && st'.notifies == st.notifies
    ensures Lost(st', s)
  {
    if m, y :| Enabled(st', Adopt(m, y)) && st'.succ[m] == s {
      assert Enabled(st, Adopt(m, y));
    }
  }

  lemma StepKeepsLost(st: State, step: Step, s: Id)
    requires Inv(st) && Correct(st.succ) && Lost(st, s) && Enabled(st, step) && !step.Join?
    requires Inv(Apply(st, step))
    ensures Lost(Apply(st, step), s)
  {
    match step
    case SendStabilize(n, rid) => SendKeepsLost(st, n, rid, s);
    case AnswerStabilize(rid) => AnswerKeepsLost(st, rid, s);
    case Adopt(n, x) => AdoptKeepsLost(st, n, x, s);
    case Hear(t, p) =>
      assert t != s;
      OtherKeepsLost(st, AfterHear(st, t, p), s);
    case AnswerJoin(via, n) => OtherKeepsLost(st, AfterAnswerJoin(st, via, n), s);
    case ResetPredecessor(t) => OtherKeepsLost(st, AfterReset(st, t), s);
    case Fix(n) => OtherKeepsLost(st, AfterFix(st, n), s);
    case Join(_, _) =>
  }

  lemma {:induction false} StaysLost(st: State, run: seq<Step>, s: Id)
    requires Inv(st) && Correct(st.succ) && Lost(st, s) && Possible(st, run) && NoJoins(run)
    ensures Lost(Exec(st, run), s) && Exec(st, run).succ == st.succ
    decreases |run|
  {
    if run != [] {
      StepKeepsInv(st, run[0]);
      StepKeepsLost(st, run[0], s);
      RightSuccessorsStay(st, run[0]);
      StaysLost(Apply(st, run[0]), run[1..], s);
    }
  }

  lemma NotifyRecovers(st: State, s: Id, p: Id) returns (run: seq<Step>)
    requires Inv(st) && s in st.succ && st.pred[s] == None && (s, p) in st.notifies
    ensures Possible(st, run) && NoJoins(run) && s in Exec(st, run).succ && Exec(st, run).pred[s] == Some(p)
  {
    var st' := AfterHear(st, s, p);
    StepKeepsInv(st, Hear(s, p));
    OneStep(st, Hear(s, p), st', []);
    run := [Hear(s, p)] + [];
  }

  lemma ReplyRecovers(st: State, s: Id, n: Id, x: Id) returns (run: seq<Step>)
    requires Inv(st) && Correct(st.succ) && s in st.succ && st.pred[s] == None
    requires Enabled(st, Adopt(n, x)) && st.succ[n] == s
    ensures Possible(st, run) && NoJoins(run) && s in Exec(st, run).succ && Exec(st, run).pred[s] == Some(n)
  {
    ReplyIsBacked(st, n, x);
    AdoptInRightRing(st.succ, n, x);
    StepKeepsInv(st, Adopt(n, x));
    var st' := AfterAdopt(st, n, x);
    assert (s, n) in st'.notifies;
    var rest := NotifyRecovers(st', s, n);
    OneStep(st, Adopt(n, x), st', rest);
    run := [Adopt(n, x)] + rest;
  }

  /** Over right successors, a node without a predecessor gets one again, in some run without joins, exactly
      when a NOTIFY for it, or a reply that will cause one, is already on its way. */
  lemma RecoversIffPending(st: State, s: Id)
    requires Inv(st) && Correct(st.succ) && s in st.succ && st.pred[s] == None
    ensures (exists run :: Possible(st, run) && NoJoins(run) && Recovered(st, run, s)) <==> Pending(st, s)
  {
    if p :| (s, p) in st.notifies {
      var run := NotifyRecovers(st, s, p);
      assert Recovered(st, run, s);
    } else if n, x :| Enabled(st, Adopt(n, x)) && st.succ[n] == s {
      var run := ReplyRecovers(st, s, n, x);
      assert Recovered(st, run, s);
    } else {
      forall run | Possible(st, run) && NoJoins(run) ensures !Recovered(st, run, s) {
        StaysLost(st, run, s);
      }
    }
  }

  ghost predicate Recovered(st: State, run: seq<Step>, s: Id)
    requires Inv(st) && Possible(st, run)
  {
    s in Exec(st, run).pred && Exec(st, run).pred[s].Some?
  }

  /** The state after check_predecessor has dropped s's predecessor. */
  ghost function Dropped(st: State, s: Id): (st': State)
    requires Inv(st) && s in st.succ && st.waiting[s] == None
    ensures Inv(st')
  {
    StepKeepsInv(st, ResetPredecessor(s));
    AfterReset(st, s)
  }

  /** So one reset in a right ring with nothing on its way breaks the ring for ever: whatever runs without
      joins follow, s stays without a predecessor, while successors and lookups stay right. */
  lemma ResetIsForEver(st: State, s: Id, run: seq<Step>)
    requires Inv(st) && Right(st.succ, st.pred) && s in st.succ && st.waiting[s] == None && !Pending(st, s)
    requires Possible(Dropped(st, s), run) && NoJoins(run)
    ensures Possible(st, [ResetPredecessor(s)] + run)
    ensures var st' := Exec(st, [ResetPredecessor(s)] + run);
            && st'.succ == st.succ && s in st'.pred && st'.pred[s] == None && !Right(st'.succ, st'.pred)
  {
    var reset := ResetPredecessor(s);
    var st1 := Dropped(st, s);
    OneStep(st, reset, st1, run);
    ResetLoses(st, s);
    StaysLost(st1, run, s);
    if Right(st.succ, Exec(st1, run).pred) {
      RightHasPredecessor(st.succ, Exec(st1, run).pred, s);
    }
  }

  lemma ResetLoses(st: State, s: Id)
    requires Inv(st) && Enabled(st, ResetPredecessor(s)) && !Pending(st, s) && Inv(AfterReset(st, s))
    ensures Lost(AfterReset(st, s), s)
  {
    var st' := AfterReset(st, s);
    if m, y :| Enabled(st', Adopt(m, y)) && st'.succ[m] == s {
      assert Enabled(st, Adopt(m, y));
    }
  }

  lemma RightHasPredecessor(succ: Succ, pred: Pred, s: Id)
    requires ClosedSucc(succ) && s in succ && Right(succ, pred)
    ensures s in pred && pred[s].Some?
  {
    var p := Before(succ, pred, s);
    assert InverseAt(succ, pred, p);
  }
}
