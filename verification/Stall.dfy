/** Where stabilization never starts: a STABILIZE that reaches a node without a predecessor gets no
    reply, and its sender waits for one without a timeout. */
module Stall {
  import opened Ids
  import opened Lookup
  import opened FingerRepair
  import opened Options
  import opened Ring
  import opened RingRuns
  import opened RightRing
  import opened PointerChanges
  import opened Convergence

  /** create_ring: one node, its own successor, no predecessor. */
  ghost function Created(f: Id): (st: State)
    ensures Inv(st)
  {
    var st := State(map[f := f], map[f := None],
                    Tables(map[f := seq(M, _ => f)], map[f := 0]),
                    map[f := None], map[], {}, {}, {});
    assert FullTable(st.succ, st.tables.fingers[f]);
    st
  }

  ghost predicate Silent(st: State) {
    st.replies == {} && st.notifies == {}
  }

  /** Nothing has been sent yet. */
  ghost predicate FreshNet(st: State) {
    Silent(st) && Idle(st) && st.asked == map[] && st.answers == {}
  }

  ghost predicate NoPredecessor(pred: Pred, s: Id) {
    s in pred && pred[s] == None
  }

  /** No node that is, or may become, somebody's queried successor has a predecessor. */
  ghost predicate Mute(st: State) {
    && SuccessorsMute(st.succ, st.pred)
    && AskedMute(st.asked, st.pred)
    && (forall a | a in st.answers :: NoPredecessor(st.pred, a.1))
  }

  ghost predicate SuccessorsMute(succ: Succ, pred: Pred) {
    forall n {:trigger NoPredecessor(pred, succ[n])} | n in succ :: NoPredecessor(pred, succ[n])
  }

  ghost predicate AskedMute(asked: map<nat, Ask>, pred: Pred) {
    forall rid {:trigger NoPredecessor(pred, asked[rid].to)} | rid in asked :: NoPredecessor(pred, asked[rid].to)
  }

  /** Clearing or adding an entry without predecessor keeps every such entry. */
  lemma ClearKeepsMute(st: State, s: Id)
    requires Mute(st)
    ensures var pred' := st.pred[s := None];
            && SuccessorsMute(st.succ, pred') && AskedMute(st.asked, pred')
            && (forall a | a in st.answers :: NoPredecessor(pred', a.1))
  {
    var pred' := st.pred[s := None];
    forall n | n in st.succ ensures NoPredecessor(pred', st.succ[n]) {
      assert NoPredecessor(st.pred, st.succ[n]);
    }
    forall rid | rid in st.asked ensures NoPredecessor(pred', st.asked[rid].to) {
      assert NoPredecessor(st.pred, st.asked[rid].to);
    }
  }

  lemma JoinKeepsMute(st: State, n: Id, s: Id)
    requires Mute(st) && n !in st.succ && (n, s) in st.answers
    ensures Mute(AfterJoin(st, n, s))
  {
    ClearKeepsMute(st, n);
    var succ', pred' := st.succ[n := s], st.pred[n := None];
    assert NoPredecessor(st.pred, s);
    forall m | m in succ' ensures NoPredecessor(pred', succ'[m]) {
      assert m != n ==> NoPredecessor(pred', st.succ[m]);
    }
  }

  lemma SendKeepsMute(st: State, n: Id, rid: nat)
    requires Mute(st) && n in st.succ && rid !in st.asked
    ensures Mute(AfterSendStabilize(st, n, rid))
  {}

  /** With nothing in flight and no predecessor to report, no node is answered, adopts or is notified. */
  lemma NothingIsDelivered(st: State, step: Step)
    requires Inv(st) && Mute(st) && Silent(st)
    ensures step.AnswerStabilize? || step.Adopt? || step.Hear? ==> !Enabled(st, step)
  {
    if step.AnswerStabilize? && step.rid in st.asked {
      assert NoPredecessor(st.pred, st.asked[step.rid].to);
    }
  }

  lemma StepKeepsMute(st: State, step: Step)
    requires Inv(st) && Mute(st) && Silent(st) && Enabled(st, step)
    ensures Mute(Apply(st, step)) && Silent(Apply(st, step))
    ensures forall n | n in st.succ :: n in Apply(st, step).succ && Apply(st, step).succ[n] == st.succ[n]
  {
    NothingIsDelivered(st, step);
    match step
    case AnswerJoin(via, n) =>
      AnswerIsTerminalsSuccessor(st.succ, st.tables.fingers, via, n);
      assert NoPredecessor(st.pred, st.succ[Terminal(st.succ, st.tables.fingers, via, n)]);
    case Join(n, s) =>
      assert (n, s) in st.answers;
      JoinKeepsMute(st, n, s);
    case SendStabilize(n, rid) => SendKeepsMute(st, n, rid);
    case ResetPredecessor(s) => ClearKeepsMute(st, s);
    case Fix(n) =>
  }

  lemma {:induction false} MuteForever(st: State, run: seq<Step>, n: Id)
    requires Inv(st) && Mute(st) && Silent(st) && Possible(st, run) && n in st.succ
    ensures Mute(Exec(st, run)) && Silent(Exec(st, run))
    ensures n in Exec(st, run).succ && Exec(st, run).succ[n] == st.succ[n]
    decreases |run|
  {
    if run != [] {
      StepKeepsInv(st, run[0]);
      StepKeepsMute(st, run[0]);
      assert Apply(st, run[0]).succ[n] == st.succ[n];
      MuteForever(Apply(st, run[0]), run[1..], n);
    }
  }

  /** From a quiet network, some run sends a NOTIFY exactly when some node's successor has a
      predecessor to report. */
  lemma NotifyPossibleIffSomeSuccessorHasPredecessor(st: State)
    requires Inv(st) && FreshNet(st) && st.succ.Keys != {}
    ensures (exists run :: Possible(st, run) && Exec(st, run).notifies != {})
            <==> (exists n :: n in st.succ && AnswerableAt(st.succ, st.pred, n))
  {
    if n :| n in st.succ && AnswerableAt(st.succ, st.pred, n) {
      var run := FirstCall(st, n);
    } else {
      assert Mute(st) by {
        forall n | n in st.succ ensures NoPredecessor(st.pred, st.succ[n]) {
          assert NextIn(st.succ, n) && !AnswerableAt(st.succ, st.pred, n);
        }
      }
      var n :| n in st.succ;
      forall run | Possible(st, run) ensures Exec(st, run).notifies == {} {
        MuteForever(st, run, n);
      }
    }
  }

  lemma FirstCall(st: State, n: Id) returns (run: seq<Step>)
    requires Inv(st) && FreshNet(st) && n in st.succ && AnswerableAt(st.succ, st.pred, n)
    ensures Possible(st, run) && Exec(st, run).notifies != {}
  {
    var x := st.pred[st.succ[n]].value;
    var s1, s2, s3 := SendStabilize(n, 0), AnswerStabilize(0), Adopt(n, x);
    var st1 := AfterSendStabilize(st, n, 0);
    StepKeepsInv(st, s1);
    var st2 := AfterAnswerStabilize(st1, 0);
    StepKeepsInv(st1, s2);
    assert (0, x) in st2.replies;
    var st3 := AfterAdopt(st2, n, x);
    StepKeepsInv(st2, s3);
    OneStep(st2, s3, st3, []);
    OneStep(st1, s2, st2, [s3]);
    OneStep(st, s1, st1, [s2, s3]);
    run := [s1] + ([s2] + ([s3] + []));
    assert (AdoptedSuccessor(n, st.succ[n], x), n) in st3.notifies;
  }

  ghost predicate AllTo(st: State, f: Id) {
    && (forall n {:trigger st.succ[n]} | n in st.succ :: st.succ[n] == f)
    && (forall a | a in st.answers :: a.1 == f)
  }

  lemma StepKeepsAllTo(st: State, step: Step, f: Id)
    requires Inv(st) && Mute(st) && Silent(st) && AllTo(st, f) && Enabled(st, step)
    ensures AllTo(Apply(st, step), f)
  {
    NothingIsDelivered(st, step);
    match step
    case AnswerJoin(via, n) =>
      AnswerIsTerminalsSuccessor(st.succ, st.tables.fingers, via, n);
    case Join(n, s) => assert (n, s) in st.answers;
    case _ =>
  }

  lemma {:induction false} StaysAStar(st: State, run: seq<Step>, f: Id)
    requires Inv(st) && Mute(st) && Silent(st) && AllTo(st, f) && f in st.succ && Possible(st, run)
    ensures AllTo(Exec(st, run), f) && f in Exec(st, run).succ
    decreases |run|
  {
    if run != [] {
      StepKeepsInv(st, run[0]);
      StepKeepsMute(st, run[0]);
      StepKeepsAllTo(st, run[0], f);
      assert st.succ[f] == f;
      StaysAStar(Apply(st, run[0]), run[1..], f);
    }
  }

  /** A ring created by one node and grown by joins alone stays a star: in every reachable state every
      member's successor is the founder, so successors are right only while the founder is alone. */
  lemma CreatedRingStaysAStar(f: Id, run: seq<Step>)
    requires Possible(Created(f), run)
    ensures var st := Exec(Created(f), run);
            && f in st.succ && st.notifies == {} && AllTo(st, f)
            && (Correct(st.succ) <==> st.succ.Keys == {f})
  {
    MuteForever(Created(f), run, f);
    StaysAStar(Created(f), run, f);
    StarIsRightOnlyAlone(Exec(Created(f), run), f);
  }

  lemma StarIsRightOnlyAlone(st: State, f: Id)
    requires f in st.succ && AllTo(st, f)
    ensures Correct(st.succ) <==> st.succ.Keys == {f}
  {
    if Correct(st.succ) {
      assert IsNext(st.succ.Keys, f, st.succ[f]);
      forall m | m in st.succ ensures m == f {
        assert Gap(f, f) <= Gap(f, m);
      }
    }
    if st.succ.Keys == {f} {
      forall n | n in st.succ ensures IsNext(st.succ.Keys, n, st.succ[n]) {
        assert n == f;
      }
    }
  }
}
