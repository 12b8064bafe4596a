/** The Chord ring as a protocol: join, STABILIZE, its reply, NOTIFY, fix_fingers and the predecessor
    reset, interleaved in any order over a network that may lose, duplicate and reorder messages.
    A sent message stays deliverable for ever, any number of times; one that is never delivered is
    lost. Request identifiers are unique. */
module Ring {
  import opened Ids
  import opened Lookup
  import opened FingerRepair
  import opened Options

  type Pred = map<Id, Option<Id>>

  datatype Ask = Ask(from: Id, to: Id)

  datatype State = State(
    succ: Succ,
    pred: Pred,
    tables: Tables,
    waiting: map<Id, Option<nat>>,  // the request a node's stabilize is blocked on
    asked: map<nat, Ask>,           // STABILIZE messages by request id
    replies: set<(nat, Id)>,        // STABILIZE replies: request id, reported predecessor
    notifies: set<(Id, Id)>,        // NOTIFY messages: receiver, candidate predecessor
    answers: set<(Id, Id)>)         // JOIN replies: joining node, successor it was given

  datatype Step =
    | AnswerJoin(via: Id, n: Id)    // a member looks up the joiner's successor and replies
    | Join(n: Id, s: Id)            // the joiner adopts the reply
    | SendStabilize(n: Id, rid: nat)
    | AnswerStabilize(rid: nat)
    | Adopt(n: Id, x: Id)           // the reply arrives; stabilize finishes and notifies
    | Hear(s: Id, p: Id)            // a NOTIFY arrives
    | ResetPredecessor(s: Id)       // check_predecessor drops an unreachable predecessor
    | Fix(n: Id)                    // fix_fingers

  // ----- the pointer rules -----

  /** stabilize: the reported predecessor of the successor is adopted when it lies in between. */
  function AdoptedSuccessor(n: Id, s: Id, x: Id): Id {
    if InInterval(x, n, s) then x else s
  }

  /** NOTIFY: the candidate replaces no predecessor, or one further back. */
  function NotifiedPredecessor(s: Id, current: Option<Id>, p: Id): Option<Id> {
    if current.None? || InInterval(p, current.value, s) then Some(p) else current
  }

  // ----- the step relation -----

  ghost predicate AsksTyped(succ: Succ, asked: map<nat, Ask>) {
    forall rid {:trigger AskTyped(succ, asked, rid)} | rid in asked :: AskTyped(succ, asked, rid)
  }

  ghost predicate AskTyped(succ: Succ, asked: map<nat, Ask>, rid: nat) {
    rid in asked && asked[rid].from in succ && asked[rid].to in succ
  }

  ghost predicate NotifiesTyped(succ: Succ, notifies: set<(Id, Id)>) {
    forall m | m in notifies :: m.0 in succ && m.1 in succ
  }

  ghost predicate AnswersTyped(succ: Succ, answers: set<(Id, Id)>) {
    forall a | a in answers :: a.1 in succ
  }

  ghost predicate Typed(st: State) {
    && Ready(st.succ, st.tables)
    && st.pred.Keys == st.succ.Keys
    && st.waiting.Keys == st.succ.Keys
    && AsksTyped(st.succ, st.asked)
    && NotifiesTyped(st.succ, st.notifies)
    && AnswersTyped(st.succ, st.answers)
  }

  ghost predicate Enabled(st: State, step: Step)
    requires Typed(st)
  {
    match step
    case AnswerJoin(via, n) => via in st.succ && n !in st.succ
    case Join(n, s) => n !in st.succ && (n, s) in st.answers
    case SendStabilize(n, rid) => n in st.succ && st.waiting[n] == None && rid !in st.asked
    case AnswerStabilize(rid) =>
      rid in st.asked && (assert AskTyped(st.succ, st.asked, rid); st.pred[st.asked[rid].to].Some?)
    case Adopt(n, x) => n in st.succ && st.waiting[n].Some? && (st.waiting[n].value, x) in st.replies
    case Hear(s, p) => (s, p) in st.notifies
    case ResetPredecessor(s) => s in st.succ && st.waiting[s] == None
    case Fix(n) => n in st.succ && st.waiting[n] == None
  }

  ghost function AfterAnswerJoin(st: State, via: Id, n: Id): State
    requires Typed(st) && via in st.succ
  {
    st.(answers := st.answers + {(n, FindSuccessor(st.succ, st.tables.fingers, via, n))})
  }

  /** The joiner starts without a predecessor and with every finger at itself. */
  ghost function AfterJoin(st: State, n: Id, s: Id): State {
    State(st.succ[n := s], st.pred[n := None],
          Tables(st.tables.fingers[n := seq(M, _ => n)], st.tables.next[n := 0]),
          st.waiting[n := None], st.asked, st.replies, st.notifies, st.answers)
  }

  ghost function AfterSendStabilize(st: State, n: Id, rid: nat): State
    requires n in st.succ
  {
    st.(waiting := st.waiting[n := Some(rid)], asked := st.asked[rid := Ask(n, st.succ[n])])
  }

  /** A node without a predecessor sends no reply at all: Enabled excludes it. */
  ghost function AfterAnswerStabilize(st: State, rid: nat): State
    requires rid in st.asked && st.asked[rid].to in st.pred && st.pred[st.asked[rid].to].Some?
  {
    st.(replies := st.replies + {(rid, st.pred[st.asked[rid].to].value)})
  }

  ghost function AfterAdopt(st: State, n: Id, x: Id): State
    requires n in st.succ
  {
    var s := AdoptedSuccessor(n, st.succ[n], x);
    st.(succ := st.succ[n := s], waiting := st.waiting[n := None], notifies := st.notifies + {(s, n)})
  }

  ghost function AfterHear(st: State, s: Id, p: Id): State
    requires s in st.pred
  {
    st.(pred := st.pred[s := NotifiedPredecessor(s, st.pred[s], p)])
  }

  ghost function AfterReset(st: State, s: Id): State {
    st.(pred := st.pred[s := None])
  }

  ghost function AfterFix(st: State, n: Id): State
    requires Typed(st) && n in st.succ
  {
    st.(tables := FixFingers(st.succ, st.tables, n))
  }

  ghost function Apply(st: State, step: Step): State
    requires Typed(st) && Enabled(st, step)
  {
    match step
    case AnswerJoin(via, n) => AfterAnswerJoin(st, via, n)
    case Join(n, s) => AfterJoin(st, n, s)
    case SendStabilize(n, rid) => AfterSendStabilize(st, n, rid)
    case AnswerStabilize(rid) => assert AskTyped(st.succ, st.asked, rid); AfterAnswerStabilize(st, rid)
    case Adopt(n, x) => AfterAdopt(st, n, x)
    case Hear(s, p) => AfterHear(st, s, p)
    case ResetPredecessor(s) => AfterReset(st, s)
    case Fix(n) => AfterFix(st, n)
  }

  // ----- successor walks that stay inside an arc -----

  /** Following successors from p arrives at s without ever passing it. */
  predicate Reaches(succ: Succ, p: Id, s: Id)
    decreases Gap(p, s)
  {
    || p == s
    || (p in succ && (succ[p] == s || (InInterval(succ[p], p, s) && Reaches(succ, succ[p], s))))
  }

  /** Redirecting n does not disturb a walk that never comes to n. */
  lemma {:induction false} ReachesFrame(succ: Succ, n: Id, x: Id, p: Id, s: Id)
    requires Reaches(succ, p, s)
    requires p != n && !InInterval(n, p, s)
    ensures Reaches(succ[n := x], p, s)
    decreases Gap(p, s)
  {
    if p != s && succ[p] != s {
      ReachesFrame(succ, n, x, succ[p], s);
    }
  }

  lemma {:induction false} ReachesJoins(succ: Succ, p: Id, q: Id, s: Id)
    requires Reaches(succ, p, q) && Reaches(succ, q, s)
    requires q == s || InInterval(q, p, s)
    ensures Reaches(succ, p, s)
    decreases Gap(p, q)
  {
    if p != q && succ[p] != q && q != s {
      ReachesJoins(succ, succ[p], q, s);
    }
  }

  /** Adopting a node that itself reaches the old successor keeps every walk. */
  lemma {:induction false} ReachesAfterAdopt(succ: Succ, n: Id, x: Id, p: Id, q: Id)
    requires n in succ && InInterval(x, n, succ[n]) && Reaches(succ, x, succ[n])
    requires Reaches(succ, p, q)
    ensures Reaches(succ[n := x], p, q)
    decreases Gap(p, q)
  {
    var s, succ' := succ[n], succ[n := x];
    if p == q {
    } else if p != n {
      if succ[p] != q {
        ReachesAfterAdopt(succ, n, x, succ[p], q);
      }
    } else {
      ReachesFrame(succ, n, x, x, s);
      if s != q {
        ReachesAfterAdopt(succ, n, x, s, q);
      }
      ReachesJoins(succ', x, s, q);
    }
  }

  lemma {:induction false} ReachesAfterJoin(succ: Succ, n: Id, x: Id, p: Id, q: Id)
    requires n !in succ && Reaches(succ, p, q)
    ensures Reaches(succ[n := x], p, q)
    decreases Gap(p, q)
  {
    if p != q && succ[p] != q {
      ReachesAfterJoin(succ, n, x, succ[p], q);
    }
  }

  // ----- the inductive invariant -----

  ghost predicate Backed(succ: Succ, p: Id, s: Id) {
    p in succ && s in succ && Reaches(succ, p, s)
  }

  ghost predicate PredBacked(succ: Succ, pred: Pred) {
    forall s {:trigger PredBackedAt(succ, pred, s)} | s in pred :: PredBackedAt(succ, pred, s)
  }

  ghost predicate PredBackedAt(succ: Succ, pred: Pred, s: Id)
    requires s in pred
  {
    pred[s].Some? ==> Backed(succ, pred[s].value, s)
  }

  ghost predicate NotifyBacked(succ: Succ, notifies: set<(Id, Id)>) {
    forall m | m in notifies :: Backed(succ, m.1, m.0)
  }

  ghost predicate ReplyBacked(succ: Succ, asked: map<nat, Ask>, replies: set<(nat, Id)>) {
    forall r | r in replies :: r.0 in asked && Backed(succ, r.1, asked[r.0].to)
  }

  ghost predicate WaitsForSuccessor(succ: Succ, waiting: map<Id, Option<nat>>, asked: map<nat, Ask>) {
    forall n {:trigger WaitsAt(succ, waiting, asked, n)} | n in waiting :: WaitsAt(succ, waiting, asked, n)
  }

  ghost predicate WaitsAt(succ: Succ, waiting: map<Id, Option<nat>>, asked: map<nat, Ask>, n: Id)
    requires n in waiting
  {
    waiting[n].Some? ==>
      n in succ && waiting[n].value in asked && asked[waiting[n].value] == Ask(n, succ[n])
  }

  /** Every predecessor a node stores, or is about to be told of, or is reporting, reaches it by a
      successor walk inside the arc between them; and the request a node waits for went to the
      successor it still has. */
  ghost predicate Inv(st: State) {
    && Typed(st)
    && PredBacked(st.succ, st.pred)
    && NotifyBacked(st.succ, st.notifies)
    && ReplyBacked(st.succ, st.asked, st.replies)
    && WaitsForSuccessor(st.succ, st.waiting, st.asked)
  }

  /** Every fact of the form "p reaches s" survives. */
  ghost predicate Extends(succ: Succ, succ': Succ) {
    && succ.Keys <= succ'.Keys
    && forall p, s {:trigger Backed(succ', p, s)} | Backed(succ, p, s) :: Backed(succ', p, s)
  }

  lemma AdoptExtends(succ: Succ, n: Id, x: Id)
    requires n in succ && Backed(succ, x, succ[n])
    ensures Extends(succ, succ[n := AdoptedSuccessor(n, succ[n], x)])
  {
    if InInterval(x, n, succ[n]) {
      forall p, s | Backed(succ, p, s) ensures Backed(succ[n := x], p, s) {
        ReachesAfterAdopt(succ, n, x, p, s);
      }
    } else {
      assert succ[n := succ[n]] == succ;
    }
  }

  lemma JoinExtends(succ: Succ, n: Id, s: Id)
    requires n !in succ
    ensures Extends(succ, succ[n := s])
  {
    forall p, q | Backed(succ, p, q) ensures Backed(succ[n := s], p, q) {
      ReachesAfterJoin(succ, n, s, p, q);
    }
  }

  lemma ExtendsKeepsBacked(succ: Succ, succ': Succ, st: State)
    requires Extends(succ, succ')
    requires PredBacked(succ, st.pred) && NotifyBacked(succ, st.notifies)
    requires ReplyBacked(succ, st.asked, st.replies)
    ensures PredBacked(succ', st.pred) && NotifyBacked(succ', st.notifies)
    ensures ReplyBacked(succ', st.asked, st.replies)
  {
    forall s | s in st.pred ensures PredBackedAt(succ', st.pred, s) {
      assert PredBackedAt(succ, st.pred, s);
    }
  }

  // ----- every step keeps the state well formed -----

  lemma JoinKeepsClosed(succ: Succ, fingers: Fingers, n: Id, s: Id)
    requires Closed(succ, fingers) && n !in succ && s in succ
    ensures Closed(succ[n := s], fingers[n := seq(M, _ => n)])
  {
    var succ', fingers' := succ[n := s], fingers[n := seq(M, _ => n)];
    forall m | m in succ' ensures NextIn(succ', m) {
      assert m != n ==> NextIn(succ, m);
    }
    forall m | m in succ' ensures FullTable(succ', fingers'[m]) {
      if m != n {
        assert FullTable(succ, fingers[m]);
      }
    }
  }

  lemma AdoptKeepsClosed(succ: Succ, fingers: Fingers, n: Id, s: Id)
    requires Closed(succ, fingers) && n in succ && s in succ
    ensures Closed(succ[n := s], fingers)
  {
    var succ' := succ[n := s];
    assert succ'.Keys == succ.Keys;
    forall m | m in succ' ensures NextIn(succ', m) {
      assert NextIn(succ, m);
    }
    forall m | m in succ' ensures FullTable(succ', fingers[m]) {
      assert FullTable(succ, fingers[m]);
    }
  }

  // ----- every step keeps the invariant -----

  lemma SameKeys<K, V>(m: map<K, V>, k: K, v: V)
    requires k in m
    ensures m[k := v].Keys == m.Keys
  {}

  lemma NewKeys<K, V, W>(m: map<K, V>, m': map<K, W>, k: K, v: V, w: W)
    requires m.Keys == m'.Keys
    ensures m[k := v].Keys == m'[k := w].Keys
  {}

  lemma ClearKeepsPred(succ: Succ, pred: Pred, s: Id)
    requires PredBacked(succ, pred)
    ensures PredBacked(succ, pred[s := None])
  {
    var pred' := pred[s := None];
    forall t | t in pred' ensures PredBackedAt(succ, pred', t) {
      assert t != s ==> PredBackedAt(succ, pred, t);
    }
  }

  lemma JoinKeepsWaits(succ: Succ, waiting: map<Id, Option<nat>>, asked: map<nat, Ask>, n: Id, s: Id)
    requires WaitsForSuccessor(succ, waiting, asked) && n !in succ
    ensures WaitsForSuccessor(succ[n := s], waiting[n := None], asked)
  {
    var waiting' := waiting[n := None];
    forall m | m in waiting' ensures WaitsAt(succ[n := s], waiting', asked, m) {
      assert m != n ==> WaitsAt(succ, waiting, asked, m);
    }
  }

  lemma AsksStayTyped(succ: Succ, succ': Succ, asked: map<nat, Ask>)
    requires AsksTyped(succ, asked) && succ.Keys <= succ'.Keys
    ensures AsksTyped(succ', asked)
  {
    forall rid | rid in asked ensures AskTyped(succ', asked, rid) {
      assert AskTyped(succ, asked, rid);
    }
  }

  lemma JoinKeepsTyped(st: State, n: Id, s: Id)
    requires Typed(st) && Enabled(st, Join(n, s))
    ensures Typed(AfterJoin(st, n, s))
  {
    assert (n, s) in st.answers;
    AsksStayTyped(st.succ, st.succ[n := s], st.asked);
    JoinKeepsClosed(st.succ, st.tables.fingers, n, s);
    NewKeys(st.succ, st.pred, n, s, None);
    NewKeys(st.succ, st.waiting, n, s, None);
    NewKeys(st.succ, st.tables.next, n, s, 0);
  }

  lemma JoinKeeps(st: State, n: Id, s: Id)
    requires Inv(st) && Enabled(st, Join(n, s))
    ensures Inv(AfterJoin(st, n, s))
  {
    JoinKeepsTyped(st, n, s);
    JoinExtends(st.succ, n, s);
    ExtendsKeepsBacked(st.succ, st.succ[n := s], st);
    ClearKeepsPred(st.succ[n := s], st.pred, n);
    JoinKeepsWaits(st.succ, st.waiting, st.asked, n, s);
  }

  lemma AskKeepsReplies(succ: Succ, asked: map<nat, Ask>, replies: set<(nat, Id)>, rid: nat, a: Ask)
    requires ReplyBacked(succ, asked, replies) && rid !in asked
    ensures ReplyBacked(succ, asked[rid := a], replies)
  {}

  lemma AskKeepsWaits(succ: Succ, waiting: map<Id, Option<nat>>, asked: map<nat, Ask>, n: Id, rid: nat)
    requires WaitsForSuccessor(succ, waiting, asked) && n in succ && rid !in asked
    ensures WaitsForSuccessor(succ, waiting[n := Some(rid)], asked[rid := Ask(n, succ[n])])
  {
    var waiting', asked' := waiting[n := Some(rid)], asked[rid := Ask(n, succ[n])];
    forall m | m in waiting' ensures WaitsAt(succ, waiting', asked', m) {
      assert m != n ==> WaitsAt(succ, waiting, asked, m);
    }
  }

  lemma AskKeepsTyped(succ: Succ, asked: map<nat, Ask>, rid: nat, n: Id)
    requires AsksTyped(succ, asked) && n in succ && succ[n] in succ
    ensures AsksTyped(succ, asked[rid := Ask(n, succ[n])])
  {
    var asked' := asked[rid := Ask(n, succ[n])];
    forall r | r in asked' ensures AskTyped(succ, asked', r) {
      assert r != rid ==> AskTyped(succ, asked, r);
    }
  }

  lemma SendStabilizeKeeps(st: State, n: Id, rid: nat)
    requires Inv(st) && Enabled(st, SendStabilize(n, rid))
    ensures Inv(AfterSendStabilize(st, n, rid))
  {
    AskKeepsReplies(st.succ, st.asked, st.replies, rid, Ask(n, st.succ[n]));
    AskKeepsWaits(st.succ, st.waiting, st.asked, n, rid);
    SameKeys(st.waiting, n, Some(rid));
    assert NextIn(st.succ, n);
    AskKeepsTyped(st.succ, st.asked, rid, n);
  }

  lemma ReplyKeepsReplies(succ: Succ, pred: Pred, asked: map<nat, Ask>, replies: set<(nat, Id)>, rid: nat)
    requires ReplyBacked(succ, asked, replies) && PredBacked(succ, pred)
    requires rid in asked && asked[rid].to in pred && pred[asked[rid].to].Some?
    ensures ReplyBacked(succ, asked, replies + {(rid, pred[asked[rid].to].value)})
  {
    assert PredBackedAt(succ, pred, asked[rid].to);
  }

  lemma AnswerStabilizeKeeps(st: State, rid: nat)
    requires Inv(st) && Enabled(st, AnswerStabilize(rid))
    ensures AskTyped(st.succ, st.asked, rid) && Inv(AfterAnswerStabilize(st, rid))
  {
    assert AskTyped(st.succ, st.asked, rid);
    ReplyKeepsReplies(st.succ, st.pred, st.asked, st.replies, rid);
  }

  /** The notification a node sends after adopting names a node one edge before its receiver. */
  lemma AdoptBacksNotify(succ: Succ, notifies: set<(Id, Id)>, n: Id, s: Id)
    requires NotifyBacked(succ, notifies) && n in succ && s in succ && succ[n] == s
    ensures NotifyBacked(succ, notifies + {(s, n)})
  {}

  lemma AdoptKeepsWaits(succ: Succ, waiting: map<Id, Option<nat>>, asked: map<nat, Ask>, n: Id, s: Id)
    requires WaitsForSuccessor(succ, waiting, asked) && n in succ
    ensures WaitsForSuccessor(succ[n := s], waiting[n := None], asked)
  {
    var waiting' := waiting[n := None];
    forall m | m in waiting' ensures WaitsAt(succ[n := s], waiting', asked, m) {
      assert m != n ==> WaitsAt(succ, waiting, asked, m);
    }
  }

  lemma AdoptKeepsMessagesTyped(succ: Succ, st: State, n: Id, s: Id)
    requires AsksTyped(st.succ, st.asked) && NotifiesTyped(st.succ, st.notifies) && AnswersTyped(st.succ, st.answers)
    requires succ.Keys == st.succ.Keys && n in succ && s in succ
    ensures AsksTyped(succ, st.asked)
    ensures NotifiesTyped(succ, st.notifies + {(s, n)})
    ensures AnswersTyped(succ, st.answers)
  {
    AsksStayTyped(st.succ, succ, st.asked);
  }

  lemma AdoptKeepsTyped(st: State, n: Id, x: Id)
    requires Typed(st) && n in st.succ && x in st.succ
    ensures Typed(AfterAdopt(st, n, x))
  {
    assert NextIn(st.succ, n);
    var s := AdoptedSuccessor(n, st.succ[n], x);
    AdoptKeepsClosed(st.succ, st.tables.fingers, n, s);
    SameKeys(st.succ, n, s);
    SameKeys(st.waiting, n, None);
    AdoptKeepsMessagesTyped(st.succ[n := s], st, n, s);
  }

  lemma AdoptKeepsBacking(st: State, n: Id, x: Id)
    requires Inv(st) && n in st.succ && Backed(st.succ, x, st.succ[n])
    ensures var st' := AfterAdopt(st, n, x);
            && Extends(st.succ, st'.succ)
            && PredBacked(st'.succ, st'.pred)
            && NotifyBacked(st'.succ, st'.notifies)
            && ReplyBacked(st'.succ, st'.asked, st'.replies)
  {
    var s := AdoptedSuccessor(n, st.succ[n], x);
    var succ' := st.succ[n := s];
    AdoptExtends(st.succ, n, x);
    ExtendsKeepsBacked(st.succ, succ', st);
    AdoptBacksNotify(succ', st.notifies, n, s);
  }

  /** What a waiting node is told reaches the successor it asked, which it still has. */
  lemma ReplyIsBacked(st: State, n: Id, x: Id)
    requires Inv(st) && Enabled(st, Adopt(n, x))
    ensures Backed(st.succ, x, st.succ[n])
  {
    assert (st.waiting[n].value, x) in st.replies;
    assert WaitsAt(st.succ, st.waiting, st.asked, n);
  }

  lemma AdoptKeeps(st: State, n: Id, x: Id)
    requires Inv(st) && Enabled(st, Adopt(n, x))
    ensures Inv(AfterAdopt(st, n, x))
    ensures Extends(st.succ, AfterAdopt(st, n, x).succ)
  {
    ReplyIsBacked(st, n, x);
    AdoptKeepsTyped(st, n, x);
    AdoptKeepsBacking(st, n, x);
    AdoptKeepsWaits(st.succ, st.waiting, st.asked, n, AdoptedSuccessor(n, st.succ[n], x));
  }

  lemma HearKeepsPred(succ: Succ, pred: Pred, s: Id, p: Id)
    requires PredBacked(succ, pred) && s in pred && Backed(succ, p, s)
    ensures PredBacked(succ, pred[s := NotifiedPredecessor(s, pred[s], p)])
  {
    var pred' := pred[s := NotifiedPredecessor(s, pred[s], p)];
    forall t | t in pred' ensures PredBackedAt(succ, pred', t) {
      assert PredBackedAt(succ, pred, t);
    }
  }

  lemma HearKeeps(st: State, s: Id, p: Id)
    requires Inv(st) && Enabled(st, Hear(s, p))
    ensures Inv(AfterHear(st, s, p))
  {
    HearKeepsPred(st.succ, st.pred, s, p);
    SameKeys(st.pred, s, NotifiedPredecessor(s, st.pred[s], p));
  }

  lemma ResetKeeps(st: State, s: Id)
    requires Inv(st) && Enabled(st, ResetPredecessor(s))
    ensures Inv(AfterReset(st, s))
  {
    ClearKeepsPred(st.succ, st.pred, s);
    SameKeys(st.pred, s, None);
  }

  lemma FixKeeps(st: State, n: Id)
    requires Inv(st) && Enabled(st, Fix(n))
    ensures Inv(AfterFix(st, n))
  {}

  lemma AnswerJoinKeeps(st: State, via: Id, n: Id)
    requires Inv(st) && Enabled(st, AnswerJoin(via, n))
    ensures Inv(AfterAnswerJoin(st, via, n))
  {}

  lemma StepKeepsInv(st: State, step: Step)
    requires Inv(st) && Enabled(st, step)
    ensures Inv(Apply(st, step))
  {
    match step
    case AnswerJoin(via, n) => AnswerJoinKeeps(st, via, n);
    case Join(n, s) => JoinKeeps(st, n, s);
    case SendStabilize(n, rid) => SendStabilizeKeeps(st, n, rid);
    case AnswerStabilize(rid) => AnswerStabilizeKeeps(st, rid);
    case Adopt(n, x) => AdoptKeeps(st, n, x);
    case Hear(s, p) => HearKeeps(st, s, p);
    case ResetPredecessor(s) => ResetKeeps(st, s);
    case Fix(n) => FixKeeps(st, n);
  }

  lemma StepExtends(st: State, step: Step)
    requires Inv(st) && Enabled(st, step)
    ensures Extends(st.succ, Apply(st, step).succ)
  {
    match step
    case Join(n, s) => JoinExtends(st.succ, n, s);
    case Adopt(n, x) => AdoptKeeps(st, n, x);
    case _ =>
  }
}
