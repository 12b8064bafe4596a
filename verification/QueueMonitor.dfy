/** The queue shared by threads: every push and every search runs under the mutex, a failed search
    sleeps on the condition variable, and every push wakes all sleepers. One step is one critical
    section; the interleaving is arbitrary, and sleepers may also wake for no reason. */
module QueueMonitor {
  import opened Ids
  import opened QueueSpec

  datatype Thread =
    | Outside                  // not in pop_message
    | Searching(id: nat)       // about to search the queue from its head, holding or wanting the lock
    | Asleep(id: nat)          // in pthread_cond_wait

  datatype Delivery = Delivery(thread: nat, id: nat, msg: Message)

  /** pushed and popped are the history of the run. */
  datatype State = State(queue: seq<Message>, threads: map<nat, Thread>, pushed: seq<Message>, popped: seq<Delivery>)

  datatype Step =
    | Push(msg: Message)
    | Call(t: nat, id: nat)
    | Search(t: nat)
    | SpuriousWake(t: nat)

  ghost predicate Enabled(st: State, step: Step) {
    match step
    case Push(_) => true
    case Call(t, _) => t in st.threads && st.threads[t] == Outside
    case Search(t) => t in st.threads && st.threads[t].Searching?
    case SpuriousWake(t) => t in st.threads && st.threads[t].Asleep?
  }

  function Woken(thread: Thread): Thread {
    if thread.Asleep? then Searching(thread.id) else thread
  }

  ghost function AfterSearch(st: State, t: nat): State
    requires t in st.threads && st.threads[t].Searching?
  {
    var id := st.threads[t].id;
    var i := FirstIndex(st.queue, id);
    if i < |st.queue| then
      State(RemoveAt(st.queue, i), st.threads[t := Outside], st.pushed,
            st.popped + [Delivery(t, id, st.queue[i])])
    else
      st.(threads := st.threads[t := Asleep(id)])
  }

  ghost function Apply(st: State, step: Step): State
    requires Enabled(st, step)
  {
    match step
    case Push(m) =>
      State(st.queue + [m], map t | t in st.threads :: Woken(st.threads[t]), st.pushed + [m], st.popped)
    case Call(t, id) => st.(threads := st.threads[t := Searching(id)])
    case Search(t) => AfterSearch(st, t)
    case SpuriousWake(t) => st.(threads := st.threads[t := Woken(st.threads[t])])
  }

  ghost predicate Start(st: State) {
    && st.queue == [] && st.pushed == [] && st.popped == []
    && forall t | t in st.threads :: st.threads[t] == Outside
  }

  ghost predicate Possible(st: State, run: seq<Step>)
    decreases |run|
  {
    run == [] || (Enabled(st, run[0]) && Possible(Apply(st, run[0]), run[1..]))
  }

  ghost function Exec(st: State, run: seq<Step>): State
    requires Possible(st, run)
    decreases |run|
  {
    if run == [] then st else Exec(Apply(st, run[0]), run[1..])
  }

  /** The messages handed out, in the order they were handed out. */
  ghost function Messages(popped: seq<Delivery>): (q: seq<Message>)
    ensures |q| == |popped| && forall i | 0 <= i < |q| :: q[i] == popped[i].msg
  {
    seq(|popped|, i requires 0 <= i < |popped| => popped[i].msg)
  }

  // ----- the invariant -----

  /** A thread asleep for an identifier has no message with it waiting. */
  ghost predicate NoLostWakeup(st: State) {
    forall t | t in st.threads && st.threads[t].Asleep? :: !HasId(st.queue, st.threads[t].id)
  }

  /** For each identifier, what was pushed is what was handed out followed by what is queued. */
  ghost predicate AccountedAt(st: State, id: nat) {
    OfId(st.pushed, id) == OfId(Messages(st.popped), id) + OfId(st.queue, id)
  }

  ghost predicate Accounted(st: State) {
    forall id {:trigger AccountedAt(st, id)} :: AccountedAt(st, id)
  }

  ghost predicate RightCaller(st: State) {
    forall i | 0 <= i < |st.popped| :: st.popped[i].msg.requestId == st.popped[i].id
  }

  ghost predicate Balanced(st: State) {
    multiset(st.pushed) == multiset(Messages(st.popped)) + multiset(st.queue)
  }

  ghost predicate Inv(st: State) {
    NoLostWakeup(st) && Accounted(st) && RightCaller(st) && Balanced(st)
  }

  lemma RemovalLacks(q: seq<Message>, i: nat, id: nat)
    requires i < |q| && !HasId(q, id)
    ensures !HasId(RemoveAt(q, i), id)
  {}

  lemma SearchKeepsAccount(st: State, t: nat, id: nat)
    requires Inv(st) && Enabled(st, Search(t))
    ensures AccountedAt(AfterSearch(st, t), id)
  {
    var st' := AfterSearch(st, t);
    var own := st.threads[t].id;
    var i := FirstIndex(st.queue, own);
    assert AccountedAt(st, id);
    if i < |st.queue| {
      var m := st.queue[i];
      RemoveFirstPerId(st.queue, own, id);
      assert Messages(st'.popped) == Messages(st.popped) + [m];
      OfIdConcat(Messages(st.popped), [m], id);
    }
  }

  lemma RemovalBalances(q: seq<Message>, i: nat)
    requires i < |q|
    ensures multiset(q) == multiset(RemoveAt(q, i)) + multiset{q[i]}
  {
    assert q == q[..i] + [q[i]] + q[i + 1..];
  }

  lemma SearchKeepsBalance(st: State, t: nat)
    requires Balanced(st) && Enabled(st, Search(t))
    ensures Balanced(AfterSearch(st, t))
  {
    var i := FirstIndex(st.queue, st.threads[t].id);
    if i < |st.queue| {
      RemovalBalances(st.queue, i);
      assert Messages(AfterSearch(st, t).popped) == Messages(st.popped) + [st.queue[i]];
    }
  }

  lemma SearchKeepsInv(st: State, t: nat)
    requires Inv(st) && Enabled(st, Search(t))
    ensures Inv(AfterSearch(st, t))
  {
    var st' := AfterSearch(st, t);
    forall id ensures AccountedAt(st', id) {
      SearchKeepsAccount(st, t, id);
    }
    SearchKeepsBalance(st, t);
    var i := FirstIndex(st.queue, st.threads[t].id);
    if i < |st.queue| {
      forall u | u in st'.threads && st'.threads[u].Asleep? ensures !HasId(st'.queue, st'.threads[u].id) {
        RemovalLacks(st.queue, i, st.threads[u].id);
      }
    }
  }

  lemma PushKeepsInv(st: State, m: Message)
    requires Inv(st)
    ensures Inv(Apply(st, Push(m)))
  {
    var st' := Apply(st, Push(m));
    forall id ensures AccountedAt(st', id) {
      assert AccountedAt(st, id);
      OfIdConcat(st.pushed, [m], id);
      OfIdConcat(st.queue, [m], id);
    }
  }

  lemma StepKeepsInv(st: State, step: Step)
    requires Inv(st) && Enabled(st, step)
    ensures Inv(Apply(st, step))
  {
    match step
    case Push(m) => PushKeepsInv(st, m);
    case Search(t) => SearchKeepsInv(st, t);
    case Call(_, _) =>
      forall id ensures AccountedAt(Apply(st, step), id) {
        assert AccountedAt(st, id);
      }
    case SpuriousWake(_) =>
      forall id ensures AccountedAt(Apply(st, step), id) {
        assert AccountedAt(st, id);
      }
  }

  lemma {:induction false} RunKeepsInv(st: State, run: seq<Step>)
    requires Inv(st) && Possible(st, run)
    ensures Inv(Exec(st, run))
    decreases |run|
  {
    if run != [] {
      StepKeepsInv(st, run[0]);
      RunKeepsInv(Apply(st, run[0]), run[1..]);
    }
  }

  // ----- calls and what they return -----

  /** The identifiers thread t has asked for, in the order of its calls. */
  function Calls(run: seq<Step>, t: nat): seq<nat> {
    if run == [] then []
    else (if run[0].Call? && run[0].t == t then [run[0].id] else []) + Calls(run[1..], t)
  }

  /** The messages pushed in the run. */
  function Pushes(run: seq<Step>): seq<Message> {
    if run == [] then []
    else (if run[0].Push? then [run[0].msg] else []) + Pushes(run[1..])
  }

  /** The identifiers of the messages thread t has been given, in order. */
  function Got(popped: seq<Delivery>, t: nat): seq<nat> {
    if popped == [] then []
    else
      var last := popped[|popped| - 1];
      Got(popped[..|popped| - 1], t) + if last.thread == t then [last.msg.requestId] else []
  }

  /** What t is still waiting for. */
  function Owed(thread: Thread): seq<nat> {
    if thread == Outside then [] else [thread.id]
  }

  lemma GotOneMore(popped: seq<Delivery>, d: Delivery, t: nat)
    ensures Got(popped + [d], t) == Got(popped, t) + if d.thread == t then [d.msg.requestId] else []
  {
    assert (popped + [d])[..|popped|] == popped;
  }

  lemma StepKeepsThreads(st: State, step: Step)
    requires Enabled(st, step)
    ensures Apply(st, step).threads.Keys == st.threads.Keys
  {}

  lemma SearchSettles(st: State, u: nat, t: nat)
    requires Enabled(st, Search(u)) && t in st.threads
    ensures var st' := AfterSearch(st, u);
            Got(st'.popped, t) + Owed(st'.threads[t]) == Got(st.popped, t) + Owed(st.threads[t])
  {
    var id := st.threads[u].id;
    var i := FirstIndex(st.queue, id);
    if i < |st.queue| {
      GotOneMore(st.popped, Delivery(u, id, st.queue[i]), t);
    }
  }

  /** A call is added to what its thread waits for; a delivery takes it off; nothing else changes it. */
  lemma StepSettles(st: State, step: Step, t: nat)
    requires Enabled(st, step) && t in st.threads && t in Apply(st, step).threads
    ensures var st' := Apply(st, step);
            Got(st'.popped, t) + Owed(st'.threads[t])
            == Got(st.popped, t) + Owed(st.threads[t]) + if step.Call? && step.t == t then [step.id] else []
  {
    match step
    case Search(u) => SearchSettles(st, u, t);
    case _ =>
  }

  lemma {:induction false} RunSettles(st: State, run: seq<Step>, t: nat)
    requires Possible(st, run) && t in st.threads
    ensures t in Exec(st, run).threads
    ensures Got(st.popped, t) + Owed(st.threads[t]) + Calls(run, t)
            == Got(Exec(st, run).popped, t) + Owed(Exec(st, run).threads[t])
    decreases |run|
  {
    if run != [] {
      StepKeepsThreads(st, run[0]);
      StepSettles(st, run[0], t);
      RunSettles(Apply(st, run[0]), run[1..], t);
    }
  }

  /** Over every interleaving, what a thread has been given, followed by what it waits for, is what it has
      asked for: each call returns one message with the identifier asked for, calls return in order, and a
      thread that has not been given its message is still in the call. */
  lemma EveryCallIsServedOrWaits(st: State, run: seq<Step>, t: nat)
    requires Start(st) && Possible(st, run) && t in st.threads
    ensures t in Exec(st, run).threads
    ensures Calls(run, t) == Got(Exec(st, run).popped, t) + Owed(Exec(st, run).threads[t])
  {
    RunSettles(st, run, t);
  }

  /** A thread in the call can search whenever it wakes, if need be for no reason; waking changes neither the
      queue nor what it waits for. */
  lemma CallerCanSearch(st: State, t: nat) returns (wake: seq<Step>)
    requires t in st.threads && st.threads[t] != Outside
    ensures Possible(st, wake) && Enabled(Exec(st, wake), Search(t))
    ensures Exec(st, wake).queue == st.queue && Exec(st, wake).threads[t].id == st.threads[t].id
  {
    wake := if st.threads[t].Asleep? then [SpuriousWake(t)] else [];
    assert wake != [] ==> Exec(st, wake) == Apply(st, wake[0]);
  }

  lemma {:induction false} PushesAreKept(st: State, run: seq<Step>)
    requires Possible(st, run)
    ensures Exec(st, run).pushed == st.pushed + Pushes(run)
    decreases |run|
  {
    if run != [] {
      PushesAreKept(Apply(st, run[0]), run[1..]);
    }
  }

  /** Over every interleaving: no sleeper misses a message, each pushed message is handed out at most
      once and only to a caller asking for its identifier, messages with one identifier come out in the
      order they were pushed, and nothing is lost or invented. */
  lemma ExactlyOnceInOrder(st: State, run: seq<Step>, id: nat)
    requires Start(st) && Possible(st, run)
    ensures var end := Exec(st, run);
            && NoLostWakeup(end)
            && RightCaller(end)
            && OfId(Pushes(run), id) == OfId(Messages(end.popped), id) + OfId(end.queue, id)
            && multiset(Pushes(run)) == multiset(Messages(end.popped)) + multiset(end.queue)
  {
    forall i ensures AccountedAt(st, i) {}
    RunKeepsInv(st, run);
    PushesAreKept(st, run);
    assert Exec(st, run).pushed == Pushes(run);
    assert AccountedAt(Exec(st, run), id);
  }

  /** In a reachable state whose queue holds a message for a caller, that caller is awake, and its next
      search returns the oldest such message. */
  lemma WaitingMessageIsDelivered(st: State, run: seq<Step>, t: nat)
    requires Start(st) && Possible(st, run)
    requires var end := Exec(st, run);
             t in end.threads && end.threads[t] != Outside && HasId(end.queue, end.threads[t].id)
    ensures var end := Exec(st, run);
            var own := OfId(end.queue, end.threads[t].id);
            && end.threads[t].Searching? && own != []
            && AfterSearch(end, t).popped == end.popped + [Delivery(t, end.threads[t].id, own[0])]
            && AfterSearch(end, t).threads[t] == Outside
  {
    forall i ensures AccountedAt(st, i) {}
    RunKeepsInv(st, run);
    var end := Exec(st, run);
    RemoveFirstPerId(end.queue, end.threads[t].id, end.threads[t].id);
  }
}
