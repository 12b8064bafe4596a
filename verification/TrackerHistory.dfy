/** Whole runs of the tracker: what holds in every reachable state, and how every membership and every
    shared piece came about. */
module TrackerHistory {
  import opened Options
  import opened Pieces
  import opened Text
  import opened TrackerModel
  import opened TrackerRuns

  // ----- one event -----

  /** Past the login guard a command does to the accounts what GuardedAccounts says; otherwise groups,
      members and requests stay. */
  lemma ExecuteOnAccounts(w: World, sock: int, input: seq<string>, verb: Verb)
    requires GroupInv(w.acc) && Execute(w, sock, input, verb).Some?
    ensures var a, b := w.acc, Execute(w, sock, input, verb).value.acc;
            if sock in a.logmap && verb != CreatePeerVerb && verb != LoginVerb then
              b == GuardedAccounts(a, sock, input, verb)
            else
              a.group == b.group && a.members == b.members && a.pending == b.pending
  {
    if sock in w.acc.logmap && OnFiles(verb) {
      FileCommandsKeepAccounts(w, sock, input, verb);
    }
  }

  lemma ExecuteKeepsAccountInv(w: World, sock: int, input: seq<string>, verb: Verb)
    requires AccountInv(w.acc) && Execute(w, sock, input, verb).Some?
    ensures AccountInv(Execute(w, sock, input, verb).value.acc)
  {
    var a := w.acc;
    ExecuteOnAccounts(w, sock, input, verb);
    if verb == CreatePeerVerb {
      CreatePeerKeepsSessions(a, input);
      SameGroups(a, CreatePeer(a, input).acc);
    } else if verb == LoginVerb {
      LoginKeepsSessions(a, input, sock);
      SameGroups(a, Login(a, input, sock).acc);
    } else if sock in a.logmap {
      GuardedKeepsSessions(a, sock, input, verb);
      GuardedKeepsGroups(a, sock, input, verb);
    }
  }

  lemma EventKeepsAccountInv(w: World, e: Event)
    requires AccountInv(w.acc) && Handle(w, e).Some?
    ensures AccountInv(Handle(w, e).value.acc)
  {
    if e.Command? {
      ExecuteKeepsAccountInv(w, e.sock, e.input, VerbOf(e.input[0]));
    }
  }

  lemma SameGroups(a: Accounts, b: Accounts)
    requires GroupInv(a) && a.user.Keys <= b.user.Keys
    requires a.group == b.group && a.members == b.members && a.pending == b.pending
    ensures GroupInv(b)
  {
    forall g, u
      ensures Owns(b, g, u) ==> Member(b, g, u)
      ensures Member(b, g, u) ==> u in b.user
      ensures Asking(b, g, u) ==> u in b.user
    {
      assert Owns(a, g, u) <==> Owns(b, g, u);
      assert Member(a, g, u) <==> Member(b, g, u);
      assert Asking(a, g, u) <==> Asking(b, g, u);
    }
  }

  /** The sessions after one command: those not logged out, and one opened with the right password. */
  lemma SessionsAfterExecute(w: World, sock: int, input: seq<string>, verb: Verb, s: int, u: string)
    requires GroupInv(w.acc) && Execute(w, sock, input, verb).Some?
    ensures On(Execute(w, sock, input, verb).value.acc, s, u) <==>
            || (On(w.acc, s, u) && !LogsOut(w.acc, sock, input, verb, s))
            || LogsIn(w.acc, sock, input, verb, s, u)
  {
    if verb != CreatePeerVerb && verb != LoginVerb && sock in w.acc.logmap {
      ExecuteOnAccounts(w, sock, input, verb);
      SessionsAfterGuarded(w.acc, sock, input, verb, s, u);
    }
  }

  ghost predicate LoggingIn(w: World, e: Event, s: int, u: string) {
    Says(e, "login") && LogsIn(w.acc, e.sock, e.input, LoginVerb, s, u)
  }

  ghost predicate LoggingOut(w: World, e: Event, s: int) {
    Says(e, "logout") && LogsOut(w.acc, e.sock, e.input, LogoutVerb, s)
  }

  lemma SessionsAfterEvent(w: World, e: Event, s: int, u: string)
    requires GroupInv(w.acc) && Handle(w, e).Some?
    ensures On(Handle(w, e).value.acc, s, u) <==>
            (On(w.acc, s, u) && !LoggingOut(w, e, s)) || LoggingIn(w, e, s, u)
  {
    if e.Command? {
      VerbsAreWords(e.input[0]);
      SessionsAfterExecute(w, e.sock, e.input, VerbOf(e.input[0]), s, u);
    }
  }

  /** The command registers u. */
  ghost predicate Registering(w: World, e: Event, u: string) {
    && Says(e, "create_peer")
    && |e.input| == 3 && e.input[1] == u && u !in w.acc.user
  }

  /** Users are those registered, each with the password it was registered with, for ever. */
  lemma UsersAfterEvent(w: World, e: Event, u: string)
    requires GroupInv(w.acc) && Handle(w, e).Some?
    ensures var v := Handle(w, e).value;
            && (u in v.acc.user <==> u in w.acc.user || Registering(w, e, u))
            && (u in w.acc.user ==> v.acc.user[u] == w.acc.user[u])
            && (Registering(w, e, u) ==> v.acc.user[u] == e.input[2])
  {
    if e.Command? {
      VerbsAreWords(e.input[0]);
      var verb := VerbOf(e.input[0]);
      if verb != CreatePeerVerb && verb != LoginVerb && e.sock in w.acc.logmap {
        ExecuteOnAccounts(w, e.sock, e.input, verb);
        SessionsAfterGuarded(w.acc, e.sock, e.input, verb, 0, u);
      }
    }
  }

  /** The size and hash download_file prints. */
  function Details(w: World, name: string): (int, string) {
    if name in w.files.fileDetails then w.files.fileDetails[name] else (0, "")
  }

  ghost predicate Describing(w: World, e: Event, name: string) {
    && Says(e, "file_details") && e.sock in w.acc.logmap
    && |e.input| >= 4 && BaseName(e.input[1]) == name
  }

  /** Only file_details of that file changes them, to the size and hash it names. */
  lemma DetailsAfterEvent(w: World, e: Event, name: string)
    requires Handle(w, e).Some?
    ensures if Describing(w, e, name)
            then Stoi(e.input[2]).Some? && Details(Handle(w, e).value, name) == (Stoi(e.input[2]).value, e.input[3])
            else Details(Handle(w, e).value, name) == Details(w, name)
  {
    if e.Command? {
      VerbsAreWords(e.input[0]);
    }
  }

  /** The tables after one event, file by file and source by source. */
  lemma SharedAfterEvent(w: World, e: Event, name: string, k: int, x: FileInfo)
    requires FileInv(w.files) && Handle(w, e).Some?
    ensures var v := Handle(w, e).value;
            && (name in v.files.filePieces ==> TableKept(v.files, name))
            && (Shared(v, name, k, x) <==>
                || (Shared(w, name, k, x) && !Stopping(w, e, name, x.peer))
                || (Announcing(w, e, name, k, x) && !Taken(PiecesOf(w.files, name), k, x)))
  {
    if e.Command? {
      VerbsAreWords(e.input[0]);
      if e.sock in w.acc.logmap && OnFiles(VerbOf(e.input[0])) {
        FileCommandsKeepTables(w, e.sock, e.input, VerbOf(e.input[0]), name, k, x);
      }
    }
  }

  /** A file's piece table is dropped exactly by a stop_share that leaves no piece with a source. */
  lemma TableDroppedIff(w: World, e: Event, name: string)
    requires FileInv(w.files) && Handle(w, e).Some? && name in w.files.filePieces
    ensures name !in Handle(w, e).value.files.filePieces <==>
            exists u :: Stopping(w, e, name, u) && forall m, y :: Shared(w, name, m, y) ==> y.peer == u
  {
    if e.Command? {
      VerbsAreWords(e.input[0]);
    }
    if e.Command? && e.sock in w.acc.logmap && OnFiles(VerbOf(e.input[0])) {
      var u := w.acc.logmap[e.sock];
      FileCommandsKeepTables(w, e.sock, e.input, VerbOf(e.input[0]), name, 0, FileInfo("", 0, "", "", ""));
      assert Stopping(w, e, name, u) <==> Stops(w, e.sock, e.input, VerbOf(e.input[0]), name, u);
    }
  }

  lemma EventKeepsWorldInv(w: World, e: Event)
    requires WorldInv(w) && Handle(w, e).Some?
    ensures WorldInv(Handle(w, e).value)
  {
    EventKeepsAccountInv(w, e);
    var v := Handle(w, e).value;
    forall name | name in v.files.filePieces ensures TableKept(v.files, name) {
      SharedAfterEvent(w, e, name, 0, FileInfo("", 0, "", "", ""));
    }
  }

  /** The members after one event. */
  lemma MembersAfterEvent(w: World, e: Event, g: string, u: string)
    requires GroupInv(w.acc) && Handle(w, e).Some?
    ensures Member(Handle(w, e).value.acc, g, u) <==>
            || (Member(w.acc, g, u) && !Leaving(w, e, g, u))
            || Founding(w, e, g, u)
            || Admitting(w, e, g, u)
  {
    if e.Command? {
      VerbsAreWords(e.input[0]);
      MembersAfterExecute(w, e.sock, e.input, VerbOf(e.input[0]), g, u);
    }
  }

  lemma MembersAfterExecute(w: World, sock: int, input: seq<string>, verb: Verb, g: string, u: string)
    requires GroupInv(w.acc) && Execute(w, sock, input, verb).Some?
    ensures Member(Execute(w, sock, input, verb).value.acc, g, u) <==>
            || (Member(w.acc, g, u) && !Leaves(w.acc, sock, input, verb, g, u))
            || Founds(w.acc, sock, input, verb, g, u)
            || Admits(w.acc, sock, input, verb, g, u)
  {
    ExecuteOnAccounts(w, sock, input, verb);
    if sock in w.acc.logmap && verb != CreatePeerVerb && verb != LoginVerb {
      MembersAfter(w.acc, sock, input, verb, g, u);
    }
  }

  /** The requesters after one event. */
  lemma RequestersAfterEvent(w: World, e: Event, g: string, u: string)
    requires GroupInv(w.acc) && Handle(w, e).Some?
    ensures Asking(Handle(w, e).value.acc, g, u) <==>
            || (Asking(w.acc, g, u) && !Admitting(w, e, g, u))
            || Joining(w, e, g, u)
  {
    if e.Command? {
      VerbsAreWords(e.input[0]);
      RequestersAfterExecute(w, e.sock, e.input, VerbOf(e.input[0]), g, u);
    }
  }

  lemma RequestersAfterExecute(w: World, sock: int, input: seq<string>, verb: Verb, g: string, u: string)
    requires GroupInv(w.acc) && Execute(w, sock, input, verb).Some?
    ensures Asking(Execute(w, sock, input, verb).value.acc, g, u) <==>
            || (Asking(w.acc, g, u) && !Admits(w.acc, sock, input, verb, g, u))
            || Requests(w.acc, sock, input, verb, g, u)
  {
    ExecuteOnAccounts(w, sock, input, verb);
    if sock in w.acc.logmap && verb != CreatePeerVerb && verb != LoginVerb {
      RequestersAfter(w.acc, sock, input, verb, g, u);
    }
  }

  /** Only a member's own leave_group removes it. */
  lemma OnlyLeavingRemoves(w: World, e: Event, g: string, u: string)
    requires GroupInv(w.acc) && Handle(w, e).Some? && Member(w.acc, g, u)
    ensures !Member(Handle(w, e).value.acc, g, u) <==> Leaving(w, e, g, u)
  {
    MembersAfterEvent(w, e, g, u);
  }

  /** A group disappears exactly when its last member leaves. */
  lemma GroupGoneIffLastMemberLeaves(w: World, e: Event, g: string)
    requires GroupInv(w.acc) && Handle(w, e).Some? && g in w.acc.group
    ensures g !in Handle(w, e).value.acc.group <==>
            exists u :: Leaving(w, e, g, u) && forall o :: Member(w.acc, g, o) ==> o == u
  {
    if e.Command? {
      VerbsAreWords(e.input[0]);
    }
    if e.Command? && e.sock in w.acc.logmap {
      var verb, u := VerbOf(e.input[0]), w.acc.logmap[e.sock];
      if OnFiles(verb) {
        FileCommandsKeepAccounts(w, e.sock, e.input, verb);
      } else if verb != CreatePeerVerb && verb != LoginVerb {
        GroupsAfter(w.acc, e.sock, e.input, verb, g);
        assert Leaving(w, e, g, u) <==> Leaves(w.acc, e.sock, e.input, verb, g, u);
        OnlyMember(w.acc, g, u);
      }
    }
  }

  lemma OnlyMember(a: Accounts, g: string, u: string)
    requires GroupInv(a) && g in a.group
    ensures a.members[g] == {u} <==> Member(a, g, u) && forall o :: Member(a, g, o) ==> o == u
  {
    if Member(a, g, u) && forall o :: Member(a, g, o) ==> o == u {
      assert forall o | o in a.members[g] :: Member(a, g, o);
      assert a.members[g] == {u};
    }
    if a.members[g] == {u} {
      assert Member(a, g, u);
    }
  }

  /** The owner of a group that survives changes only when the owner leaves, and then to the least of the
      remaining members. */
  lemma OwnerHandsOver(w: World, e: Event, g: string)
    requires GroupInv(w.acc) && Handle(w, e).Some?
    requires g in w.acc.group && g in Handle(w, e).value.acc.group
    ensures var o, o' := w.acc.group[g], Handle(w, e).value.acc.group[g];
            if Leaving(w, e, g, o) then IsLeastOther(w.acc.members[g], o, o') else o' == o
  {
    if e.Command? {
      VerbsAreWords(e.input[0]);
      ExecuteHandsOver(w, e.sock, e.input, VerbOf(e.input[0]), g);
    }
  }

  lemma ExecuteHandsOver(w: World, sock: int, input: seq<string>, verb: Verb, g: string)
    requires GroupInv(w.acc) && Execute(w, sock, input, verb).Some?
    requires g in w.acc.group && g in Execute(w, sock, input, verb).value.acc.group
    ensures var o, o' := w.acc.group[g], Execute(w, sock, input, verb).value.acc.group[g];
            if Leaves(w.acc, sock, input, verb, g, o) then IsLeastOther(w.acc.members[g], o, o') else o' == o
  {
    var o' := Execute(w, sock, input, verb).value.acc.group[g];
    assert Owns(w.acc, g, w.acc.group[g]) && Owns(Execute(w, sock, input, verb).value.acc, g, o');
    ExecuteOnAccounts(w, sock, input, verb);
    if sock in w.acc.logmap && verb != CreatePeerVerb && verb != LoginVerb {
      OwnerAfter(w.acc, sock, input, verb, g, o');
    }
  }

  // ----- whole runs -----

  /** The session, group and file invariants hold in every reachable state. */
  lemma {:induction false} EveryStateIsSound(ws: seq<World>, es: seq<Event>, n: nat)
    requires IsRun(ws, es) && n <= |es|
    ensures WorldInv(ws[n])
    decreases n
  {
    if n > 0 {
      EveryStateIsSound(ws, es, n - 1);
      assert StepAt(ws, es, n - 1);
      EventKeepsWorldInv(ws[n - 1], es[n - 1]);
    }
  }

  ghost predicate AskingSince(ws: seq<World>, from: nat, to: nat, g: string, u: string)
  {
    && to < |ws|
    && forall k | from <= k <= to :: Asking(ws[k].acc, g, u)
  }

  ghost predicate MemberSince(ws: seq<World>, from: nat, to: nat, g: string, u: string)
  {
    && to < |ws|
    && forall k | from <= k <= to :: Member(ws[k].acc, g, u)
  }

  ghost predicate SharedSince(ws: seq<World>, from: nat, to: nat, name: string, p: int, x: FileInfo)
  {
    && to < |ws|
    && forall k | from <= k <= to :: Shared(ws[k], name, p, x)
  }

  lemma RequestCause(ws: seq<World>, es: seq<Event>, n: nat, g: string, u: string)
    requires IsRun(ws, es) && n < |es| && Asking(ws[n + 1].acc, g, u)
    ensures Asking(ws[n].acc, g, u) || Joining(ws[n], es[n], g, u)
  {
    EveryStateIsSound(ws, es, n);
    assert StepAt(ws, es, n);
    RequestersAfterEvent(ws[n], es[n], g, u);
  }

  lemma MembershipCause(ws: seq<World>, es: seq<Event>, n: nat, g: string, u: string)
    requires IsRun(ws, es) && n < |es| && Member(ws[n + 1].acc, g, u)
    ensures Member(ws[n].acc, g, u) || Founding(ws[n], es[n], g, u) || Admitting(ws[n], es[n], g, u)
    ensures Admitting(ws[n], es[n], g, u) ==> Asking(ws[n].acc, g, u)
  {
    EveryStateIsSound(ws, es, n);
    assert StepAt(ws, es, n);
    MembersAfterEvent(ws[n], es[n], g, u);
  }

  lemma SharingCause(ws: seq<World>, es: seq<Event>, n: nat, name: string, p: int, x: FileInfo)
    requires IsRun(ws, es) && n < |es| && Shared(ws[n + 1], name, p, x)
    ensures || (Shared(ws[n], name, p, x) && !Stopping(ws[n], es[n], name, x.peer))
            || Announcing(ws[n], es[n], name, p, x)
  {
    EveryStateIsSound(ws, es, n);
    assert StepAt(ws, es, n);
    SharedAfterEvent(ws[n], es[n], name, p, x);
  }

  /** Every pending request was made by the requester's own join_group and has been pending since. */
  lemma {:induction false} RequestsAreGenuine(ws: seq<World>, es: seq<Event>, n: nat, g: string, u: string)
    returns (j: nat)
    requires IsRun(ws, es) && n <= |es| && Asking(ws[n].acc, g, u)
    ensures j < n && Joining(ws[j], es[j], g, u) && AskingSince(ws, j + 1, n, g, u)
    decreases n
  {
    RequestCause(ws, es, n - 1, g, u);
    if Joining(ws[n - 1], es[n - 1], g, u) {
      j := n - 1;
    } else {
      j := RequestsAreGenuine(ws, es, n - 1, g, u);
    }
  }

  /** How u came to be a member: at i it founded the group, or the owner of that moment admitted it on a
      request it had made at some j before and that was pending from then on. */
  ghost predicate Entered(ws: seq<World>, es: seq<Event>, i: nat, g: string, u: string)
  {
    && |ws| == |es| + 1 && i < |es|
    && (|| Founding(ws[i], es[i], g, u)
        || (Admitting(ws[i], es[i], g, u)
            && exists j: nat :: j < i && Joining(ws[j], es[j], g, u) && AskingSince(ws, j + 1, i, g, u)))
  }

  /** Every current member founded the group or was admitted on its own request, and has not left since. */
  lemma {:induction false} MembershipIsEarned(ws: seq<World>, es: seq<Event>, n: nat, g: string, u: string)
    returns (i: nat)
    requires IsRun(ws, es) && n <= |es| && Member(ws[n].acc, g, u)
    ensures i < n && Entered(ws, es, i, g, u) && MemberSince(ws, i + 1, n, g, u)
    decreases n
  {
    MembershipCause(ws, es, n - 1, g, u);
    if Founding(ws[n - 1], es[n - 1], g, u) {
      i := n - 1;
    } else if Admitting(ws[n - 1], es[n - 1], g, u) {
      i := n - 1;
      var j := RequestsAreGenuine(ws, es, n - 1, g, u);
    } else {
      i := MembershipIsEarned(ws, es, n - 1, g, u);
    }
  }

  /** Every source a piece has was announced by that very peer, then a member of the group it named, and
      the peer has not stopped sharing the file since. */
  lemma {:induction false} SourcesWereAnnounced(ws: seq<World>, es: seq<Event>, n: nat, name: string, p: int,
                                                x: FileInfo)
    returns (i: nat)
    requires IsRun(ws, es) && n <= |es| && Shared(ws[n], name, p, x)
    ensures i < n && Announcing(ws[i], es[i], name, p, x) && SharedSince(ws, i + 1, n, name, p, x)
    ensures forall k | i < k < n :: !Stopping(ws[k], es[k], name, x.peer)
    decreases n
  {
    SharingCause(ws, es, n - 1, name, p, x);
    if Shared(ws[n - 1], name, p, x) && !Stopping(ws[n - 1], es[n - 1], name, x.peer) {
      i := SourcesWereAnnounced(ws, es, n - 1, name, p, x);
    } else {
      i := n - 1;
    }
  }

  ghost predicate OnSince(ws: seq<World>, from: nat, to: nat, s: int, u: string)
  {
    && to < |ws|
    && forall k | from <= k <= to :: On(ws[k].acc, s, u)
  }

  lemma {:induction false} PasswordsNeverChange(ws: seq<World>, es: seq<Event>, i: nat, n: nat, u: string)
    requires IsRun(ws, es) && i <= n <= |es| && u in ws[i].acc.user
    ensures u in ws[n].acc.user && ws[n].acc.user[u] == ws[i].acc.user[u]
    decreases n
  {
    if i < n {
      PasswordsNeverChange(ws, es, i, n - 1, u);
      EveryStateIsSound(ws, es, n - 1);
      assert StepAt(ws, es, n - 1);
      UsersAfterEvent(ws[n - 1], es[n - 1], u);
    }
  }

  lemma SessionCause(ws: seq<World>, es: seq<Event>, n: nat, s: int, u: string)
    requires IsRun(ws, es) && n < |es| && On(ws[n + 1].acc, s, u)
    ensures (On(ws[n].acc, s, u) && !LoggingOut(ws[n], es[n], s)) || LoggingIn(ws[n], es[n], s, u)
  {
    EveryStateIsSound(ws, es, n);
    assert StepAt(ws, es, n);
    SessionsAfterEvent(ws[n], es[n], s, u);
  }

  /** Every session was opened by a login on that socket with the password the user has to this day, and
      the socket has not logged out since. */
  lemma {:induction false} SessionsAreAuthenticated(ws: seq<World>, es: seq<Event>, n: nat, s: int, u: string)
    returns (i: nat)
    requires IsRun(ws, es) && n <= |es| && On(ws[n].acc, s, u)
    ensures i < n && LoggingIn(ws[i], es[i], s, u) && OnSince(ws, i + 1, n, s, u)
    ensures u in ws[n].acc.user && es[i].input[2] == ws[n].acc.user[u]
    ensures forall k | i < k < n :: !LoggingOut(ws[k], es[k], s)
    decreases n
  {
    SessionCause(ws, es, n - 1, s, u);
    if On(ws[n - 1].acc, s, u) && !LoggingOut(ws[n - 1], es[n - 1], s) {
      i := SessionsAreAuthenticated(ws, es, n - 1, s, u);
      PasswordsNeverChange(ws, es, n - 1, n, u);
    } else {
      i := n - 1;
      PasswordsNeverChange(ws, es, n - 1, n, u);
    }
  }

  lemma DetailsCause(ws: seq<World>, es: seq<Event>, n: nat, name: string)
    requires IsRun(ws, es) && n < |es|
    ensures if Describing(ws[n], es[n], name)
            then Stoi(es[n].input[2]).Some? && Details(ws[n + 1], name) == (Stoi(es[n].input[2]).value, es[n].input[3])
            else Details(ws[n + 1], name) == Details(ws[n], name)
  {
    EveryStateIsSound(ws, es, n);
    assert StepAt(ws, es, n);
    DetailsAfterEvent(ws[n], es[n], name);
  }

  /** The size and hash of a file are those of its last file_details; before any, zero and nothing. */
  lemma {:induction false} DetailsAreTheLastDescribed(ws: seq<World>, es: seq<Event>, n: nat, name: string)
    returns (last: Option<nat>)
    requires IsRun(ws, es) && n <= |es|
    ensures match last
            case None =>
              Details(ws[n], name) == (0, "") && forall k | 0 <= k < n :: !Describing(ws[k], es[k], name)
            case Some(i) =>
              && i < n && Describing(ws[i], es[i], name)
              && Stoi(es[i].input[2]).Some?
              && Details(ws[n], name) == (Stoi(es[i].input[2]).value, es[i].input[3])
              && forall k | i < k < n :: !Describing(ws[k], es[k], name)
    decreases n
  {
    if n == 0 {
      last := None;
    } else {
      DetailsCause(ws, es, n - 1, name);
      if Describing(ws[n - 1], es[n - 1], name) {
        last := Some(n - 1);
      } else {
        last := DetailsAreTheLastDescribed(ws, es, n - 1, name);
      }
    }
  }
}
