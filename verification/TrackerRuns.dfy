/** The tracker as a state machine: connections and client messages in any order. */
module TrackerRuns {
  import opened Text
  import opened Options
  import opened Pieces
  import opened TrackerModel

  datatype Event =
    | Connect(sock: int, text: string)                 // the first message of a connection
    | Command(sock: int, input: seq<string>)           // a later message, split at spaces

  datatype Verb =
    | CreatePeerVerb | LoginVerb | CreateGroupVerb | JoinGroupVerb | LeaveGroupVerb | ListRequestsVerb
    | AcceptRequestVerb | UploadFileVerb | DownloadFileVerb | LogoutVerb | StopShareVerb | FileDetailsVerb
    | OtherVerb                                        // the listing commands and unknown words

  function VerbOf(word: string): Verb {
    if word == "create_peer" then CreatePeerVerb
    else if word == "login" then LoginVerb
    else if word == "create_group" then CreateGroupVerb
    else if word == "join_group" then JoinGroupVerb
    else if word == "leave_group" then LeaveGroupVerb
    else if word == "list_requests" then ListRequestsVerb
    else if word == "accept_request" then AcceptRequestVerb
    else if word == "upload_file" then UploadFileVerb
    else if word == "download_file" then DownloadFileVerb
    else if word == "logout" then LogoutVerb
    else if word == "stop_share" then StopShareVerb
    else if word == "file_details" then FileDetailsVerb
    else OtherVerb
  }

  /** Each verb is one word. */
  lemma VerbsAreWords(word: string)
    ensures VerbOf(word) == CreatePeerVerb <==> word == "create_peer"
    ensures VerbOf(word) == LoginVerb <==> word == "login"
    ensures VerbOf(word) == CreateGroupVerb <==> word == "create_group"
    ensures VerbOf(word) == JoinGroupVerb <==> word == "join_group"
    ensures VerbOf(word) == LeaveGroupVerb <==> word == "leave_group"
    ensures VerbOf(word) == ListRequestsVerb <==> word == "list_requests"
    ensures VerbOf(word) == AcceptRequestVerb <==> word == "accept_request"
    ensures VerbOf(word) == UploadFileVerb <==> word == "upload_file"
    ensures VerbOf(word) == DownloadFileVerb <==> word == "download_file"
    ensures VerbOf(word) == LogoutVerb <==> word == "logout"
    ensures VerbOf(word) == StopShareVerb <==> word == "stop_share"
    ensures VerbOf(word) == FileDetailsVerb <==> word == "file_details"
  {}

  // ----- one message -----

  /** The accounts after a command that passed the login guard. */
  ghost function GuardedAccounts(a: Accounts, sock: int, input: seq<string>, verb: Verb): Accounts
    requires sock in a.logmap
  {
    match verb
    case CreateGroupVerb => CreateGroup(a, input, sock).acc
    case JoinGroupVerb => JoinGroup(a, input, sock).acc
    case LeaveGroupVerb => LeaveGroup(a, input, sock).acc
    case ListRequestsVerb => ListRequests(a, input, sock).acc
    case AcceptRequestVerb => AcceptRequest(a, input, sock).acc
    case LogoutVerb => Logout(a, input, sock).acc
    case _ => a
  }

  /** file_details; None where the command has too few words or stoi throws. */
  function FileDetails(w: World, input: seq<string>): Option<World> {
    if |input| < 4 then None
    else
      match Stoi(input[2])
      case None => None
      case Some(size) =>
        var details := w.files.fileDetails[BaseName(input[1]) := (size, input[3])];
        Some(w.(files := w.files.(fileDetails := details)))
  }

  ghost function GuardedFiles(w: World, sock: int, input: seq<string>, verb: Verb): Option<World>
    requires sock in w.acc.logmap
  {
    match verb
    case UploadFileVerb =>
      (match UploadFile(w, input, sock) case None => None case Some(out) => Some(out.world))
    case DownloadFileVerb => Some(AfterDownload(w, input, sock))
    case StopShareVerb => Some(StopShare(w, input, sock).world)
    case FileDetailsVerb => FileDetails(w, input)
    case _ => Some(w)
  }

  predicate OnFiles(verb: Verb) {
    verb in {UploadFileVerb, DownloadFileVerb, StopShareVerb, FileDetailsVerb}
  }

  ghost function Execute(w: World, sock: int, input: seq<string>, verb: Verb): Option<World> {
    if verb == CreatePeerVerb then Some(w.(acc := CreatePeer(w.acc, input).acc))
    else if verb == LoginVerb then Some(w.(acc := Login(w.acc, input, sock).acc))
    else if sock !in w.acc.logmap then Some(w)
    else if OnFiles(verb) then GuardedFiles(w, sock, input, verb)
    else Some(w.(acc := GuardedAccounts(w.acc, sock, input, verb)))
  }

  /** None: the message ends the tracker (no word at all, a missing word, or stoi throws). */
  ghost function Handle(w: World, e: Event): Option<World> {
    match e
    case Connect(sock, text) =>
      (match ParseAddress(text)
       case None => None
       case Some(at) => Some(w.(listen := w.listen[sock := at])))
    case Command(sock, input) => if input == [] then None else Execute(w, sock, input, VerbOf(input[0]))
  }

  // ----- runs -----

  const Start := World(Accounts(map[], map[], map[], map[], map[], map[]), Files(map[], map[], map[]), map[])

  ghost predicate StepAt(ws: seq<World>, es: seq<Event>, i: nat)
  {
    && i < |es| && |ws| == |es| + 1
    && Handle(ws[i], es[i]) == Some(ws[i + 1])
  }

  /** es from the empty tracker, and the worlds it passes through. */
  ghost predicate IsRun(ws: seq<World>, es: seq<Event>) {
    |ws| == |es| + 1 && ws[0] == Start && forall i: nat | i < |es| :: StepAt(ws, es, i)
  }

  // ----- the session invariant -----

  /** s is a session of u. */
  ghost predicate On(a: Accounts, s: int, u: string) {
    s in a.logmap && a.logmap[s] == u
  }

  ghost predicate Flagged(a: Accounts, u: string) {
    u in a.loggedIn && a.loggedIn[u]
  }

  /** A user is flagged exactly when some socket maps to it, no two sockets map to the same user, and
      sessions belong to registered users. */
  ghost predicate SessionInv(a: Accounts) {
    && (forall u :: Flagged(a, u) <==> exists s :: On(a, s, u))
    && (forall s, t, u | On(a, s, u) && On(a, t, u) :: s == t)
    && (forall s, u | On(a, s, u) :: u in a.user)
  }

  lemma CreatePeerKeepsSessions(a: Accounts, input: seq<string>)
    requires SessionInv(a)
    ensures SessionInv(CreatePeer(a, input).acc)
  {
    var b := CreatePeer(a, input).acc;
    SameSessions(a, b);
  }

  lemma SameSessions(a: Accounts, b: Accounts)
    requires SessionInv(a) && a.logmap == b.logmap && a.user.Keys <= b.user.Keys
    requires forall u :: Flagged(a, u) <==> Flagged(b, u)
    ensures SessionInv(b)
  {
    assert forall s, u :: On(a, s, u) <==> On(b, s, u);
  }

  lemma LoginKeepsSessions(a: Accounts, input: seq<string>, sock: int)
    requires SessionInv(a)
    ensures SessionInv(Login(a, input, sock).acc)
  {
    var out := Login(a, input, sock);
    var b := out.acc;
    if out.code != 1 {
      SameSessions(a, b);
    } else {
      var name := input[1];
      assert forall s, u :: On(b, s, u) <==> On(a, s, u) || (s == sock && u == name);
      assert forall u :: Flagged(b, u) <==> Flagged(a, u) || u == name;
      assert On(b, sock, name);
      assert !Flagged(a, name);
      assert forall s, u | On(a, s, u) :: Flagged(a, u);
    }
  }

  lemma LogoutKeepsSessions(a: Accounts, input: seq<string>, sock: int)
    requires SessionInv(a) && sock in a.logmap
    ensures SessionInv(Logout(a, input, sock).acc)
  {
    var b := Logout(a, input, sock).acc;
    if |input| == 1 {
      var name := a.logmap[sock];
      assert On(a, sock, name);
      assert forall s, u :: On(b, s, u) <==> On(a, s, u) && s != sock;
      assert forall u :: Flagged(b, u) <==> Flagged(a, u) && u != name;
    }
  }

  /** The command opens a session of u on s: the registered password, a free socket, a user not on. */
  ghost predicate LogsIn(a: Accounts, sock: int, input: seq<string>, verb: Verb, s: int, u: string) {
    && verb == LoginVerb && s == sock && |input| == 3 && input[1] == u
    && s !in a.logmap && u in a.user && a.user[u] == input[2] && !Flagged(a, u)
  }

  ghost predicate LogsOut(a: Accounts, sock: int, input: seq<string>, verb: Verb, s: int) {
    verb == LogoutVerb && s == sock && |input| == 1 && sock in a.logmap
  }

  lemma SessionsAfterGuarded(a: Accounts, sock: int, input: seq<string>, verb: Verb, s: int, u: string)
    requires sock in a.logmap && verb != LoginVerb
    ensures On(GuardedAccounts(a, sock, input, verb), s, u)
            <==> On(a, s, u) && !LogsOut(a, sock, input, verb, s)
    ensures GuardedAccounts(a, sock, input, verb).user == a.user
  {
    if verb != LogoutVerb {
      assert GuardedAccounts(a, sock, input, verb).logmap == a.logmap;
    }
  }

  lemma GuardedKeepsSessions(a: Accounts, sock: int, input: seq<string>, verb: Verb)
    requires SessionInv(a) && sock in a.logmap
    ensures SessionInv(GuardedAccounts(a, sock, input, verb))
  {
    if verb == LogoutVerb {
      LogoutKeepsSessions(a, input, sock);
    } else {
      var b := GuardedAccounts(a, sock, input, verb);
      assert a.logmap == b.logmap && a.user == b.user && a.loggedIn == b.loggedIn;
      SameSessions(a, b);
    }
  }

  // ----- the group invariant -----

  ghost predicate Member(a: Accounts, g: string, u: string) {
    g in a.members && u in a.members[g]
  }

  ghost predicate Asking(a: Accounts, g: string, u: string) {
    g in a.pending && u in a.pending[g]
  }

  ghost predicate Owns(a: Accounts, g: string, u: string) {
    g in a.group && a.group[g] == u
  }

  /** Groups and member tables have the same names, owners belong to their groups, and every member and
      requester is registered. */
  ghost predicate GroupInv(a: Accounts) {
    && a.group.Keys == a.members.Keys
    && (forall g, u | Owns(a, g, u) :: Member(a, g, u))
    && (forall g, u | Member(a, g, u) :: u in a.user)
    && (forall g, u | Asking(a, g, u) :: u in a.user)
  }

  ghost predicate AccountInv(a: Accounts) {
    SessionInv(a) && GroupInv(a)
  }

  /** The command makes u the founder of g. */
  ghost predicate Founds(a: Accounts, sock: int, input: seq<string>, verb: Verb, g: string, u: string) {
    verb == CreateGroupVerb && |input| == 2 && input[1] == g && On(a, sock, u) && g !in a.group
  }

  /** The command is u asking to join g. */
  ghost predicate Requests(a: Accounts, sock: int, input: seq<string>, verb: Verb, g: string, u: string) {
    && verb == JoinGroupVerb && |input| == 2 && input[1] == g && On(a, sock, u)
    && g in a.group && !Member(a, g, u)
  }

  /** The command is g's owner accepting a pending request of u. */
  ghost predicate Admits(a: Accounts, sock: int, input: seq<string>, verb: Verb, g: string, u: string) {
    && verb == AcceptRequestVerb && |input| == 3 && input[1] == g && input[2] == u && Asking(a, g, u)
    && sock in a.logmap && Owns(a, g, a.logmap[sock])
  }

  /** The command is u leaving g. */
  ghost predicate Leaves(a: Accounts, sock: int, input: seq<string>, verb: Verb, g: string, u: string) {
    verb == LeaveGroupVerb && |input| == 2 && input[1] == g && On(a, sock, u) && Member(a, g, u)
  }

  /** Who is a member afterwards: the members that did not leave, a founder, an admitted requester. */
  lemma MembersAfter(a: Accounts, sock: int, input: seq<string>, verb: Verb, g: string, u: string)
    requires GroupInv(a) && sock in a.logmap
    ensures Member(GuardedAccounts(a, sock, input, verb), g, u) <==>
            || (Member(a, g, u) && !Leaves(a, sock, input, verb, g, u))
            || Founds(a, sock, input, verb, g, u)
            || Admits(a, sock, input, verb, g, u)
  {
    if verb == LeaveGroupVerb {
      MembersAfterLeave(a, input, sock, g, u);
    }
  }

  lemma MembersAfterLeave(a: Accounts, input: seq<string>, sock: int, g: string, u: string)
    requires GroupInv(a) && sock in a.logmap
    ensures Member(LeaveGroup(a, input, sock).acc, g, u) <==>
            Member(a, g, u) && !Leaves(a, sock, input, LeaveGroupVerb, g, u)
  {
    if |input| == 2 && input[1] in a.group && Member(a, input[1], a.logmap[sock]) {
      var names, peer := a.members[input[1]], a.logmap[sock];
      OthersInLargerSet(names, peer);
      assert |names| <= 1 && u in names ==> u == peer;
    }
  }

  lemma LeavingKeepsRequests(a: Accounts, input: seq<string>, sock: int)
    requires sock in a.logmap
    ensures LeaveGroup(a, input, sock).acc.pending == a.pending
  {}

  /** Who is asking afterwards. */
  lemma RequestersAfter(a: Accounts, sock: int, input: seq<string>, verb: Verb, g: string, u: string)
    requires GroupInv(a) && sock in a.logmap
    ensures Asking(GuardedAccounts(a, sock, input, verb), g, u) <==>
            || (Asking(a, g, u) && !Admits(a, sock, input, verb, g, u))
            || Requests(a, sock, input, verb, g, u)
  {
    LeavingKeepsRequests(a, input, sock);
  }

  /** Who owns g afterwards: a founder; the old owner, unless it left; and after an owner left, the least
      of the other members. */
  lemma OwnerAfter(a: Accounts, sock: int, input: seq<string>, verb: Verb, g: string, u: string)
    requires GroupInv(a) && sock in a.logmap
    ensures Owns(GuardedAccounts(a, sock, input, verb), g, u) <==>
            || Founds(a, sock, input, verb, g, u)
            || (Owns(a, g, u) && !Leaves(a, sock, input, verb, g, u))
            || (exists o :: Owns(a, g, o) && Leaves(a, sock, input, verb, g, o) && IsLeastOther(a.members[g], o, u))
  {
    if verb == LeaveGroupVerb {
      OwnerAfterLeave(a, input, sock, g, u);
    }
  }

  lemma OwnerAfterLeave(a: Accounts, input: seq<string>, sock: int, g: string, u: string)
    requires GroupInv(a) && sock in a.logmap
    ensures Owns(LeaveGroup(a, input, sock).acc, g, u) <==>
            || (Owns(a, g, u) && !Leaves(a, sock, input, LeaveGroupVerb, g, u))
            || (exists o :: Owns(a, g, o) && Leaves(a, sock, input, LeaveGroupVerb, g, o)
                            && IsLeastOther(a.members[g], o, u))
  {
    var peer := a.logmap[sock];
    if |input| == 2 && input[1] == g && Owns(a, g, peer) {
      assert Member(a, g, peer) && Leaves(a, sock, input, LeaveGroupVerb, g, peer);
      var names := a.members[g];
      OthersInLargerSet(names, peer);
      if |names| > 1 {
        var least := LeastOther(names, peer);
        if IsLeastOther(names, peer, u) {
          LeastOtherIsUnique(names, peer, u, least);
        }
      }
    }
  }

  /** A group disappears exactly when its last member leaves. */
  lemma GroupsAfter(a: Accounts, sock: int, input: seq<string>, verb: Verb, g: string)
    requires GroupInv(a) && sock in a.logmap
    ensures g in GuardedAccounts(a, sock, input, verb).group <==>
            || Founds(a, sock, input, verb, g, a.logmap[sock])
            || (g in a.group && !(Leaves(a, sock, input, verb, g, a.logmap[sock])
                                  && a.members[g] == {a.logmap[sock]}))
  {
    var peer := a.logmap[sock];
    if verb == LeaveGroupVerb && g in a.group {
      assert Owns(a, g, a.group[g]) && Member(a, g, a.group[g]);
      if Leaves(a, sock, input, verb, g, peer) {
        OthersInLargerSet(a.members[g], peer);
        if |a.members[g]| <= 1 {
          assert forall o | o in a.members[g] :: o == peer;
          assert a.members[g] == {peer};
        }
      }
    }
  }

  lemma GuardedKeepsGroups(a: Accounts, sock: int, input: seq<string>, verb: Verb)
    requires AccountInv(a) && sock in a.logmap
    ensures GroupInv(GuardedAccounts(a, sock, input, verb))
  {
    var b := GuardedAccounts(a, sock, input, verb);
    assert On(a, sock, a.logmap[sock]);
    forall g, u
      ensures Member(b, g, u) ==> u in b.user
      ensures Owns(b, g, u) ==> Member(b, g, u)
      ensures Asking(b, g, u) ==> u in b.user
    {
      MembersAfter(a, sock, input, verb, g, u);
      OwnerAfter(a, sock, input, verb, g, u);
      RequestersAfter(a, sock, input, verb, g, u);
    }
  }

  // ----- the file invariant -----

  ghost predicate Listed(f: Files, g: string, name: string) {
    g in f.groupFile && name in f.groupFile[g]
  }

  /** Piece numbers of the file are unique, its sources are in set order, and some group lists it. */
  ghost predicate TableKept(f: Files, name: string)
  {
    && name in f.filePieces
    && Kept(f.filePieces[name]) && exists g :: Listed(f, g, name)
  }

  ghost predicate FileInv(f: Files) {
    forall name | name in f.filePieces :: TableKept(f, name)
  }

  /** The address a socket's connection announced; zero and nothing when there was none. */
  function AddressOf(w: World, sock: int): (int, string) {
    if sock in w.listen then w.listen[sock] else (0, "")
  }

  /** The command is x.peer, a member of the group it names, announcing piece k of the file at x.path, with
      its hash, to be fetched at the address of its connection. */
  ghost predicate Announces(w: World, sock: int, input: seq<string>, verb: Verb, name: string, k: int,
                            x: FileInfo) {
    && verb == UploadFileVerb && |input| == 5 && On(w.acc, sock, x.peer)
    && input[2] in w.acc.group && Member(w.acc, input[2], x.peer)
    && BaseName(input[1]) == name && Stoi(input[3]) == Some(k)
    && x.path == input[1] && x.hash == input[4] && (x.port, x.ip) == AddressOf(w, sock)
  }

  /** The command is u's stop_share of the file, through a group that lists it. */
  ghost predicate Stops(w: World, sock: int, input: seq<string>, verb: Verb, name: string, u: string) {
    && verb == StopShareVerb && |input| == 3 && On(w.acc, sock, u)
    && input[1] in w.acc.group && input[2] == name && Listed(w.files, input[1], name)
  }

  ghost predicate Shared(w: World, name: string, k: int, x: FileInfo) {
    name in w.files.filePieces && Sources(w.files.filePieces[name], k, x)
  }

  lemma UploadKeepsTables(w: World, input: seq<string>, sock: int, name: string)
    requires sock in w.acc.logmap && FileInv(w.files) && UploadFile(w, input, sock).Some?
    ensures var v := UploadFile(w, input, sock).value.world;
            && (name in v.files.filePieces ==> TableKept(v.files, name))
            && (name in w.files.filePieces ==> name in v.files.filePieces)
  {
    var v := UploadFile(w, input, sock).value.world;
    if UploadFile(w, input, sock).value.code == 0 {
      UploadKeeps(PiecesOf(w.files, BaseName(input[1])), Stoi(input[3]).value, CallerInfo(w, input, sock));
      assert Listed(v.files, input[2], BaseName(input[1]));
    }
    ListingsKept(w.files, v.files, name);
  }

  lemma UploadAfter(w: World, input: seq<string>, sock: int, name: string, k: int, x: FileInfo)
    requires sock in w.acc.logmap && FileInv(w.files) && UploadFile(w, input, sock).Some?
    ensures var v := UploadFile(w, input, sock).value.world;
            && (name in v.files.filePieces ==> TableKept(v.files, name))
            && (name in w.files.filePieces ==> name in v.files.filePieces)
            && (Shared(v, name, k, x) <==>
                || Shared(w, name, k, x)
                || (Announces(w, sock, input, UploadFileVerb, name, k, x)
                    && !Taken(PiecesOf(w.files, name), k, x)))
  {
    UploadKeepsTables(w, input, sock, name);
    if UploadFile(w, input, sock).value.code == 0 {
      var file, info := BaseName(input[1]), CallerInfo(w, input, sock);
      var before := PiecesOf(w.files, file);
      assert On(w.acc, sock, info.peer) && Member(w.acc, input[2], info.peer);
      UploadAddsOneSource(before, Stoi(input[3]).value, info, k, x);
      assert Shared(w, file, k, x) <==> Sources(before, k, x);
    }
  }

  lemma ListingsKept(f: Files, f': Files, name: string)
    ensures (forall g | Listed(f, g, name) :: Listed(f', g, name)) && (exists g :: Listed(f, g, name))
            ==> exists g :: Listed(f', g, name)
  {}

  /** stop_share takes all and only the caller's sources of that file, and the table goes exactly when
      nobody else's source is in it. */
  lemma StopShareAfter(w: World, input: seq<string>, sock: int, name: string, k: int, x: FileInfo)
    requires sock in w.acc.logmap && FileInv(w.files)
    ensures var v, peer := StopShare(w, input, sock).world, w.acc.logmap[sock];
            && v.acc == w.acc
            && (name in v.files.filePieces ==> TableKept(v.files, name))
            && (Shared(v, name, k, x) <==>
                Shared(w, name, k, x) && !Stops(w, sock, input, StopShareVerb, name, x.peer))
            && (name in v.files.filePieces <==>
                name in w.files.filePieces
                && (Stops(w, sock, input, StopShareVerb, name, peer) ==>
                      exists m, y :: Shared(w, name, m, y) && y.peer != peer))
  {
    var v, peer := StopShare(w, input, sock).world, w.acc.logmap[sock];
    ListingsKept(w.files, v.files, name);
    if name in w.files.filePieces && Stops(w, sock, input, StopShareVerb, name, peer) {
      var pieces := w.files.filePieces[name];
      assert TableKept(w.files, name);
      StopShareIsExact(pieces, peer, k, x);
      assert forall m, y :: Shared(w, name, m, y) <==> Sources(pieces, m, y);
      if Shared(w, name, k, x) && NoSources(WithoutPeerAll(pieces, peer)) {
        assert Sources(pieces, k, x);
      }
    }
  }

  /** Downloading changes no shared piece; it can add an empty table for a file that is listed. */
  lemma DownloadAfter(w: World, input: seq<string>, sock: int, name: string, k: int, x: FileInfo)
    requires sock in w.acc.logmap && FileInv(w.files)
    ensures var v := AfterDownload(w, input, sock);
            && (name in v.files.filePieces ==> TableKept(v.files, name))
            && (name in w.files.filePieces ==> name in v.files.filePieces)
            && (Shared(v, name, k, x) <==> Shared(w, name, k, x))
  {
    var v := AfterDownload(w, input, sock);
    if name in v.files.filePieces && name !in w.files.filePieces {
      assert Listed(v.files, input[1], name);
    }
    ListingsKept(w.files, v.files, name);
  }

  lemma DetailsAfter(w: World, input: seq<string>, name: string)
    requires FileInv(w.files) && FileDetails(w, input).Some?
    ensures var v := FileDetails(w, input).value;
            && v.acc == w.acc && v.files.filePieces == w.files.filePieces
            && (name in v.files.filePieces ==> TableKept(v.files, name))
  {
    ListingsKept(w.files, FileDetails(w, input).value.files, name);
  }

  // ----- one event -----

  /** A command whose first word is this one. */
  ghost predicate Says(e: Event, word: string) {
    e.Command? && e.input != [] && e.input[0] == word
  }

  ghost predicate Founding(w: World, e: Event, g: string, u: string) {
    Says(e, "create_group") && Founds(w.acc, e.sock, e.input, CreateGroupVerb, g, u)
  }

  ghost predicate Joining(w: World, e: Event, g: string, u: string) {
    Says(e, "join_group") && Requests(w.acc, e.sock, e.input, JoinGroupVerb, g, u)
  }

  ghost predicate Admitting(w: World, e: Event, g: string, u: string) {
    Says(e, "accept_request") && Admits(w.acc, e.sock, e.input, AcceptRequestVerb, g, u)
  }

  ghost predicate Leaving(w: World, e: Event, g: string, u: string) {
    Says(e, "leave_group") && Leaves(w.acc, e.sock, e.input, LeaveGroupVerb, g, u)
  }

  ghost predicate Announcing(w: World, e: Event, name: string, k: int, x: FileInfo) {
    Says(e, "upload_file") && Announces(w, e.sock, e.input, UploadFileVerb, name, k, x)
  }

  ghost predicate Stopping(w: World, e: Event, name: string, u: string) {
    Says(e, "stop_share") && Stops(w, e.sock, e.input, StopShareVerb, name, u)
  }

  ghost predicate WorldInv(w: World) {
    AccountInv(w.acc) && FileInv(w.files)
  }

  /** What a command on files may do to the accounts: nothing, once group names and member tables agree. */
  lemma FileCommandsKeepAccounts(w: World, sock: int, input: seq<string>, verb: Verb)
    requires GroupInv(w.acc) && sock in w.acc.logmap && OnFiles(verb)
    requires GuardedFiles(w, sock, input, verb).Some?
    ensures GuardedFiles(w, sock, input, verb).value.acc == w.acc
  {}

  lemma FileCommandsKeepTables(w: World, sock: int, input: seq<string>, verb: Verb, name: string, k: int,
                               x: FileInfo)
    requires sock in w.acc.logmap && FileInv(w.files) && OnFiles(verb)
    requires GuardedFiles(w, sock, input, verb).Some?
    ensures var v := GuardedFiles(w, sock, input, verb).value;
            && (name in v.files.filePieces ==> TableKept(v.files, name))
            && (Shared(v, name, k, x) <==>
                || (Shared(w, name, k, x) && !Stops(w, sock, input, verb, name, x.peer))
                || (Announces(w, sock, input, verb, name, k, x) && !Taken(PiecesOf(w.files, name), k, x)))
            && (name in w.files.filePieces ==>
                  (name !in v.files.filePieces <==>
                   && Stops(w, sock, input, verb, name, w.acc.logmap[sock])
                   && forall m, y :: Shared(w, name, m, y) ==> y.peer == w.acc.logmap[sock]))
  {
    match verb
    case UploadFileVerb => UploadAfter(w, input, sock, name, k, x);
    case DownloadFileVerb => DownloadAfter(w, input, sock, name, k, x);
    case StopShareVerb => StopShareAfter(w, input, sock, name, k, x);
    case FileDetailsVerb => DetailsAfter(w, input, name);
  }
}
