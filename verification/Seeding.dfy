/** The numbering of a file's pieces over runs of the tracker. Each seeder runs piece_creation, which
    announces 0, 1, 2, ... whatever the tracker replies; an announcement that is refused is not made up
    for. */
module Seeding {
  import opened Options
  import opened Text
  import opened Pieces
  import opened DownloadReply
  import opened TrackerModel
  import opened TrackerRuns
  import opened TrackerHistory

  /** piece_creation: one upload command per block of the file, numbered from zero. */
  method PieceCreation(command: string, hashes: seq<string>) returns (sent: seq<string>)
    ensures |sent| == |hashes|
    ensures forall i | 0 <= i < |sent| :: sent[i] == command + " " + ToString(i) + " " + hashes[i]
  {
    sent := [];
    var i := 0;
    while i < |hashes|
      invariant i <= |hashes| && |sent| == i
      invariant forall j | 0 <= j < i :: sent[j] == command + " " + ToString(j) + " " + hashes[j]
    {
      sent := sent + [command + " " + ToString(i) + " " + hashes[i]];
      i := i + 1;
    }
  }

  // ----- one event on one file -----

  function Vector(w: World, name: string): seq<Piece> {
    PiecesOf(w.files, name)
  }

  /** e announces piece k of the file at path to g over the socket. */
  ghost predicate Announcement(e: Event, sock: int, g: string, path: string, k: int) {
    && Says(e, "upload_file") && e.sock == sock && |e.input| == 5
    && e.input[1] == path && e.input[2] == g && Stoi(e.input[3]) == Some(k)
  }

  /** u announces piece k of the file to group g. */
  ghost predicate Attempts(w: World, e: Event, u: string, g: string, name: string, k: int) {
    && Says(e, "upload_file") && |e.input| == 5 && Announcement(e, e.sock, g, e.input[1], k)
    && BaseName(e.input[1]) == name && On(w.acc, e.sock, u)
  }

  /** The announcement gets past the checks: the caller is a member of the group it names. */
  ghost predicate AcceptedFrom(w: World, sock: int, input: seq<string>, name: string, k: int) {
    && |input| == 5 && sock in w.acc.logmap && input[2] in w.acc.group
    && Member(w.acc, input[2], w.acc.logmap[sock])
    && BaseName(input[1]) == name && Stoi(input[3]) == Some(k)
  }

  ghost predicate Accepts(w: World, e: Event, name: string, k: int) {
    Says(e, "upload_file") && AcceptedFrom(w, e.sock, e.input, name, k)
  }

  /** An announcement is accepted exactly when its author is a member of the group at that moment. */
  lemma AcceptedIffMember(w: World, e: Event, u: string, g: string, name: string, k: int)
    requires GroupInv(w.acc) && Attempts(w, e, u, g, name, k)
    ensures Accepts(w, e, name, k) <==> Member(w.acc, g, u)
  {
    assert Member(w.acc, g, u) ==> g in w.acc.group;
  }

  /** Those are the announcements upload_file answers with 0; the others leave every file as it is. */
  lemma AcceptedIffCodeZero(w: World, e: Event, u: string, g: string, name: string, k: int)
    requires GroupInv(w.acc) && Attempts(w, e, u, g, name, k)
    ensures UploadFile(w, e.input, e.sock).Some?
    ensures var out := UploadFile(w, e.input, e.sock).value;
            && (out.code == 0 <==> Accepts(w, e, name, k))
            && (out.code != 0 ==> out.world.files == w.files)
  {
    AcceptedIffMember(w, e, u, g, name, k);
  }

  /** The vector after u's stop_share: without u's sources, and gone when no source is left. */
  function AfterStop(pieces: seq<Piece>, u: string): seq<Piece> {
    var left := WithoutPeerAll(pieces, u);
    if NoSources(left) then [] else left
  }

  lemma VectorAfterExecute(w: World, sock: int, input: seq<string>, verb: Verb, name: string)
    requires Execute(w, sock, input, verb).Some?
    ensures var v := Execute(w, sock, input, verb).value;
            && (forall k | verb == UploadFileVerb && AcceptedFrom(w, sock, input, name, k) ::
                  Vector(v, name) == Upload(Vector(w, name), k, CallerInfo(w, input, sock)))
            && (forall u | Stops(w, sock, input, verb, name, u) ::
                  Vector(v, name) == AfterStop(Vector(w, name), u))
            && (|| Vector(v, name) == Vector(w, name)
                || (exists k :: verb == UploadFileVerb && AcceptedFrom(w, sock, input, name, k))
                || (exists u :: Stops(w, sock, input, verb, name, u)))
  {
    if sock in w.acc.logmap && verb == UploadFileVerb {
      VectorAfterUpload(w, sock, input, name);
    } else if sock in w.acc.logmap && verb == StopShareVerb {
      VectorAfterStop(w, sock, input, name);
    }
  }

  lemma VectorAfterUpload(w: World, sock: int, input: seq<string>, name: string)
    requires sock in w.acc.logmap && UploadFile(w, input, sock).Some?
    ensures var v := UploadFile(w, input, sock).value.world;
            && (forall k | AcceptedFrom(w, sock, input, name, k) ::
                  Vector(v, name) == Upload(Vector(w, name), k, CallerInfo(w, input, sock)))
            && ((forall k :: !AcceptedFrom(w, sock, input, name, k)) ==> Vector(v, name) == Vector(w, name))
  {
    if UploadFile(w, input, sock).value.code == 0 && BaseName(input[1]) == name {
      assert AcceptedFrom(w, sock, input, name, Stoi(input[3]).value);
    }
  }

  lemma VectorAfterStop(w: World, sock: int, input: seq<string>, name: string)
    requires sock in w.acc.logmap
    ensures var v := StopShare(w, input, sock).world;
            && (forall u | Stops(w, sock, input, StopShareVerb, name, u) ::
                  Vector(v, name) == AfterStop(Vector(w, name), u))
            && ((forall u :: !Stops(w, sock, input, StopShareVerb, name, u)) ==> Vector(v, name) == Vector(w, name))
  {
    var u := w.acc.logmap[sock];
    assert On(w.acc, sock, u);
    if |input| == 3 && input[1] in w.acc.group && input[2] == name && Listed(w.files, input[1], name) {
      assert Stops(w, sock, input, StopShareVerb, name, u);
    }
  }

  /** The vector changes by accepted announcements and by stop_share, and by nothing else. */
  lemma VectorAfterEvent(w: World, e: Event, name: string)
    requires Handle(w, e).Some?
    ensures var v := Handle(w, e).value;
            && (forall k | Accepts(w, e, name, k) ::
                  Vector(v, name) == Upload(Vector(w, name), k, CallerInfo(w, e.input, e.sock)))
            && (forall u | Stopping(w, e, name, u) :: Vector(v, name) == AfterStop(Vector(w, name), u))
            && (|| Vector(v, name) == Vector(w, name)
                || (exists k :: Accepts(w, e, name, k))
                || (exists u :: Stopping(w, e, name, u)))
  {
    if e.Command? {
      var verb := VerbOf(e.input[0]);
      VerbsAreWords(e.input[0]);
      VectorAfterExecute(w, e.sock, e.input, verb, name);
      assert forall k ::
          Accepts(w, e, name, k) <==> verb == UploadFileVerb && AcceptedFrom(w, e.sock, e.input, name, k);
      assert forall u :: Stopping(w, e, name, u) <==> Stops(w, e.sock, e.input, verb, name, u);
    }
  }

  // ----- which numbers a vector has -----

  ghost predicate HasNumber(pieces: seq<Piece>, k: int) {
    exists i :: 0 <= i < |pieces| && pieces[i].number == k
  }

  lemma UploadAddsNumber(pieces: seq<Piece>, n: int, x: FileInfo, k: int)
    ensures HasNumber(Upload(pieces, n, x), k) <==> HasNumber(pieces, k) || k == n
  {
    var i, after := IndexOf(pieces, n), Upload(pieces, n, x);
    assert after[i].number == n;
    if j :| 0 <= j < |pieces| && pieces[j].number == k {
      assert after[j].number == k;
    }
    if j :| 0 <= j < |after| && after[j].number == k {
      assert j != i ==> pieces[j].number == k;
    }
  }

  /** The command is a stop_share that leaves no piece of the file with a source. */
  ghost predicate Drops(w: World, e: Event, name: string) {
    exists u :: Stopping(w, e, name, u) && NoSources(WithoutPeerAll(Vector(w, name), u))
  }

  lemma NumbersAfterEvent(w: World, e: Event, name: string, k: int)
    requires Handle(w, e).Some?
    ensures HasNumber(Vector(Handle(w, e).value, name), k)
            <==> (HasNumber(Vector(w, name), k) && !Drops(w, e, name)) || Accepts(w, e, name, k)
  {
    VectorAfterEvent(w, e, name);
    var before := Vector(w, name);
    if n :| Accepts(w, e, name, n) {
      UploadAddsNumber(before, n, CallerInfo(w, e.input, e.sock), k);
    } else if u :| Stopping(w, e, name, u) {
      assert forall u' :: Stopping(w, e, name, u') ==> u' == u;
    }
  }

  /** A numbered vector stays numbered exactly when an accepted number is at most its length. */
  lemma NumberingAfterEvent(w: World, e: Event, name: string)
    requires Handle(w, e).Some? && Numbered(Vector(w, name))
    ensures Numbered(Vector(Handle(w, e).value, name))
            <==> forall k | Accepts(w, e, name, k) :: 0 <= k <= |Vector(w, name)|
  {
    VectorAfterEvent(w, e, name);
    var before := Vector(w, name);
    if n :| Accepts(w, e, name, n) {
      UploadStaysNumberedIff(before, n, CallerInfo(w, e.input, e.sock));
      assert forall k | Accepts(w, e, name, k) :: k == n;
    }
  }

  // ----- whole runs -----

  ghost predicate Undropped(ws: seq<World>, es: seq<Event>, from: nat, to: nat, name: string)
  {
    && to <= |es| <= |ws|
    && forall d | from <= d < to :: !Drops(ws[d], es[d], name)
  }

  /** Piece k of the file was accepted at j and the file has not been dropped between j and n. */
  ghost predicate AcceptedAt(ws: seq<World>, es: seq<Event>, j: nat, n: nat, name: string, k: int)
  {
    && j < n <= |es| <= |ws|
    && Accepts(ws[j], es[j], name, k) && Undropped(ws, es, j + 1, n, name)
  }

  ghost predicate AcceptedBefore(ws: seq<World>, es: seq<Event>, n: nat, name: string, k: int)
  {
    && n <= |es| <= |ws|
    && exists j: nat :: j < n && AcceptedAt(ws, es, j, n, name, k)
  }

  /** A vector has the numbers accepted since the file was last dropped. */
  lemma {:induction false} NumbersWereAccepted(ws: seq<World>, es: seq<Event>, n: nat, name: string, k: int)
    requires IsRun(ws, es) && n <= |es|
    ensures HasNumber(Vector(ws[n], name), k) <==> AcceptedBefore(ws, es, n, name, k)
    decreases n
  {
    if n > 0 {
      NumbersWereAccepted(ws, es, n - 1, name, k);
      NumbersOneLater(ws, es, n - 1, name, k);
      AcceptedOneLater(ws, es, n - 1, name, k);
    }
  }

  lemma NumbersOneLater(ws: seq<World>, es: seq<Event>, m: nat, name: string, k: int)
    requires IsRun(ws, es) && m < |es|
    ensures HasNumber(Vector(ws[m + 1], name), k)
            <==> (HasNumber(Vector(ws[m], name), k) && !Drops(ws[m], es[m], name)) || Accepts(ws[m], es[m], name, k)
  {
    assert StepAt(ws, es, m);
    NumbersAfterEvent(ws[m], es[m], name, k);
  }

  lemma AcceptedOneLater(ws: seq<World>, es: seq<Event>, m: nat, name: string, k: int)
    requires m < |es| <= |ws|
    ensures AcceptedBefore(ws, es, m + 1, name, k)
            <==> (AcceptedBefore(ws, es, m, name, k) && !Drops(ws[m], es[m], name)) || Accepts(ws[m], es[m], name, k)
  {
    if j: nat :| j < m && AcceptedAt(ws, es, j, m, name, k) {
      assert !Drops(ws[m], es[m], name) ==> AcceptedAt(ws, es, j, m + 1, name, k);
    }
    if Accepts(ws[m], es[m], name, k) {
      assert AcceptedAt(ws, es, m, m + 1, name, k);
    }
    var n := m + 1;
    if j: nat :| j < n && AcceptedAt(ws, es, j, n, name, k) {
      assert j < m ==> AcceptedAt(ws, es, j, m, name, k) && !Drops(ws[m], es[m], name);
    }
  }

  /** The file's vector is numbered 0, 1, 2, ... in order in each of the first states of the run. */
  ghost predicate AlwaysNumbered(ws: seq<World>, n: nat, name: string)
  {
    && n < |ws|
    && forall i | 0 <= i <= n :: Numbered(Vector(ws[i], name))
  }

  /** Numbering holds throughout exactly when no accepted number exceeds the length it finds. */
  lemma {:induction false} NumberedIffWithinLength(ws: seq<World>, es: seq<Event>, n: nat, name: string)
    requires IsRun(ws, es) && n <= |es|
    ensures AlwaysNumbered(ws, n, name)
            <==> forall i: nat, k | i < n && Accepts(ws[i], es[i], name, k) :: 0 <= k <= |Vector(ws[i], name)|
    decreases n
  {
    if n > 0 {
      NumberedIffWithinLength(ws, es, n - 1, name);
      assert StepAt(ws, es, n - 1);
      if Numbered(Vector(ws[n - 1], name)) {
        NumberingAfterEvent(ws[n - 1], es[n - 1], name);
      }
    }
  }

  /** An accepted piece k > 0 follows an accepted piece k - 1, with no drop of the file in between. */
  ghost predicate InOrder(ws: seq<World>, es: seq<Event>, i: nat, name: string, k: int)
  {
    && i < |es| <= |ws|
    && k >= 0 && (k > 0 ==> AcceptedBefore(ws, es, i, name, k - 1))
  }

  lemma WithinLengthIffInOrder(ws: seq<World>, es: seq<Event>, i: nat, name: string, k: int)
    requires IsRun(ws, es) && i < |es| && Numbered(Vector(ws[i], name))
    ensures 0 <= k <= |Vector(ws[i], name)| <==> InOrder(ws, es, i, name, k)
  {
    NumbersWereAccepted(ws, es, i, name, k - 1);
    var pieces := Vector(ws[i], name);
    if 0 < k <= |pieces| {
      assert pieces[k - 1].number == k - 1;
    }
  }

  ghost predicate AllInOrder(ws: seq<World>, es: seq<Event>, n: nat, name: string)
  {
    && n <= |es| <= |ws|
    && forall i: nat, k {:trigger InOrder(ws, es, i, name, k)} | i < n && Accepts(ws[i], es[i], name, k) ::
      InOrder(ws, es, i, name, k)
  }

  lemma NextInOrder(ws: seq<World>, es: seq<Event>, m: nat, name: string)
    requires IsRun(ws, es) && m < |es| && Numbered(Vector(ws[m], name))
    ensures Numbered(Vector(ws[m + 1], name))
            <==> forall k | Accepts(ws[m], es[m], name, k) :: InOrder(ws, es, m, name, k)
  {
    assert StepAt(ws, es, m);
    NumberingAfterEvent(ws[m], es[m], name);
    forall k | Accepts(ws[m], es[m], name, k)
      ensures 0 <= k <= |Vector(ws[m], name)| <==> InOrder(ws, es, m, name, k)
    {
      WithinLengthIffInOrder(ws, es, m, name, k);
    }
  }

  /** In every run of the tracker: the vector is numbered in every state exactly when every accepted piece
      comes in order. */
  lemma {:induction false} NumberedIffInOrder(ws: seq<World>, es: seq<Event>, n: nat, name: string)
    requires IsRun(ws, es) && n <= |es|
    ensures AlwaysNumbered(ws, n, name) <==> AllInOrder(ws, es, n, name)
    decreases n
  {
    if n > 0 {
      var m := n - 1;
      NumberedIffInOrder(ws, es, m, name);
      if Numbered(Vector(ws[m], name)) {
        NextInOrder(ws, es, m, name);
      }
    }
  }

  // ----- seeders that are members -----

  ghost predicate Stays(ws: seq<World>, es: seq<Event>, from: nat, to: nat, g: string, u: string)
  {
    && to <= |es| <= |ws|
    && forall d | from <= d < to :: !Leaving(ws[d], es[d], g, u)
  }

  /** u announces k after its own k - 1, without leaving g and without the file being dropped meanwhile. */
  ghost predicate GoesOn(ws: seq<World>, es: seq<Event>, j: nat, i: nat, u: string, g: string, name: string, k: int)
  {
    && j < i <= |es| <= |ws|
    && Attempts(ws[j], es[j], u, g, name, k - 1)
    && Stays(ws, es, j, i, g, u) && Undropped(ws, es, j + 1, i, name)
  }

  /** What a peer running piece_creation does, if it is a member when it announces piece 0. */
  ghost predicate Seeds(ws: seq<World>, es: seq<Event>, i: nat, u: string, g: string, name: string, k: int)
  {
    && i < |es| <= |ws|
    && k >= 0
    && (k == 0 ==> Member(ws[i].acc, g, u))
    && (k > 0 ==> exists j: nat :: j < i && GoesOn(ws, es, j, i, u, g, name, k))
  }

  ghost predicate AllSeed(ws: seq<World>, es: seq<Event>, n: nat, name: string)
  {
    && n <= |es| <= |ws|
    && forall i: nat, u, g, k {:trigger Seeds(ws, es, i, u, g, name, k)}
      | i < n && Attempts(ws[i], es[i], u, g, name, k) ::
      Seeds(ws, es, i, u, g, name, k)
  }

  lemma {:induction false} MembersStay(ws: seq<World>, es: seq<Event>, j: nat, i: nat, g: string, u: string)
    requires IsRun(ws, es) && j <= i <= |es| && Member(ws[j].acc, g, u) && Stays(ws, es, j, i, g, u)
    ensures Member(ws[i].acc, g, u)
    decreases i
  {
    if j < i {
      MembersStay(ws, es, j, i - 1, g, u);
      EveryStateIsSound(ws, es, i - 1);
      assert StepAt(ws, es, i - 1);
      OnlyLeavingRemoves(ws[i - 1], es[i - 1], g, u);
    }
  }

  /** A seeder that is a member when it announces piece 0 is a member at each later announcement. */
  lemma {:induction false} SeedersAreMembers(ws: seq<World>, es: seq<Event>, i: nat, u: string, g: string,
                                             name: string, k: int)
    requires IsRun(ws, es) && i < |es| && AllSeed(ws, es, |es|, name)
    requires Attempts(ws[i], es[i], u, g, name, k)
    ensures Member(ws[i].acc, g, u)
    decreases i
  {
    assert Seeds(ws, es, i, u, g, name, k);
    if k > 0 {
      var j: nat :| j < i && GoesOn(ws, es, j, i, u, g, name, k);
      SeedersAreMembers(ws, es, j, u, g, name, k - 1);
      MembersStay(ws, es, j, i, g, u);
    }
  }

  /** So it is never refused, and what is accepted from it comes in order. */
  lemma SeedersAreNeverRefused(ws: seq<World>, es: seq<Event>, i: nat, u: string, g: string, name: string, k: int)
    requires IsRun(ws, es) && i < |es| && AllSeed(ws, es, |es|, name)
    requires Attempts(ws[i], es[i], u, g, name, k)
    ensures Accepts(ws[i], es[i], name, k) && InOrder(ws, es, i, name, k)
  {
    MemberIsAccepted(ws, es, i, u, g, name, k);
    assert Seeds(ws, es, i, u, g, name, k);
    if k > 0 {
      var j: nat :| j < i && GoesOn(ws, es, j, i, u, g, name, k);
      MemberIsAccepted(ws, es, j, u, g, name, k - 1);
      assert AcceptedAt(ws, es, j, i, name, k - 1);
    }
  }

  lemma MemberIsAccepted(ws: seq<World>, es: seq<Event>, i: nat, u: string, g: string, name: string, k: int)
    requires IsRun(ws, es) && i < |es| && AllSeed(ws, es, |es|, name)
    requires Attempts(ws[i], es[i], u, g, name, k)
    ensures Accepts(ws[i], es[i], name, k)
  {
    SeedersAreMembers(ws, es, i, u, g, name, k);
    EveryStateIsSound(ws, es, i);
    AcceptedIffMember(ws[i], es[i], u, g, name, k);
  }

  /** However such seeders interleave, with each other and with every other command, the vector is numbered
      0..k-1 in order in every state. */
  lemma ConcurrentSeedersKeepNumbering(ws: seq<World>, es: seq<Event>, name: string)
    requires IsRun(ws, es) && AllSeed(ws, es, |es|, name)
    ensures AlwaysNumbered(ws, |es|, name)
  {
    forall i: nat, k | i < |es| && Accepts(ws[i], es[i], name, k) ensures InOrder(ws, es, i, name, k) {
      var u := ws[i].acc.logmap[es[i].sock];
      assert On(ws[i].acc, es[i].sock, u);
      SeedersAreNeverRefused(ws, es, i, u, es[i].input[2], name, k);
    }
    NumberedIffInOrder(ws, es, |es|, name);
  }

  /** When the table is dropped under a seeder that has announced some pieces, its next announcement
      starts a vector that is not numbered from zero: numbering survives exactly for a seeder at zero. */
  lemma DroppedTableBreaksNumbering(next: nat, x: FileInfo)
    ensures Numbered(Upload([], next, x)) <==> next == 0
  {
    UploadStaysNumberedIff([], next, x);
  }

  // ----- a refused announcement is not made up for -----

  function Acceptance(): Event {
    Command(1, ["accept_request", "g", "s"])
  }

  /** o founds g and s asks to join it. */
  function Prologue(): seq<Event> {
    [Command(1, ["create_peer", "o", "p"]), Command(2, ["create_peer", "s", "p"]),
     Command(1, ["login", "o", "p"]), Command(2, ["login", "s", "p"]),
     Command(1, ["create_group", "g"]), Command(2, ["join_group", "g"])]
  }

  /** Both are logged in, g is o's, and s is no member yet; no file is known. */
  ghost predicate Waiting(w: World) {
    && On(w.acc, 1, "o") && On(w.acc, 2, "s")
    && Owns(w.acc, "g", "o") && "g" in w.acc.members && w.acc.members["g"] == {"o"}
    && Asking(w.acc, "g", "s") && w.files == Start.files
  }

  /** The accounts of o and s, neither logged in. */
  ghost predicate TwoAccounts(w: World) {
    && w.acc == Accounts(map["o" := "p", "s" := "p"], map["o" := false, "s" := false], map[], map[], map[], map[])
    && w.files == Start.files
  }

  lemma CreateBoth() returns (w1: World, w2: World)
    ensures Handle(Start, Prologue()[0]) == Some(w1) && Handle(w1, Prologue()[1]) == Some(w2)
    ensures TwoAccounts(w2)
  {
    VerbsAreWords("create_peer");
    assert "o" != "s";
    w1 := Handle(Start, Prologue()[0]).value;
    w2 := Handle(w1, Prologue()[1]).value;
  }

  lemma LogBothIn(w: World) returns (w1: World, w2: World)
    requires TwoAccounts(w)
    ensures Handle(w, Prologue()[2]) == Some(w1) && Handle(w1, Prologue()[3]) == Some(w2)
    ensures On(w2.acc, 1, "o") && On(w2.acc, 2, "s")
    ensures w2.acc.group == map[] && w2.acc.members == map[] && w2.acc.pending == map[]
    ensures w2.files == Start.files
  {
    VerbsAreWords("login");
    assert "o" != "s";
    w1 := Handle(w, Prologue()[2]).value;
    w2 := Handle(w1, Prologue()[3]).value;
  }

  lemma FoundAndAsk(w: World) returns (w1: World, w2: World)
    requires On(w.acc, 1, "o") && On(w.acc, 2, "s")
    requires w.acc.group == map[] && w.acc.members == map[] && w.acc.pending == map[] && w.files == Start.files
    ensures Handle(w, Prologue()[4]) == Some(w1) && Handle(w1, Prologue()[5]) == Some(w2)
    ensures Waiting(w2)
  {
    VerbsAreWords("create_group");
    VerbsAreWords("join_group");
    assert "o" != "s";
    w1 := Handle(w, Prologue()[4]).value;
    w2 := Handle(w1, Prologue()[5]).value;
  }

  /** What piece_creation sends for piece k is such an announcement. */
  lemma PieceIsAnnounced(sock: int, path: string, g: string, hash: string, k: int)
    requires 0 <= k <= INT_MAX
    ensures Announcement(Command(sock, ["upload_file", path, g, ToString(k), hash]), sock, g, path, k)
  {
    StoiOfToString(k);
  }

  lemma Admit(w: World) returns (w1: World)
    requires Waiting(w)
    ensures Handle(w, Acceptance()) == Some(w1)
    ensures w1.files == w.files
    ensures On(w1.acc, 2, "s") && "g" in w1.acc.group && Member(w1.acc, "g", "s")
  {
    VerbsAreWords("accept_request");
    w1 := Handle(w, Acceptance()).value;
  }

  lemma FirstPiece(w: World, e: Event, name: string, k: int) returns (w1: World)
    requires Accepts(w, e, name, k) && Vector(w, name) == []
    ensures Handle(w, e) == Some(w1)
    ensures |Vector(w1, name)| == 1 && Vector(w1, name)[0].number == k
  {
    w1 := Handle(w, e).value;
    VectorAfterEvent(w, e, name);
    assert |Upload([], k, CallerInfo(w, e.input, e.sock))| == 1;
  }

  lemma OneMoreEvent(ws: seq<World>, es: seq<Event>, e: Event, w: World)
    requires IsRun(ws, es) && Handle(ws[|es|], e) == Some(w)
    ensures IsRun(ws + [w], es + [e])
  {
    var vs, ds := ws + [w], es + [e];
    forall i: nat | i < |ds| ensures StepAt(vs, ds, i) {
      if i < |es| {
        assert StepAt(ws, es, i);
        assert vs[i] == ws[i] && vs[i + 1] == ws[i + 1] && ds[i] == es[i];
      }
    }
  }

  lemma ThreeMoreEvents(ws: seq<World>, es: seq<Event>, e1: Event, w1: World, e2: Event, w2: World, e3: Event,
                        w3: World)
    returns (vs: seq<World>)
    requires IsRun(ws, es) && |es| == 6
    requires Handle(ws[6], e1) == Some(w1) && Handle(w1, e2) == Some(w2) && Handle(w2, e3) == Some(w3)
    ensures IsRun(vs, es + [e1] + [e2] + [e3])
    ensures |vs| == 10 && vs[6] == ws[6] && vs[7] == w1 && vs[8] == w2 && vs[9] == w3
  {
    OneMoreEvent(ws, es, e1, w1);
    OneMoreEvent(ws + [w1], es + [e1], e2, w2);
    OneMoreEvent(ws + [w1] + [w2], es + [e1] + [e2], e3, w3);
    vs := ws + [w1] + [w2] + [w3];
  }

  lemma PrologueRun() returns (ws: seq<World>)
    ensures IsRun(ws, Prologue()) && |ws| == 7 && Waiting(ws[6])
  {
    var w1, w2 := CreateBoth();
    var w3, w4 := LogBothIn(w2);
    var w5, w6 := FoundAndAsk(w4);
    ws := [Start, w1, w2, w3, w4, w5, w6];
    forall i: nat | i < |Prologue()| ensures StepAt(ws, Prologue(), i) {
      assert i in {0, 1, 2, 3, 4, 5};
    }
  }

  /** s's first announcement is refused and its second, accepted, is the first piece of the file. */
  lemma RefusedThenAccepted(w: World, e0: Event, e1: Event, path: string) returns (w1: World, w2: World)
    requires Waiting(w) && Announcement(e0, 2, "g", path, 0) && Announcement(e1, 2, "g", path, 1)
    ensures Handle(w, e0) == Some(w) && Handle(w, Acceptance()) == Some(w1) && Handle(w1, e1) == Some(w2)
    ensures On(w1.acc, 2, "s") && Vector(w2, BaseName(path)) != [] && !Numbered(Vector(w2, BaseName(path)))
  {
    w1 := Admit(w);
    w2 := FirstPiece(w1, e1, BaseName(path), 1);
  }

  ghost predicate StopsNothing(es: seq<Event>) {
    forall i | 0 <= i < |es| :: !Says(es[i], "stop_share")
  }

  lemma PrologueStopsNothing()
    ensures StopsNothing(Prologue()) && !Says(Acceptance(), "stop_share")
  {}

  lemma StillStopsNothing(es: seq<Event>, e0: Event, e: Event, e1: Event)
    requires StopsNothing(es) && !Says(e, "stop_share") && Says(e0, "upload_file") && Says(e1, "upload_file")
    ensures StopsNothing(es + [e0] + [e] + [e1])
  {}

  /** s asks to join o's group and starts seeding at once; o accepts after s has announced piece 0. Piece 0
      is refused, piece 1 is accepted, and the vector starts at 1: a run of the tracker, without any
      stop_share, in which a peer that announces 0 and 1 in order leaves a file unnumbered. */
  lemma LateAdmissionBreaksNumbering(e0: Event, e1: Event, path: string) returns (ws: seq<World>, es: seq<Event>)
    requires Announcement(e0, 2, "g", path, 0) && Announcement(e1, 2, "g", path, 1)
    ensures IsRun(ws, es) && |es| == 9 && es[6] == e0 && es[8] == e1 && StopsNothing(es)
    ensures On(ws[6].acc, 2, "s") && ws[7] == ws[6] && On(ws[8].acc, 2, "s")
    ensures Vector(ws[9], BaseName(path)) != [] && !Numbered(Vector(ws[9], BaseName(path)))
  {
    var start := PrologueRun();
    var w1, w2 := RefusedThenAccepted(start[6], e0, e1, path);
    ws := ThreeMoreEvents(start, Prologue(), e0, start[6], Acceptance(), w1, e1, w2);
    PrologueStopsNothing();
    StillStopsNothing(Prologue(), e0, Acceptance(), e1);
    es := Prologue() + [e0] + [Acceptance()] + [e1];
  }

  // ----- the reply of a reachable table -----

  ghost predicate PortsFit(listen: map<int, (int, string)>) {
    forall s | s in listen :: INT_MIN <= listen[s].0 <= INT_MAX
  }

  lemma PortsFitAfter(w: World, e: Event, w': World)
    requires PortsFit(w.listen) && Handle(w, e) == Some(w')
    ensures PortsFit(w'.listen)
  {}

  lemma {:induction false} PortsAlwaysFit(ws: seq<World>, es: seq<Event>, n: nat)
    requires IsRun(ws, es) && n <= |es|
    ensures PortsFit(ws[n].listen)
    decreases n
  {
    if n > 0 {
      PortsAlwaysFit(ws, es, n - 1);
      assert StepAt(ws, es, n - 1);
      PortsFitAfter(ws[n - 1], es[n - 1], ws[n]);
    }
  }

  lemma SourcePortsFit(ws: seq<World>, es: seq<Event>, n: nat, name: string, p: int, x: FileInfo)
    requires IsRun(ws, es) && n <= |es| && Shared(ws[n], name, p, x)
    ensures INT_MIN <= x.port <= INT_MAX
  {
    var i := SourcesWereAnnounced(ws, es, n, name, p, x);
    PortsAlwaysFit(ws, es, i);
  }

  lemma SizeFits(ws: seq<World>, es: seq<Event>, n: nat, name: string)
    requires IsRun(ws, es) && n <= |es|
    ensures INT_MIN <= Details(ws[n], name).0 <= INT_MAX
  {
    var last := DetailsAreTheLastDescribed(ws, es, n, name);
  }

  lemma VectorIsClean(ws: seq<World>, es: seq<Event>, n: nat, name: string)
    requires IsRun(ws, es) && n <= |es| && name in ws[n].files.filePieces
    requires forall p, x | Shared(ws[n], name, p, x) :: OneLine(x.ip) && OneLine(x.path) && OneLine(x.hash)
    ensures var pieces := Vector(ws[n], name); forall i | 0 <= i < |pieces| :: Clean(pieces[i].sources)
  {
    EveryStateIsSound(ws, es, n);
    var pieces := Vector(ws[n], name);
    assert TableKept(ws[n].files, name);
    forall i | 0 <= i < |pieces| ensures Clean(pieces[i].sources) {
      forall j | 0 <= j < |pieces[i].sources| ensures Printable(pieces[i].sources[j]) {
        var x := pieces[i].sources[j];
        assert Sources(pieces, pieces[i].number, x);
        assert Shared(ws[n], name, pieces[i].number, x);
        SourcePortsFit(ws, es, n, name, pieces[i].number, x);
      }
    }
  }

  /** The reply for a file with pieces, when the accepted ones came in order. */
  lemma ReachableReplyParsesBack(ws: seq<World>, es: seq<Event>, n: nat, name: string)
    requires IsRun(ws, es) && n <= |es| && Vector(ws[n], name) != []
    requires AllInOrder(ws, es, n, name)
    requires OneLine(Details(ws[n], name).1)
    requires forall p, x | Shared(ws[n], name, p, x) :: OneLine(x.ip) && OneLine(x.path) && OneLine(x.hash)
    ensures var (size, fileHash) := Details(ws[n], name);
            var pieces := Vector(ws[n], name);
            ParseText(Render(ReplyLines(size, fileHash, pieces))) == Some(Parsed(size, fileHash, Table(pieces)))
            <==> NoClash(pieces)
  {
    var (size, fileHash) := Details(ws[n], name);
    NumberedIffInOrder(ws, es, n, name);
    SizeFits(ws, es, n, name);
    VectorIsClean(ws, es, n, name);
    DownloadReplyRoundTrip(size, fileHash, Vector(ws[n], name));
  }
}
