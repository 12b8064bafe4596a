/** Where the tracker's file tables come from, over whole runs: the address, path and hash of every source,
    and the groups that list a file. */
module TrackerSources {
  import opened Text
  import opened Options
  import opened Pieces
  import opened TrackerModel
  import opened TrackerRuns
  import opened TrackerHistory

  // ----- addresses -----

  ghost predicate Connects(e: Event, s: int) {
    e.Connect? && e.sock == s
  }

  /** Only a connection on that socket changes its address, to the one its first message parses to. */
  lemma AddressAfterEvent(w: World, e: Event, s: int)
    requires GroupInv(w.acc) && Handle(w, e).Some?
    ensures if Connects(e, s) then ParseAddress(e.text) == Some(AddressOf(Handle(w, e).value, s))
            else AddressOf(Handle(w, e).value, s) == AddressOf(w, s)
  {
    if e.Command? {
      AddressAfterExecute(w, e.sock, e.input, VerbOf(e.input[0]), s);
    }
  }

  lemma AddressAfterExecute(w: World, sock: int, input: seq<string>, verb: Verb, s: int)
    requires GroupInv(w.acc) && Execute(w, sock, input, verb).Some?
    ensures AddressOf(Execute(w, sock, input, verb).value, s) == AddressOf(w, s)
  {
    if sock in w.acc.logmap && verb == UploadFileVerb {
      AddressAfterUpload(w, input, sock, s);
    } else {
      ListenAfterExecute(w, sock, input, verb);
    }
  }

  lemma AddressAfterUpload(w: World, input: seq<string>, sock: int, s: int)
    requires sock in w.acc.logmap && UploadFile(w, input, sock).Some?
    ensures AddressOf(UploadFile(w, input, sock).value.world, s) == AddressOf(w, s)
  {}

  lemma ListenAfterExecute(w: World, sock: int, input: seq<string>, verb: Verb)
    requires Execute(w, sock, input, verb).Some? && !(sock in w.acc.logmap && verb == UploadFileVerb)
    ensures Execute(w, sock, input, verb).value.listen == w.listen
  {}

  lemma AddressCause(ws: seq<World>, es: seq<Event>, n: nat, s: int)
    requires IsRun(ws, es) && n < |es|
    ensures if Connects(es[n], s) then ParseAddress(es[n].text) == Some(AddressOf(ws[n + 1], s))
            else AddressOf(ws[n + 1], s) == AddressOf(ws[n], s)
  {
    EveryStateIsSound(ws, es, n);
    assert StepAt(ws, es, n);
    AddressAfterEvent(ws[n], es[n], s);
  }

  /** last is the last connection on the socket before n; None when there is none. */
  ghost predicate LastConnection(es: seq<Event>, n: nat, s: int, last: Option<nat>)
  {
    && n <= |es|
    && match last
       case None => forall k | 0 <= k < n :: !Connects(es[k], s)
       case Some(c) => c < n && Connects(es[c], s) && forall k | c < k < n :: !Connects(es[k], s)
  }

  lemma ConnectionOneLater(es: seq<Event>, m: nat, s: int, last: Option<nat>)
    requires m < |es| && LastConnection(es, m, s, last)
    ensures LastConnection(es, m + 1, s, if Connects(es[m], s) then Some(m) else last)
  {}

  /** What the socket's last connection announced. */
  ghost predicate AnnouncedAt(es: seq<Event>, last: Option<nat>, at: (int, string)) {
    match last
    case None => at == (0, "")
    case Some(c) => c < |es| && es[c].Connect? && ParseAddress(es[c].text) == Some(at)
  }

  /** A socket's address is the one its last connection announced; zero and nothing before any. */
  lemma {:induction false} AddressIsTheLastAnnounced(ws: seq<World>, es: seq<Event>, n: nat, s: int)
    returns (last: Option<nat>)
    requires IsRun(ws, es) && n <= |es|
    ensures LastConnection(es, n, s, last) && AnnouncedAt(es, last, AddressOf(ws[n], s))
    decreases n
  {
    last := None;
    if n > 0 {
      var before := AddressIsTheLastAnnounced(ws, es, n - 1, s);
      AddressCause(ws, es, n - 1, s);
      ConnectionOneLater(es, n - 1, s, before);
      last := if Connects(es[n - 1], s) then Some(n - 1) else before;
    }
  }

  /** Every source a piece has goes back to one upload_file, whose words are its path and hash, sent on a
      socket on which its peer was logged in; and its address to that socket's last connection before. */
  lemma SourcesAreGenuine(ws: seq<World>, es: seq<Event>, n: nat, name: string, p: int, x: FileInfo)
    returns (i: nat, last: Option<nat>)
    requires IsRun(ws, es) && n <= |es| && Shared(ws[n], name, p, x)
    ensures i < n && Says(es[i], "upload_file") && |es[i].input| == 5 && On(ws[i].acc, es[i].sock, x.peer)
    ensures es[i].input[1] == x.path && es[i].input[4] == x.hash
    ensures BaseName(x.path) == name && Stoi(es[i].input[3]) == Some(p)
    ensures Member(ws[i].acc, es[i].input[2], x.peer)
    ensures forall k | i < k < n :: !Stopping(ws[k], es[k], name, x.peer)
    ensures LastConnection(es, i, es[i].sock, last) && AnnouncedAt(es, last, (x.port, x.ip))
  {
    i := SourcesWereAnnounced(ws, es, n, name, p, x);
    last := AddressIsTheLastAnnounced(ws, es, i, es[i].sock);
  }

  // ----- listings -----

  /** A member's upload_file of the file to g. */
  ghost predicate Lists(w: World, e: Event, g: string, name: string) {
    && Says(e, "upload_file") && ListsFrom(w, e.sock, e.input, g, name)
  }

  ghost predicate ListsFrom(w: World, sock: int, input: seq<string>, g: string, name: string) {
    && |input| == 5 && sock in w.acc.logmap && input[2] == g && BaseName(input[1]) == name
    && g in w.acc.group && Member(w.acc, g, w.acc.logmap[sock])
  }

  /** A stop_share of the file through g, by a peer that has its only sources. */
  ghost predicate Unlists(w: World, e: Event, g: string, name: string) {
    && Says(e, "stop_share") && UnlistsFrom(w, e.sock, e.input, g, name)
  }

  ghost predicate UnlistsFrom(w: World, sock: int, input: seq<string>, g: string, name: string) {
    && |input| == 3 && input[1] == g && input[2] == name
    && sock in w.acc.logmap && Stops(w, sock, input, StopShareVerb, name, w.acc.logmap[sock])
    && name in w.files.filePieces && forall m, y :: Shared(w, name, m, y) ==> y.peer == w.acc.logmap[sock]
  }

  lemma ListedAfterUpload(w: World, sock: int, input: seq<string>, g: string, name: string)
    requires GroupInv(w.acc) && sock in w.acc.logmap && UploadFile(w, input, sock).Some?
    ensures Listed(UploadFile(w, input, sock).value.world.files, g, name)
            <==> Listed(w.files, g, name) || ListsFrom(w, sock, input, g, name)
  {}

  lemma ListedAfterStop(w: World, sock: int, input: seq<string>, g: string, name: string)
    requires FileInv(w.files) && sock in w.acc.logmap
    ensures Listed(StopShare(w, input, sock).world.files, g, name)
            <==> Listed(w.files, g, name) && !UnlistsFrom(w, sock, input, g, name)
  {
    var u := w.acc.logmap[sock];
    if |input| == 3 && input[2] == name && name in w.files.filePieces {
      assert TableKept(w.files, name);
      var pieces := w.files.filePieces[name];
      StopShareIsExact(pieces, u, 0, FileInfo("", 0, "", "", ""));
      assert forall m, y :: Shared(w, name, m, y) <==> Sources(pieces, m, y);
    }
  }

  lemma ListedAfterExecute(w: World, sock: int, input: seq<string>, verb: Verb, g: string, name: string)
    requires WorldInv(w) && Execute(w, sock, input, verb).Some?
    ensures Listed(Execute(w, sock, input, verb).value.files, g, name)
            <==> || (Listed(w.files, g, name) && !(verb == StopShareVerb && UnlistsFrom(w, sock, input, g, name)))
                 || (verb == UploadFileVerb && ListsFrom(w, sock, input, g, name))
  {
    if sock in w.acc.logmap && verb == UploadFileVerb {
      ListedAfterUpload(w, sock, input, g, name);
    } else if sock in w.acc.logmap && verb == StopShareVerb {
      ListedAfterStop(w, sock, input, g, name);
    }
  }

  /** A group lists the files uploaded to it, until a stop_share through it takes a file's last source. */
  lemma ListedAfterEvent(w: World, e: Event, g: string, name: string)
    requires WorldInv(w) && Handle(w, e).Some?
    ensures Listed(Handle(w, e).value.files, g, name)
            <==> (Listed(w.files, g, name) && !Unlists(w, e, g, name)) || Lists(w, e, g, name)
  {
    if e.Command? {
      VerbsAreWords(e.input[0]);
      ListedAfterExecute(w, e.sock, e.input, VerbOf(e.input[0]), g, name);
    }
  }

  /** The file was uploaded to g at j, and g has not lost it between j and n. */
  ghost predicate ListedSince(ws: seq<World>, es: seq<Event>, j: nat, n: nat, g: string, name: string)
  {
    && j < n <= |es| <= |ws|
    && Lists(ws[j], es[j], g, name) && forall d | j < d < n :: !Unlists(ws[d], es[d], g, name)
  }

  ghost predicate EverListed(ws: seq<World>, es: seq<Event>, n: nat, g: string, name: string)
  {
    && n <= |es| <= |ws|
    && exists j: nat :: j < n && ListedSince(ws, es, j, n, g, name)
  }

  lemma ListedOneLater(ws: seq<World>, es: seq<Event>, m: nat, g: string, name: string)
    requires m < |es| <= |ws|
    ensures EverListed(ws, es, m + 1, g, name)
            <==> (EverListed(ws, es, m, g, name) && !Unlists(ws[m], es[m], g, name)) || Lists(ws[m], es[m], g, name)
  {
    var n := m + 1;
    if j: nat :| j < m && ListedSince(ws, es, j, m, g, name) {
      assert !Unlists(ws[m], es[m], g, name) ==> ListedSince(ws, es, j, n, g, name);
    }
    if Lists(ws[m], es[m], g, name) {
      assert ListedSince(ws, es, m, n, g, name);
    }
    if j: nat :| j < n && ListedSince(ws, es, j, n, g, name) {
      assert j < m ==> ListedSince(ws, es, j, m, g, name) && !Unlists(ws[m], es[m], g, name);
    }
  }

  /** In every reachable state a group lists exactly the files uploaded to it that it has not lost since. */
  lemma {:induction false} ListedIffUploaded(ws: seq<World>, es: seq<Event>, n: nat, g: string, name: string)
    requires IsRun(ws, es) && n <= |es|
    ensures Listed(ws[n].files, g, name) <==> EverListed(ws, es, n, g, name)
    decreases n
  {
    if n > 0 {
      var m := n - 1;
      ListedIffUploaded(ws, es, m, g, name);
      EveryStateIsSound(ws, es, m);
      assert StepAt(ws, es, m);
      ListedAfterEvent(ws[m], es[m], g, name);
      ListedOneLater(ws, es, m, g, name);
    }
  }
}
