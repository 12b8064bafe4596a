/** The tracker as the source writes it: tables that the commands change in place, each command tied to
    its account in TrackerModel and TrackerRuns, about which the run theorems are proved. */
module Tracker {
  import opened Text
  import opened Options
  import opened Pieces
  import DownloadReply
  import Model = TrackerModel
  import opened TrackerRuns

  class Tracker {
    var user: map<string, string>
    var loggedIn: map<string, bool>
    var logmap: map<int, string>
    var group: map<string, string>
    var groupMembers: map<string, set<string>>
    var pending: map<string, set<string>>
    var groupFile: map<string, set<string>>
    var listenmap: map<int, (int, string)>
    var filePieces: map<string, seq<Piece>>
    var fileDetails: map<string, (int, string)>

    ghost function Accounts(): Model.Accounts
      reads this
    {
      Model.Accounts(user, loggedIn, logmap, group, groupMembers, pending)
    }

    ghost function View(): Model.World
      reads this
    {
      Model.World(Accounts(), Model.Files(groupFile, filePieces, fileDetails), listenmap)
    }

    constructor ()
      ensures View() == Start
    {
      user, loggedIn, logmap := map[], map[], map[];
      group, groupMembers, pending := map[], map[], map[];
      groupFile, listenmap, filePieces, fileDetails := map[], map[], map[], map[];
    }

    method CreatePeer(input: seq<string>) returns (code: int)
      modifies this`user, this`loggedIn
      ensures Model.Outcome(Accounts(), code) == Model.CreatePeer(old(Accounts()), input)
    {
      if |input| != 3 {
        return -1;
      }
      if input[1] in user {
        return -2;
      }
      user := user[input[1] := input[2]];
      if input[1] !in loggedIn {
        loggedIn := loggedIn[input[1] := false];
      }
      return 1;
    }

    method Login(input: seq<string>, sock: int) returns (code: int)
      modifies this`loggedIn, this`logmap
      ensures Model.Outcome(Accounts(), code) == Model.Login(old(Accounts()), input, sock)
    {
      if |input| != 3 {
        return 2;
      }
      if sock in logmap {
        return 3;
      }
      if input[1] !in loggedIn {
        loggedIn := loggedIn[input[1] := false];
      }
      if loggedIn[input[1]] {
        return 4;
      }
      if input[1] in user {
        if user[input[1]] == input[2] {
          loggedIn := loggedIn[input[1] := true];
          logmap := logmap[sock := input[1]];
          return 1;
        }
      }
      return 0;
    }

    method Logout(input: seq<string>, sock: int) returns (code: int)
      requires sock in logmap
      modifies this`loggedIn, this`logmap
      ensures Model.Outcome(Accounts(), code) == Model.Logout(old(Accounts()), input, sock)
    {
      if |input| != 1 {
        return -1;
      }
      loggedIn := loggedIn[logmap[sock] := false];
      logmap := logmap - {sock};
      return 0;
    }

    method CreateGroup(input: seq<string>, sock: int) returns (code: int)
      requires sock in logmap
      modifies this`group, this`groupMembers
      ensures Model.Outcome(Accounts(), code) == Model.CreateGroup(old(Accounts()), input, sock)
    {
      if |input| != 2 {
        return -1;
      }
      if input[1] in group {
        return 0;
      }
      var name := logmap[sock];
      group := group[input[1] := name];
      groupMembers := groupMembers[input[1] := Model.At(groupMembers, input[1]) + {name}];
      return 1;
    }

    method JoinGroup(input: seq<string>, sock: int) returns (code: int)
      requires sock in logmap
      modifies this`groupMembers, this`pending
      ensures Model.Outcome(Accounts(), code) == Model.JoinGroup(old(Accounts()), input, sock)
    {
      if |input| != 2 {
        return -1;
      }
      var name := logmap[sock];
      if input[1] !in group {
        return -2;
      }
      groupMembers := Model.Touch(groupMembers, input[1]);
      if name in groupMembers[input[1]] {
        return 0;
      }
      pending := pending[input[1] := Model.At(pending, input[1]) + {name}];
      return 1;
    }

    /** list_requests and the messages it sends to the owner. */
    method ListRequests(input: seq<string>, sock: int) returns (code: int, sent: seq<string>)
      requires sock in logmap
      modifies this`pending
      ensures Model.Outcome(Accounts(), code) == Model.ListRequests(old(Accounts()), input, sock)
      ensures if code != 1 then sent == []
              else if Model.At(pending, input[1]) == {} then sent == ["no pending request\n"]
              else Lists(sent, pending[input[1]])
    {
      if |input| != 2 {
        return -1, [];
      }
      if input[1] !in group {
        return -2, [];
      }
      if logmap[sock] == group[input[1]] {
        pending := Model.Touch(pending, input[1]);
        if |pending[input[1]]| > 0 {
          sent := SendNames(pending[input[1]]);
        } else {
          sent := ["no pending request\n"];
        }
        return 1, sent;
      }
      return 0, [];
    }

    /** The loop over a set of names, one message each. */
    static method SendNames(names: set<string>) returns (sent: seq<string>)
      ensures Lists(sent, names)
    {
      sent := [];
      ghost var order: seq<string> := [];
      var rest := names;
      while rest != {}
        invariant rest <= names && Visits(order, names - rest) && Ended(sent, order)
        invariant forall n, o | n in order && o in rest :: Less(n, o)
        decreases |rest|
      {
        LeastExists(rest);
        var it :| it in rest && IsLeast(rest, it);
        VisitsNext(order, names - rest, it);
        assert names - rest + {it} == names - (rest - {it});
        forall n, o | n in order + [it] && o in rest - {it} ensures Less(n, o) {
          assert n in order || n == it;
        }
        sent := sent + [it + "\n"];
        order := order + [it];
        rest := rest - {it};
      }
      assert names - rest == names;
    }

    method AcceptRequest(input: seq<string>, sock: int) returns (code: int)
      requires sock in logmap
      modifies this`groupMembers, this`pending
      ensures Model.Outcome(Accounts(), code) == Model.AcceptRequest(old(Accounts()), input, sock)
    {
      if |input| != 3 {
        return -1;
      }
      var groupName, peer := input[1], input[2];
      if groupName !in group {
        return -2;
      }
      pending := Model.Touch(pending, groupName);
      if peer !in pending[groupName] {
        return -3;
      }
      if logmap[sock] == group[groupName] {
        groupMembers := groupMembers[groupName := Model.At(groupMembers, groupName) + {peer}];
        pending := pending[groupName := pending[groupName] - {peer}];
        return 1;
      }
      return 0;
    }

    method LeaveGroup(input: seq<string>, sock: int) returns (code: int)
      requires sock in logmap
      modifies this`group, this`groupMembers
      ensures Model.Outcome(Accounts(), code) == Model.LeaveGroup(old(Accounts()), input, sock)
    {
      if |input| != 2 {
        return -1;
      }
      var peer, g := logmap[sock], input[1];
      if g !in group {
        return -2;
      }
      groupMembers := Model.Touch(groupMembers, g);
      if peer !in groupMembers[g] {
        return -3;
      }
      if group[g] == peer {
        if |groupMembers[g]| > 1 {
          var heir := FirstOther(groupMembers[g], peer);
          assert heir == Model.LeastOther(groupMembers[g], peer) by {
            Model.OthersInLargerSet(groupMembers[g], peer);
            Model.LeastOtherIsUnique(groupMembers[g], peer, heir, Model.LeastOther(groupMembers[g], peer));
          }
          group := group[g := heir];
          groupMembers := groupMembers[g := groupMembers[g] - {peer}];
        } else {
          group := group - {g};
          groupMembers := groupMembers - {g};
        }
      } else {
        groupMembers := groupMembers[g := groupMembers[g] - {peer}];
      }
      return 1;
    }

    /** The loop of leave_group: the members in the order of the set, up to the first that is not the
        one leaving. */
    static method FirstOther(names: set<string>, peer: string) returns (heir: string)
      requires peer in names && |names| > 1
      ensures Model.IsLeastOther(names, peer, heir)
    {
      Model.OthersInLargerSet(names, peer);
      var rest := names;
      heir := peer;
      while rest != {}
        invariant rest == names || rest == names - {peer}
        invariant heir == peer
        decreases |rest|
      {
        LeastExists(rest);
        var it :| it in rest && IsLeast(rest, it);
        if it != peer {
          heir := it;
          return;
        }
        rest := rest - {it};
      }
    }

    // ----- files -----

    /** upload_file; None where stoi throws. */
    method UploadFile(input: seq<string>, sock: int) returns (code: Option<int>)
      requires sock in logmap
      modifies this`groupMembers, this`listenmap, this`filePieces, this`groupFile
      ensures match Model.UploadFile(old(View()), input, sock)
              case None => code == None
              case Some(out) => code == Some(out.code) && View() == out.world
    {
      if |input| != 5 {
        return Some(-1);
      }
      var g, peer := input[2], logmap[sock];
      if g !in group {
        return Some(-2);
      }
      groupMembers := Model.Touch(groupMembers, g);
      if peer !in groupMembers[g] {
        return Some(-3);
      }
      var number := Stoi(input[3]);
      if number == None {
        return None;
      }
      RecordUpload(input, sock, number.value);
      return Some(0);
    }

    /** The rest of upload_file, once the checks have passed. */
    method RecordUpload(input: seq<string>, sock: int, number: int)
      requires sock in logmap && |input| == 5
      modifies this`listenmap, this`filePieces, this`groupFile
      ensures View() == Model.AfterUpload(old(View()), input, sock, number)
    {
      if sock !in listenmap {
        listenmap := listenmap[sock := (0, "")];
      }
      var info := FileInfo(logmap[sock], listenmap[sock].0, listenmap[sock].1, input[1], input[4]);
      var g, name := input[2], Model.BaseName(input[1]);
      AddSource(name, number, info);
      groupFile := groupFile[g := Model.At(groupFile, g) + {name}];
    }

    /** The piece vector of upload_file: created if missing, searched, and the source inserted or a new
        piece appended. */
    method AddSource(name: string, number: int, info: FileInfo)
      modifies this`filePieces
      ensures filePieces == old(filePieces)[name :=
                Upload(if name in old(filePieces) then old(filePieces)[name] else [], number, info)]
    {
      if name !in filePieces {
        filePieces := filePieces[name := []];
      }
      ghost var pieces := filePieces[name];
      var i, found := 0, false;
      while i < |filePieces[name]| && !found
        invariant name in filePieces && i <= |pieces| && i <= IndexOf(pieces, number)
        invariant !found ==> filePieces == (old(filePieces))[name := pieces]
        invariant found ==> filePieces == (old(filePieces))[name := Upload(pieces, number, info)]
        decreases !found, |pieces| - i
      {
        var piece := filePieces[name][i];
        if piece.number == number {
          var changed := Piece(number, Insert(piece.sources, info));
          filePieces := filePieces[name := filePieces[name][i := changed]];
          found := true;
        } else {
          i := i + 1;
        }
      }
      if !found {
        filePieces := filePieces[name := filePieces[name] + [Piece(number, Insert([], info))]];
      }
    }

    /** The inner loop of stop_share on one set of sources. */
    static method EraseSources(sources: seq<FileInfo>, peer: string) returns (left: seq<FileInfo>)
      ensures left == WithoutPeer(sources, peer)
    {
      left := sources;
      var it := 0;
      while it < |left|
        invariant it <= |left|
        invariant PartlyErased(left, it, peer) == WithoutPeer(sources, peer)
        decreases |left| - it
      {
        EraseNext(left, it, peer);
        if left[it].peer == peer {
          left := left[..it] + left[it + 1..];
        } else {
          it := it + 1;
        }
      }
      assert left[..it] == left;
    }

    /** The outer loop, on the file's vector: every piece in turn; flag says that no piece has a source
        left. */
    static method EraseShares(pieces: seq<Piece>, peer: string) returns (left: seq<Piece>, flag: bool)
      ensures left == WithoutPeerAll(pieces, peer) && flag == NoSources(left)
    {
      left, flag := pieces, true;
      ghost var done := WithoutPeerAll(pieces, peer);
      var i := 0;
      while i < |left|
        invariant i <= |left| == |pieces|
        invariant forall j | 0 <= j < i :: left[j] == done[j]
        invariant forall j | i <= j < |left| :: left[j] == pieces[j]
        invariant flag <==> forall j | 0 <= j < i :: done[j].sources == []
        decreases |left| - i
      {
        var sources := EraseSources(left[i].sources, peer);
        left := left[i := Piece(left[i].number, sources)];
        if sources != [] {
          flag := false;
        }
        i := i + 1;
      }
    }

    method StopShare(input: seq<string>, sock: int) returns (code: int)
      requires sock in logmap
      modifies this`groupFile, this`filePieces
      ensures Model.FileOutcome(View(), code) == Model.StopShare(old(View()), input, sock)
    {
      if |input| != 3 {
        return -1;
      }
      var g, name, peer := input[1], input[2], logmap[sock];
      if g !in group {
        return -2;
      }
      groupFile := Model.Touch(groupFile, g);
      if name !in groupFile[g] {
        return -3;
      }
      if name in filePieces {
        var left, flag := EraseShares(filePieces[name], peer);
        filePieces := filePieces[name := left];
        if flag {
          groupFile := groupFile[g := groupFile[g] - {name}];
          filePieces := filePieces - {name};
          assert filePieces == old(filePieces) - {name};
        }
      }
      return 0;
    }

    /** download_file and the reply it prints. */
    method DownloadFile(input: seq<string>, sock: int) returns (code: int, peerDetails: string)
      requires sock in logmap
      modifies this`groupMembers, this`groupFile, this`filePieces, this`fileDetails
      ensures View() == Model.AfterDownload(old(View()), input, sock)
      ensures match Model.DownloadFile(old(View()), input, sock)
              case Refused(c) => code == c && peerDetails == ""
              case Granted(size, fileHash, pieces) =>
                code == 0 && peerDetails == Render(DownloadReply.ReplyLines(size, fileHash, pieces))
    {
      peerDetails := "";
      if |input| != 4 {
        code := -1;
        return;
      }
      var g, name, peer := input[1], input[2], logmap[sock];
      if g !in group {
        code := -2;
        return;
      }
      groupMembers := Model.Touch(groupMembers, g);
      if peer !in groupMembers[g] {
        code := -4;
        return;
      }
      groupFile := Model.Touch(groupFile, g);
      if name !in groupFile[g] {
        code := -3;
        return;
      }
      if name !in fileDetails {
        fileDetails := fileDetails[name := (0, "")];
      }
      if name !in filePieces {
        filePieces := filePieces[name := []];
      }
      peerDetails := DownloadReply.PrintReply(fileDetails[name].0, fileDetails[name].1, filePieces[name]);
      code := 0;
    }

    /** file_details, handled in place by handleClient; false where it ends the tracker. */
    method StoreDetails(input: seq<string>) returns (alive: bool)
      modifies this`fileDetails
      ensures match FileDetails(old(View()), input)
              case None => !alive
              case Some(w) => alive && View() == w
    {
      if |input| < 4 {
        return false;
      }
      var size := Stoi(input[2]);
      if size == None {
        return false;
      }
      fileDetails := fileDetails[Model.BaseName(input[1]) := (size.value, input[3])];
      return true;
    }

    // ----- handleClient -----

    /** The start of a connection; false where stoi throws. */
    method Accept(sock: int, text: string) returns (alive: bool)
      modifies this`listenmap
      ensures match Handle(old(View()), Connect(sock, text))
              case None => !alive
              case Some(w) => alive && View() == w
    {
      var colon := Model.FindColon(text);
      var port := Stoi(text[colon + 1..]);
      if port == None {
        return false;
      }
      listenmap := listenmap[sock := (port.value, if colon == -1 then text else text[..colon])];
      return true;
    }

    /** One message: create_peer and login for anyone, the rest behind the login guard. */
    method HandleMessage(input: seq<string>, sock: int) returns (alive: bool)
      modifies this
      ensures match Handle(old(View()), Command(sock, input))
              case None => !alive
              case Some(w) => alive && View() == w
    {
      if input == [] {
        return false;
      }
      alive := Dispatch(input, sock, VerbOf(input[0]));
    }

    method Dispatch(input: seq<string>, sock: int, verb: Verb) returns (alive: bool)
      modifies this
      ensures match Execute(old(View()), sock, input, verb)
              case None => !alive
              case Some(w) => alive && View() == w
    {
      alive := true;
      if verb == CreatePeerVerb {
        var _ := CreatePeer(input);
      } else if verb == LoginVerb {
        var _ := Login(input, sock);
      } else if sock in logmap {
        if OnFiles(verb) {
          alive := DispatchOnFiles(input, sock, verb);
        } else {
          DispatchOnAccounts(input, sock, verb);
        }
      }
    }

    method DispatchOnFiles(input: seq<string>, sock: int, verb: Verb) returns (alive: bool)
      requires sock in logmap && OnFiles(verb)
      modifies this
      ensures match GuardedFiles(old(View()), sock, input, verb)
              case None => !alive
              case Some(w) => alive && View() == w
    {
      alive := true;
      match verb
      case UploadFileVerb =>
        var code := UploadFile(input, sock);
        alive := code != None;
      case DownloadFileVerb =>
        var _, _ := DownloadFile(input, sock);
      case StopShareVerb =>
        var _ := StopShare(input, sock);
      case FileDetailsVerb =>
        alive := StoreDetails(input);
    }

    method DispatchOnAccounts(input: seq<string>, sock: int, verb: Verb)
      requires sock in logmap
      modifies this
      ensures View() == old(View()).(acc := GuardedAccounts(old(Accounts()), sock, input, verb))
    {
      match verb
      case CreateGroupVerb => var _ := CreateGroup(input, sock);
      case JoinGroupVerb => var _ := JoinGroup(input, sock);
      case LeaveGroupVerb => var _ := LeaveGroup(input, sock);
      case ListRequestsVerb => var _, _ := ListRequests(input, sock);
      case AcceptRequestVerb => var _ := AcceptRequest(input, sock);
      case LogoutVerb => var _ := Logout(input, sock);
      case _ =>
    }
  }

  /** What erasing leaves when the sources before it have been passed. */
  function PartlyErased(left: seq<FileInfo>, it: nat, peer: string): seq<FileInfo>
    requires it <= |left|
  {
    left[..it] + WithoutPeer(left[it..], peer)
  }

  lemma EraseNext(left: seq<FileInfo>, it: nat, peer: string)
    requires it < |left|
    ensures if left[it].peer == peer
            then PartlyErased(left[..it] + left[it + 1..], it, peer) == PartlyErased(left, it, peer)
            else PartlyErased(left, it + 1, peer) == PartlyErased(left, it, peer)
  {}

  /** The order in which a set of names is visited: each once, in increasing order. */
  ghost predicate Visits(order: seq<string>, names: set<string>) {
    && (forall n :: n in order <==> n in names)
    && forall i, j | 0 <= i < j < |order| :: Less(order[i], order[j])
  }

  ghost predicate Ended(sent: seq<string>, order: seq<string>) {
    |sent| == |order| && forall i | 0 <= i < |sent| :: sent[i] == order[i] + "\n"
  }

  /** One message for each name, each once, in increasing order. */
  ghost predicate Lists(sent: seq<string>, names: set<string>) {
    exists order :: Visits(order, names) && Ended(sent, order)
  }

  lemma VisitsNext(order: seq<string>, names: set<string>, it: string)
    requires Visits(order, names) && forall n | n in order :: Less(n, it)
    ensures Visits(order + [it], names + {it})
  {
    var longer := order + [it];
    forall i, j | 0 <= i < j < |longer| ensures Less(longer[i], longer[j]) {
      if j == |order| {
        assert order[i] in order;
      }
    }
  }

  predicate IsLeast(names: set<string>, it: string) {
    it in names && forall o | o in names && o != it :: Less(it, o)
  }

  lemma LeastExists(names: set<string>)
    requires names != {}
    ensures exists it :: it in names && IsLeast(names, it)
  {
    var n :| n in names;
    var it := n;
    if exists o :: o in names && o != n {
      it := Model.LeastOther(names, n);
      LessIsTotal(it, n);
      if Less(n, it) {
        forall o | o in names && o != n ensures Less(n, o) {
          if o != it {
            LessIsTransitive(n, it, o);
          }
        }
        it := n;
      }
    }
    assert IsLeast(names, it);
  }
}
