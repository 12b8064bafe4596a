/** The tracker's tables and what each command does to them. Commands are atomic; a command is the list
    of words the client sent. Reading a table through operator[] inserts a default entry where there was
    none, and that is kept. */
module TrackerModel {
  import opened Text
  import opened Options
  import opened Pieces

  datatype Accounts = Accounts(
    user: map<string, string>,
    loggedIn: map<string, bool>,
    logmap: map<int, string>,
    group: map<string, string>,
    members: map<string, set<string>>,
    pending: map<string, set<string>>)

  datatype Files = Files(
    groupFile: map<string, set<string>>,
    filePieces: map<string, seq<Piece>>,
    fileDetails: map<string, (int, string)>)

  datatype World = World(acc: Accounts, files: Files, listen: map<int, (int, string)>)

  datatype Outcome = Outcome(acc: Accounts, code: int)

  datatype FileOutcome = FileOutcome(world: World, code: int)

  function At(m: map<string, set<string>>, k: string): set<string> {
    if k in m then m[k] else {}
  }

  /** operator[] on a table of sets. */
  function Touch(m: map<string, set<string>>, k: string): map<string, set<string>> {
    if k in m then m else m[k := {}]
  }

  // ----- connections -----

  /** find(':'): -1 stands for npos. */
  function FindColon(text: string): (i: int)
    ensures -1 <= i < |text|
    ensures i >= 0 ==> text[i] == ':'
    ensures forall j | 0 <= j < (if i == -1 then |text| else i) :: text[j] != ':'
  {
    if text == [] then -1
    else if text[0] == ':' then 0
    else
      var i := FindColon(text[1..]);
      if i == -1 then -1 else i + 1
  }

  /** The listening address a client announces, as ip:port; None where stoi throws. */
  function ParseAddress(text: string): Option<(int, string)> {
    var c := FindColon(text);
    match Stoi(text[c + 1..])
    case None => None
    case Some(port) => Some((port, if c == -1 then text else text[..c]))
  }

  lemma {:induction false} FindsFirstColon(ip: string, rest: string)
    requires ':' !in ip
    ensures FindColon(ip + ":" + rest) == |ip|
  {
    if ip != [] {
      FindsFirstColon(ip[1..], rest);
      assert (ip + ":" + rest)[1..] == ip[1..] + ":" + rest;
    }
  }

  /** An announced address is recorded as it was meant. */
  lemma AddressRoundTrip(ip: string, port: int)
    requires ':' !in ip && INT_MIN <= port <= INT_MAX
    ensures ParseAddress(ip + ":" + ToString(port)) == Some((port, ip))
  {
    var text := ip + ":" + ToString(port);
    FindsFirstColon(ip, ToString(port));
    assert text[..|ip|] == ip && text[|ip| + 1..] == ToString(port);
    StoiOfToString(port);
  }

  /** A text without a colon is taken for both the address and the port. */
  lemma AddressWithoutColon(text: string)
    requires ':' !in text
    ensures ParseAddress(text) == match Stoi(text) case None => None case Some(port) => Some((port, text))
  {
    assert FindColon(text) == -1 && text[0..] == text;
  }

  // ----- accounts and sessions -----

  function CreatePeer(a: Accounts, input: seq<string>): Outcome {
    if |input| != 3 then Outcome(a, -1)
    else if input[1] in a.user then Outcome(a, -2)
    else
      var flags := if input[1] in a.loggedIn then a.loggedIn else a.loggedIn[input[1] := false];
      Outcome(a.(user := a.user[input[1] := input[2]], loggedIn := flags), 1)
  }

  function Login(a: Accounts, input: seq<string>, sock: int): Outcome {
    if |input| != 3 then Outcome(a, 2)
    else if sock in a.logmap then Outcome(a, 3)
    else
      var u := input[1];
      var flags := if u in a.loggedIn then a.loggedIn else a.loggedIn[u := false];
      if flags[u] then Outcome(a, 4)
      else if u in a.user && a.user[u] == input[2] then
        Outcome(a.(loggedIn := flags[u := true], logmap := a.logmap[sock := u]), 1)
      else Outcome(a.(loggedIn := flags), 0)
  }

  function Logout(a: Accounts, input: seq<string>, sock: int): Outcome
    requires sock in a.logmap
  {
    if |input| != 1 then Outcome(a, -1)
    else Outcome(a.(loggedIn := a.loggedIn[a.logmap[sock] := false], logmap := a.logmap - {sock}), 0)
  }

  // ----- groups -----

  function CreateGroup(a: Accounts, input: seq<string>, sock: int): Outcome
    requires sock in a.logmap
  {
    if |input| != 2 then Outcome(a, -1)
    else if input[1] in a.group then Outcome(a, 0)
    else
      var g, name := input[1], a.logmap[sock];
      Outcome(a.(group := a.group[g := name], members := a.members[g := At(a.members, g) + {name}]), 1)
  }

  function JoinGroup(a: Accounts, input: seq<string>, sock: int): Outcome
    requires sock in a.logmap
  {
    if |input| != 2 then Outcome(a, -1)
    else if input[1] !in a.group then Outcome(a, -2)
    else
      var g, name := input[1], a.logmap[sock];
      var b := a.(members := Touch(a.members, g));
      if name in b.members[g] then Outcome(b, 0)
      else Outcome(b.(pending := a.pending[g := At(a.pending, g) + {name}]), 1)
  }

  function ListRequests(a: Accounts, input: seq<string>, sock: int): Outcome
    requires sock in a.logmap
  {
    if |input| != 2 then Outcome(a, -1)
    else if input[1] !in a.group then Outcome(a, -2)
    else if a.logmap[sock] == a.group[input[1]] then Outcome(a.(pending := Touch(a.pending, input[1])), 1)
    else Outcome(a, 0)
  }

  function AcceptRequest(a: Accounts, input: seq<string>, sock: int): Outcome
    requires sock in a.logmap
  {
    if |input| != 3 then Outcome(a, -1)
    else if input[1] !in a.group then Outcome(a, -2)
    else
      var g, peer := input[1], input[2];
      var b := a.(pending := Touch(a.pending, g));
      if peer !in b.pending[g] then Outcome(b, -3)
      else if a.logmap[sock] == a.group[g] then
        Outcome(b.(members := a.members[g := At(a.members, g) + {peer}],
                   pending := b.pending[g := b.pending[g] - {peer}]), 1)
      else Outcome(b, 0)
  }

  ghost predicate IsLeastOther(names: set<string>, peer: string, other: string) {
    other in names && other != peer && forall o | o in names && o != peer && o != other :: Less(other, o)
  }

  lemma {:induction false} LeastOtherExists(names: set<string>, peer: string)
    requires exists o :: o in names && o != peer
    ensures exists o :: IsLeastOther(names, peer, o)
    decreases names
  {
    var o :| o in names && o != peer;
    var rest := names - {o};
    var others := rest - {peer};
    if others != {} {
      var q0 :| q0 in others;
      LeastOtherExists(rest, peer);
      var q :| IsLeastOther(rest, peer, q);
      LessIsTotal(o, q);
      if Less(o, q) {
        forall r | r in names && r != peer && r != o ensures Less(o, r) {
          if r != q {
            LessIsTransitive(o, q, r);
          }
        }
        assert IsLeastOther(names, peer, o);
      } else {
        assert IsLeastOther(names, peer, q);
      }
    } else {
      assert forall r | r in names && r != peer && r != o :: r in others;
      assert IsLeastOther(names, peer, o);
    }
  }

  /** The first member, in the order of the set, that is not the one leaving. */
  ghost function LeastOther(names: set<string>, peer: string): (other: string)
    requires exists o :: o in names && o != peer
    ensures IsLeastOther(names, peer, other)
  {
    LeastOtherExists(names, peer);
    var o :| IsLeastOther(names, peer, o);
    o
  }

  lemma LeastOtherIsUnique(names: set<string>, peer: string, p: string, q: string)
    requires IsLeastOther(names, peer, p) && IsLeastOther(names, peer, q)
    ensures p == q
  {
    LessIsTotal(p, q);
  }

  lemma OthersInLargerSet(names: set<string>, peer: string)
    requires peer in names
    ensures |names| > 1 <==> exists o :: o in names && o != peer
  {
    var others := names - {peer};
    assert |others| == |names| - 1;
    if |names| > 1 {
      assert others != {};
      var o :| o in others;
    } else {
      assert others == {};
      assert forall o | o in names && o != peer :: o in others;
    }
  }

  ghost function LeaveGroup(a: Accounts, input: seq<string>, sock: int): Outcome
    requires sock in a.logmap
  {
    if |input| != 2 then Outcome(a, -1)
    else if input[1] !in a.group then Outcome(a, -2)
    else
      var g, peer := input[1], a.logmap[sock];
      var b := a.(members := Touch(a.members, g));
      if peer !in b.members[g] then Outcome(b, -3)
      else if a.group[g] == peer then
        if |b.members[g]| > 1 then
          OthersInLargerSet(b.members[g], peer);
          Outcome(b.(group := a.group[g := LeastOther(b.members[g], peer)],
                     members := b.members[g := b.members[g] - {peer}]), 1)
        else Outcome(b.(group := a.group - {g}, members := b.members - {g}), 1)
      else Outcome(b.(members := b.members[g := b.members[g] - {peer}]), 1)
  }

  // ----- files -----

  predicate IsSlash(c: char) {
    c == '/' || c == '\\'
  }

  function LastSlash(path: string): (i: int)
    ensures -1 <= i < |path|
  {
    if path == [] then -1
    else if IsSlash(path[|path| - 1]) then |path| - 1
    else LastSlash(path[..|path| - 1])
  }

  /** The part of a path after its last slash or backslash. */
  function BaseName(path: string): string {
    path[LastSlash(path) + 1..]
  }

  lemma {:induction false} LastSlashIsLast(path: string)
    ensures var i := LastSlash(path);
            (i >= 0 ==> IsSlash(path[i])) && forall j | i < j < |path| :: !IsSlash(path[j])
  {
    if path != [] && !IsSlash(path[|path| - 1]) {
      LastSlashIsLast(path[..|path| - 1]);
    }
  }

  /** A file name is what follows the directories: it has no slash, and ends them with one if there are any. */
  lemma BaseNameIsExact(path: string, name: string)
    ensures name == BaseName(path) <==>
            && |name| <= |path| && path[|path| - |name|..] == name
            && (forall j | 0 <= j < |name| :: !IsSlash(name[j]))
            && (|name| < |path| ==> IsSlash(path[|path| - |name| - 1]))
  {
    LastSlashIsLast(path);
    var i := LastSlash(path);
    if |name| <= |path| && path[|path| - |name|..] == name {
      var start := |path| - |name|;
      assert forall j | 0 <= j < |name| :: name[j] == path[start + j];
      assert i >= start ==> name[i - start] == path[i];
    }
  }

  function PiecesOf(f: Files, name: string): seq<Piece> {
    if name in f.filePieces then f.filePieces[name] else []
  }

  /** The source upload_file records for the caller. */
  function CallerInfo(w: World, input: seq<string>, sock: int): FileInfo
    requires sock in w.acc.logmap && |input| == 5
  {
    var at := if sock in w.listen then w.listen[sock] else (0, "");
    FileInfo(w.acc.logmap[sock], at.0, at.1, input[1], input[4])
  }

  /** upload_file once its checks have passed. */
  function AfterUpload(w: World, input: seq<string>, sock: int, n: int): World
    requires sock in w.acc.logmap && |input| == 5
  {
    var g, name := input[2], BaseName(input[1]);
    var listen := if sock in w.listen then w.listen else w.listen[sock := (0, "")];
    var pieces := Upload(PiecesOf(w.files, name), n, CallerInfo(w, input, sock));
    var files := w.files.(filePieces := w.files.filePieces[name := pieces],
                          groupFile := w.files.groupFile[g := At(w.files.groupFile, g) + {name}]);
    World(w.acc, files, listen)
  }

  /** upload_file; None where stoi throws, which ends the tracker. */
  function UploadFile(w: World, input: seq<string>, sock: int): Option<FileOutcome>
    requires sock in w.acc.logmap
  {
    if |input| != 5 then Some(FileOutcome(w, -1))
    else if input[2] !in w.acc.group then Some(FileOutcome(w, -2))
    else
      var v := w.(acc := w.acc.(members := Touch(w.acc.members, input[2])));
      if w.acc.logmap[sock] !in v.acc.members[input[2]] then Some(FileOutcome(v, -3))
      else
        match Stoi(input[3])
        case None => None
        case Some(n) => Some(FileOutcome(AfterUpload(v, input, sock, n), 0))
  }

  /** stop_share. Membership of the caller is not checked. */
  function StopShare(w: World, input: seq<string>, sock: int): FileOutcome
    requires sock in w.acc.logmap
  {
    if |input| != 3 then FileOutcome(w, -1)
    else if input[1] !in w.acc.group then FileOutcome(w, -2)
    else
      var g, name, peer := input[1], input[2], w.acc.logmap[sock];
      var f := w.files.(groupFile := Touch(w.files.groupFile, g));
      if name !in f.groupFile[g] then FileOutcome(w.(files := f), -3)
      else if name !in f.filePieces then FileOutcome(w.(files := f), 0)
      else
        var left := WithoutPeerAll(f.filePieces[name], peer);
        if NoSources(left) then
          FileOutcome(w.(files := f.(groupFile := f.groupFile[g := f.groupFile[g] - {name}],
                                     filePieces := f.filePieces - {name})), 0)
        else FileOutcome(w.(files := f.(filePieces := f.filePieces[name := left])), 0)
  }

  /** download_file: the checks, and the size, hash and pieces that are printed when they pass. */
  datatype Download = Refused(code: int) | Granted(size: int, fileHash: string, pieces: seq<Piece>)

  function DownloadFile(w: World, input: seq<string>, sock: int): Download
    requires sock in w.acc.logmap
  {
    if |input| != 4 then Refused(-1)
    else if input[1] !in w.acc.group then Refused(-2)
    else if w.acc.logmap[sock] !in At(w.acc.members, input[1]) then Refused(-4)
    else if input[2] !in At(w.files.groupFile, input[1]) then Refused(-3)
    else
      var d := if input[2] in w.files.fileDetails then w.files.fileDetails[input[2]] else (0, "");
      Granted(d.0, d.1, PiecesOf(w.files, input[2]))
  }

  function AfterDownload(w: World, input: seq<string>, sock: int): World
    requires sock in w.acc.logmap
  {
    if |input| != 4 || input[1] !in w.acc.group then w
    else
      var w1 := w.(acc := w.acc.(members := Touch(w.acc.members, input[1])));
      if w.acc.logmap[sock] !in w1.acc.members[input[1]] then w1
      else
        var w2 := w1.(files := w.files.(groupFile := Touch(w.files.groupFile, input[1])));
        if input[2] !in w2.files.groupFile[input[1]] then w2
        else
          var details := w.files.fileDetails;
          var name := input[2];
          w2.(files := w2.files.(
                filePieces := w.files.filePieces[name := PiecesOf(w.files, name)],
                fileDetails := if name in details then details else details[name := (0, "")]))
  }
}
