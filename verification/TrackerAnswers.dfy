/** What the tracker answers: each command's return code, read as whether it did what it is for, and if not
    why; and when a message ends the tracker. */
module TrackerAnswers {
  import opened Text
  import opened Options
  import opened Pieces
  import opened TrackerModel
  import opened TrackerRuns
  import opened TrackerHistory

  // ----- accounts and sessions -----

  /** 1 exactly when a new user is registered; a refused command changes nothing. */
  lemma CreatePeerAnswers(a: Accounts, input: seq<string>)
    ensures var out := CreatePeer(a, input);
            && (out.code == 1 <==> exists u :: u in out.acc.user && u !in a.user)
            && (out.code == -1 <==> |input| != 3)
            && (out.code == -2 <==> |input| == 3 && input[1] in a.user)
            && (out.code != 1 ==> out.acc == a)
  {
    if CreatePeer(a, input).code == 1 {
      assert input[1] in CreatePeer(a, input).acc.user;
    }
  }

  /** 1 exactly when a session is opened; otherwise the first thing that stands in the way: the number of
      words, a session on the socket, a session of the user elsewhere, or name and password. */
  lemma LoginAnswers(a: Accounts, input: seq<string>, sock: int)
    requires SessionInv(a)
    ensures var out := Login(a, input, sock);
            && (out.code == 1 <==> exists u :: LogsIn(a, sock, input, LoginVerb, sock, u))
            && (out.code == 1 <==> exists u :: On(out.acc, sock, u) && !On(a, sock, u))
            && (out.code == 2 <==> |input| != 3)
            && (out.code == 3 <==> |input| == 3 && exists u :: On(a, sock, u))
            && (out.code == 4 <==> |input| == 3 && sock !in a.logmap && exists s :: On(a, s, input[1]))
            && (out.code == 0 <==> && |input| == 3 && sock !in a.logmap && !Flagged(a, input[1])
                                   && !(input[1] in a.user && a.user[input[1]] == input[2]))
  {
    var out := Login(a, input, sock);
    if sock in a.logmap {
      assert On(a, sock, a.logmap[sock]);
    } else if |input| == 3 {
      assert Flagged(a, input[1]) <==> exists s :: On(a, s, input[1]);
      assert out.code == 1 ==> LogsIn(a, sock, input, LoginVerb, sock, input[1]) && On(out.acc, sock, input[1]);
    }
  }

  /** 0 exactly when the session on the socket is closed. */
  lemma LogoutAnswers(a: Accounts, input: seq<string>, sock: int)
    requires sock in a.logmap
    ensures var out := Logout(a, input, sock);
            && (out.code == 0 <==> LogsOut(a, sock, input, LogoutVerb, sock))
            && (out.code == 0 <==> sock !in out.acc.logmap)
            && (out.code == -1 <==> |input| != 1)
  {}

  // ----- groups -----

  /** The caller's name: commands past the login guard always have one. */
  function Caller(a: Accounts, sock: int): string
    requires sock in a.logmap
  {
    a.logmap[sock]
  }

  ghost predicate HasGroup(a: Accounts, g: string) {
    exists u :: Owns(a, g, u)
  }

  lemma HasGroupIff(a: Accounts, g: string)
    ensures HasGroup(a, g) <==> g in a.group
  {
    assert g in a.group ==> Owns(a, g, a.group[g]);
  }

  /** 1 exactly when the caller founds the group, 0 when the name is taken. */
  lemma CreateGroupAnswers(a: Accounts, input: seq<string>, sock: int)
    requires sock in a.logmap
    ensures var out, u := CreateGroup(a, input, sock), Caller(a, sock);
            && (out.code == 1 <==> exists g :: Founds(a, sock, input, CreateGroupVerb, g, u))
            && (out.code == -1 <==> |input| != 2)
            && (out.code == 0 <==> |input| == 2 && HasGroup(a, input[1]))
  {
    if |input| == 2 {
      HasGroupIff(a, input[1]);
      assert input[1] !in a.group ==> Founds(a, sock, input, CreateGroupVerb, input[1], Caller(a, sock));
    }
  }

  /** 1 exactly when the caller's request is recorded, 0 when it is a member already. */
  lemma JoinGroupAnswers(a: Accounts, input: seq<string>, sock: int)
    requires GroupInv(a) && sock in a.logmap
    ensures var out, u := JoinGroup(a, input, sock), Caller(a, sock);
            && (out.code == 1 <==> exists g :: Requests(a, sock, input, JoinGroupVerb, g, u))
            && (out.code == -1 <==> |input| != 2)
            && (out.code == -2 <==> |input| == 2 && !HasGroup(a, input[1]))
            && (out.code == 0 <==> |input| == 2 && Member(a, input[1], u))
  {
    if |input| == 2 {
      HasGroupIff(a, input[1]);
      assert JoinGroup(a, input, sock).code == 1
             ==> Requests(a, sock, input, JoinGroupVerb, input[1], Caller(a, sock));
    }
  }

  /** 1, the code with which the requests are sent, exactly for the owner of the group. */
  lemma ListRequestsAnswers(a: Accounts, input: seq<string>, sock: int)
    requires sock in a.logmap
    ensures var out, u := ListRequests(a, input, sock), Caller(a, sock);
            && (out.code == 1 <==> |input| == 2 && Owns(a, input[1], u))
            && (out.code == -1 <==> |input| != 2)
            && (out.code == -2 <==> |input| == 2 && !HasGroup(a, input[1]))
            && (out.code == 0 <==> |input| == 2 && HasGroup(a, input[1]) && !Owns(a, input[1], u))
            && (forall g, v :: Asking(out.acc, g, v) <==> Asking(a, g, v))
  {
    if |input| == 2 {
      HasGroupIff(a, input[1]);
    }
  }

  /** 1 exactly when the owner admits a requester, 0 when somebody else tries to. */
  lemma AcceptRequestAnswers(a: Accounts, input: seq<string>, sock: int)
    requires sock in a.logmap
    ensures var out, u := AcceptRequest(a, input, sock), Caller(a, sock);
            && (out.code == 1 <==> exists g, v :: Admits(a, sock, input, AcceptRequestVerb, g, v))
            && (out.code == -1 <==> |input| != 3)
            && (out.code == -2 <==> |input| == 3 && !HasGroup(a, input[1]))
            && (out.code == -3 <==> |input| == 3 && HasGroup(a, input[1]) && !Asking(a, input[1], input[2]))
            && (out.code == 0 <==> && |input| == 3 && HasGroup(a, input[1]) && Asking(a, input[1], input[2])
                                   && !Owns(a, input[1], u))
  {
    if |input| == 3 {
      HasGroupIff(a, input[1]);
      assert AcceptRequest(a, input, sock).code == 1
             ==> Admits(a, sock, input, AcceptRequestVerb, input[1], input[2]);
    }
  }

  /** 1 exactly when the caller leaves a group it was in. */
  lemma LeaveGroupAnswers(a: Accounts, input: seq<string>, sock: int)
    requires GroupInv(a) && sock in a.logmap
    ensures var out, u := LeaveGroup(a, input, sock), Caller(a, sock);
            && (out.code == 1 <==> exists g :: Leaves(a, sock, input, LeaveGroupVerb, g, u))
            && (out.code == -1 <==> |input| != 2)
            && (out.code == -2 <==> |input| == 2 && !HasGroup(a, input[1]))
            && (out.code == -3 <==> |input| == 2 && HasGroup(a, input[1]) && !Member(a, input[1], u))
  {
    if |input| == 2 {
      HasGroupIff(a, input[1]);
      assert LeaveGroup(a, input, sock).code == 1
             ==> Leaves(a, sock, input, LeaveGroupVerb, input[1], Caller(a, sock));
    }
  }

  // ----- files -----

  /** 0 exactly when a source is announced; the tracker ends exactly when a member's piece number is none. */
  lemma UploadAnswers(w: World, input: seq<string>, sock: int)
    requires GroupInv(w.acc) && sock in w.acc.logmap
    ensures var out, u := UploadFile(w, input, sock), Caller(w.acc, sock);
            && (out == None <==> |input| == 5 && Member(w.acc, input[2], u) && Stoi(input[3]) == None)
            && (out.Some? ==>
                  && (out.value.code == 0 <==>
                      exists name, k, x :: Announces(w, sock, input, UploadFileVerb, name, k, x))
                  && (out.value.code == -1 <==> |input| != 5)
                  && (out.value.code == -2 <==> |input| == 5 && !HasGroup(w.acc, input[2]))
                  && (out.value.code == -3 <==>
                      |input| == 5 && HasGroup(w.acc, input[2]) && !Member(w.acc, input[2], u)))
  {
    if |input| == 5 {
      HasGroupIff(w.acc, input[2]);
      var out, at := UploadFile(w, input, sock), AddressOf(w, sock);
      if out.Some? && out.value.code == 0 {
        assert Announces(w, sock, input, UploadFileVerb, BaseName(input[1]), Stoi(input[3]).value,
                         FileInfo(Caller(w.acc, sock), at.0, at.1, input[1], input[4]));
      }
    }
  }

  /** 0 exactly when the caller names a group that lists the file, whether it shares the file or not. */
  lemma StopShareAnswers(w: World, input: seq<string>, sock: int)
    requires sock in w.acc.logmap
    ensures var out, u := StopShare(w, input, sock), Caller(w.acc, sock);
            && (out.code == 0 <==> exists name :: Stops(w, sock, input, StopShareVerb, name, u))
            && (out.code == -1 <==> |input| != 3)
            && (out.code == -2 <==> |input| == 3 && !HasGroup(w.acc, input[1]))
            && (out.code == -3 <==>
                |input| == 3 && HasGroup(w.acc, input[1]) && !Listed(w.files, input[1], input[2]))
  {
    if |input| == 3 {
      HasGroupIff(w.acc, input[1]);
      assert StopShare(w, input, sock).code == 0
             ==> Stops(w, sock, input, StopShareVerb, input[2], Caller(w.acc, sock));
    }
  }

  /** A download is granted exactly to a member of a group that lists the file; otherwise the first check
      that fails is named. */
  lemma DownloadAnswers(w: World, input: seq<string>, sock: int)
    requires GroupInv(w.acc) && sock in w.acc.logmap
    ensures var out, u := DownloadFile(w, input, sock), Caller(w.acc, sock);
            && (out.Granted? <==> |input| == 4 && Member(w.acc, input[1], u) && Listed(w.files, input[1], input[2]))
            && (out == Refused(-1) <==> |input| != 4)
            && (out == Refused(-2) <==> |input| == 4 && !HasGroup(w.acc, input[1]))
            && (out == Refused(-4) <==> |input| == 4 && HasGroup(w.acc, input[1]) && !Member(w.acc, input[1], u))
            && (out == Refused(-3) <==> && |input| == 4 && Member(w.acc, input[1], u)
                                        && !Listed(w.files, input[1], input[2]))
  {
    if |input| == 4 {
      HasGroupIff(w.acc, input[1]);
    }
  }

  // ----- messages that end the tracker -----

  /** A connection without a port number, a message without a word, and, once logged in, a file_details
      without a size or a member's upload_file without a piece number: these end the tracker, and nothing
      else does. */
  lemma HandleEndsIff(w: World, e: Event)
    requires GroupInv(w.acc)
    ensures Handle(w, e) == None <==>
            match e
            case Connect(_, text) => Stoi(text[FindColon(text) + 1..]) == None
            case Command(sock, input) =>
              || input == []
              || (&& input[0] == "file_details" && sock in w.acc.logmap
                  && (|input| < 4 || Stoi(input[2]) == None))
              || (&& input[0] == "upload_file" && sock in w.acc.logmap
                  && |input| == 5 && Member(w.acc, input[2], Caller(w.acc, sock)) && Stoi(input[3]) == None)
  {
    if e.Command? && e.input != [] {
      VerbsAreWords(e.input[0]);
      if e.sock in w.acc.logmap && VerbOf(e.input[0]) == UploadFileVerb {
        UploadAnswers(w, e.input, e.sock);
      }
    }
  }
}
