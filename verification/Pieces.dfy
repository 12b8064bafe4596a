/** Piece tables of the tracker: sources kept as std::set keeps them, pieces as a vector. */
module Pieces {
  import opened Text
  import opened Options

  datatype FileInfo = FileInfo(peer: string, port: int, ip: string, path: string, hash: string)

  /** What two sources are compared by: path, then address, then port; not the peer, not the hash. */
  datatype Key = Key(path: string, ip: string, port: int)

  function KeyOf(x: FileInfo): Key {
    Key(x.path, x.ip, x.port)
  }

  predicate KeyLess(a: Key, b: Key) {
    if a.path != b.path then Less(a.path, b.path)
    else if a.ip != b.ip then Less(a.ip, b.ip)
    else a.port < b.port
  }

  /** Sources are visited by path, then address, then port. */
  lemma KeyLessIsByPathIpPort(a: Key, b: Key)
    ensures Less(a.path, b.path) ==> KeyLess(a, b)
    ensures a.path == b.path && Less(a.ip, b.ip) ==> KeyLess(a, b)
    ensures a.path == b.path && a.ip == b.ip ==> (KeyLess(a, b) <==> a.port < b.port)
  {
    LessIsTotal(a.path, b.path);
    LessIsTotal(a.ip, b.ip);
  }

  lemma KeyLessIsTotal(a: Key, b: Key)
    ensures !(KeyLess(a, b) && KeyLess(b, a))
    ensures a == b <==> !KeyLess(a, b) && !KeyLess(b, a)
  {
    LessIsTotal(a.path, b.path);
    LessIsTotal(a.ip, b.ip);
  }

  lemma KeyLessIsTransitive(a: Key, b: Key, c: Key)
    requires KeyLess(a, b) && KeyLess(b, c)
    ensures KeyLess(a, c)
  {
    LessIsTotal(a.path, b.path);
    LessIsTotal(a.ip, b.ip);
    if Less(a.path, b.path) && Less(b.path, c.path) {
      LessIsTransitive(a.path, b.path, c.path);
    }
    if Less(a.ip, b.ip) && Less(b.ip, c.ip) {
      LessIsTransitive(a.ip, b.ip, c.ip);
    }
    LessIsTotal(b.path, c.path);
    LessIsTotal(b.ip, c.ip);
    LessIsTotal(a.path, c.path);
    LessIsTotal(a.ip, c.ip);
  }

  /** The iteration order of a set of sources: strictly increasing keys. */
  ghost predicate Ordered(s: seq<FileInfo>) {
    forall i, j | 0 <= i < j < |s| :: KeyLess(KeyOf(s[i]), KeyOf(s[j]))
  }

  ghost predicate HasKey(s: seq<FileInfo>, k: Key) {
    exists i :: 0 <= i < |s| && KeyOf(s[i]) == k
  }

  /** set::insert: a source with a key already present is dropped. */
  function Insert(s: seq<FileInfo>, x: FileInfo): seq<FileInfo> {
    if s == [] then [x]
    else if KeyLess(KeyOf(x), KeyOf(s[0])) then [x] + s
    else if KeyLess(KeyOf(s[0]), KeyOf(x)) then [s[0]] + Insert(s[1..], x)
    else s
  }

  /** Inserting adds the source exactly when its key is new, and keeps the set ordered. */
  lemma {:induction false} InsertIsSetInsert(s: seq<FileInfo>, x: FileInfo)
    requires Ordered(s)
    ensures Ordered(Insert(s, x))
    ensures forall y :: y in Insert(s, x) <==> y in s || (y == x && !HasKey(s, KeyOf(x)))
  {
    if s != [] {
      var k, h := KeyOf(x), KeyOf(s[0]);
      KeyLessIsTotal(k, h);
      if KeyLess(k, h) {
        forall i | 0 <= i < |s| ensures KeyLess(k, KeyOf(s[i])) && KeyOf(s[i]) != k {
          if i > 0 {
            KeyLessIsTransitive(k, h, KeyOf(s[i]));
          }
          KeyLessIsTotal(k, KeyOf(s[i]));
        }
      } else if KeyLess(h, k) {
        InsertIsSetInsert(s[1..], x);
        InsertBehindHead(s, x);
      } else {
        assert KeyOf(s[0]) == k;
      }
    }
  }

  lemma InsertBehindHead(s: seq<FileInfo>, x: FileInfo)
    requires s != [] && Ordered(s) && KeyLess(KeyOf(s[0]), KeyOf(x))
    requires Ordered(Insert(s[1..], x))
    requires forall y :: y in Insert(s[1..], x) <==> y in s[1..] || (y == x && !HasKey(s[1..], KeyOf(x)))
    ensures Ordered([s[0]] + Insert(s[1..], x))
    ensures forall y :: y in [s[0]] + Insert(s[1..], x) <==> y in s || (y == x && !HasKey(s, KeyOf(x)))
  {
    var rest := Insert(s[1..], x);
    var t := [s[0]] + rest;
    forall i, j | 0 <= i < j < |t| ensures KeyLess(KeyOf(t[i]), KeyOf(t[j])) {
      assert t[j] == rest[j - 1] && rest[j - 1] in rest;
      if i > 0 {
        assert t[i] == rest[i - 1];
      }
    }
    KeyLessIsTotal(KeyOf(s[0]), KeyOf(x));
    assert HasKey(s, KeyOf(x)) <==> HasKey(s[1..], KeyOf(x)) by {
      if i :| 0 <= i < |s| && KeyOf(s[i]) == KeyOf(x) {
        assert i > 0 && s[1..][i - 1] == s[i];
      }
    }
  }

  // ----- the piece vector of one file -----

  datatype Piece = Piece(number: int, sources: seq<FileInfo>)

  function IndexOf(pieces: seq<Piece>, n: int): (i: nat)
    ensures i <= |pieces|
    ensures i < |pieces| ==> pieces[i].number == n
    ensures forall j | 0 <= j < i :: pieces[j].number != n
  {
    if pieces == [] then 0
    else if pieces[0].number == n then 0
    else
      var i := IndexOf(pieces[1..], n);
      assert forall j | 1 <= j < |pieces| :: pieces[j] == pieces[1..][j - 1];
      i + 1
  }

  /** upload_file on the vector: the first piece with the number gains the source, or a new piece is
      appended. */
  function Upload(pieces: seq<Piece>, n: int, x: FileInfo): seq<Piece> {
    var i := IndexOf(pieces, n);
    if i < |pieces| then pieces[i := Piece(n, Insert(pieces[i].sources, x))]
    else pieces + [Piece(n, Insert([], x))]
  }

  ghost predicate Kept(pieces: seq<Piece>) {
    && (forall i, j | 0 <= i < j < |pieces| :: pieces[i].number != pieces[j].number)
    && (forall i | 0 <= i < |pieces| :: Ordered(pieces[i].sources))
  }

  /** The vector is numbered 0, 1, 2, ... in order. */
  ghost predicate Numbered(pieces: seq<Piece>) {
    forall i | 0 <= i < |pieces| :: pieces[i].number == i
  }

  /** x is a source of piece n. */
  ghost predicate Sources(pieces: seq<Piece>, n: int, x: FileInfo) {
    exists i :: 0 <= i < |pieces| && pieces[i].number == n && x in pieces[i].sources
  }

  /** Piece n has a source that compares equal to x. */
  ghost predicate Taken(pieces: seq<Piece>, n: int, x: FileInfo) {
    exists i :: 0 <= i < |pieces| && pieces[i].number == n && HasKey(pieces[i].sources, KeyOf(x))
  }

  lemma UploadKeeps(pieces: seq<Piece>, n: int, x: FileInfo)
    requires Kept(pieces)
    ensures Kept(Upload(pieces, n, x))
  {
    var i := IndexOf(pieces, n);
    InsertIsSetInsert(if i < |pieces| then pieces[i].sources else [], x);
  }

  /** An upload adds that one source to that one piece, unless an equal source is there already, and
      changes no other piece's sources. */
  lemma UploadAddsOneSource(pieces: seq<Piece>, n: int, x: FileInfo, m: int, y: FileInfo)
    requires Kept(pieces)
    ensures Sources(Upload(pieces, n, x), m, y)
            <==> Sources(pieces, m, y) || (m == n && y == x && !Taken(pieces, n, x))
  {
    var i := IndexOf(pieces, n);
    var after := Upload(pieces, n, x);
    InsertIsSetInsert(if i < |pieces| then pieces[i].sources else [], x);
    assert Taken(pieces, n, x) <==> i < |pieces| && HasKey(pieces[i].sources, KeyOf(x));
    if j :| 0 <= j < |pieces| && pieces[j].number == m && y in pieces[j].sources {
      assert after[j].number == m && y in after[j].sources;
    }
    if m == n && y == x && !Taken(pieces, n, x) {
      assert !HasKey([], KeyOf(x));
      assert after[i].number == m && y in after[i].sources;
    }
    if j :| 0 <= j < |after| && after[j].number == m && y in after[j].sources {
      if j != i {
        assert pieces[j].number == m && y in pieces[j].sources;
      } else if i < |pieces| && y in pieces[i].sources {
        assert pieces[i].number == m;
      }
    }
  }

  /** A numbered vector stays numbered exactly when the announced number is at most its length. */
  lemma UploadStaysNumberedIff(pieces: seq<Piece>, n: int, x: FileInfo)
    requires Numbered(pieces)
    ensures Numbered(Upload(pieces, n, x)) <==> 0 <= n <= |pieces|
    ensures |Upload(pieces, n, x)| >= |pieces| && (0 <= n <= |pieces| ==> |Upload(pieces, n, x)| > n)
  {
    assert 0 <= n < |pieces| ==> pieces[n].number == n;
    var i := IndexOf(pieces, n);
    if i < |pieces| {
      assert n == i;
    } else {
      assert Upload(pieces, n, x)[|pieces|].number == n;
    }
  }

  // ----- stop_share on one file -----

  function WithoutPeer(s: seq<FileInfo>, peer: string): seq<FileInfo> {
    if s == [] then []
    else (if s[0].peer == peer then [] else [s[0]]) + WithoutPeer(s[1..], peer)
  }

  lemma {:induction false} WithoutPeerIsExact(s: seq<FileInfo>, peer: string)
    requires Ordered(s)
    ensures Ordered(WithoutPeer(s, peer))
    ensures forall x :: x in WithoutPeer(s, peer) <==> x in s && x.peer != peer
  {
    if s != [] {
      WithoutPeerIsExact(s[1..], peer);
      var rest, t := WithoutPeer(s[1..], peer), WithoutPeer(s, peer);
      if s[0].peer != peer {
        forall i, j | 0 <= i < j < |t| ensures KeyLess(KeyOf(t[i]), KeyOf(t[j])) {
          assert t[j] == rest[j - 1] && rest[j - 1] in rest;
        }
      }
    }
  }

  function WithoutPeerAll(pieces: seq<Piece>, peer: string): (r: seq<Piece>)
    ensures |r| == |pieces|
    ensures forall i | 0 <= i < |r| :: r[i] == Piece(pieces[i].number, WithoutPeer(pieces[i].sources, peer))
  {
    seq(|pieces|, i requires 0 <= i < |pieces| => Piece(pieces[i].number, WithoutPeer(pieces[i].sources, peer)))
  }

  predicate NoSources(pieces: seq<Piece>) {
    forall i | 0 <= i < |pieces| :: pieces[i].sources == []
  }

  /** Exactly the caller's sources go; pieces keep their numbers and order; and nothing is left exactly
      when every source of every piece was the caller's. */
  lemma StopShareIsExact(pieces: seq<Piece>, peer: string, n: int, x: FileInfo)
    requires Kept(pieces)
    ensures var r := WithoutPeerAll(pieces, peer);
            && Kept(r) && (Numbered(pieces) ==> Numbered(r))
            && (Sources(r, n, x) <==> Sources(pieces, n, x) && x.peer != peer)
            && (NoSources(r) <==> forall m, y :: Sources(pieces, m, y) ==> y.peer == peer)
  {
    var r := WithoutPeerAll(pieces, peer);
    forall i | 0 <= i < |pieces|
      ensures Ordered(r[i].sources)
      ensures forall y :: y in r[i].sources <==> y in pieces[i].sources && y.peer != peer
    {
      WithoutPeerIsExact(pieces[i].sources, peer);
    }
    if NoSources(r) {
      forall m, y | Sources(pieces, m, y) ensures y.peer == peer {
        var i :| 0 <= i < |pieces| && pieces[i].number == m && y in pieces[i].sources;
        assert y !in r[i].sources;
      }
    } else {
      var i :| 0 <= i < |r| && r[i].sources != [];
      var y := r[i].sources[0];
      assert y in r[i].sources;
      assert Sources(pieces, pieces[i].number, y);
    }
  }
}
