/** A download from end to end: what the tracker's tables share, printed, sent and parsed on the peer. */
module Downloads {
  import opened Options
  import opened Text
  import opened Pieces
  import opened DownloadReply
  import opened TrackerModel
  import opened TrackerRuns
  import opened TrackerHistory
  import opened Seeding

  // ----- what a parsed table says -----

  /** The table has a source with that key and hash at piece k. */
  ghost predicate Offers(table: map<nat, map<Key, string>>, k: int, key: Key, hash: string) {
    k in table && Maps(table[k], key, hash)
  }

  ghost predicate Maps(m: map<Key, string>, key: Key, hash: string) {
    key in m && m[key] == hash
  }

  ghost predicate HasSource(pieces: seq<Piece>, k: int, key: Key, hash: string) {
    exists x :: Sources(pieces, k, x) && KeyOf(x) == key && x.hash == hash
  }

  lemma TableIsExact(pieces: seq<Piece>, k: int, key: Key, hash: string)
    requires Numbered(pieces) && forall i | 0 <= i < |pieces| :: Ordered(pieces[i].sources)
    ensures Offers(Table(pieces), k, key, hash) <==> HasSource(pieces, k, key, hash)
  {
    if 0 <= k < |pieces| {
      var sources := pieces[k].sources;
      assert pieces[k].number == k;
      SourceMapIsExact(sources, key);
      if Offers(Table(pieces), k, key, hash) {
        var j :| 0 <= j < |sources| && KeyOf(sources[j]) == key;
        assert Sources(pieces, k, sources[j]);
      }
    }
    if x :| Sources(pieces, k, x) && KeyOf(x) == key && x.hash == hash {
      var i :| 0 <= i < |pieces| && pieces[i].number == k && x in pieces[i].sources;
      assert pieces[i].number == i;
      var j :| 0 <= j < |pieces[i].sources| && pieces[i].sources[j] == x;
      SourceMapIsExact(pieces[i].sources, key);
    }
  }

  ghost predicate NoEmpty(table: map<nat, map<Key, string>>) {
    forall k | k in table :: table[k] != map[]
  }

  lemma {:induction false} ParserFillsEntries(p: Parser, lines: seq<string>)
    requires NoEmpty(p.table) && ReadAll(p, lines).Some?
    ensures NoEmpty(ReadAll(p, lines).value.table)
    decreases |lines|
  {
    if lines != [] {
      var q := Read(p, lines[0]).value;
      EntryIsFilled(p, lines[0], q);
      ParserFillsEntries(q, lines[1..]);
    }
  }

  lemma EntryIsFilled(p: Parser, line: string, q: Parser)
    requires NoEmpty(p.table) && Read(p, line) == Some(q)
    ensures NoEmpty(q.table)
  {
    var key := Key(p.path, p.ip, p.port);
    assert key in Put(SourcesAt(p.table, p.i), key, line);
  }

  lemma TableFillsEntries(pieces: seq<Piece>)
    requires forall i | 0 <= i < |pieces| :: Ordered(pieces[i].sources)
    ensures NoEmpty(Table(pieces))
  {
    forall k | k in Table(pieces) ensures Table(pieces)[k] != map[] {
      var sources := pieces[k].sources;
      SourceMapIsExact(sources, KeyOf(sources[0]));
      assert HasKey(sources, KeyOf(sources[0]));
    }
  }

  lemma SameEntry(s: map<Key, string>, t: map<Key, string>)
    requires forall key, hash :: Maps(s, key, hash) <==> Maps(t, key, hash)
    ensures s == t
  {
    forall key | key in s ensures key in t && t[key] == s[key] {
      assert Maps(s, key, s[key]);
    }
    forall key | key in t ensures key in s {
      assert Maps(t, key, t[key]);
    }
  }

  lemma SameOffersSameTable(s: map<nat, map<Key, string>>, t: map<nat, map<Key, string>>)
    requires NoEmpty(s) && NoEmpty(t)
    requires forall k: int, key, hash :: Offers(s, k, key, hash) <==> Offers(t, k, key, hash)
    ensures s == t
  {
    forall k: nat ensures k in s <==> k in t {
      if k in s {
        var key :| key in s[k];
        assert Offers(s, k, key, s[k][key]);
      }
      if k in t {
        var key :| key in t[k];
        assert Offers(t, k, key, t[k][key]);
      }
    }
    forall k | k in s ensures s[k] == t[k] {
      forall key, hash ensures Maps(s[k], key, hash) <==> Maps(t[k], key, hash) {
        assert Offers(s, k, key, hash) <==> Offers(t, k, key, hash);
      }
      SameEntry(s[k], t[k]);
    }
  }

  // ----- downloads over whole runs -----

  /** The peer has the size and hash of the file, and for every piece exactly the keys and hashes of the
      sources shared. */
  ghost predicate ReadsRight(r: Option<Parsed>, w: World, name: string) {
    && r.Some? && (r.value.size, r.value.fileHash) == Details(w, name)
    && forall k: int, key, hash :: Offers(r.value.table, k, key, hash) <==> SharedWith(w, name, k, key, hash)
  }

  ghost predicate SharedWith(w: World, name: string, k: int, key: Key, hash: string) {
    exists x :: Shared(w, name, k, x) && KeyOf(x) == key && x.hash == hash
  }

  /** No field of a source shared at piece k reads like the number of piece k + 1. */
  ghost predicate NothingClashes(w: World, name: string) {
    forall k: nat, x | Shared(w, name, k, x) :: !Clashes(x, k)
  }

  lemma NothingClashesIff(w: World, name: string)
    requires Numbered(Vector(w, name))
    ensures NothingClashes(w, name) <==> NoClash(Vector(w, name))
  {
    var pieces := Vector(w, name);
    if NothingClashes(w, name) {
      forall k, j | 0 <= k < |pieces| && 0 <= j < |pieces[k].sources| ensures !Clashes(pieces[k].sources[j], k) {
        assert pieces[k].number == k;
        assert Shared(w, name, k, pieces[k].sources[j]);
      }
    }
    if NoClash(pieces) {
      forall k: nat, x | Shared(w, name, k, x) ensures !Clashes(x, k) {
        var i :| 0 <= i < |pieces| && pieces[i].number == k && x in pieces[i].sources;
        assert pieces[i].number == i;
      }
    }
  }

  lemma ReadsRightIff(w: World, name: string, r: Option<Parsed>)
    requires Numbered(Vector(w, name))
    requires forall i | 0 <= i < |Vector(w, name)| :: Ordered(Vector(w, name)[i].sources)
    requires r.Some? ==> NoEmpty(r.value.table)
    ensures var (size, fileHash) := Details(w, name);
            ReadsRight(r, w, name) <==> r == Some(Parsed(size, fileHash, Table(Vector(w, name))))
  {
    var pieces := Vector(w, name);
    forall k: int, key, hash
      ensures Offers(Table(pieces), k, key, hash) <==> SharedWith(w, name, k, key, hash)
    {
      TableIsExact(pieces, k, key, hash);
      assert forall x :: Shared(w, name, k, x) <==> Sources(pieces, k, x);
    }
    TableFillsEntries(pieces);
    if ReadsRight(r, w, name) {
      SameOffersSameTable(r.value.table, Table(pieces));
    }
  }

  lemma ParsedHasNoEmpty(msg: string)
    requires ParseText(msg).Some?
    ensures NoEmpty(ParseText(msg).value.table)
  {
    var body := LinesFrom(msg, After(msg, After(msg, After(msg, After(msg, 0)))));
    ParserFillsEntries(Initial, body);
  }

  /** The peer that is granted a download in any run in which the accepted pieces of the file came in order,
      with newline-free fields: it reads off exactly what the tracker's tables share, the size and hash last
      described and every source of every piece, if and only if the file has pieces and no field of a source
      reads like the next piece's number. */
  lemma DownloadIsRightIff(ws: seq<World>, es: seq<Event>, n: nat, input: seq<string>, sock: int)
    requires IsRun(ws, es) && n <= |es| && sock in ws[n].acc.logmap && DownloadFile(ws[n], input, sock).Granted?
    requires AllInOrder(ws, es, n, input[2]) && OneLine(Details(ws[n], input[2]).1)
    requires forall p, x | Shared(ws[n], input[2], p, x) :: OneLine(x.ip) && OneLine(x.path) && OneLine(x.hash)
    ensures var reply := DownloadFile(ws[n], input, sock);
            ReadsRight(ParseText(Render(ReplyLines(reply.size, reply.fileHash, reply.pieces))), ws[n], input[2])
            <==> (exists k :: HasNumber(Vector(ws[n], input[2]), k)) && NothingClashes(ws[n], input[2])
  {
    var reply, name := DownloadFile(ws[n], input, sock), input[2];
    var msg := Render(ReplyLines(reply.size, reply.fileHash, reply.pieces));
    if ParseText(msg).Some? {
      ParsedHasNoEmpty(msg);
    }
    NumberedIffInOrder(ws, es, n, name);
    NothingClashesIff(ws[n], name);
    EveryStateIsSound(ws, es, n);
    if reply.pieces == [] {
      EmptyReplyThrows(reply.size, reply.fileHash);
    } else {
      assert HasNumber(reply.pieces, reply.pieces[0].number);
      assert TableKept(ws[n].files, name);
      ReadsRightIff(ws[n], name, ParseText(msg));
      ReachableReplyParsesBack(ws, es, n, name);
    }
  }
}
