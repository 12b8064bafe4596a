/** The tracker's answer to download_file and the peer's parser for it. */
module DownloadReply {
  import opened Options
  import opened Text
  import opened Pieces

  // ----- the printer -----

  function Fields(s: FileInfo): (f: seq<string>)
    ensures |f| == 4
  {
    [ToString(s.port), s.ip, s.path, s.hash]
  }

  function SourceLines(sources: seq<FileInfo>): seq<string> {
    if sources == [] then [] else Fields(sources[0]) + SourceLines(sources[1..])
  }

  function PieceLines(pieces: seq<Piece>): seq<string> {
    if pieces == [] then []
    else [ToString(pieces[0].number)] + SourceLines(pieces[0].sources) + PieceLines(pieces[1..])
  }

  function ReplyLines(size: int, fileHash: string, pieces: seq<Piece>): seq<string> {
    ["download", ToString(size), fileHash] + PieceLines(pieces)
  }

  // ----- the parser, on complete lines -----

  /** The parser's variables: current piece, field counter, the source being read, and piece_map with
      each set of sources keyed by what its elements are compared by. */
  datatype Parser = Parser(i: nat, lineNumber: nat, port: int, ip: string, path: string,
                           table: map<nat, map<Key, string>>)

  const Initial := Parser(0, 0, 0, "", "", map[])

  datatype Parsed = Parsed(size: int, fileHash: string, table: map<nat, map<Key, string>>)

  /** set::insert again: an equal source already there stays. */
  function Put(m: map<Key, string>, k: Key, hash: string): map<Key, string> {
    if k in m then m else m[k := hash]
  }

  function SourcesAt(table: map<nat, map<Key, string>>, i: nat): map<Key, string> {
    if i in table then table[i] else map[]
  }

  /** One pass of the parse loop; None when stoi throws. */
  function Read(p: Parser, line: string): Option<Parser> {
    if line == ToString(p.i + 1) then Some(p.(i := p.i + 1))
    else if p.lineNumber % 4 == 0 then
      match Stoi(line)
      case None => None
      case Some(v) => Some(p.(port := v, lineNumber := p.lineNumber + 1))
    else if p.lineNumber % 4 == 1 then Some(p.(ip := line, lineNumber := p.lineNumber + 1))
    else if p.lineNumber % 4 == 2 then Some(p.(path := line, lineNumber := p.lineNumber + 1))
    else
      var sources := Put(SourcesAt(p.table, p.i), Key(p.path, p.ip, p.port), line);
      Some(p.(table := p.table[p.i := sources], lineNumber := p.lineNumber + 1))
  }

  function ReadAll(p: Parser, lines: seq<string>): Option<Parser>
    decreases |lines|
  {
    if lines == [] then Some(p)
    else
      match Read(p, lines[0])
      case None => None
      case Some(q) => ReadAll(q, lines[1..])
  }

  /** The lines the loop gets to see: the first piece's number is skipped unread, and when there is none
      the search for it wraps round to the top of the message. */
  function Body(lines: seq<string>): seq<string>
    requires |lines| >= 3
  {
    if |lines| == 3 then lines else lines[4..]
  }

  /** What the parser makes of the texts it has cut out of the message. */
  function ParseParts(sizeText: string, fileHash: string, body: seq<string>): Option<Parsed> {
    match Stoi(sizeText)
    case None => None
    case Some(size) =>
      match ReadAll(Initial, body)
      case None => None
      case Some(p) => Some(Parsed(size, fileHash, p.table))
  }

  function ParseLines(lines: seq<string>): Option<Parsed>
    requires |lines| >= 3
  {
    ParseParts(lines[1], lines[2], Body(lines))
  }

  // ----- what should come out -----

  function PutAll(m: map<Key, string>, sources: seq<FileInfo>): map<Key, string>
    decreases |sources|
  {
    if sources == [] then m
    else PutAll(Put(m, KeyOf(sources[0]), sources[0].hash), sources[1..])
  }

  function SourceMap(sources: seq<FileInfo>): map<Key, string> {
    PutAll(map[], sources)
  }

  /** Each piece that has sources, with exactly those sources. */
  function Table(pieces: seq<Piece>): map<nat, map<Key, string>> {
    map k: nat | k < |pieces| && pieces[k].sources != [] :: SourceMap(pieces[k].sources)
  }

  ghost predicate NewKeys(m: map<Key, string>, sources: seq<FileInfo>) {
    forall i | 0 <= i < |sources| :: KeyOf(sources[i]) !in m
  }

  lemma {:induction false} PutAllIsExact(m: map<Key, string>, sources: seq<FileInfo>)
    requires Ordered(sources) && NewKeys(m, sources)
    ensures forall k :: k in PutAll(m, sources) <==> k in m || HasKey(sources, k)
    ensures forall k | k in m :: PutAll(m, sources)[k] == m[k]
    ensures forall i | 0 <= i < |sources| ::
              KeyOf(sources[i]) in PutAll(m, sources) && PutAll(m, sources)[KeyOf(sources[i])] == sources[i].hash
    decreases |sources|
  {
    if sources != [] {
      var s, rest := sources[0], sources[1..];
      PutAllIsExact(Put(m, KeyOf(s), s.hash), rest);
      forall k ensures HasKey(sources, k) <==> k == KeyOf(s) || HasKey(rest, k) {
        if i :| 0 <= i < |sources| && KeyOf(sources[i]) == k {
          assert i > 0 ==> rest[i - 1] == sources[i];
        }
        if HasKey(rest, k) {
          var i :| 0 <= i < |rest| && KeyOf(rest[i]) == k;
          assert sources[i + 1] == rest[i];
        }
      }
      forall i | 0 <= i < |sources|
        ensures KeyOf(sources[i]) in PutAll(m, sources) && PutAll(m, sources)[KeyOf(sources[i])] == sources[i].hash
      {
        assert i > 0 ==> sources[i] == rest[i - 1];
      }
    }
  }

  /** A piece's entry of the table holds its sources and their hashes, and nothing else. */
  lemma SourceMapIsExact(sources: seq<FileInfo>, k: Key)
    requires Ordered(sources)
    ensures k in SourceMap(sources) <==> HasKey(sources, k)
    ensures forall i | 0 <= i < |sources| && KeyOf(sources[i]) == k :: SourceMap(sources)[k] == sources[i].hash
  {
    PutAllIsExact(map[], sources);
  }

  // ----- premises -----

  ghost predicate Printable(s: FileInfo) {
    INT_MIN <= s.port <= INT_MAX && OneLine(s.ip) && OneLine(s.path) && OneLine(s.hash)
  }

  ghost predicate Clean(sources: seq<FileInfo>) {
    Ordered(sources) && forall j | 0 <= j < |sources| :: Printable(sources[j])
  }

  /** What the tracker keeps true of a file's pieces, and texts without line breaks. */
  ghost predicate Sendable(size: int, fileHash: string, pieces: seq<Piece>) {
    && INT_MIN <= size <= INT_MAX && OneLine(fileHash)
    && pieces != [] && Numbered(pieces)
    && (forall i | 0 <= i < |pieces| :: Clean(pieces[i].sources))
  }

  /** A field of s reads like the number of the piece after piece k. */
  predicate Clashes(s: FileInfo, k: nat) {
    var next := ToString(k + 1);
    ToString(s.port) == next || s.ip == next || s.path == next || s.hash == next
  }

  /** No field of any piece's sources reads like the next piece's number. */
  ghost predicate NoClash(pieces: seq<Piece>) {
    forall k, j | 0 <= k < |pieces| && 0 <= j < |pieces[k].sources| :: !Clashes(pieces[k].sources[j], k)
  }

  // ----- reading one source -----

  /** The parser after a source that does not clash. */
  function AfterSource(p: Parser, s: FileInfo): Parser {
    Parser(p.i, p.lineNumber + 4, s.port, s.ip, s.path,
           p.table[p.i := Put(SourcesAt(p.table, p.i), KeyOf(s), s.hash)])
  }

  function AfterPort(p: Parser, s: FileInfo): Parser {
    p.(port := s.port, lineNumber := p.lineNumber + 1)
  }

  function AfterIp(p: Parser, s: FileInfo): Parser {
    AfterPort(p, s).(ip := s.ip, lineNumber := p.lineNumber + 2)
  }

  function AfterPath(p: Parser, s: FileInfo): Parser {
    AfterIp(p, s).(path := s.path, lineNumber := p.lineNumber + 3)
  }

  lemma ReadPort(p: Parser, s: FileInfo)
    requires p.lineNumber % 4 == 0 && Printable(s) && ToString(s.port) != ToString(p.i + 1)
    ensures Read(p, ToString(s.port)) == Some(AfterPort(p, s))
  {
    StoiOfToString(s.port);
  }

  lemma ReadIp(p: Parser, s: FileInfo)
    requires p.lineNumber % 4 == 0 && s.ip != ToString(p.i + 1)
    ensures Read(AfterPort(p, s), s.ip) == Some(AfterIp(p, s))
  {
  }

  lemma ReadPath(p: Parser, s: FileInfo)
    requires p.lineNumber % 4 == 0 && s.path != ToString(p.i + 1)
    ensures Read(AfterIp(p, s), s.path) == Some(AfterPath(p, s))
  {
  }

  lemma ReadHash(p: Parser, s: FileInfo)
    requires p.lineNumber % 4 == 0 && s.hash != ToString(p.i + 1)
    ensures Read(AfterPath(p, s), s.hash) == Some(AfterSource(p, s))
  {
  }

  lemma ReadOne(p: Parser, q: Parser, line: string, rest: seq<string>)
    requires Read(p, line) == Some(q)
    ensures ReadAll(p, [line] + rest) == ReadAll(q, rest)
  {
    assert ([line] + rest)[1..] == rest;
  }

  lemma FieldsInFront(s: FileInfo, rest: seq<string>)
    ensures Fields(s) + rest == [ToString(s.port)] + ([s.ip] + ([s.path] + ([s.hash] + rest)))
  {}

  lemma ReadSource(p: Parser, s: FileInfo, rest: seq<string>)
    requires p.lineNumber % 4 == 0 && Printable(s) && !Clashes(s, p.i)
    ensures ReadAll(p, Fields(s) + rest) == ReadAll(AfterSource(p, s), rest)
  {
    FieldsInFront(s, rest);
    ReadPort(p, s);
    ReadOne(p, AfterPort(p, s), ToString(s.port), [s.ip] + ([s.path] + ([s.hash] + rest)));
    ReadIp(p, s);
    ReadOne(AfterPort(p, s), AfterIp(p, s), s.ip, [s.path] + ([s.hash] + rest));
    ReadPath(p, s);
    ReadOne(AfterIp(p, s), AfterPath(p, s), s.path, [s.hash] + rest);
    ReadHash(p, s);
    ReadOne(AfterPath(p, s), AfterSource(p, s), s.hash, rest);
  }

  lemma AfterSourceEntry(p: Parser, s: FileInfo)
    requires p.lineNumber % 4 == 0
    ensures AfterSource(p, s).i == p.i && AfterSource(p, s).lineNumber % 4 == 0
    ensures SourcesAt(AfterSource(p, s).table, p.i) == Put(SourcesAt(p.table, p.i), KeyOf(s), s.hash)
  {}

  lemma SourceLinesInFront(sources: seq<FileInfo>, rest: seq<string>)
    requires sources != []
    ensures SourceLines(sources) + rest == Fields(sources[0]) + (SourceLines(sources[1..]) + rest)
  {}

  /** The parser after all sources of its current piece. */
  function AfterSources(p: Parser, sources: seq<FileInfo>): Parser
    decreases |sources|
  {
    if sources == [] then p else AfterSources(AfterSource(p, sources[0]), sources[1..])
  }

  lemma {:induction false} ReadSources(p: Parser, sources: seq<FileInfo>, rest: seq<string>)
    requires p.lineNumber % 4 == 0
    requires forall j | 0 <= j < |sources| :: Printable(sources[j]) && !Clashes(sources[j], p.i)
    ensures ReadAll(p, SourceLines(sources) + rest) == ReadAll(AfterSources(p, sources), rest)
    decreases |sources|
  {
    if sources == [] {
      assert SourceLines(sources) + rest == rest;
    } else {
      var later := SourceLines(sources[1..]) + rest;
      SourceLinesInFront(sources, rest);
      ReadSource(p, sources[0], later);
      AfterSourceEntry(p, sources[0]);
      ReadSources(AfterSource(p, sources[0]), sources[1..], rest);
    }
  }

  lemma {:induction false} AfterSourcesTable(p: Parser, sources: seq<FileInfo>)
    requires p.lineNumber % 4 == 0
    ensures var q := AfterSources(p, sources);
            && q.i == p.i && q.lineNumber % 4 == 0
            && q.table == if sources == [] then p.table
                          else p.table[p.i := PutAll(SourcesAt(p.table, p.i), sources)]
    decreases |sources|
  {
    if sources != [] {
      AfterSourcesTable(AfterSource(p, sources[0]), sources[1..]);
    }
  }

  // ----- reading all pieces -----

  /** The table after the pieces before k. */
  function TableBefore(pieces: seq<Piece>, k: nat): map<nat, map<Key, string>>
    requires k <= |pieces|
  {
    map j: nat | j < k && pieces[j].sources != [] :: SourceMap(pieces[j].sources)
  }

  lemma TableGrows(pieces: seq<Piece>, k: nat)
    requires k < |pieces|
    ensures k !in TableBefore(pieces, k)
    ensures TableBefore(pieces, k + 1)
            == if pieces[k].sources == [] then TableBefore(pieces, k)
               else TableBefore(pieces, k)[k := SourceMap(pieces[k].sources)]
  {}

  /** The parser stands at the first source of piece k, with everything before read right. */
  ghost predicate AtPiece(p: Parser, pieces: seq<Piece>, k: nat) {
    k < |pieces| && p.i == k && p.lineNumber % 4 == 0 && p.table == TableBefore(pieces, k)
  }

  /** The lines from the first source of piece k on. */
  function LinesAt(pieces: seq<Piece>, k: nat): seq<string>
    requires k < |pieces|
  {
    SourceLines(pieces[k].sources) + PieceLines(pieces[k + 1..])
  }

  ghost predicate PieceClear(pieces: seq<Piece>, k: nat)
    requires k < |pieces|
  {
    forall j | 0 <= j < |pieces[k].sources| :: !Clashes(pieces[k].sources[j], k)
  }

  /** A piece without clash is read right, and its successor's number line is taken for what it is. */
  lemma ReadPiece(p: Parser, size: int, fileHash: string, pieces: seq<Piece>, k: nat)
    requires Sendable(size, fileHash, pieces) && AtPiece(p, pieces, k) && PieceClear(pieces, k)
    ensures var q := AfterSources(p, pieces[k].sources);
            && q.table == TableBefore(pieces, k + 1)
            && (if k + 1 < |pieces| then
                  var next := q.(i := k + 1);
                  AtPiece(next, pieces, k + 1)
                  && ReadAll(p, LinesAt(pieces, k)) == ReadAll(next, LinesAt(pieces, k + 1))
                else ReadAll(p, LinesAt(pieces, k)) == Some(q))
  {
    var sources := pieces[k].sources;
    var q := AfterSources(p, sources);
    ReadSources(p, sources, PieceLines(pieces[k + 1..]));
    AfterSourcesTable(p, sources);
    TableGrows(pieces, k);
    if k + 1 < |pieces| {
      PieceLinesAt(pieces, k + 1);
    }
  }

  lemma PieceLinesAt(pieces: seq<Piece>, k: nat)
    requires k < |pieces| && Numbered(pieces)
    ensures PieceLines(pieces[k..]) == [ToString(k)] + LinesAt(pieces, k)
  {
    assert pieces[k..][1..] == pieces[k + 1..];
  }

  lemma {:induction false} ReadsAllPieces(p: Parser, size: int, fileHash: string, pieces: seq<Piece>, k: nat)
    requires Sendable(size, fileHash, pieces) && AtPiece(p, pieces, k)
    requires forall j | k <= j < |pieces| :: PieceClear(pieces, j)
    ensures var r := ReadAll(p, LinesAt(pieces, k)); r.Some? && r.value.table == Table(pieces)
    decreases |pieces| - k
  {
    ReadPiece(p, size, fileHash, pieces, k);
    var q := AfterSources(p, pieces[k].sources);
    if k + 1 < |pieces| {
      ReadsAllPieces(q.(i := k + 1), size, fileHash, pieces, k + 1);
    } else {
      assert TableBefore(pieces, |pieces|) == Table(pieces);
    }
  }

  // ----- a clash loses a source -----

  /** Whatever is read later, the entries of pieces already left do not change. */
  lemma {:induction false} LeftPiecesFrozen(p: Parser, lines: seq<string>, k: nat)
    requires k < p.i && ReadAll(p, lines).Some?
    ensures SourcesAt(ReadAll(p, lines).value.table, k) == SourcesAt(p.table, k)
    decreases |lines|
  {
    if lines != [] {
      LeftPiecesFrozen(Read(p, lines[0]).value, lines[1..], k);
    }
  }

  /** Reading a clashing source moves on to the next piece before the source is stored. */
  lemma ClashingSourceIsLost(p: Parser, s: FileInfo, rest: seq<string>)
    requires p.lineNumber % 4 == 0 && Printable(s) && Clashes(s, p.i)
    ensures var r := ReadAll(p, Fields(s) + rest);
            r.Some? ==> SourcesAt(r.value.table, p.i) == SourcesAt(p.table, p.i)
  {
    FieldsInFront(s, rest);
    var fromHash := [s.hash] + rest;
    var fromPath := [s.path] + fromHash;
    var fromIp := [s.ip] + fromPath;
    if ToString(s.port) == ToString(p.i + 1) {
      MovesOn(p, p, [ToString(s.port)] + fromIp);
    } else {
      ReadPort(p, s);
      ReadOne(p, AfterPort(p, s), ToString(s.port), fromIp);
      if s.ip == ToString(p.i + 1) {
        MovesOn(p, AfterPort(p, s), fromIp);
      } else {
        ReadIp(p, s);
        ReadOne(AfterPort(p, s), AfterIp(p, s), s.ip, fromPath);
        if s.path == ToString(p.i + 1) {
          MovesOn(p, AfterIp(p, s), fromPath);
        } else {
          ReadPath(p, s);
          ReadOne(AfterIp(p, s), AfterPath(p, s), s.path, fromHash);
          MovesOn(p, AfterPath(p, s), fromHash);
        }
      }
    }
  }

  lemma MovesOn(p: Parser, q: Parser, lines: seq<string>)
    requires q.i == p.i && q.table == p.table
    requires lines != [] && lines[0] == ToString(p.i + 1)
    ensures var r := ReadAll(q, lines);
            r.Some? ==> SourcesAt(r.value.table, p.i) == SourcesAt(p.table, p.i)
  {
    assert Read(q, lines[0]) == Some(q.(i := q.i + 1));
    if ReadAll(q, lines).Some? {
      LeftPiecesFrozen(q.(i := q.i + 1), lines[1..], p.i);
    }
  }

  /** A source once read is not overwritten, whatever an equal source says later. */
  lemma {:induction false} ReadSourcesStay(p: Parser, lines: seq<string>, k: nat, key: Key)
    requires key in SourcesAt(p.table, k) && ReadAll(p, lines).Some?
    ensures var q := ReadAll(p, lines).value;
            key in SourcesAt(q.table, k) && SourcesAt(q.table, k)[key] == SourcesAt(p.table, k)[key]
    decreases |lines|
  {
    if lines != [] {
      var q := Read(p, lines[0]).value;
      ReadKeepsSource(p, lines[0], q, k, key);
      ReadSourcesStay(q, lines[1..], k, key);
    }
  }

  lemma ReadKeepsSource(p: Parser, line: string, q: Parser, k: nat, key: Key)
    requires key in SourcesAt(p.table, k) && Read(p, line) == Some(q)
    ensures key in SourcesAt(q.table, k) && SourcesAt(q.table, k)[key] == SourcesAt(p.table, k)[key]
  {}

  /** The lost source is missing from what the piece should hold. */
  lemma ClashAtHead(p: Parser, sources: seq<FileInfo>, rest: seq<string>)
    requires p.lineNumber % 4 == 0 && sources != [] && Printable(sources[0]) && Clashes(sources[0], p.i)
    requires Ordered(sources) && NewKeys(SourcesAt(p.table, p.i), sources)
    ensures var r := ReadAll(p, Fields(sources[0]) + rest);
            r.Some? ==> SourcesAt(r.value.table, p.i) != PutAll(SourcesAt(p.table, p.i), sources)
  {
    var here := SourcesAt(p.table, p.i);
    ClashingSourceIsLost(p, sources[0], rest);
    PutAllIsExact(here, sources);
    assert HasKey(sources, KeyOf(sources[0])) && KeyOf(sources[0]) !in here;
  }

  lemma {:induction false} ClashLosesSource(p: Parser, sources: seq<FileInfo>, rest: seq<string>, c: nat)
    requires p.lineNumber % 4 == 0 && c < |sources| && Clashes(sources[c], p.i)
    requires Ordered(sources) && NewKeys(SourcesAt(p.table, p.i), sources)
    requires forall j | 0 <= j < |sources| :: Printable(sources[j])
    ensures var r := ReadAll(p, SourceLines(sources) + rest);
            r.Some? ==> SourcesAt(r.value.table, p.i) != PutAll(SourcesAt(p.table, p.i), sources)
    decreases |sources|
  {
    var s, later := sources[0], SourceLines(sources[1..]) + rest;
    SourceLinesInFront(sources, rest);
    if Clashes(s, p.i) {
      ClashAtHead(p, sources, later);
    } else {
      var q := AfterSource(p, s);
      ReadSource(p, s, later);
      AfterSourceEntry(p, s);
      ClashLosesSource(q, sources[1..], rest, c - 1);
      assert PutAll(SourcesAt(q.table, q.i), sources[1..]) == PutAll(SourcesAt(p.table, p.i), sources);
    }
  }

  /** What the parsed table must hold at piece k, whatever the parser has read before it. */
  lemma PieceEntry(p: Parser, pieces: seq<Piece>, k: nat)
    requires AtPiece(p, pieces, k)
    ensures SourcesAt(p.table, k) == map[]
    ensures SourcesAt(Table(pieces), k) == PutAll(map[], pieces[k].sources)
  {
    TableGrows(pieces, k);
  }

  lemma ClashSpoilsPiece(p: Parser, pieces: seq<Piece>, k: nat)
    requires AtPiece(p, pieces, k) && Clean(pieces[k].sources) && !PieceClear(pieces, k)
    ensures var r := ReadAll(p, LinesAt(pieces, k)); r.Some? ==> r.value.table != Table(pieces)
  {
    var sources := pieces[k].sources;
    var c :| 0 <= c < |sources| && Clashes(sources[c], k);
    PieceEntry(p, pieces, k);
    ClashLosesSource(p, sources, PieceLines(pieces[k + 1..]), c);
  }

  lemma NextPiece(p: Parser, size: int, fileHash: string, pieces: seq<Piece>, k: nat) returns (q: Parser)
    requires Sendable(size, fileHash, pieces) && AtPiece(p, pieces, k) && PieceClear(pieces, k)
    requires k + 1 < |pieces|
    ensures AtPiece(q, pieces, k + 1) && ReadAll(p, LinesAt(pieces, k)) == ReadAll(q, LinesAt(pieces, k + 1))
  {
    q := AfterSources(p, pieces[k].sources).(i := k + 1);
    ReadPiece(p, size, fileHash, pieces, k);
  }

  lemma {:induction false} ClashSpoilsTable(p: Parser, size: int, fileHash: string, pieces: seq<Piece>, k: nat,
                                            spoiled: nat)
    requires Sendable(size, fileHash, pieces) && AtPiece(p, pieces, k)
    requires k <= spoiled < |pieces| && !PieceClear(pieces, spoiled)
    ensures var r := ReadAll(p, LinesAt(pieces, k)); r.Some? ==> r.value.table != Table(pieces)
    decreases |pieces| - k
  {
    if PieceClear(pieces, k) {
      var q := NextPiece(p, size, fileHash, pieces, k);
      ClashSpoilsTable(q, size, fileHash, pieces, k + 1, spoiled);
    } else {
      ClashSpoilsPiece(p, pieces, k);
    }
  }

  // ----- the round trip -----

  lemma BodyOfReply(size: int, fileHash: string, pieces: seq<Piece>)
    requires Sendable(size, fileHash, pieces)
    ensures var lines := ReplyLines(size, fileHash, pieces);
            && |lines| >= 4 && lines[1] == ToString(size) && lines[2] == fileHash
            && Body(lines) == LinesAt(pieces, 0)
  {
    PieceLinesAt(pieces, 0);
    assert pieces[0..] == pieces;
    var lines := ReplyLines(size, fileHash, pieces);
    assert lines == ["download", ToString(size), fileHash, ToString(0)] + LinesAt(pieces, 0);
  }

  /** For a non-empty list of pieces numbered in order and texts without line breaks, parsing the
      tracker's reply gives back the size, the hash and every piece's sources exactly when no field of a
      piece's sources reads like the next piece's number. */
  lemma RoundTripIffNoClash(size: int, fileHash: string, pieces: seq<Piece>)
    requires Sendable(size, fileHash, pieces)
    ensures |ReplyLines(size, fileHash, pieces)| >= 3
    ensures ParseLines(ReplyLines(size, fileHash, pieces)) == Some(Parsed(size, fileHash, Table(pieces)))
            <==> NoClash(pieces)
  {
    BodyOfReply(size, fileHash, pieces);
    StoiOfToString(size);
    assert Initial.table == TableBefore(pieces, 0);
    assert AtPiece(Initial, pieces, 0);
    if NoClash(pieces) {
      ReadsAllPieces(Initial, size, fileHash, pieces, 0);
    } else {
      var k, j :| 0 <= k < |pieces| && 0 <= j < |pieces[k].sources| && Clashes(pieces[k].sources[j], k);
      assert !PieceClear(pieces, k);
      ClashSpoilsTable(Initial, size, fileHash, pieces, 0, k);
    }
  }

  // ----- both ends as the source writes them -----

  lemma PrintedPiece(printed: seq<string>, pieces: seq<Piece>, k: nat)
    requires k < |pieces|
    ensures var lines := [ToString(pieces[k].number)] + SourceLines(pieces[k].sources);
            && printed + PieceLines(pieces[k..]) == (printed + lines) + PieceLines(pieces[k + 1..])
            && Render(printed + lines) == Render(printed) + Render(lines)
  {
    RenderConcat(printed, [ToString(pieces[k].number)] + SourceLines(pieces[k].sources));
    assert pieces[k..][1..] == pieces[k + 1..];
  }

  /** The printing loops of download_file. */
  method PrintReply(size: int, fileHash: string, pieces: seq<Piece>) returns (reply: string)
    ensures reply == Render(ReplyLines(size, fileHash, pieces))
  {
    reply := "download\n";
    reply := reply + ToString(size) + "\n";
    reply := reply + fileHash + "\n";
    ghost var printed := ["download", ToString(size), fileHash];
    assert reply == Render(printed) by {
      HeaderRenders("download", ToString(size), fileHash);
    }
    var k := 0;
    while k < |pieces|
      invariant k <= |pieces| && reply == Render(printed)
      invariant printed + PieceLines(pieces[k..]) == ReplyLines(size, fileHash, pieces)
    {
      var block := PrintPiece(pieces[k]);
      ghost var lines := [ToString(pieces[k].number)] + SourceLines(pieces[k].sources);
      PrintedPiece(printed, pieces, k);
      printed := printed + lines;
      reply := reply + block;
      k := k + 1;
    }
    assert printed == ReplyLines(size, fileHash, pieces);
  }

  lemma HeaderRenders(a: string, b: string, c: string)
    ensures Render([a, b, c]) == a + "\n" + b + "\n" + c + "\n"
  {
    assert [a, b, c][1..] == [b, c] && [b, c][1..] == [c] && [c][1..] == [];
    assert Render([c]) == c + "\n";
    assert Render([b, c]) == b + "\n" + (c + "\n");
  }

  lemma PrintedSource(printed: seq<string>, sources: seq<FileInfo>, j: nat)
    requires j < |sources|
    ensures var s := sources[j];
            && printed + SourceLines(sources[j..]) == (printed + Fields(s)) + SourceLines(sources[j + 1..])
            && Render(printed + Fields(s))
               == Render(printed) + (ToString(s.port) + "\n" + s.ip + "\n" + s.path + "\n" + s.hash + "\n")
  {
    FieldsRender(sources[j]);
    RenderConcat(printed, Fields(sources[j]));
    assert sources[j..][1..] == sources[j + 1..];
  }

  method PrintPiece(piece: Piece) returns (block: string)
    ensures block == Render([ToString(piece.number)] + SourceLines(piece.sources))
  {
    block := ToString(piece.number) + "\n";
    ghost var printed := [ToString(piece.number)];
    assert block == Render(printed) by {
      assert printed[1..] == [];
    }
    var j := 0;
    while j < |piece.sources|
      invariant j <= |piece.sources| && block == Render(printed)
      invariant printed + SourceLines(piece.sources[j..]) == [ToString(piece.number)] + SourceLines(piece.sources)
    {
      var s := piece.sources[j];
      PrintedSource(printed, piece.sources, j);
      printed := printed + Fields(s);
      block := block + (ToString(s.port) + "\n" + s.ip + "\n" + s.path + "\n" + s.hash + "\n");
      j := j + 1;
    }
    assert printed == [ToString(piece.number)] + SourceLines(piece.sources);
  }

  lemma FieldsRender(s: FileInfo)
    ensures Render(Fields(s)) == ToString(s.port) + "\n" + s.ip + "\n" + s.path + "\n" + s.hash + "\n"
  {
    HeaderRenders(s.ip, s.path, s.hash);
    assert Fields(s)[1..] == [s.ip, s.path, s.hash];
  }

  /** Behind the header one more line is skipped; find wraps round when there is none. */
  lemma BodyStarts(msg: string, start: nat)
    requires |LinesFrom(msg, 0)| >= 3 && LinesFrom(msg, start) == LinesFrom(msg, 0)[3..]
    ensures LinesFrom(msg, FindNewline(msg, start) + 1) == Body(LinesFrom(msg, 0))
  {
    var lines := LinesFrom(msg, 0);
    if |lines| > 3 {
      assert lines[4..] == lines[3..][1..];
    } else {
      assert FindNewline(msg, start) == -1;
    }
  }

  // ----- cutting the message at its newlines; -1 stands for npos -----

  /** One past the next newline; past npos, the top of the message again. */
  function After(msg: string, start: nat): (next: nat)
    ensures next <= |msg|
  {
    FindNewline(msg, start) + 1
  }

  /** substr up to the next newline, or to the end when there is none. */
  function Field(msg: string, start: nat): string
    requires start <= |msg|
  {
    var end := FindNewline(msg, start);
    if end == -1 then msg[start..] else msg[start..end]
  }

  function ParseText(msg: string): Option<Parsed> {
    var sizeAt := After(msg, 0);
    var hashAt := After(msg, sizeAt);
    ParseParts(Field(msg, sizeAt), Field(msg, hashAt), LinesFrom(msg, After(msg, After(msg, hashAt))))
  }

  lemma NextField(msg: string, k: nat, at: nat)
    requires at <= |msg| && k < |LinesFrom(msg, 0)| && LinesFrom(msg, at) == LinesFrom(msg, 0)[k..]
    ensures Field(msg, at) == LinesFrom(msg, 0)[k]
    ensures LinesFrom(msg, After(msg, at)) == LinesFrom(msg, 0)[k + 1..]
  {
  }

  /** On a message of at least three complete lines the cuts are those lines. */
  lemma ParseTextReadsLines(msg: string)
    requires |LinesFrom(msg, 0)| >= 3
    ensures ParseText(msg) == ParseLines(LinesFrom(msg, 0))
  {
    assert LinesFrom(msg, 0)[0..] == LinesFrom(msg, 0);
    NextField(msg, 0, 0);
    NextField(msg, 1, After(msg, 0));
    NextField(msg, 2, After(msg, After(msg, 0)));
    BodyStarts(msg, After(msg, After(msg, After(msg, 0))));
  }

  /** The parser: start and end move from newline to newline. */
  method ParseReply(msg: string) returns (r: Option<Parsed>)
    ensures r == ParseText(msg)
  {
    var start := After(msg, 0);
    var sizeText := Field(msg, start);
    start := After(msg, start);
    var fileHash := Field(msg, start);
    start := After(msg, start);
    start := After(msg, start);
    r := ParseRest(sizeText, fileHash, msg, start);
  }

  method ParseRest(sizeText: string, fileHash: string, msg: string, start: nat) returns (r: Option<Parsed>)
    ensures r == ParseParts(sizeText, fileHash, LinesFrom(msg, start))
  {
    var fileSize := Stoi(sizeText);
    if fileSize == None {
      return None;
    }
    var p := ReadPieces(msg, start);
    r := match p case None => None case Some(q) => Some(Parsed(fileSize.value, fileHash, q.table));
  }

  lemma ReadNext(p: Parser, msg: string, start: nat)
    ensures var e := FindNewline(msg, start);
            ReadAll(p, LinesFrom(msg, start)) ==
            if e == -1 then Some(p)
            else match Read(p, msg[start..e])
                 case None => None
                 case Some(q) => ReadAll(q, LinesFrom(msg, e + 1))
  {}

  /** The loop of the parser. */
  method ReadPieces(msg: string, from: nat) returns (r: Option<Parser>)
    ensures r == ReadAll(Initial, LinesFrom(msg, from))
  {
    var p, start, end := Initial, from, FindNewline(msg, from);
    ghost var result := ReadAll(Initial, LinesFrom(msg, from));
    while end != -1
      invariant end == FindNewline(msg, start)
      invariant result == ReadAll(p, LinesFrom(msg, start))
      decreases |msg| - start
    {
      ReadNext(p, msg, start);
      var next := Read(p, msg[start..end]);
      if next == None {
        return None;
      }
      p := next.value;
      start := end + 1;
      end := FindNewline(msg, start);
    }
    ReadNext(p, msg, start);
    return Some(p);
  }

  /** The round trip on the text the tracker sends. */
  lemma DownloadReplyRoundTrip(size: int, fileHash: string, pieces: seq<Piece>)
    requires Sendable(size, fileHash, pieces)
    ensures ParseText(Render(ReplyLines(size, fileHash, pieces))) == Some(Parsed(size, fileHash, Table(pieces)))
            <==> NoClash(pieces)
  {
    ReplyIsLines(size, fileHash, pieces);
    TextOfLines(ReplyLines(size, fileHash, pieces));
    RoundTripIffNoClash(size, fileHash, pieces);
  }

  lemma TextOfLines(lines: seq<string>)
    requires |lines| >= 3 && forall i | 0 <= i < |lines| :: OneLine(lines[i])
    ensures ParseText(Render(lines)) == ParseLines(lines)
  {
    LinesOfRender("", lines);
    assert "" + Render(lines) == Render(lines);
    ParseTextReadsLines(Render(lines));
  }

  /** A reply without pieces sends the parser back to the top of the message, where it takes the word
      "download" for a port and stoi throws. */
  lemma EmptyReplyThrows(size: int, fileHash: string)
    requires OneLine(fileHash)
    ensures ParseText(Render(ReplyLines(size, fileHash, []))) == None
  {
    var lines := ReplyLines(size, fileHash, []);
    TextOfLines(lines);
    assert lines[0] == "download" && Decimal(1) == "1";
    assert Stoi("download") == None;
    assert Read(Initial, lines[0]) == None;
  }

  lemma ReplyIsLines(size: int, fileHash: string, pieces: seq<Piece>)
    requires Sendable(size, fileHash, pieces)
    ensures forall i | 0 <= i < |ReplyLines(size, fileHash, pieces)| :: OneLine(ReplyLines(size, fileHash, pieces)[i])
  {
    PiecesAreLines(pieces);
  }

  lemma {:induction false} PiecesAreLines(pieces: seq<Piece>)
    requires forall i | 0 <= i < |pieces| :: Clean(pieces[i].sources)
    ensures forall i | 0 <= i < |PieceLines(pieces)| :: OneLine(PieceLines(pieces)[i])
  {
    if pieces != [] {
      SourcesAreLines(pieces[0].sources);
      PiecesAreLines(pieces[1..]);
    }
  }

  lemma {:induction false} SourcesAreLines(sources: seq<FileInfo>)
    requires forall j | 0 <= j < |sources| :: Printable(sources[j])
    ensures forall i | 0 <= i < |SourceLines(sources)| :: OneLine(SourceLines(sources)[i])
  {
    if sources != [] {
      SourcesAreLines(sources[1..]);
    }
  }
}
