/** File entries as the bytes that are copied between nodes, and the selection made when a node joins. */
module FileRecords {
  import opened Ids

  const FILENAME_SIZE := 256
  const FILEPATH_SIZE := 4096
  const IP_SIZE := 16
  const PORT_SIZE := 4
  const LINK_SIZE := 8

  /** sizeof(FileEntry) on a 64-bit platform; the fields leave no padding. */
  const ENTRY_SIZE := 4400

  /** A file entry without its link. */
  datatype Fields = Fields(id: Hash, filename: seq<byte>, filepath: seq<byte>, ownerIp: seq<byte>, ownerPort: seq<byte>)

  predicate Sized(r: Fields) {
    && |r.filename| == FILENAME_SIZE && |r.filepath| == FILEPATH_SIZE
    && |r.ownerIp| == IP_SIZE && |r.ownerPort| == PORT_SIZE
  }

  type Record = r: Fields | Sized(r)
    witness Fields(seq(20, _ => 0), seq(FILENAME_SIZE, _ => 0), seq(FILEPATH_SIZE, _ => 0),
                   seq(IP_SIZE, _ => 0), seq(PORT_SIZE, _ => 0))

  /** The memory image of an entry; link is whatever its next pointer holds. */
  function Image(r: Record, link: seq<byte>): (b: seq<byte>)
    requires |link| == LINK_SIZE
    ensures |b| == ENTRY_SIZE
  {
    r.id + r.filename + r.filepath + r.ownerIp + r.ownerPort + link
  }

  /** Reading an image back into an entry, link ignored. */
  function Decode(b: seq<byte>): Record
    requires |b| == ENTRY_SIZE
  {
    Fields(b[..20], b[20..276], b[276..4372], b[4372..4388], b[4388..4392])
  }

  lemma DecodeImage(r: Record, link: seq<byte>)
    requires |link| == LINK_SIZE
    ensures Decode(Image(r, link)) == r
  {
    var b := Image(r, link);
    assert b[..20] == r.id;
    assert b[20..276] == r.filename;
    assert b[276..4372] == r.filepath;
    assert b[4372..4388] == r.ownerIp;
    assert b[4388..4392] == r.ownerPort;
  }

  /** The entries of a buffer, block by block. */
  function DecodeAll(b: seq<byte>): (records: seq<Record>)
    requires |b| % ENTRY_SIZE == 0
    ensures ENTRY_SIZE * |records| == |b|
  {
    if b == [] then [] else
      assert |b| >= ENTRY_SIZE;
      [Decode(b[..ENTRY_SIZE])] + DecodeAll(b[ENTRY_SIZE..])
  }

  lemma {:induction false} DecodeAllAppend(a: seq<byte>, b: seq<byte>)
    requires |a| % ENTRY_SIZE == 0 && |b| == ENTRY_SIZE
    ensures |a + b| % ENTRY_SIZE == 0
    ensures DecodeAll(a + b) == DecodeAll(a) + [Decode(b)]
    decreases |a|
  {
    if a == [] {
      assert a + b == b && b[..ENTRY_SIZE] == b && b[ENTRY_SIZE..] == [];
      assert DecodeAll(b[ENTRY_SIZE..]) == [];
    } else {
      DecodeAllAppend(a[ENTRY_SIZE..], b);
      assert (a + b)[..ENTRY_SIZE] == a[..ENTRY_SIZE];
      assert (a + b)[ENTRY_SIZE..] == a[ENTRY_SIZE..] + b;
    }
  }

  // ----- which entries move -----

  /** The entries a joining node is given, in list order. */
  function Matching(files: seq<Record>, newNode: Hash, current: Hash): seq<Record> {
    if files == [] then []
    else (if ShouldTransfer(files[0].id, newNode, current) then [files[0]] else [])
         + Matching(files[1..], newNode, current)
  }

  /** The entries the sender keeps, in list order. */
  function Kept(files: seq<Record>, newNode: Hash, current: Hash): seq<Record> {
    if files == [] then []
    else (if ShouldTransfer(files[0].id, newNode, current) then [] else [files[0]])
         + Kept(files[1..], newNode, current)
  }

  lemma {:induction false} MatchingAppend(files: seq<Record>, r: Record, newNode: Hash, current: Hash)
    ensures Matching(files + [r], newNode, current)
            == Matching(files, newNode, current) + if ShouldTransfer(r.id, newNode, current) then [r] else []
  {
    FirstOfAppend(files, r);
    if files != [] {
      MatchingAppend(files[1..], r, newNode, current);
    }
  }

  lemma MatchingUpTo(files: seq<Record>, k: nat, newNode: Hash, current: Hash)
    requires k < |files|
    ensures Matching(files[..k + 1], newNode, current)
            == Matching(files[..k], newNode, current)
               + if ShouldTransfer(files[k].id, newNode, current) then [files[k]] else []
  {
    assert files[..k + 1] == files[..k] + [files[k]];
    MatchingAppend(files[..k], files[k], newNode, current);
  }

  lemma {:induction false} KeptAppend(files: seq<Record>, r: Record, newNode: Hash, current: Hash)
    ensures Kept(files + [r], newNode, current)
            == Kept(files, newNode, current) + if ShouldTransfer(r.id, newNode, current) then [] else [r]
  {
    FirstOfAppend(files, r);
    if files != [] {
      KeptAppend(files[1..], r, newNode, current);
    }
  }

  lemma FirstOfAppend(s: seq<Record>, r: Record)
    ensures (s + [r])[0] == if s == [] then r else s[0]
    ensures (s + [r])[1..] == if s == [] then [] else s[1..] + [r]
  {}

  lemma {:induction false} SelectionPartitions(files: seq<Record>, newNode: Hash, current: Hash)
    ensures multiset(files) == multiset(Matching(files, newNode, current)) + multiset(Kept(files, newNode, current))
  {
    if files != [] {
      SelectionPartitions(files[1..], newNode, current);
      assert files == [files[0]] + files[1..];
    }
  }

  /** An entry moves, as often as it is listed, exactly when the transfer test selects its identifier. */
  lemma {:induction false} SelectionIsExact(files: seq<Record>, r: Record, newNode: Hash, current: Hash)
    ensures var n, moves := multiset(files)[r], ShouldTransfer(r.id, newNode, current);
            && multiset(Matching(files, newNode, current))[r] == (if moves then n else 0)
            && multiset(Kept(files, newNode, current))[r] == (if moves then 0 else n)
  {
    if files != [] {
      SelectionIsExact(files[1..], r, newNode, current);
      assert files == [files[0]] + files[1..];
    }
  }

  lemma HeadOfConcat(a: seq<Record>, b: seq<Record>)
    requires a != []
    ensures a + b != [] && (a + b)[0] == a[0] && (a + b)[1..] == a[1..] + b
  {}

  /** Both selections keep the order of the list. */
  lemma {:induction false} MatchingKeepsOrder(a: seq<Record>, b: seq<Record>, newNode: Hash, current: Hash)
    ensures Matching(a + b, newNode, current) == Matching(a, newNode, current) + Matching(b, newNode, current)
  {
    if a == [] {
      assert a + b == b;
    } else {
      MatchingKeepsOrder(a[1..], b, newNode, current);
      HeadOfConcat(a, b);
    }
  }

  lemma {:induction false} KeptKeepsOrder(a: seq<Record>, b: seq<Record>, newNode: Hash, current: Hash)
    ensures Kept(a + b, newNode, current) == Kept(a, newNode, current) + Kept(b, newNode, current)
  {
    if a == [] {
      assert a + b == b;
    } else {
      KeptKeepsOrder(a[1..], b, newNode, current);
      HeadOfConcat(a, b);
    }
  }

  function Reversed(s: seq<Record>): seq<Record> {
    if s == [] then [] else Reversed(s[1..]) + [s[0]]
  }

  lemma {:induction false} ReversedAt(s: seq<Record>, k: nat)
    requires k < |s|
    ensures |Reversed(s)| == |s| && Reversed(s)[k] == s[|s| - 1 - k]
  {
    if |s| > 1 {
      ReversedAt(s[1..], if k < |s| - 1 then k else 0);
    }
  }

  lemma {:induction false} ReversedKeepsEntries(s: seq<Record>)
    ensures multiset(Reversed(s)) == multiset(s)
  {
    if s != [] {
      ReversedKeepsEntries(s[1..]);
      assert s == [s[0]] + s[1..];
    }
  }

  lemma {:induction false} ReversedAppend(s: seq<Record>, r: Record)
    ensures Reversed(s + [r]) == [r] + Reversed(s)
  {
    FirstOfAppend(s, r);
    if s != [] {
      ReversedAppend(s[1..], r);
    }
  }
}
