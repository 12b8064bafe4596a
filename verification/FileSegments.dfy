/** Cutting the serialized entries into messages and putting them together again. */
module FileSegments {
  import opened Ids
  import opened FileRecords

  /** sizeof(Message.data): 1400 bytes less the header fields. */
  const CHUNK := 1328

  /** segment_index and total_segments are 16 bits wide. */
  const U16 := 0x1_0000

  /** A FILE_DATA message, or FILE_END when end is set. */
  datatype FileMessage = FileMessage(end: bool, index: nat, total: nat, data: seq<byte>)

  function ChunkCount(size: nat): nat {
    (size + CHUNK - 1) / CHUNK
  }

  function ChunkEnd(size: nat, i: nat): nat {
    if i * CHUNK + CHUNK > size then size else i * CHUNK + CHUNK
  }

  lemma ChunkInRange(size: nat, i: nat)
    requires i < ChunkCount(size)
    ensures i * CHUNK < size && i * CHUNK <= ChunkEnd(size, i) <= size
    ensures ChunkEnd(size, i) - i * CHUNK <= CHUNK
    ensures i + 1 == ChunkCount(size) <==> ChunkEnd(size, i) == size
  {}

  /** Message i of the sender's loop; both counters are cut to 16 bits. */
  function Segment(data: seq<byte>, i: nat): (m: FileMessage)
    requires i < ChunkCount(|data|)
    ensures !m.end && |m.data| <= CHUNK
  {
    ChunkInRange(|data|, i);
    FileMessage(false, i % U16, ChunkCount(|data|) % U16, data[i * CHUNK..ChunkEnd(|data|, i)])
  }

  function Segments(data: seq<byte>): (s: seq<FileMessage>)
    ensures |s| == ChunkCount(|data|)
    ensures forall i | 0 <= i < |s| :: s[i] == Segment(data, i)
  {
    seq(ChunkCount(|data|), i requires 0 <= i < ChunkCount(|data|) => Segment(data, i))
  }

  /** FILE_END reuses the message structure: its counters are those of the last segment, or whatever
      the structure held when there was none. */
  function EndMessage(data: seq<byte>, stale: FileMessage): (m: FileMessage)
    ensures m.end
  {
    var n := ChunkCount(|data|);
    if n == 0 then FileMessage(true, stale.index, stale.total, [])
    else FileMessage(true, (n - 1) % U16, n % U16, [])
  }

  /** FILE_END carries the counters of the last segment, and they pass the guard unless the number of
      segments is a multiple of 2^16; without a segment it carries what the structure held before. */
  lemma EndCarriesLast(data: seq<byte>, stale: FileMessage)
    ensures var n, end := ChunkCount(|data|), EndMessage(data, stale);
            if data == [] then end.index == stale.index && end.total == stale.total
            else
              && n > 0 && end.index == Segment(data, n - 1).index && end.total == Segment(data, n - 1).total
              && (end.index + 1 == end.total <==> n % U16 != 0)
  {}

  // ----- the joiner's buffer -----

  function Start(m: FileMessage): nat {
    m.index * CHUNK
  }

  function End(m: FileMessage): nat {
    Start(m) + |m.data|
  }

  function Placed(m: FileMessage): (b: map<nat, byte>) {
    map j: nat | Start(m) <= j < End(m) :: ByteAt(m, j)
  }

  /** The byte a segment puts at position j of the buffer. */
  function ByteAt(m: FileMessage, j: nat): byte
    requires Start(m) <= j < End(m)
  {
    m.data[j - Start(m)]
  }

  /** What the buffer is known to hold after copying the delivered segments, later ones over earlier. */
  function Assembled(delivered: seq<FileMessage>): map<nat, byte> {
    if delivered == [] then map[]
    else Assembled(delivered[..|delivered| - 1]) + Placed(delivered[|delivered| - 1])
  }

  /** file_data_size: set by every segment that calls itself the last. */
  function Size(delivered: seq<FileMessage>): nat {
    if delivered == [] then 0
    else
      var m := delivered[|delivered| - 1];
      if m.index + 1 == m.total then End(m) else Size(delivered[..|delivered| - 1])
  }

  /** A position holds the byte of the last segment delivered over it. */
  lemma {:induction false} LastWriteWins(delivered: seq<FileMessage>, k: nat, j: nat)
    requires k < |delivered| && Start(delivered[k]) <= j < End(delivered[k])
    requires forall m | k < m < |delivered| :: !(Start(delivered[m]) <= j < End(delivered[m]))
    ensures j in Assembled(delivered) && Assembled(delivered)[j] == ByteAt(delivered[k], j)
    decreases |delivered|
  {
    var n := |delivered| - 1;
    if k < n {
      LastWriteWins(delivered[..n], k, j);
    }
  }

  /** A position that no segment covers is not written. */
  lemma {:induction false} NothingElseIsWritten(delivered: seq<FileMessage>, j: nat)
    requires forall m | 0 <= m < |delivered| :: !(Start(delivered[m]) <= j < End(delivered[m]))
    ensures j !in Assembled(delivered)
    decreases |delivered|
  {
    if delivered != [] {
      NothingElseIsWritten(delivered[..|delivered| - 1], j);
    }
  }

  /** The size is the end of the last segment delivered that calls itself the last. */
  lemma {:induction false} LastSizeWins(delivered: seq<FileMessage>, k: nat)
    requires k < |delivered| && delivered[k].index + 1 == delivered[k].total
    requires forall m | k < m < |delivered| :: delivered[m].index + 1 != delivered[m].total
    ensures Size(delivered) == End(delivered[k])
    decreases |delivered|
  {
    var n := |delivered| - 1;
    if k < n {
      LastSizeWins(delivered[..n], k);
    }
  }

  /** The guard in front of deserialize_file_entries. */
  predicate Accepted(delivered: seq<FileMessage>, end: FileMessage) {
    Size(delivered) > 0 && end.index + 1 == end.total
  }

  /** Number of entries deserialize_file_entries reads off a buffer of that size. */
  function EntriesRead(size: nat): nat {
    (size + ENTRY_SIZE - 1) / ENTRY_SIZE
  }

  /** The first whole number of entries that reaches size. */
  lemma EntriesReach(size: nat, k: nat)
    requires size <= ENTRY_SIZE * k < size + ENTRY_SIZE
    ensures k == EntriesRead(size)
  {}

  /** Number of bytes read off the buffer when FILE_END ends the loop: whole entries, or nothing. */
  function ReadLength(delivered: seq<FileMessage>, end: FileMessage): (n: nat)
    ensures n % ENTRY_SIZE == 0
  {
    if Accepted(delivered, end) then ENTRY_SIZE * EntriesRead(Size(delivered)) else 0
  }

  /** What is read off agrees with what arrived wherever something did. */
  ghost predicate ReadOff(read: seq<byte>, delivered: seq<FileMessage>, end: FileMessage) {
    && |read| == ReadLength(delivered, end)
    && forall j | j in Assembled(delivered) && j < |read| :: read[j] == Assembled(delivered)[j]
  }

  // ----- what arrives -----

  /** Only segments of data arrive. */
  ghost predicate Genuine(data: seq<byte>, delivered: seq<FileMessage>) {
    forall k | 0 <= k < |delivered| :: delivered[k] in Segments(data)
  }

  /** Every segment arrives at least once; order and repetition are free. */
  ghost predicate Complete(data: seq<byte>, delivered: seq<FileMessage>) {
    Genuine(data, delivered) && forall i | 0 <= i < ChunkCount(|data|) :: Segment(data, i) in delivered
  }

  /** The 16-bit counters do not wrap. */
  predicate Fits(size: nat) {
    ChunkCount(size) < U16
  }

  lemma CountersFit(size: nat, i: nat)
    requires Fits(size) && i < ChunkCount(size)
    ensures i % U16 == i && ChunkCount(size) % U16 == ChunkCount(size)
  {}

  lemma SegmentPlace(data: seq<byte>, i: nat)
    requires Fits(|data|) && i < ChunkCount(|data|)
    ensures var m := Segment(data, i);
            && m.index == i && m.total == ChunkCount(|data|)
            && Start(m) == i * CHUNK && End(m) == ChunkEnd(|data|, i) && End(m) <= |data|
    ensures var m := Segment(data, i); forall j: nat | Start(m) <= j < End(m) :: ByteAt(m, j) == data[j]
  {
    ChunkInRange(|data|, i);
    CountersFit(|data|, i);
  }

  lemma SegmentIndex(data: seq<byte>, m: FileMessage) returns (i: nat)
    requires Fits(|data|) && m in Segments(data)
    ensures i < ChunkCount(|data|) && m == Segment(data, i)
    ensures m.index == i && m.total == ChunkCount(|data|)
    ensures Start(m) == i * CHUNK && End(m) == ChunkEnd(|data|, i) && End(m) <= |data|
    ensures forall j: nat | Start(m) <= j < End(m) :: ByteAt(m, j) == data[j]
  {
    var s := Segments(data);
    i :| 0 <= i < |s| && s[i] == m;
    SegmentPlace(data, i);
  }

  lemma {:induction false} AssembledIsGenuine(data: seq<byte>, delivered: seq<FileMessage>)
    requires Fits(|data|) && Genuine(data, delivered)
    ensures forall j | j in Assembled(delivered) :: j < |data| && Assembled(delivered)[j] == data[j]
    decreases |delivered|
  {
    if delivered != [] {
      var n := |delivered| - 1;
      AssembledIsGenuine(data, delivered[..n]);
      var i := SegmentIndex(data, delivered[n]);
    }
  }

  lemma {:induction false} AssembledCovers(delivered: seq<FileMessage>, k: nat, j: nat)
    requires k < |delivered| && Start(delivered[k]) <= j < End(delivered[k])
    ensures j in Assembled(delivered)
    decreases |delivered|
  {
    var n := |delivered| - 1;
    if k < n {
      AssembledCovers(delivered[..n], k, j);
    }
  }

  lemma {:induction false} SizeOfGenuine(data: seq<byte>, delivered: seq<FileMessage>)
    requires Fits(|data|) && Genuine(data, delivered)
    ensures Size(delivered) == if LastArrived(data, delivered) then |data| else 0
    decreases |delivered|
  {
    if delivered != [] {
      var n := |delivered| - 1;
      SizeOfGenuine(data, delivered[..n]);
      var i := SegmentIndex(data, delivered[n]);
      ChunkInRange(|data|, i);
      if i + 1 != ChunkCount(|data|) {
        LastArrivedEarlier(data, delivered);
      }
    }
  }

  lemma LastArrivedEarlier(data: seq<byte>, delivered: seq<FileMessage>)
    requires delivered != [] && delivered[|delivered| - 1].index + 1 != ChunkCount(|data|)
    ensures LastArrived(data, delivered) <==> LastArrived(data, delivered[..|delivered| - 1])
  {
    var earlier := delivered[..|delivered| - 1];
    if LastArrived(data, delivered) {
      var k :| 0 <= k < |delivered| && delivered[k].index + 1 == ChunkCount(|data|);
      assert earlier[k] == delivered[k];
    }
  }

  ghost predicate LastArrived(data: seq<byte>, delivered: seq<FileMessage>) {
    exists k :: 0 <= k < |delivered| && delivered[k].index + 1 == ChunkCount(|data|)
  }

  lemma LastIndex(data: seq<byte>)
    requires Fits(|data|) && |data| > 0
    ensures Segment(data, ChunkCount(|data|) - 1).index + 1 == ChunkCount(|data|)
  {}

  /** Segments delivered in any order and any number of times rebuild the data exactly. */
  lemma ReassemblyRestores(data: seq<byte>, delivered: seq<FileMessage>)
    requires Fits(|data|) && Complete(data, delivered)
    ensures Size(delivered) == |data|
    ensures forall j: nat | j < |data| :: j in Assembled(delivered) && Assembled(delivered)[j] == data[j]
  {
    AssembledIsGenuine(data, delivered);
    SizeOfGenuine(data, delivered);
    if |data| > 0 {
      var last := ChunkCount(|data|) - 1;
      LastIndex(data);
      var k :| 0 <= k < |delivered| && delivered[k] == Segment(data, last);
    }
    forall j: nat | j < |data| ensures j in Assembled(delivered) {
      PositionArrives(data, delivered, j);
    }
  }

  lemma PositionInChunk(size: nat, j: nat)
    requires j < size
    ensures var i := j / CHUNK; i < ChunkCount(size) && i * CHUNK <= j < ChunkEnd(size, i)
  {}

  lemma PositionArrives(data: seq<byte>, delivered: seq<FileMessage>, j: nat)
    requires Fits(|data|) && Complete(data, delivered) && j < |data|
    ensures j in Assembled(delivered)
  {
    var i := j / CHUNK;
    PositionInChunk(|data|, j);
    SegmentPlace(data, i);
    var m := Segment(data, i);
    var k :| 0 <= k < |delivered| && delivered[k] == m;
    AssembledCovers(delivered, k, j);
  }

  // ----- the transfer as a whole -----

  /** What deserialize_file_entries leaves in front of the joiner's list. */
  function Received(data: seq<byte>, own: seq<Record>): seq<Record>
    requires |data| % ENTRY_SIZE == 0
  {
    Reversed(DecodeAll(data)) + own
  }

  /** The largest number of entries whose segments the 16-bit counters can number. */
  const MAX_ENTRIES := 19779

  /** FILE_END passes the guard whenever at least one segment was sent. */
  lemma EndAgrees(data: seq<byte>, stale: FileMessage)
    requires Fits(|data|) && |data| > 0
    ensures EndMessage(data, stale).index + 1 == EndMessage(data, stale).total
  {}

  lemma EntriesConserved(files: seq<Record>, own: seq<Record>, newNode: Hash, current: Hash, data: seq<byte>)
    requires |data| % ENTRY_SIZE == 0 && DecodeAll(data) == Matching(files, newNode, current)
    ensures multiset(files) + multiset(own) == multiset(Kept(files, newNode, current)) + multiset(Received(data, own))
  {
    SelectionPartitions(files, newNode, current);
    ReversedKeepsEntries(DecodeAll(data));
  }

  lemma TooManyEntries(k: nat, size: nat)
    requires k > MAX_ENTRIES && size <= U16 * CHUNK
    requires ChunkCount(k * ENTRY_SIZE) == U16 + 1 ==> size <= CHUNK
    ensures EntriesRead(size) != k
  {}

  /** Without that bound the joiner reads off a different number of entries than were sent: conservation
      holds exactly up to 19779 entries, whatever order full delivery takes. */
  lemma CountRestoredIffFits(data: seq<byte>, delivered: seq<FileMessage>, k: nat)
    requires |data| == k * ENTRY_SIZE && Complete(data, delivered)
    ensures EntriesRead(Size(delivered)) == k <==> k <= MAX_ENTRIES
  {
    if k <= MAX_ENTRIES {
      ReassemblyRestores(data, delivered);
    } else {
      SizeBounded(data, delivered);
      TooManyEntries(k, Size(delivered));
    }
  }

  lemma LastIsBounded(data: seq<byte>, m: FileMessage)
    requires m in Segments(data) && m.index + 1 == m.total
    ensures End(m) <= U16 * CHUNK
    ensures ChunkCount(|data|) == U16 + 1 ==> End(m) <= CHUNK
  {
    var s := Segments(data);
    var i :| 0 <= i < |s| && s[i] == m;
    assert |Segment(data, i).data| <= CHUNK && m.index == i % U16 && m.total == ChunkCount(|data|) % U16;
  }

  /** Segments cannot claim a position beyond 2^16 chunks. */
  lemma {:induction false} SizeBounded(data: seq<byte>, delivered: seq<FileMessage>)
    requires Genuine(data, delivered)
    ensures Size(delivered) <= U16 * CHUNK
    ensures ChunkCount(|data|) == U16 + 1 ==> Size(delivered) <= CHUNK
    decreases |delivered|
  {
    if delivered != [] {
      var n := |delivered| - 1;
      SizeBounded(data, delivered[..n]);
      if delivered[n].index + 1 == delivered[n].total {
        LastIsBounded(data, delivered[n]);
      }
    }
  }

  /** If FILE_END overtakes the last segment, nothing is read at all, and the sender has already deleted
      what it sent. */
  lemma LastSegmentLateLosesAll(data: seq<byte>, delivered: seq<FileMessage>, stale: FileMessage)
    requires Fits(|data|) && Genuine(data, delivered) && |data| > 0
    ensures Accepted(delivered, EndMessage(data, stale))
            <==> Segment(data, ChunkCount(|data|) - 1) in delivered
  {
    SizeOfGenuine(data, delivered);
    var last := ChunkCount(|data|) - 1;
    EndAgrees(data, stale);
    if LastArrived(data, delivered) {
      var k :| 0 <= k < |delivered| && delivered[k].index + 1 == ChunkCount(|data|);
      var i := SegmentIndex(data, delivered[k]);
      assert i == last;
    }
    if Segment(data, last) in delivered {
      LastIndex(data);
      var k :| 0 <= k < |delivered| && delivered[k] == Segment(data, last);
    }
  }

  // ----- late or lost segments -----

  /** What a segment that does not arrive would have put first stays unwritten. */
  lemma {:induction false} MissingStaysUnwritten(data: seq<byte>, delivered: seq<FileMessage>, i: nat)
    requires Fits(|data|) && Genuine(data, delivered)
    requires i < ChunkCount(|data|) && Segment(data, i) !in delivered
    ensures i * CHUNK !in Assembled(delivered)
    decreases |delivered|
  {
    if delivered != [] {
      var n := |delivered| - 1;
      MissingStaysUnwritten(data, delivered[..n], i);
      var k := SegmentIndex(data, delivered[n]);
      assert k != i;
    }
  }

  /** The joiner's buffer holds data. */
  ghost predicate Restored(data: seq<byte>, delivered: seq<FileMessage>) {
    forall j: nat | j < |data| :: j in Assembled(delivered) && Assembled(delivered)[j] == data[j]
  }

  /** Whatever arrives before FILE_END, in any order: the buffer holds what was sent exactly when every
      segment is among it, and then FILE_END is accepted with the right size. */
  lemma RestoredIffComplete(data: seq<byte>, delivered: seq<FileMessage>, stale: FileMessage)
    requires Fits(|data|) && Genuine(data, delivered)
    ensures Restored(data, delivered) <==> Complete(data, delivered)
    ensures Complete(data, delivered) && |data| > 0 ==>
              Size(delivered) == |data| && Accepted(delivered, EndMessage(data, stale))
  {
    if Complete(data, delivered) {
      ReassemblyRestores(data, delivered);
      if |data| > 0 {
        EndAgrees(data, stale);
      }
    } else {
      var i :| 0 <= i < ChunkCount(|data|) && Segment(data, i) !in delivered;
      MissingStaysUnwritten(data, delivered, i);
      ChunkInRange(|data|, i);
    }
  }

  /** The guard does not see an earlier segment missing: with the last segment alone, FILE_END is accepted
      with the full size, and the first byte read off was never written. */
  lemma AcceptedWithAHole(data: seq<byte>, stale: FileMessage)
    requires Fits(|data|) && ChunkCount(|data|) > 1
    ensures var delivered := [Segment(data, ChunkCount(|data|) - 1)];
            && Genuine(data, delivered) && Size(delivered) == |data|
            && Accepted(delivered, EndMessage(data, stale)) && 0 !in Assembled(delivered)
  {
    var last := ChunkCount(|data|) - 1;
    var delivered := [Segment(data, last)];
    assert Segments(data)[last] == Segment(data, last);
    LastIndex(data);
    SizeOfGenuine(data, delivered);
    EndAgrees(data, stale);
    assert Segment(data, 0).index == 0;
    MissingStaysUnwritten(data, delivered, 0);
  }

  // ----- what the joiner makes of it -----

  /** Sent whole entries and everything delivered: the joiner reads off as many bytes as were sent exactly
      up to 19779 entries. */
  lemma LengthRestoredIffFits(data: seq<byte>, delivered: seq<FileMessage>, stale: FileMessage, k: nat)
    requires |data| == k * ENTRY_SIZE && Complete(data, delivered)
    ensures ReadLength(delivered, EndMessage(data, stale)) == |data| <==> k <= MAX_ENTRIES
  {
    CountRestoredIffFits(data, delivered, k);
    if 0 < k <= MAX_ENTRIES {
      RestoredIffComplete(data, delivered, stale);
    } else if k == 0 {
      ReassemblyRestores(data, delivered);
    }
  }

  /** Of segments of whole entries the joiner never reads past the size it set, whatever is missing. */
  lemma GenuineSizeIsWhole(data: seq<byte>, delivered: seq<FileMessage>, end: FileMessage)
    requires Fits(|data|) && Genuine(data, delivered) && |data| % ENTRY_SIZE == 0
    ensures Size(delivered) % ENTRY_SIZE == 0 && ReadLength(delivered, end) <= Size(delivered)
  {
    SizeOfGenuine(data, delivered);
    EntriesReach(Size(delivered), Size(delivered) / ENTRY_SIZE);
  }

  /** After full delivery of at most 19779 entries, whatever the joiner reads off its buffer is the data. */
  lemma CompleteReadIsData(data: seq<byte>, delivered: seq<FileMessage>, stale: FileMessage, read: seq<byte>)
    requires |data| % ENTRY_SIZE == 0 && |data| <= MAX_ENTRIES * ENTRY_SIZE && Complete(data, delivered)
    requires ReadOff(read, delivered, EndMessage(data, stale))
    ensures read == data
  {
    LengthRestoredIffFits(data, delivered, stale, |data| / ENTRY_SIZE);
    ReassemblyRestores(data, delivered);
  }

  /** The lists of both nodes, files and own before, kept and got after. The sender keeps what does not
      match; with at most 19779 matching entries the joiner gets them, reversed, in front of its own; and
      up to that bound only, entries are conserved: none lost, duplicated or invented. */
  ghost predicate Moved(files: seq<Record>, own: seq<Record>, kept: seq<Record>, got: seq<Record>,
                        newNode: Hash, current: Hash)
  {
    var matching := Matching(files, newNode, current);
    && kept == Kept(files, newNode, current)
    && (|matching| <= MAX_ENTRIES ==> got == Reversed(matching) + own)
    && (|matching| <= MAX_ENTRIES <==> multiset(files) + multiset(own) == multiset(kept) + multiset(got))
  }

  /** Every segment delivered before FILE_END, in any order and any number of times, into a buffer that held
      anything: what the joiner then reads off makes the transfer exact, and conserve entries, exactly up
      to 19779 matching entries. */
  lemma TransferConserves(files: seq<Record>, own: seq<Record>, newNode: Hash, current: Hash, data: seq<byte>,
                          delivered: seq<FileMessage>, stale: FileMessage, read: seq<byte>)
    requires |data| % ENTRY_SIZE == 0 && DecodeAll(data) == Matching(files, newNode, current)
    requires Complete(data, delivered) && ReadOff(read, delivered, EndMessage(data, stale))
    ensures Moved(files, own, Kept(files, newNode, current), Received(read, own), newNode, current)
  {
    var k := |Matching(files, newNode, current)|;
    LengthRestoredIffFits(data, delivered, stale, k);
    if k <= MAX_ENTRIES {
      CompleteReadIsData(data, delivered, stale, read);
      EntriesConserved(files, own, newNode, current, data);
    } else {
      CountsDiffer(files, own, newNode, current, read);
    }
  }

  /** A joiner that reads another number of entries than was sent does not balance. */
  lemma CountsDiffer(files: seq<Record>, own: seq<Record>, newNode: Hash, current: Hash, read: seq<byte>)
    requires |read| % ENTRY_SIZE == 0 && |read| != ENTRY_SIZE * |Matching(files, newNode, current)|
    ensures multiset(files) + multiset(own) != multiset(Kept(files, newNode, current)) + multiset(Received(read, own))
  {
    SelectionPartitions(files, newNode, current);
    ReversedKeepsEntries(DecodeAll(read));
    var m, kept, gets := Matching(files, newNode, current), Kept(files, newNode, current), Received(read, own);
    assert |multiset(files)| == |multiset(m)| + |multiset(kept)|;
    assert |multiset(gets)| == |multiset(Reversed(DecodeAll(read)))| + |multiset(own)|;
    assert |multiset(files) + multiset(own)| != |multiset(kept) + multiset(gets)|;
  }
}
