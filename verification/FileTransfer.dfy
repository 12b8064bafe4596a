/** The file list of a node, linked and relinked in place, and the two loops that move entries over the
    network. */
module FileTransfer {
  import opened Chains
  import opened Ids
  import opened FileRecords
  import opened FileSegments

  class FileEntry {
    const record: Record
    var next: FileEntry?

    constructor (record: Record, next: FileEntry?)
      ensures this.record == record && this.next == next
    {
      this.record := record;
      this.next := next;
    }
  }

  ghost function RecordsOf(nodes: seq<FileEntry>): (q: seq<Record>)
    ensures |q| == |nodes|
    ensures forall i | 0 <= i < |q| :: q[i] == nodes[i].record
  {
    seq(|nodes|, i requires 0 <= i < |nodes| => nodes[i].record)
  }

  /** q is the list when its first entries have been visited and k of them stay. */
  ghost predicate Visited(all: seq<Record>, q: seq<Record>, k: nat, seen: nat, newNode: Hash, current: Hash) {
    && seen <= |all|
    && k == |Kept(all[..seen], newNode, current)|
    && q == Kept(all[..seen], newNode, current) + all[seen..]
  }

  /** One more visit, to entry k of the list. */
  ghost function AfterVisit(q: seq<Record>, k: nat, newNode: Hash, current: Hash): (seq<Record>, nat)
    requires k < |q|
  {
    if ShouldTransfer(q[k].id, newNode, current) then (q[..k] + q[k + 1..], k) else (q, k + 1)
  }

  lemma VisitNext(all: seq<Record>, q: seq<Record>, k: nat, seen: nat, newNode: Hash, current: Hash)
    requires Visited(all, q, k, seen, newNode, current) && k < |q|
    ensures var (q', k') := AfterVisit(q, k, newNode, current);
            Visited(all, q', k', seen + 1, newNode, current)
  {
    KeptAppend(all[..seen], all[seen], newNode, current);
    assert q[k] == all[seen];
    assert all[..seen + 1] == all[..seen] + [all[seen]];
    assert all[seen..] == [all[seen]] + all[seen + 1..];
  }

  lemma VisitEnds(all: seq<Record>, q: seq<Record>, k: nat, seen: nat, newNode: Hash, current: Hash)
    requires Visited(all, q, k, seen, newNode, current) && k == |q|
    ensures q == Kept(all, newNode, current)
  {
    assert seen == |all|;
    assert all[..seen] == all && all[seen..] == [];
  }

  lemma ReceivedAppend(a: seq<byte>, b: seq<byte>, own: seq<Record>)
    requires |a| % ENTRY_SIZE == 0 && |b| == ENTRY_SIZE
    ensures |a + b| % ENTRY_SIZE == 0 && Received(a + b, own) == [Decode(b)] + Received(a, own)
  {
    DecodeAllAppend(a, b);
    ReversedAppend(DecodeAll(a), Decode(b));
  }

  /** memcpy of one image into the buffer. */
  method CopyInto(buf: array<byte>, at: nat, b: seq<byte>)
    requires at + |b| <= buf.Length
    modifies buf
    ensures buf[..at] == old(buf[..at]) && buf[at..at + |b|] == b
    ensures buf[at + |b|..] == old(buf[at + |b|..])
  {
    forall i | 0 <= i < |b| {
      buf[at + i] := b[i];
    }
  }

  /** realloc: a larger buffer with the old contents in front. */
  method Grow(buf: array<byte>, size: nat) returns (bigger: array<byte>)
    requires buf.Length <= size
    ensures fresh(bigger) && bigger.Length == size && bigger[..buf.Length] == buf[..]
  {
    bigger := new byte[size];
    forall i | 0 <= i < buf.Length {
      bigger[i] := buf[i];
    }
  }

  class FileList {
    var head: FileEntry?
    ghost var nodes: seq<FileEntry>

    ghost function Repr(): set<object>
      reads this
    {
      set n | n in nodes
    }

    ghost predicate Valid()
      reads this, Repr()
    {
      && (forall i, j | 0 <= i < j < |nodes| :: nodes[i] != nodes[j])
      && (forall i {:trigger nodes[i].next} | 0 <= i < |nodes| :: nodes[i].next == At<FileEntry?>(nodes, i + 1, null))
      && head == At<FileEntry?>(nodes, 0, null)
    }

    ghost function Contents(): seq<Record>
      reads this
    {
      RecordsOf(nodes)
    }

    constructor ()
      ensures Valid() && Contents() == []
    {
      head := null;
      nodes := [];
    }

    /** serialize_file_entries. The size test and the single doubling are the source's; that every copy
        stays inside the buffer is what the array accesses prove, for any list, provided one doubling
        of the initial buffer holds one entry. */
    method Serialize(initial: array<byte>, newNode: Hash, current: Hash) returns (buf: array<byte>, offset: nat)
      requires Valid() && ENTRY_SIZE <= 2 * initial.Length
      modifies initial
      ensures Valid() && Contents() == old(Contents())
      ensures offset <= buf.Length
      ensures offset == ENTRY_SIZE * |Matching(Contents(), newNode, current)|
      ensures DecodeAll(buf[..offset]) == Matching(Contents(), newNode, current)
    {
      buf := initial;
      offset := 0;
      var entry := head;
      ghost var k := 0;
      while entry != null
        invariant k <= |nodes| && entry == At<FileEntry?>(nodes, k, null)
        invariant buf == initial || fresh(buf)
        invariant ENTRY_SIZE <= 2 * buf.Length && offset <= buf.Length && offset % ENTRY_SIZE == 0
        invariant DecodeAll(buf[..offset]) == Matching(Contents()[..k], newNode, current)
        decreases |nodes| - k
      {
        MatchingUpTo(Contents(), k, newNode, current);
        if ShouldTransfer(entry.record.id, newNode, current) {
          buf, offset := Append(buf, offset, entry.record);
        }
        entry := entry.next;
        k := k + 1;
      }
      assert Contents()[..k] == Contents();
    }

    /** One pass of the loop of serialize_file_entries over an entry that moves. */
    method Append(buf: array<byte>, offset: nat, record: Record) returns (buf': array<byte>, offset': nat)
      requires ENTRY_SIZE <= 2 * buf.Length && offset <= buf.Length && offset % ENTRY_SIZE == 0
      modifies buf
      ensures buf' == buf || fresh(buf')
      ensures buf'.Length == if offset + ENTRY_SIZE > buf.Length then 2 * buf.Length else buf.Length
      ensures offset' == offset + ENTRY_SIZE <= buf'.Length
      ensures DecodeAll(buf'[..offset']) == old(DecodeAll(buf[..offset])) + [record]
    {
      buf' := buf;
      if offset + ENTRY_SIZE > buf.Length {
        buf' := Grow(buf, 2 * buf.Length);
      }
      assert |seq(LINK_SIZE, _ => 0 as byte)| == LINK_SIZE;
      var link: seq<byte> :| |link| == LINK_SIZE;
      DecodeImage(record, link);
      CopyInto(buf', offset, Image(record, link));
      offset' := offset + ENTRY_SIZE;
      assert buf'[..offset'] == old(buf[..offset]) + Image(record, link);
      DecodeAllAppend(old(buf[..offset]), Image(record, link));
    }

    /** delete_transferred_files: matching entries are unlinked in place. */
    method DeleteTransferred(newNode: Hash, current: Hash)
      requires Valid()
      modifies this, Repr()
      ensures Valid() && Contents() == Kept(old(Contents()), newNode, current)
    {
      ghost var all := Contents();
      var prev: FileEntry? := null;
      var entry := head;
      ghost var k := 0;       // entries kept so far
      ghost var seen := 0;    // entries visited so far
      while entry != null
        invariant Repr() <= old(Repr())
        invariant Visiting(prev, entry, k) && Visited(all, Contents(), k, seen, newNode, current)
        decreases |nodes| - k
      {
        VisitNext(all, Contents(), k, seen, newNode, current);
        prev, entry, k := Visit(prev, entry, newNode, current, k);
        seen := seen + 1;
      }
      VisitEnds(all, Contents(), k, seen, newNode, current);
    }

    /** The loop stands at node k. */
    ghost predicate Visiting(prev: FileEntry?, entry: FileEntry?, k: nat)
      reads this, Repr()
    {
      Valid() && k <= |nodes| && entry == At<FileEntry?>(nodes, k, null) && prev == At<FileEntry?>(nodes, k - 1, null)
    }

    /** One pass of the loop of delete_transferred_files. */
    method Visit(prev: FileEntry?, entry: FileEntry, newNode: Hash, current: Hash, ghost k: nat)
      returns (prev': FileEntry?, entry': FileEntry?, ghost k': nat)
      requires Visiting(prev, entry, k)
      modifies this, Repr()
      ensures Visiting(prev', entry', k') && Repr() <= old(Repr())
      ensures k' == AfterVisit(old(Contents()), k, newNode, current).1
      ensures Contents() == AfterVisit(old(Contents()), k, newNode, current).0
      ensures |nodes| - k' < old(|nodes|) - k
    {
      if ShouldTransfer(entry.record.id, newNode, current) {
        entry' := Unlink(prev, entry, k);
        prev' := prev;
        k' := k;
      } else {
        prev' := entry;
        entry' := entry.next;
        k' := k + 1;
      }
    }

    /** Takes node k, reached as entry after prev, out of the chain and steps to the one after it. */
    method Unlink(prev: FileEntry?, entry: FileEntry, ghost k: nat) returns (following: FileEntry?)
      requires Valid() && k < |nodes| && entry == nodes[k] && prev == At<FileEntry?>(nodes, k - 1, null)
      modifies this, Repr()
      ensures Valid() && following == At<FileEntry?>(nodes, k, null) && prev == At<FileEntry?>(nodes, k - 1, null)
      ensures Contents() == old(Contents())[..k] + old(Contents())[k + 1..]
      ensures Repr() <= old(Repr())
    {
      if prev == null {
        head := entry.next;
      } else {
        prev.next := entry.next;
      }
      following := entry.next;
      nodes := nodes[..k] + nodes[k + 1..];
    }

    method Prepend(record: Record)
      requires Valid()
      modifies this
      ensures Valid() && Contents() == [record] + old(Contents())
      ensures fresh(nodes[0]) && nodes[1..] == old(nodes)
    {
      var entry := new FileEntry(record, head);
      head := entry;
      nodes := [entry] + nodes;
    }

    /** deserialize_file_entries: one entry after another until size is reached. The last may reach past
        size, and past the buffer. */
    method Deserialize(buf: array<byte>, size: nat) returns (ghost read: seq<byte>)
      requires Valid() && size <= buf.Length
      modifies this
      ensures |read| == ENTRY_SIZE * EntriesRead(size)
      ensures forall j | 0 <= j < |read| && j < buf.Length :: read[j] == buf[j]
      ensures Valid() && Contents() == Received(read, old(Contents()))
    {
      var offset := 0;
      ghost var k := 0;
      read := [];
      while offset < size
        invariant Valid() && offset == |read| == ENTRY_SIZE * k < size + ENTRY_SIZE
        invariant forall j | 0 <= j < |read| && j < buf.Length :: read[j] == buf[j]
        invariant Contents() == Received(read, old(Contents()))
      {
        var image := CopyOut(buf, offset);
        Prepend(Decode(image));
        ReceivedAppend(read, image, old(Contents()));
        read := read + image;
        offset := offset + ENTRY_SIZE;
        k := k + 1;
      }
      EntriesReach(size, k);
    }
  }

  /** memcpy of one entry out of the buffer; what lies past the buffer is arbitrary. */
  method CopyOut(buf: array<byte>, offset: nat) returns (image: seq<byte>)
    requires offset <= buf.Length
    ensures |image| == ENTRY_SIZE
    ensures forall j | 0 <= j < ENTRY_SIZE && offset + j < buf.Length :: image[j] == buf[offset + j]
  {
    var stop := if offset + ENTRY_SIZE <= buf.Length then offset + ENTRY_SIZE else buf.Length;
    assert |seq(ENTRY_SIZE, _ => 0 as byte)| == ENTRY_SIZE;
    var beyond: seq<byte> :| |beyond| == ENTRY_SIZE;
    image := buf[offset..stop] + beyond[..offset + ENTRY_SIZE - stop];
  }

  /** The segmentation loop of the GET_FILES handler, FILE_END included. */
  method SendFiles(data: seq<byte>, stale: FileMessage) returns (sent: seq<FileMessage>)
    ensures sent == Segments(data) + [EndMessage(data, stale)]
  {
    var total := (|data| + CHUNK - 1) / CHUNK;
    var response := stale;
    sent := [];
    var i := 0;
    while i < total
      invariant i <= total && sent == Segments(data)[..i]
      invariant i > 0 ==> response == Segment(data, i - 1)
      invariant i == 0 ==> response == stale
    {
      var start := i * CHUNK;
      var stop := if start + CHUNK > |data| then |data| else start + CHUNK;
      ChunkInRange(|data|, i);
      response := FileMessage(false, i % U16, total % U16, data[start..stop]);
      sent := sent + [response];
      i := i + 1;
    }
    sent := sent + [FileMessage(true, response.index, response.total, [])];
  }

  /** One pass of the receiving loop: the buffer grows if it must and the segment is copied in. */
  method Place(buf: array<byte>, m: FileMessage) returns (buf': array<byte>)
    modifies buf
    ensures buf' == buf || fresh(buf')
    ensures End(m) <= buf'.Length && buf.Length <= buf'.Length
    ensures forall j: nat | Start(m) <= j < End(m) :: buf'[j] == ByteAt(m, j)
    ensures forall j: nat | j < buf.Length && !(Start(m) <= j < End(m)) :: buf'[j] == old(buf[j])
  {
    buf' := buf;
    var start := m.index * CHUNK;
    var stop := start + |m.data|;
    if stop > buf.Length {
      buf' := Grow(buf, stop);
      assert forall j | 0 <= j < buf.Length :: buf'[j] == buf'[..buf.Length][j];
    }
    forall i | 0 <= i < |m.data| {
      buf'[start + i] := m.data[i];
    }
  }

  lemma AssembledNext(delivered: seq<FileMessage>, i: nat)
    requires i < |delivered|
    ensures Assembled(delivered[..i + 1]) == Assembled(delivered[..i]) + Placed(delivered[i])
    ensures Size(delivered[..i + 1])
            == if delivered[i].index + 1 == delivered[i].total then End(delivered[i]) else Size(delivered[..i])
  {
    assert delivered[..i + 1][..i] == delivered[..i];
  }

  /** The receiving loop of join_ring over the segments that arrive before FILE_END. */
  method ReceiveFiles(delivered: seq<FileMessage>) returns (buf: array<byte>, size: nat)
    ensures size == Size(delivered) <= buf.Length
    ensures forall j | j in Assembled(delivered) :: j < buf.Length && buf[j] == Assembled(delivered)[j]
  {
    buf := new byte[4096];
    size := 0;
    var i := 0;
    while i < |delivered|
      invariant i <= |delivered| && fresh(buf)
      invariant size == Size(delivered[..i]) <= buf.Length
      invariant forall j | j in Assembled(delivered[..i]) :: j < buf.Length && buf[j] == Assembled(delivered[..i])[j]
    {
      AssembledNext(delivered, i);
      buf := Place(buf, delivered[i]);
      if delivered[i].index + 1 == delivered[i].total {
        size := End(delivered[i]);
      }
      i := i + 1;
    }
    assert delivered[..i] == delivered;
  }

  /** The buffer of the GET_FILES handler, up to the size serialize_file_entries returns. */
  method SerializedMatches(files: FileList, newNode: Hash, current: Hash) returns (data: seq<byte>)
    requires files.Valid()
    ensures |data| % ENTRY_SIZE == 0 && DecodeAll(data) == Matching(files.Contents(), newNode, current)
  {
    var initial := new byte[4096];
    var buf, size := files.Serialize(initial, newNode, current);
    data := buf[..size];
  }

  /** The GET_FILES handler: serialize, send, then delete what was sent. */
  method HandleGetFiles(files: FileList, newNode: Hash, current: Hash, stale: FileMessage)
    returns (sent: seq<FileMessage>, ghost data: seq<byte>)
    requires files.Valid()
    modifies files, files.Repr()
    ensures |data| % ENTRY_SIZE == 0 && DecodeAll(data) == Matching(old(files.Contents()), newNode, current)
    ensures sent == Segments(data) + [EndMessage(data, stale)]
    ensures files.Valid() && files.Contents() == Kept(old(files.Contents()), newNode, current)
  {
    var bytes := SerializedMatches(files, newNode, current);
    data := bytes;
    sent := SendFiles(bytes, stale);
    files.DeleteTransferred(newNode, current);
  }

  /** The second half of join_ring, over any messages that precede FILE_END and any FILE_END: what is read
      off agrees with what arrived wherever something did, and is prepended entry by entry. */
  method FinishJoin(files: FileList, delivered: seq<FileMessage>, end: FileMessage) returns (ghost read: seq<byte>)
    requires files.Valid()
    modifies files
    ensures ReadOff(read, delivered, end)
    ensures files.Valid() && files.Contents() == Received(read, old(files.Contents()))
  {
    var buf, size := ReceiveFiles(delivered);
    read := [];
    if size > 0 && end.index + 1 == end.total {
      read := files.Deserialize(buf, size);
    }
  }

  /** Every one of n segments arrives, in any order and any number of times. */
  ghost predicate FullDelivery(order: seq<nat>, n: nat) {
    (forall k | 0 <= k < |order| :: order[k] < n) && forall i: nat | i < n :: i in order
  }

  /** The network: the segments arrive in the given order. */
  method Deliver(sent: seq<FileMessage>, order: seq<nat>) returns (delivered: seq<FileMessage>)
    requires forall k | 0 <= k < |order| :: order[k] < |sent|
    ensures |delivered| == |order| && forall k | 0 <= k < |order| :: delivered[k] == sent[order[k]]
  {
    delivered := seq(|order|, k requires 0 <= k < |order| => sent[order[k]]);
  }

  lemma FullDeliveryIsComplete(data: seq<byte>, order: seq<nat>, delivered: seq<FileMessage>)
    requires FullDelivery(order, ChunkCount(|data|)) && |delivered| == |order|
    requires forall k | 0 <= k < |order| :: delivered[k] == Segments(data)[order[k]]
    ensures Complete(data, delivered)
  {
    forall i: nat | i < ChunkCount(|data|) ensures Segment(data, i) in delivered {
      assert i in order;
      var k :| 0 <= k < |order| && order[k] == i;
      assert delivered[k] == Segment(data, i);
    }
  }

  /** GET_FILES, any full delivery and the end of join_ring, over the lists of the two nodes: up to 19779
      matching entries move, reversed, in front of the joiner's, and up to that bound only does the joiner
      end up with what the sender gave away. */
  method Transfer(sender: FileList, joiner: FileList, newNode: Hash, current: Hash, stale: FileMessage,
                  order: seq<nat>)
    requires sender != joiner && sender.Valid() && joiner.Valid() && sender.Repr() !! joiner.Repr()
    requires FullDelivery(order, ChunkCount(ENTRY_SIZE * |Matching(sender.Contents(), newNode, current)|))
    modifies sender, sender.Repr(), joiner
    ensures sender.Valid() && joiner.Valid()
    ensures Moved(old(sender.Contents()), old(joiner.Contents()), sender.Contents(), joiner.Contents(),
                  newNode, current)
  {
    ghost var before, own := sender.Contents(), joiner.Contents();
    var sent, data := HandleGetFiles(sender, newNode, current, stale);
    assert joiner.Valid() && joiner.Contents() == own;
    var delivered := Deliver(sent, order);
    FullDeliveryIsComplete(data, order, delivered);
    var read := FinishJoin(joiner, delivered, sent[|sent| - 1]);
    assert joiner.Valid() && joiner.Contents() == Received(read, own);
    assert sender.Valid() && sender.Contents() == Kept(before, newNode, current);
    TransferConserves(before, own, newNode, current, data, delivered, stale, read);
  }
}
