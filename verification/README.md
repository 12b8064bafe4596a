# BitChord: a verified model

This project models two systems of BitChord and proves properties of the models with Dafny 4.11.
`dafny verify dfyconfig.toml` checks everything.

**The Chord ring** follows Stoica et al., "Chord: A Scalable Peer-to-Peer Lookup Protocol for Internet
Applications", IEEE/ACM Transactions on Networking 11(1), 2003: section IV-D for lookup, section IV-E for join,
stabilize, notify and fix_fingers.

- `Ids`: 20-byte identifiers, `memcmp` as numeric order, arcs of the circle of 2^160 points.
- `Lookup`, `FingerRepair`, `PowerTables`: lookup as recursion over all nodes, what repeated `fix_fingers` calls do
  to the tables, and what the paper's power-of-two tables would give. Two habits of the code are kept: the node
  itself is the fallback of the finger scan, whose successor is then returned unchecked, and `fix_fingers` looks up
  the finger's own identifier.
- `Ring`, `RingRuns`, `RightRing`, `PointerChanges`, `Convergence`, `RingJoins`, `FairRuns`, `SettledRings`,
  `Stall`, `LostPredecessors`: join, STABILIZE, reply, adoption, NOTIFY, predecessor reset and finger repair as
  steps of one state machine. Sent messages stay deliverable for ever, so loss, duplication and reordering are all
  among the runs. Theorems start from any state that satisfies the invariant, not only from a freshly created ring.
  `SettledRings` joins the parts: nodes join, a fair run follows, every member fixes its fingers, and all lookups
  are right.
- `ChordNode`: the node object and the network of nodes, updated in place, each method tied to the rules above.
- `Chains`, `QueueSpec`, `MessageQueue`, `QueueMonitor`: the reply queue as a sequence, as a linked list
  updated in place, and under any interleaving of threads.
- `FileRecords`, `FileSegments`, `FileTransfer`: file entries as bytes, their segments, and the loops over the
  linked list and the growing buffers.

**The tracker** keeps accounts, sessions, groups and piece tables.

- `Text`, `Pieces`, `DownloadReply`: `to_string` and `stoi`, ordered source sets, piece vectors, and the download
  reply with the parser on the peer's side.
- `TrackerModel`, `TrackerRuns`, `TrackerAnswers`, `TrackerHistory`, `TrackerSources`: each command, any sequence of
  client messages, what is answered, and what holds over all of them.
- `Seeding`, `Downloads`: how the pieces of a file are numbered over those runs, seeders being refused or not, and
  what a peer that is granted a download reads off the reply.
- `Tracker`: the tables updated in place, tied to the same commands.

Readings taken where the source leaves a choice:

- Lookup is atomic recursion: every FIND_SUCCESSOR is taken to be answered. In the program `handle_requests` runs
  on the listener thread, the only producer of the reply queue (src/threads.cpp:29-36), so a forwarded lookup there
  can block.
- Nodes are named by identifier, where the source makes local copies of remote nodes. The hash is injective and
  request identifiers are unique. Fingers are never null: `create_node` fills every slot and `fix_fingers` stores a
  node. The local predecessor update at the end of `notify` reaches a ring member only when a node is its own
  successor; it is then the NOTIFY the node sends to itself.
- Where the repository's README.md (line 8) says that peers join without disrupting the ring, the code is followed:
  a ring made by `create_ring` and joins alone never starts to stabilize (`Stall`), while joins to a right ring are
  repaired (`Convergence.JoiningARightRingIsRepaired`, and again and again in `SettledRings.GrowingRingStaysSettled`).
- Tracker commands and node handlers are atomic. A disconnect leaves its session in place, as in the source; a
  later connection may reuse the socket number. A message with no word, a `file_details` with too few words and a
  `stoi` that throws end the tracker.

Properties that fail, with the exact condition under which they hold: a lookup is right exactly through the
interval branch, and all lookups are right exactly when every node has its successor among its fingers
(`Lookup.LookupRightIffIntervalBranch`, `Lookup.AllLookupsRightIffHealed`); a quiet ring is right exactly when no
edge jumps a member (`RightRing.QuietRingIsRight`, with a wrong quiet ring in `RightRing.QuietRingCanWindTwice`);
healed tables never turn into power-of-two tables (`PowerTables.PowerTablesNeverBuilt`); a NOTIFY is possible
exactly when some successor has a predecessor (`Stall.NotifyPossibleIffSomeSuccessorHasPredecessor`); file entries
are conserved over a full delivery exactly up to 19,779 of them (`FileSegments.TransferConserves`), and the joiner's
buffer holds what was sent exactly when no segment is lost or late (`FileSegments.RestoredIffComplete`, with an
accepted buffer that has a hole in `FileSegments.AcceptedWithAHole`); a file's pieces stay numbered exactly when
accepted announcements come in order (`Seeding.NumberedIffInOrder`, with a run of an orderly seeder that breaks it in
`Seeding.LateAdmissionBreaksNumbering`); the download reply parses back exactly when no field reads like the next
piece's number (`DownloadReply.DownloadReplyRoundTrip`), and a granted download's exactly when moreover the file has
pieces (`Downloads.DownloadIsRightIff`, over whole runs); a predecessor dropped from a ring with right successors
comes back exactly when a NOTIFY, or the reply that causes one, is already on its way
(`LostPredecessors.RecoversIffPending`).

## Model

| member | source | states |
|---|---|---|
| Ids.IntervalIsArc | src/utils.cpp:13-18 | the open interval test on numbers is 0 < (id - a) mod 2^160 < gap(a, b), with a full turn for a = b |
| Ids.MemcmpIsNumeric | src/utils.cpp:13-18 | byte-wise comparison of equally long strings is comparison of the numbers they denote |
| Ids.IsInIntervalIsArc | src/utils.cpp:13-18 | is_in_interval on 20-byte hashes decides exactly the open arc of the circle |
| Ids.ShouldTransferIsArcWithoutWrap | src/utils.cpp:28-30 | should_transfer_file is the arc (new, current] when new < current and selects nothing otherwise |
| Lookup.ScanDown | src/stabilization.cpp:234-242 | the scan returns the highest-slot finger inside (n, id), and n exactly when no finger lies inside |
| Lookup.FindSuccessor | src/stabilization.cpp:188-205 | every lookup ends, in any state whose pointers name members, and answers with a member |
| Lookup.AnswerIsTerminalsSuccessor | src/stabilization.cpp:188-205 | the answer is the successor of the last node visited |
| Lookup.LookupNeverRevisits | src/stabilization.cpp:188-242 | each forward goes strictly between the current node and the key, the gap to the key falls, no node is visited twice |
| Lookup.HopsBoundedByMembersBetween | src/stabilization.cpp:188-242 | forwards are at most the members strictly between start and key, stale tables included |
| Lookup.OwnsIffOwner | src/stabilization.cpp:189-193 | with right successors the interval branch is taken exactly when the node's successor is the first member at or after the key |
| Lookup.LookupRightIffIntervalBranch | src/stabilization.cpp:188-205 | a lookup is right exactly when it ends through the interval branch |
| Lookup.HealedLookupIsRight | src/stabilization.cpp:188-205 | when every node has its successor among its fingers, every lookup returns the first member at or after the key |
| Lookup.UnhealedLookupIsWrong | src/stabilization.cpp:199-205 | a node without that finger misroutes the key equal to its successor's successor |
| Lookup.AllLookupsRightIffHealed | src/stabilization.cpp:188-205 | all lookups from all nodes are right exactly when every node has its successor among its fingers |
| FingerRepair.FixingLeastHeals | src/stabilization.cpp:155-165 | fixing the closest finger turns it into the successor |
| FingerRepair.FixingOtherKeepsLeast | src/stabilization.cpp:155-165 | fixing another finger finds the successor too or leaves the closest finger closest |
| FingerRepair.FixingKeepsSuccessorFinger | src/stabilization.cpp:155-165 | a finger equal to the successor is never lost |
| FingerRepair.FingersHeal | src/stabilization.cpp:155-165 | from any fingers that name members, 160 calls of a node, interleaved with the others' calls, leave its successor among its fingers |
| FingerRepair.LookupsRightAfterRounds | src/stabilization.cpp:155-205 | after 160 calls by every node, in any interleaving, every lookup from every node for every key is right |
| FingerRepair.HealedTablesAreFrozen | src/stabilization.cpp:155-165 | once healed, no schedule of calls changes any table again |
| PowerTables.PowerTablesPreserved | src/stabilization.cpp:155-165 | tables with finger i the owner of n + 2^i survive every schedule of calls unchanged |
| PowerTables.PowerTablesNeverBuilt | src/stabilization.cpp:157-160 | from healed tables a schedule ends in power-of-two tables exactly when it starts with them |
| PowerTables.ScanPicksClosestPreceding | src/stabilization.cpp:234-242 | over power-of-two tables the reverse scan finds the finger closest before the key |
| PowerTables.ForwardHalves | src/stabilization.cpp:234-242 | a forward drops the leading bit of the distance to the member that answers |
| PowerTables.LookupForwardsAtMost160Times | src/stabilization.cpp:188-242 | with power-of-two tables any lookup forwards at most 160 times |
| Ring.ReachesAfterAdopt | src/stabilization.cpp:124-129 | adopting a node that walks to the old successor keeps every successor walk that stays in its arc |
| Ring.ReplyIsBacked | src/stabilization.cpp:105-129 | the predecessor a node adopts walks to the very successor it still has, however late the reply is |
| Ring.StepKeepsInv | src/stabilization.cpp:22-186 | every step keeps: each stored or in-flight predecessor of s reaches s by a walk that stays in the arc to s, and a waiting node's successor is the one it asked |
| Ring.StepExtends | src/stabilization.cpp:22-186 | every step keeps every such walk |
| RingRuns.NeverDisconnects | src/stabilization.cpp:105-153 | through any run of joins, stabilization and message faults, a node that could reach another by successors still can |
| RingRuns.StepKeepsClear | src/node.cpp:103-117 | no step makes an edge jump over a chosen member when joiners are answered by the interval branch |
| RingRuns.NeverJumps | src/node.cpp:103-117 | the same over whole runs |
| RingRuns.MembersAfterRun | src/stabilization.cpp:22-58 | after any run the members are those there were and the nodes that joined |
| RingRuns.MessagesAreNeverUsedUp | src/protocol.cpp:69-108 | whatever was sent stays deliverable, so loss, repetition and reordering are among the runs |
| RightRing.QuietIffInverse | src/stabilization.cpp:117-152 | no stabilize and NOTIFY would change a pointer exactly when each successor's predecessor is the node itself |
| RightRing.QuietRingIsRight | src/stabilization.cpp:105-153 | quiet with no edge over some member, if and only if successors are the next members clockwise, predecessors their inverse, and there is one cycle |
| RightRing.QuietReachedStateIsRight | src/stabilization.cpp:105-153 | every quiet state reached by interval-branch joins, stabilization and message faults from a clear one is the right ring |
| RightRing.QuietRingCanWindTwice | src/stabilization.cpp:124-126 | without that condition a quiet ring can be wrong: a four-member cycle winding twice |
| PointerChanges.PointerChangesBounded | src/stabilization.cpp:124-126 | with k members and no join, at most k*k successor changes and, without resets, k*k predecessor changes |
| PointerChanges.SuccessorOnlyCloser | src/stabilization.cpp:124-126 | over any run, joins included, a node's successor is where it was or strictly closer |
| PointerChanges.NeverReturns | src/stabilization.cpp:124-126 | a node never returns to a successor it left |
| PointerChanges.PredecessorOnlyCloser | src/node.cpp:172-182 | over any run without resets, joins included, a predecessor once known stays known and is where it was or strictly closer |
| PointerChanges.NeverReturnsToPredecessor | src/node.cpp:172-182 | without resets a node never returns to a predecessor it left |
| Convergence.StabilizeSpends | src/stabilization.cpp:105-133 | a completed stabilize call lowers the number of possible improvements or finds the caller quiet |
| Convergence.StabilizationConverges | src/stabilization.cpp:105-153 | more than 2*k*k rounds of completed calls, in any order, end in the right ring |
| Convergence.StabilizeIsARun | src/stabilization.cpp:105-133 | a completed call is a run of request, reply, adoption and NOTIFY |
| Convergence.ProtocolConverges | src/stabilization.cpp:105-153 | the message protocol has such a run to the right ring from every idle state whose queried successors have predecessors |
| Convergence.IntervalJoinsAreRepaired | src/stabilization.cpp:22-58 | any number of interval-branch joins to a right ring are absorbed: the rounds end in the right ring of all members |
| Convergence.OldMemberAnswersByInterval | src/node.cpp:103-117 | while newcomers join a right ring with healed tables, every lookup through an old member ends in the interval branch |
| Convergence.HealedJoinsAreInterval | src/node.cpp:103-117 | so every run of joins through the members of such a ring is an interval-branch run |
| Convergence.JoiningARightRingIsRepaired | src/stabilization.cpp:22-58 | nodes that join a right, healed ring by asking its members are absorbed: the rounds end in the right ring of all members |
| RingJoins.JoinIsARun | src/stabilization.cpp:40-58 | any node outside can join through any member: it gets that member's answer for successor, no predecessor and itself for every finger, and nobody else changes |
| RingJoins.JoiningHangsEveryNewcomer | src/stabilization.cpp:40-58 | after any joins through the members of a right healed ring, each newcomer's successor is the old member that owns its identifier, and the old members are as they were |
| RingJoins.NewcomerAnswersItsSuccessor | src/stabilization.cpp:188-242 | until it first fixes a finger, a newcomer answers every lookup with its own successor, whatever else happens |
| FairRuns.RightRingIsStable | src/stabilization.cpp:117-152 | no reply or NOTIFY, however old, changes a pointer of a right ring |
| FairRuns.CompletedCallIsQuiet | src/stabilization.cpp:105-153 | a member whose fresh request, reply, adoption and NOTIFY fall into a stretch without pointer change is quiet |
| FairRuns.FullStretchProgresses | src/stabilization.cpp:105-153 | a stretch in which every member completes a call spends an improvement or started in the right ring |
| FairRuns.FairRunsConverge | src/stabilization.cpp:105-153 | over k members, any interleaving with any message faults that has more than 2*k*k such stretches ends in the right ring |
| FairRuns.RunHasTrace | src/stabilization.cpp:105-186 | every run without joins and resets is one that the theorem speaks about |
| SettledRings.TablesAreFixed | src/stabilization.cpp:105-227 | a run without joins over right successors keeps them, resets included, and its tables are what its fix_fingers calls alone make of them |
| SettledRings.FixesAreARun | src/stabilization.cpp:155-165 | any schedule of fix_fingers calls of members that wait for nothing is a run and changes only the tables |
| SettledRings.FixedLookupsAreRight | src/stabilization.cpp:188-227 | over right successors, any run without joins in which every member makes 160 fix_fingers calls ends with every lookup from every node right |
| SettledRings.JoinsThenFairRunConverge | src/stabilization.cpp:40-186 | interval-branch joins mixed with stabilization, resets and message faults, then a fair run: the right ring of the old members and all that joined |
| SettledRings.JoinsThenFairRunThenLookups | src/stabilization.cpp:40-227 | and after 160 fix_fingers calls of every member, every lookup from every node is right |
| SettledRings.GrowthSettles | src/stabilization.cpp:40-227 | a right healed ring that nodes join through its members is, after a fair run and the calls, a right healed ring of exactly the old members and the newcomers |
| SettledRings.GrowingRingStaysSettled | src/stabilization.cpp:40-227 | the same however often the ring grows, its members being the first ones and all that joined |
| Stall.MuteForever | src/node.cpp:161-171 | while no queried successor has a predecessor, no run sends a reply or a NOTIFY or moves a successor |
| Stall.NotifyPossibleIffSomeSuccessorHasPredecessor | src/node.cpp:161-171 | from a fresh network some run sends a NOTIFY exactly when some node's successor has a predecessor |
| Stall.CreatedRingStaysAStar | src/stabilization.cpp:15-19 | a ring grown by joins alone stays a star around its founder, so its successors are right only while the founder is alone |
| LostPredecessors.RecoversIffPending | src/node.cpp:161-171 | over right successors, a node without a predecessor gets one again in some run without joins exactly when a NOTIFY for it, or a reply that will cause one, is on its way |
| LostPredecessors.ResetIsForEver | src/stabilization.cpp:167-186 | one reset in a right ring with nothing on its way: whatever follows without joins, that node has no predecessor, and the ring is not right again |
| ChordNode.Node.constructor | src/node.cpp:14-31 | a fresh node is its own successor and its own fingers, without predecessor |
| ChordNode.Node.ClosestPrecedingNode | src/stabilization.cpp:234-242 | the downward loop computes the scan |
| ChordNode.Node.HandleNotify | src/node.cpp:172-182 | NOTIFY follows the predecessor rule of the ring theorems |
| ChordNode.Node.HandleReply | src/stabilization.cpp:120-132 | the reply is adopted by the successor rule, and the node then held is the one notified |
| ChordNode.Node.CheckPredecessor | src/stabilization.cpp:167-186 | the predecessor is dropped exactly when it cannot be reached |
| ChordNode.Network.ResetPredecessor | src/stabilization.cpp:167-186 | dropping it is the reset step of the ring, and nothing else changes |
| ChordNode.Network.FindSuccessor | src/stabilization.cpp:188-232 | over node objects the lookup computes Lookup.FindSuccessor |
| ChordNode.Network.FixFingers | src/stabilization.cpp:155-165 | a call is the table step of the healing theorems: only that node's next slot changes |
| ChordNode.Network.Stabilize | src/stabilization.cpp:105-133 | a call with delivered messages is the step of the convergence theorem, and changes nothing when no reply comes |
| ChordNode.Network.JoinRing | src/stabilization.cpp:22-58 | the joiner takes the answer of a member's lookup as successor and starts without predecessor; fresh from create_node, this is the Join step on every table |
| ChordNode.PrimedCallIsStabilize | src/stabilization.cpp:105-133 | when queried successors have predecessors, every call is answered and is the step counted by convergence |
| QueueSpec.FirstIndex | src/protocol.cpp:41-42 | the search finds the first message with the identifier, and ends at the length exactly when there is none |
| QueueSpec.RemoveFirstPerId | src/protocol.cpp:40-59 | popping takes the oldest message of its identifier and leaves every other identifier's messages as they were |
| MessageQueue.MessageQueue.constructor | src/protocol.cpp:11-15 | the queue starts empty |
| MessageQueue.MessageQueue.Push | src/protocol.cpp:17-32 | the linked push appends, and head, tail and links stay one chain |
| MessageQueue.MessageQueue.Unlink | src/protocol.cpp:43-50 | unlinking removes exactly that node; tail stays the last node, null exactly when head is |
| MessageQueue.MessageQueue.TryPop | src/protocol.cpp:37-59 | one search removes exactly the first message with the identifier, or reports that there is none and changes nothing |
| QueueMonitor.StepKeepsInv | src/protocol.cpp:17-66 | push, search, sleep and wake-up, spurious ones too, keep the monitor invariant |
| QueueMonitor.ExactlyOnceInOrder | src/protocol.cpp:17-66 | over every interleaving: no sleeper misses a message, each message pushed is delivered at most once, only to a caller with its identifier, same-identifier messages in push order, nothing lost or invented |
| QueueMonitor.EveryCallIsServedOrWaits | src/protocol.cpp:34-66 | over every interleaving: what a thread has been given, followed by what it waits for, is what it asked for, call by call |
| QueueMonitor.WaitingMessageIsDelivered | src/protocol.cpp:34-66 | a caller for whom a message is queued is awake and its next search returns the oldest one |
| QueueMonitor.CallerCanSearch | src/protocol.cpp:60-64 | a thread in the call can search again whenever it wakes, for no reason too, still waiting for the same identifier |
| FileRecords.DecodeImage | src/utils.cpp:49 | copying an entry out and in restores every field, whatever its link held |
| FileRecords.SelectionPartitions | src/utils.cpp:37-53 | serialized and kept entries together are the list, as multisets |
| FileRecords.SelectionIsExact | src/utils.cpp:37-53 | an entry is sent, as often as it is listed, exactly when should_transfer_file selects it, and kept otherwise |
| FileRecords.MatchingKeepsOrder | src/utils.cpp:37-53 | what is sent keeps the order of the list |
| FileRecords.KeptKeepsOrder | src/utils.cpp:99-120 | what is kept keeps the order of the list |
| FileRecords.ReversedAt | src/utils.cpp:92-93 | prepending one by one reverses |
| FileSegments.ReassemblyRestores | src/stabilization.cpp:80-94 | segments in any order, with repetitions, rebuild the data byte for byte and set its size |
| FileSegments.LastWriteWins | src/stabilization.cpp:80-89 | a position holds the byte of the last segment delivered over it |
| FileSegments.LastSizeWins | src/stabilization.cpp:91-93 | the size is the end of the last segment delivered that calls itself the last |
| FileSegments.EndCarriesLast | src/node.cpp:154-157 | FILE_END carries the last segment's counters, which pass the guard unless the number of segments is a multiple of 2^16, and what the structure held before when there is no segment |
| FileSegments.TransferConserves | src/stabilization.cpp:75-98 | after full delivery, for whatever the joiner reads off its buffer: up to 19,779 matching entries its list is the reversed matching entries before its own, and entries are conserved over both nodes exactly up to that bound |
| FileSegments.CountRestoredIffFits | src/node.cpp:144-145 | with full delivery the joiner reads as many entries as were sent exactly when there are at most 19,779 |
| FileSegments.LastSegmentLateLosesAll | src/stabilization.cpp:91-98 | the guard accepts exactly when the last segment arrived before FILE_END |
| FileSegments.MissingStaysUnwritten | src/stabilization.cpp:80-94 | what a missing segment would have put first is never written |
| FileSegments.RestoredIffComplete | src/stabilization.cpp:80-98 | whatever arrives, the buffer holds what was sent exactly when every segment arrived, and then FILE_END is accepted |
| FileSegments.AcceptedWithAHole | src/stabilization.cpp:91-98 | with the last segment alone FILE_END is accepted with the full size and an unwritten first byte |
| FileSegments.LengthRestoredIffFits | src/stabilization.cpp:91-98 | after full delivery as many bytes are read as were sent exactly up to 19,779 entries |
| FileSegments.CompleteReadIsData | src/stabilization.cpp:96-98 | after full delivery of at most 19,779 entries what the joiner reads off is what was sent |
| FileSegments.GenuineSizeIsWhole | src/stabilization.cpp:91-98 | within the 16-bit range, whatever is missing, the size set is a whole number of entries and nothing past it is read |
| FileTransfer.FileList.Append | src/utils.cpp:38-51 | one doubling makes room for one entry, and the copy appends exactly that entry |
| FileTransfer.FileList.Serialize | src/utils.cpp:32-56 | every copy is in bounds for any list, the size is entry size times matches, the buffer decodes to the matches |
| FileTransfer.FileList.DeleteTransferred | src/utils.cpp:99-120 | unlinking in place leaves exactly the entries that do not match, in order |
| FileTransfer.FileList.Unlink | src/utils.cpp:105-114 | exactly that entry leaves the chain |
| FileTransfer.FileList.Deserialize | src/utils.cpp:82-97 | entries are prepended one by one until the size is reached, the last possibly past it: reversed, before the old list |
| FileTransfer.SendFiles | src/node.cpp:139-157 | the loop sends the segments in order and FILE_END with the last segment's counters |
| FileTransfer.Place | src/stabilization.cpp:81-89 | a segment is copied in bounds and disturbs no other position |
| FileTransfer.ReceiveFiles | src/stabilization.cpp:75-94 | the loop holds what the delivered segments put there and the size the last-numbered one sets |
| FileTransfer.HandleGetFiles | src/node.cpp:131-160 | the sender sends exactly its matching entries and keeps exactly the others |
| FileTransfer.FinishJoin | src/stabilization.cpp:75-98 | for any deliveries and any FILE_END: the guard decides, what is read off agrees with what arrived, and it is prepended, reversed |
| FileTransfer.Transfer | src/node.cpp:131-160 | both nodes' lists after GET_FILES and any full delivery: the sender keeps the rest, the joiner holds the reversed matching entries before its own up to 19,779, and entries are conserved exactly up to there |
| Text.StoiOfToString | src/helper_tracker.cpp:338-345 | stoi reads back what to_string wrote, for every int |
| Text.StoiIsExact | src/helper_tracker.cpp:280 | stoi gives v exactly when the text is blanks, an optional sign and digits of value v, then anything, and v is a 32-bit integer |
| Text.LinesOfRender | src/peer.cpp:141-146 | splitting rendered one-line texts at newlines gives them back |
| Text.LessIsLexicographic | src/helper_tracker.cpp:210 | the order in which a set of names is visited is the lexicographic one |
| Pieces.InsertIsSetInsert | include/utils.h:61-69 | inserting a source adds it exactly when no source has its path, address and port, and keeps the set ordered |
| Pieces.KeyLessIsByPathIpPort | include/utils.h:61-69 | sources are visited by path, then address, then port |
| Pieces.UploadKeeps | src/helper_tracker.cpp:290-305 | piece numbers stay unique and source sets ordered |
| Pieces.UploadAddsOneSource | src/helper_tracker.cpp:290-305 | an upload adds that source to that piece, unless an equal one is there, and changes nothing else |
| Pieces.UploadStaysNumberedIff | src/helper_tracker.cpp:290-305 | a vector numbered 0..k-1 stays numbered exactly when the announced number is at most k |
| Pieces.WithoutPeerIsExact | src/helper_tracker.cpp:411-421 | erasing removes all and only the peer's sources and keeps the order |
| Pieces.StopShareIsExact | src/helper_tracker.cpp:409-426 | every piece loses exactly the peer's sources, numbers stay, and nothing is left exactly when all sources were the peer's |
| Seeding.PieceCreation | src/helper_peer.cpp:261-279 | pieces are announced 0, 1, 2, ... with their hashes |
| Seeding.AcceptedIffMember | src/helper_tracker.cpp:258-265 | an announcement is accepted exactly when its author is a member of the group at that moment |
| Seeding.AcceptedIffCodeZero | src/helper_tracker.cpp:258-309 | those are the announcements answered with 0; a refused one leaves every file as it is |
| Seeding.VectorAfterEvent | src/helper_tracker.cpp:249-434 | exact change of a file's vector by any message: an accepted announcement, a stop_share, or nothing |
| Seeding.NumberingAfterEvent | src/helper_tracker.cpp:290-305 | a numbered vector stays numbered exactly when an accepted number is at most its length |
| Seeding.NumbersWereAccepted | src/helper_tracker.cpp:286-305 | in every run a vector has exactly the numbers accepted since the file was last dropped |
| Seeding.NumberedIffWithinLength | src/helper_tracker.cpp:286-305 | in every run the vector is numbered throughout exactly when no accepted number exceeds the length it finds |
| Seeding.NumberedIffInOrder | src/helper_tracker.cpp:286-305 | in every run the vector is numbered throughout exactly when each accepted k > 0 follows an accepted k-1 with no drop in between |
| Seeding.SeedersAreNeverRefused | src/helper_peer.cpp:261-279 | a seeder that is a member when it announces 0, goes on in order and does not leave is never refused |
| Seeding.ConcurrentSeedersKeepNumbering | src/helper_peer.cpp:261-279 | however such seeders interleave, with each other and any other command, the vector is numbered 0..k-1 in every state |
| Seeding.LateAdmissionBreaksNumbering | src/helper_peer.cpp:272-279 | a run in which the refused piece 0 is not made up for: piece 1 is accepted and the vector starts at 1 |
| Seeding.PieceIsAnnounced | src/helper_peer.cpp:272-279 | the command piece_creation sends for piece k announces piece k, also in that run |
| Seeding.DroppedTableBreaksNumbering | src/helper_tracker.cpp:427-431 | after a dropped table the next announcement keeps numbering exactly when it is number 0 |
| Downloads.DownloadIsRightIff | src/helper_tracker.cpp:311-353 | a download granted in any run whose accepted pieces of the file came in order, with newline-free fields: the peer reads off exactly the size, hash, and every key and hash shared at every piece, if and only if the file has pieces and no shared field clashes |
| DownloadReply.SourceMapIsExact | src/peer.cpp:189-192 | a piece's parsed set holds exactly its sources' keys with their hashes |
| DownloadReply.ReadSourcesStay | src/peer.cpp:161-196 | a source once read is not overwritten by an equal one |
| DownloadReply.ReadPiece | src/peer.cpp:161-196 | a piece without clash, empty or not, is read right and the next number line is recognised |
| DownloadReply.LeftPiecesFrozen | src/peer.cpp:161-196 | entries of pieces already left never change |
| DownloadReply.ClashingSourceIsLost | src/peer.cpp:167-172 | a source with a field equal to the next piece's number never arrives in its piece |
| DownloadReply.RoundTripIffNoClash | src/peer.cpp:136-196 | on lines: the parse gives back size, hash and every piece's sources exactly when no field clashes |
| DownloadReply.DownloadReplyRoundTrip | src/helper_tracker.cpp:337-350 | on the text sent: the same, for non-empty numbered pieces with newline-free fields |
| DownloadReply.EmptyReplyThrows | src/peer.cpp:149-178 | a reply without pieces makes the parser wrap round to the first line and throw |
| DownloadReply.PrintReply | src/helper_tracker.cpp:337-350 | the printing loops produce the reply's lines |
| DownloadReply.PrintPiece | src/helper_tracker.cpp:342-349 | the inner loop prints the number and four lines a source |
| DownloadReply.ParseTextReadsLines | src/peer.cpp:141-158 | on a message of three or more lines the cuts at newlines are its lines, the first piece's number skipped |
| DownloadReply.ParseReply | src/peer.cpp:141-196 | the index-moving parser computes the parse, for every message, missing newlines and wrap-round included |
| DownloadReply.ReadPieces | src/peer.cpp:161-196 | the parse loop ends and reads every complete line |
| TrackerModel.LeastOther | src/helper_tracker.cpp:210-215 | ownership passes to the least other member |
| TrackerModel.OthersInLargerSet | src/helper_tracker.cpp:208-222 | the test for more than one member is the test for another member |
| TrackerModel.AddressRoundTrip | src/helper_tracker.cpp:454-459 | an address announced as ip:port is recorded as that ip and port |
| TrackerModel.AddressWithoutColon | src/helper_tracker.cpp:457-458 | a text without a colon is taken for both the address and the port |
| TrackerModel.BaseNameIsExact | src/helper_tracker.cpp:270-279 | the file name of a path is the one suffix without slash or backslash that is the whole path or follows one |
| TrackerRuns.LoginKeepsSessions | src/helper_tracker.cpp:49-75 | login keeps: flagged exactly when one socket maps to the user, sockets of distinct users |
| TrackerRuns.LogoutKeepsSessions | src/helper_tracker.cpp:377-387 | logout keeps the same |
| TrackerRuns.MembersAfter | src/helper_tracker.cpp:76-229 | exact membership change of any command: members that did not leave, a founder, an admitted requester |
| TrackerRuns.RequestersAfter | src/helper_tracker.cpp:91-189 | exact change of the pending requests |
| TrackerRuns.OwnerAfter | src/helper_tracker.cpp:206-228 | exact change of ownership, hand-over included |
| TrackerRuns.GroupsAfter | src/helper_tracker.cpp:206-228 | exact change of the group table: founded, or gone with the last member |
| TrackerRuns.UploadAfter | src/helper_tracker.cpp:249-310 | exact change of the shared sources by upload_file, and its table stays sound and listed |
| TrackerRuns.StopShareAfter | src/helper_tracker.cpp:388-434 | stop_share takes all and only the caller's sources of that file, and drops the table exactly when no other source is left |
| TrackerRuns.DownloadAfter | src/helper_tracker.cpp:311-353 | a download changes no shared source and adds at most an empty table of a listed file |
| TrackerAnswers.CreatePeerAnswers | src/helper_tracker.cpp:35-48 | create_peer answers 1 exactly when a user is added, otherwise why not, and then changes nothing |
| TrackerAnswers.LoginAnswers | src/helper_tracker.cpp:49-75 | login answers 1 exactly when a session is opened; otherwise 2, 3, 4 or 0 for the words, the socket, the user elsewhere, or name and password |
| TrackerAnswers.LogoutAnswers | src/helper_tracker.cpp:377-387 | logout answers 0 exactly when the session is closed |
| TrackerAnswers.CreateGroupAnswers | src/helper_tracker.cpp:76-90 | create_group answers 1 exactly when the caller founds the group |
| TrackerAnswers.JoinGroupAnswers | src/helper_tracker.cpp:91-109 | join_group answers 1 exactly when the request is recorded, 0 to a member |
| TrackerAnswers.ListRequestsAnswers | src/helper_tracker.cpp:110-139 | list_requests answers 1, and so sends the names, exactly to the owner, and changes no request |
| TrackerAnswers.AcceptRequestAnswers | src/helper_tracker.cpp:164-189 | accept_request answers 1 exactly when the owner admits a requester, 0 when another peer tries |
| TrackerAnswers.LeaveGroupAnswers | src/helper_tracker.cpp:190-229 | leave_group answers 1 exactly when a member leaves |
| TrackerAnswers.UploadAnswers | src/helper_tracker.cpp:249-310 | upload_file answers 0 exactly when a source is announced, and ends the tracker exactly for a member's piece number that stoi refuses |
| TrackerAnswers.StopShareAnswers | src/helper_tracker.cpp:388-434 | stop_share answers 0 exactly when the group lists the file |
| TrackerAnswers.DownloadAnswers | src/helper_tracker.cpp:311-336 | a download is granted exactly to a member of a group that lists the file; otherwise the check that fails is named |
| TrackerAnswers.HandleEndsIff | src/helper_tracker.cpp:453-816 | which messages end the tracker, and that no other does |
| TrackerHistory.EventKeepsAccountInv | src/helper_tracker.cpp:478-524 | any message, guarded or not, keeps the session and group invariants |
| TrackerHistory.UsersAfterEvent | src/helper_tracker.cpp:35-48 | users are added by create_peer only, and keep the password they were created with |
| TrackerHistory.SessionsAfterEvent | src/helper_tracker.cpp:49-75 | exact change of the sessions by any message: logged out, or opened with the registered password on a free socket for a user not on |
| TrackerHistory.DetailsAfterEvent | src/helper_tracker.cpp:789-799 | the size and hash of a file change only by file_details of that file, to what it names |
| TrackerHistory.EveryStateIsSound | src/helper_tracker.cpp:453-826 | in every reachable state the session, group and piece-table invariants hold |
| TrackerHistory.OnlyLeavingRemoves | src/helper_tracker.cpp:190-229 | a member stops being one exactly by its own leave_group |
| TrackerHistory.GroupGoneIffLastMemberLeaves | src/helper_tracker.cpp:218-222 | a group disappears exactly when its last member leaves |
| TrackerHistory.OwnerHandsOver | src/helper_tracker.cpp:206-217 | the owner of a surviving group changes only by leaving, and then to the least remaining member |
| TrackerHistory.PasswordsNeverChange | src/helper_tracker.cpp:41-45 | over any run a registered user keeps its password |
| TrackerHistory.SessionsAreAuthenticated | src/helper_tracker.cpp:49-75 | every session was opened on that socket with the user's present password and has not been logged out since |
| TrackerHistory.RequestsAreGenuine | src/helper_tracker.cpp:91-109 | a pending request goes back to its user's own join_group and has been pending since |
| TrackerHistory.MembershipIsEarned | src/helper_tracker.cpp:164-189 | every member founded the group, or was accepted by the owner of that moment on its own earlier request, and has been a member since |
| TrackerHistory.SourcesWereAnnounced | src/helper_tracker.cpp:249-310 | every source of a piece was announced by that peer, then a member of the group it named, and not stopped since |
| TrackerHistory.DetailsAreTheLastDescribed | src/helper_tracker.cpp:789-799 | the size and hash printed for a file are those of its last file_details, zero and empty before any |
| TrackerHistory.SharedAfterEvent | src/helper_tracker.cpp:249-434 | exact change of every file's sources by any message |
| TrackerHistory.TableDroppedIff | src/helper_tracker.cpp:406-432 | a piece table is dropped exactly by a stop_share that leaves no piece with a source |
| TrackerSources.AddressIsTheLastAnnounced | src/helper_tracker.cpp:453-459 | the address of a socket is the one its last connection announced, zero and empty before any |
| TrackerSources.SourcesAreGenuine | src/helper_tracker.cpp:264-284 | every source goes back to its peer's own upload_file, with that command's path and hash, and to the last connection of its socket for its address |
| TrackerSources.ListedIffUploaded | src/helper_tracker.cpp:308-428 | a group lists exactly the files uploaded to it that no stop_share through it has taken the last source of since |
| Tracker.Tracker.constructor | src/helper_tracker.cpp:21-33 | the tracker starts with empty tables |
| Tracker.Tracker.CreatePeer | src/helper_tracker.cpp:35-48 | tables and return code of create_peer |
| Tracker.Tracker.Login | src/helper_tracker.cpp:49-75 | tables and return code of login, the default flag it inserts included |
| Tracker.Tracker.Logout | src/helper_tracker.cpp:377-387 | tables and return code of logout |
| Tracker.Tracker.CreateGroup | src/helper_tracker.cpp:76-90 | tables and return code of create_group |
| Tracker.Tracker.JoinGroup | src/helper_tracker.cpp:91-109 | tables and return code of join_group |
| Tracker.Tracker.ListRequests | src/helper_tracker.cpp:110-139 | return code, the empty entry its look-up can insert, and the messages sent to the owner |
| Tracker.Tracker.SendNames | src/helper_tracker.cpp:124-128 | one message for each requester, each once, in increasing order |
| Tracker.Tracker.AcceptRequest | src/helper_tracker.cpp:164-189 | tables and return code of accept_request |
| Tracker.Tracker.LeaveGroup | src/helper_tracker.cpp:190-229 | tables and return code of leave_group |
| Tracker.Tracker.FirstOther | src/helper_tracker.cpp:210-215 | the loop over the ordered members stops at the least one that is not leaving |
| Tracker.Tracker.UploadFile | src/helper_tracker.cpp:249-310 | tables and return code of upload_file, and where stoi throws |
| Tracker.Tracker.AddSource | src/helper_tracker.cpp:284-305 | the search loop inserts into the first piece with the number or appends one |
| Tracker.Tracker.EraseSources | src/helper_tracker.cpp:411-421 | the erasing loop leaves exactly the other peers' sources in order |
| Tracker.Tracker.EraseShares | src/helper_tracker.cpp:406-426 | every piece is erased from, and flag is set exactly when no source is left |
| Tracker.Tracker.StopShare | src/helper_tracker.cpp:388-434 | tables and return code of stop_share |
| Tracker.Tracker.DownloadFile | src/helper_tracker.cpp:311-353 | return code, the printed reply, and the empty entries look-ups insert |
| Tracker.Tracker.Accept | src/helper_tracker.cpp:453-459 | a connection records the address split at the first colon, keeping whatever session its socket number had, or ends the tracker where stoi throws |
| Tracker.Tracker.HandleMessage | src/helper_tracker.cpp:478-826 | one message does what the state machine of the run theorems does, login guard included |

## Left out

- Sockets, thread start-up, console commands, file reads and writes, listing output and SHA: input and output only.
- Atomic lookup hides that a blocked lookup can stop a node's listener thread; liveness of lookups under lost messages is not claimed.
- Memory reclamation: what cleanup_node frees, and the case of a node whose successor is itself, are not modelled; nodes are identifiers.
- The lists of tracker sources (file_list) and of past downloads, with show_downloads and download_completed: never read by the modelled commands, and the last changes a set while iterating over it.
- Node departure and the STORE_FILE, FIND_FILE and DELETE_FILE messages: stubs in the source.
- File placement after a join is not claimed: should_transfer_file selects (new, current], which lookups still send to current.
- Disjointness of members and requesters is not claimed: requests outlive a dissolved group.
- Truncation of requests and replies at the receive buffers, realloc failure and size_t overflow.
- Races on tracker tables and node file lists: each command and handler is one step.
- FileTransfer.FinishJoin: bytes that no segment wrote are arbitrary, and so is what lies past the buffer's end; after full delivery of at most 19,779 entries none is read.
- FileTransfer.FileList.DeleteTransferred: unlinks entries but does not model that they are freed.
- Tracker.Tracker.DownloadFile: does not model the entry added to the caller's download history, which no modelled command reads.
- TrackerHistory.EveryStateIsSound: does not claim that piece tables are numbered; Seeding.NumberedIffInOrder says exactly when they are.
- Tracker.Tracker.UploadFile: does not model the entry added to file_list, which nothing reads.
- Tracker.Tracker.HandleMessage: does not model the texts of the replies, apart from the download reply and the list of requesters, nor the listing commands' output.
- ChordNode.Network.JoinRing: covers the pointers; the heartbeat before it, the exits when the other node is unreachable and the request for files are separate, the last in FileTransfer.
- ChordNode.Node.CheckPredecessor: whether the predecessor is reachable is a parameter.
- ChordNode.Network.Stabilize: covers the call with every message delivered or none answered; the other interleavings are runs of Ring.
