# NTRDMA in Dafny

NTRDMA provides RDMA between two hosts that are connected by a PCIe
non-transparent bridge.  Each host maps memory of the other; queue entries,
completions, commands and indices are copied into buffers of the peer, where the
peer finds them by indices into rings.  There is no third party and no
retransmission: the protocol works if both hosts advance the same rings in step.
This project models that protocol and the code around it, and proves what it is
there for.

## Modules

| file | what it models |
|---|---|
| Ring | the wrapped index arithmetic of a ring, refined against unbounded counters |
| RemoteRing | a ring mirrored in the peer's memory by copies that are read late and land in order |
| Work | what one send pass and one receive pass do to a batch of entries |
| QueuePair | two connected nodes as a state machine over their steps, its invariant and the end-to-end theorems |
| Sender, Receiver | the work functions and posting on arrays and 32-bit indices, each refining a step of QueuePair |
| Polling, PollQueue | send completions through abort and recovery, the poll loop, and a completion queue shared by several queue pairs |
| Link, Hello, Version | the link state machine against any peer, two nodes going through hello together, the choice of a version |
| Zip | copying scatter-gather lists across memory regions |
| Command | the command channel: callbacks, commands, responses |
| Vbell | virtual doorbells and the wakeup protocol |
| Mr, Umem | replicating a memory region in chunks, coalescing its memory list |
| Mm, Address, Kvec, Cq | the memory allocator, addresses through memory windows, key tables, completion queues |

Imperative code is modelled by classes and methods; where a protocol is
concurrent, each section under a lock, each landing write and each interrupt is a
step of a state machine, and theorems speak about every sequence of steps.  A
class of the project states what its fields stand for in a predicate
(`Represents`), and its methods are proved to be steps of the machine.

## Assumptions

- Writes to the memory of one peer land in the order they were issued; a copy may
  be read from its source any time before it lands.
- A ring has a positive capacity whose double fits 32 bits (`Ring.Capacity`).
- Sections under one lock do not interleave with each other.
- The size of a memory region is a 64-bit word (`Zip.Sized`).
- A command callback is added only while it is not linked, and never concurrently with
  itself; the code adds without a test and would corrupt its lists otherwise.
- The theorems about two nodes of a queue pair start with a new connection and end
  where one node aborts; Polling takes up the aborting node.
- Results of allocations and DMA requests, scatter-gather transfers within a send
  pass, user requests and the peer's announcements are parameters without constraint
  unless a contract says otherwise.
- `CONFIG_NTRDMA_RETRY_RECV` is not defined, so a missing receive aborts.

## What the proofs show about the code

- The two warnings of `ntrdma_ring_produce` and `ntrdma_ring_valid` disagree for
  capacities above 2^30 (`Ring.WarnsExactly`).
- The doorbell protocol loses wakeups if the doorbell can be rung through more than
  one interrupt vector; the code picks the vector by the CPU it runs on
  (`Vbell.MoreVectorsLose`, `Vbell.OnlyOneVectorIsSafe`).
- A node can request a fifth hello phase of the upper layer, which has four, when its
  peer misbehaves (`Link.PhaseFourRequested`); two well-behaved nodes never do
  (`Hello.InStep`).
- Clearing an abort is safe only in step: with a late completion of the peer in the buffer
  the next look reports completions nobody delivered (`Polling.StaleIndexReports`,
  `Polling.ClearExactly`), and an entry that was passed over and not yet flushed can be
  reported with a foreign completion (`Polling.SkippedGetsForeign`).  A failed send pass
  leaves entries that were never sent in the same way.
- Even after a clear in step the queue pair is not safe from the past: the code does not
  test the index that the peer writes, and one behind what was polled makes the next look
  report completions nobody delivered (`Polling.LandExactly`, `Polling.LateLandReports`).
- The ranges of `ntc_umem_sgl`, which are documented as discontiguous, can be contiguous
  around an empty entry (`Umem.UmemSgl`, `Umem.DetourExists`).
- Two nodes can choose different versions unless their lists agree on the order
  (`Version.OrderMatters`, `Version.SameIfOrdersAgree`).
- `ntrdma_zip_memcpy` copies to the start of a segment even if the target is in its middle
  (`Zip.LandedExactly`, `Zip.LandsElsewhere`).
- A region with an unaligned address can be registered, but its replication is refused by
  the peer (`Mr.ReplicateUnaligned`).
- Mapping a remote buffer tests its first byte only; a buffer can be located and end beyond
  the window (`Address.StraddlingBuffer`).
- The segment test wraps around for buffers above 2^63 bytes
  (`Address.SegmentValidExactly`), and an address reaches its buffer only if the
  window was programmed with the base the node believes in
  (`Address.RoundTripNeedsConsistency`).

## Model

| member | source | states |
|---|---|---|
| `Ring.ConsumeRefines` | drivers/infiniband/hw/ntrdma/ntrdma_ring.h:72-91 | For free-running counters p and c at most a capacity apart, the range computed from their wrapped indices covers exactly the numbers from c on: as many as are outstanding, up to the end of the buffer. Together with ProduceRefines and UpdateRefines: the wrapped arithmetic refines unbounded counters for every capacity whose double fits 32 bits. |
| `Ring.ProduceRefines` | drivers/infiniband/hw/ntrdma/ntrdma_ring.h:39-69 | The same for the free numbers from p on, up to the end of the buffer. |
| `Ring.UpdateRefines` | drivers/infiniband/hw/ntrdma/ntrdma_ring.h:94-100 | Storing the position reached after k contiguous entries yields the index of the counter n + k, across both wrap-arounds. |
| `Ring.CountRefines` | drivers/infiniband/hw/ntrdma/ntrdma_ring.h:103-150 | Count and space are the outstanding and the free number of entries, and the pair is valid. |
| `Ring.TwoRoundsDrain` | drivers/infiniband/hw/ntrdma/ntrdma_ring.h:72-100 | A consumer that takes its whole range twice has taken everything, and its index then equals the producer's. |
| `Ring.ValidIsOutstanding` | drivers/infiniband/hw/ntrdma/ntrdma_ring.h:141-150 | ntrdma_ring_valid holds of a pair of indices if and only if it stands for some counters at most a capacity apart. |
| `Ring.WarnsExactly` | drivers/infiniband/hw/ntrdma/ntrdma_ring.h:59-66 | The two run-time warnings together agree with ntrdma_ring_valid on all pairs of indices if and only if the capacity is at most 2^30. |
| `RemoteRing.LandInv` | drivers/infiniband/hw/ntrdma/ntrdma_qp.c:1680-1707 | A write of the peer that lands, whenever it is read from its source, keeps the invariant of a mirrored ring: everything below the index word is in place. |
| `RemoteRing.IssueAllInv` | drivers/infiniband/hw/ntrdma/ntrdma_qp.c:1680-1707 | So does issuing further entries, as long as at most a ring of them is unconsumed. |
| `RemoteRing.PeerReads` | drivers/infiniband/hw/ntrdma/ntrdma_qp.c:1190-1203 | What the peer reads below the index word is what was issued under these numbers. |
| `RemoteRing.OwnerReads` | drivers/infiniband/hw/ntrdma/ntrdma_qp.c:388-412 | What the issuing side still has in its own buffer is what it issued under these numbers. |
| `Work.SendsProduces` | drivers/infiniband/hw/ntrdma/ntrdma_qp.c:1562-1665 | A send pass over fresh entries with sound receives produces entries that keep the request, carry a successful status and name, in order, the receives they took. |
| `Work.SentExactly` | drivers/infiniband/hw/ntrdma/ntrdma_qp.c:1562-1665 | One entry at the sending node, for every entry and every receive: exactly when the pass goes on, stops or gives up, whether a receive is taken, and the status, receive key and length the entry then carries. |
| `Work.SendsExactly` | drivers/infiniband/hw/ntrdma/ntrdma_qp.c:1562-1665 | A pass over fresh entries goes on exactly up to the first one that needs a receive and finds none, or whose data cannot be moved; there it publishes if the move is to be repeated and gives up otherwise. Every entry before has the length its own transfer reported. |
| `Work.EntryCompletes` | drivers/infiniband/hw/ntrdma/ntrdma_qp.c:1835-1980 | One entry at the receiving node, for every entry, key and receive: exactly which of the five reasons ends the pass there, and the fields of the send completion and of the receive completion in each case. |
| `Work.ReceivesCompletes` | drivers/infiniband/hw/ntrdma/ntrdma_qp.c:1835-1980 | A receive pass over entries whose keys count the receives taken never finds a wrong key or a missing receive; it completes every entry and every receive it takes, in order, each completion field by field: status, opcode, length and immediate value. |
| `QueuePair.StepGood` | drivers/infiniband/hw/ntrdma/ntrdma_qp.c:1074-1203 | Every step of either node (post, send pass, receive work, remote pass, landing writes, polls) keeps the joint invariant of the two nodes. |
| `QueuePair.LockstepAcrossPeers` | drivers/infiniband/hw/ntrdma/ntrdma_qp.c:1748-2068 | In every run of the two nodes the receiver never finds a key that names another receive, a send without a receive or a receive in error; both nodes have taken exactly one receive per entry that needs one, and the entry names the receive of its own number. |
| `QueuePair.IndexChains` | drivers/infiniband/hw/ntrdma/ntrdma_qp.c:1074-1203 | In every run: sends polled <= acknowledged <= completed by the peer <= announced <= copied <= posted <= polled + capacity; receives polled <= completed <= taken by the sender <= announced <= copied <= posted <= polled + capacity. |
| `QueuePair.ReadsAreExact` | drivers/infiniband/hw/ntrdma/ntrdma_qp.c:1125-1203 | Every entry either node reads through the mirrored rings is the one issued under its number, although copies are read from the source late. |
| `QueuePair.NoSlotReusedEarly` | drivers/infiniband/hw/ntrdma/ntrdma_qp.c:1505-1746 | When a copy lands its slot's former entry has been consumed, and the source of every copy in flight still holds the entry it was issued for. |
| `QueuePair.CompletionsEndToEnd` | drivers/infiniband/hw/ntrdma/ntrdma_qp.c:1138-1359 | In every run polling yields the completion of every posted send once and in order: its own handle, opcode and flag, status success and its length, or no access and length 0 for a read. The receive polled n-th answers the n-th send that takes one: status success, the opcode that tells what arrived, that send's length (0 for a write with immediate value) and its immediate value (0 for a plain send). |
| `QueuePair.PostedBy` | drivers/infiniband/hw/ntrdma/ntrdma_ib.c:1555-1638 | Entry n of a run was posted by one request of the run that fit, could be filled in and is not carried out at once; it has the handle, opcode, immediate value and flag of that request. |
| `QueuePair.RecvPostedBy` | drivers/infiniband/hw/ntrdma/ntrdma_ib.c:1761-1830 | The same for receive n. |
| `QueuePair.SentBy` | drivers/infiniband/hw/ntrdma/ntrdma_qp.c:1505-1746 | Entry n of the log was sent by one pass of the run, and its length is the one its own transfer reported there; the only error it can carry is that the transfer is to be repeated. |
| `QueuePair.PassCovers` | drivers/infiniband/hw/ntrdma/ntrdma_qp.c:1748-1790 | What one pass covers: all that waits up to the end of the ring, and at most sixteen entries at the receiving node. |
| `QueuePair.RemoteWorkCovers` | drivers/infiniband/hw/ntrdma/ntrdma_qp.c:1748-2068 | A pass of the receiving node completes all it covers, or ends the connection because of an entry with an error, and for no other reason. |
| `QueuePair.ErrorAborts` | drivers/infiniband/hw/ntrdma/ntrdma_qp.c:1322-1359 | In every run polling starts an abort if and only if it met a completion with an error. |
| `QueuePair.RestIsDone` | drivers/infiniband/hw/ntrdma/ntrdma_qp.c:1074-1203 | Nothing is forgotten: in every run that comes to rest without a fault, every posted send and every receive taken was completed and polled, and all posted receives are with the peer. |
| `QueuePair.RunEmptied` | drivers/infiniband/hw/ntrdma/ntrdma_qp.c:990-1008 | In every run a receive that was completed keeps its entry until it is polled, with its segments given back. |
| `QueuePair.CompletionsAwait` | drivers/infiniband/hw/ntrdma/ntrdma_qp.c:1138-1173 | In every run each completion that has landed and was not polled stands in the slot of its entry and is the completion of that entry. |
| `Sender.SendSide.TakeReceive` | drivers/infiniband/hw/ntrdma/ntrdma_qp.c:1589-1611 | Takes the next posted receive through the wrapping cursor and fetches the range again at its end. |
| `Sender.SendSide.SendEntry` | drivers/infiniband/hw/ntrdma/ntrdma_qp.c:1562-1665 | One entry of the pass has the effect and the verdict of the specification, in place. |
| `Sender.SendSide.SendWork` | drivers/infiniband/hw/ntrdma/ntrdma_qp.c:1505-1746 | The pass on arrays and 32-bit indices ends in the state of the two-node step, including where it stops; the copy and the index it issues publish exactly the entries that were done. The link is given up if and only if an entry is in error, which is the step's fault, or a DMA request is refused; then the node has the entries up to that one done in its own buffer, and announces nothing unless only the doorbell failed. |
| `Sender.SendSide.PostSend` | drivers/infiniband/hw/ntrdma/ntrdma_ib.c:1555-1638 | Exactly the longest prefix of the requests that fits and can be filled in is posted; `bad` is the first request that is not, and the error says why: ring full, too many segments or an opcode that cannot be posted, or not filled in. |
| `Receiver.RecvSide.HandleEntry` | drivers/infiniband/hw/ntrdma/ntrdma_qp.c:1835-1980 | One entry is completed together with the receive it takes, in place, as specified. |
| `Receiver.RecvSide.RemoteWork` | drivers/infiniband/hw/ntrdma/ntrdma_qp.c:1748-2068 | The pass over at most sixteen announced entries ends in the state of the two-node step and publishes exactly the completions made. It fails if and only if an entry is in error, which is the step's fault, or a DMA request is refused; then the node has the entries up to that one completed in its own buffers, and announces nothing unless only the doorbell failed. |
| `Receiver.RecvSide.RecvWork` | drivers/infiniband/hw/ntrdma/ntrdma_qp.c:1361-1435 | All posted receives are copied to the peer and then announced: the step of the two-node model. It fails if and only if a request is refused, which is the last one made; then nothing is announced, although the index has moved on. |
| `Receiver.CopiesExact` | drivers/infiniband/hw/ntrdma/ntrdma_qp.c:1361-1435 | The copies are at most two disjoint parts of the buffer and cover every entry posted since the last time. |
| `Polling.StepValid` | drivers/infiniband/hw/ntrdma/ntrdma_qp.c:1138-1173 | Posting, send passes that succeed or fail, landing completions of an honest peer, aborting, clearing in step, also after flushing entries the peer never completed, and polling keep the consistency of the send completions, among it that every completion that has landed and was not polled belongs to its entry; none of them takes back a completion. |
| `Polling.FailPassValid` | drivers/infiniband/hw/ntrdma/ntrdma_qp.c:1668-1677 | So does a send pass that fails: it moves the producer past entries that are never announced, which are remembered as never sent. |
| `Polling.PeerIsHonest` | drivers/infiniband/hw/ntrdma/ntrdma_qp.c:1990-2024 | What is demanded of the peer holds in every run of the two-node model: what lands at the sending node are the completions of the next entries in their slots, and nothing that waits to be polled is touched. |
| `Polling.ExactlyOnceInOrder` | drivers/infiniband/hw/ntrdma/ntrdma_qp.c:1280-1359 | In every run, through any number of aborts, recoveries and failed send passes, completion i is the one of the i-th posted entry, with its handle: flushed exactly if polled within an abort episode, with the local port error or aborted as its status; otherwise completed by the peer, or, exactly if the entry carries an error, with that error as its status. Completions with a local error have length 0 and no immediate value. The only entries that can get another completion are those that were never sent, because an abort or a failed send pass went past them, and that were not flushed either. |
| `Polling.SkippedGetsForeign` | drivers/infiniband/hw/ntrdma/ntrdma_qp.c:1143-1148 | Such an entry exists: a run in which an entry is passed over by an abort, the abort is cleared before it is flushed, and the entry is then reported with a completion that is not its own. |
| `Polling.OneLocPortPerEpisode` | drivers/infiniband/hw/ntrdma/ntrdma_qp.c:1322-1359 | The completion an abort episode begins with has the status local port error; every later one of the episode has the status aborted, and no completion of the peer comes between them. |
| `Polling.ErrorStartsAbort` | drivers/infiniband/hw/ntrdma/ntrdma_qp.c:1322-1359 | In every run, from a state that is not aborting up to the next clear: the queue pair is aborting if and only if it was told to or a completion with an error was polled in between. |
| `Polling.AbortFlushesAll` | drivers/infiniband/hw/ntrdma/ntrdma_qp.c:1138-1167 | In every run a queue pair in abort, or an aborting one with nothing left to drain, has something to poll until every posted entry has its completion. |
| `Polling.PollTakes` | drivers/infiniband/hw/ntrdma/ntrdma_qp.c:1280-1311 | In every run a poll takes as many as it is allowed of what is there, up to the end of the ring and at most sixteen; outside abort that is what the peer has completed. |
| `Polling.DrainedBeforeFlush` | drivers/infiniband/hw/ntrdma/ntrdma_qp.c:1138-1167 | In every run, when an abort episode began everything the peer had completed was polled; every earlier completion outside earlier episodes came from the peer or was the entry's own error, and the episode flushes only later entries. |
| `Polling.ClearExactly` | drivers/infiniband/hw/ntrdma/ntrdma_ib.c:1208-1242 | In every run: after an abort is cleared, polling reports only entries the peer has completed if and only if the index in the buffer is the peer's and not behind what was polled, or no look finds anything. |
| `Polling.LandExactly` | drivers/infiniband/hw/ntrdma/ntrdma_qp.c:1138-1173 | The other step that breaks it, in every run outside abort: after an index of the honest peer lands, polling reports only entries the peer has completed if and only if the index is not behind what was polled, or no look finds anything. |
| `Polling.LateLandReports` | drivers/infiniband/hw/ntrdma/ntrdma_ib.c:1208-1242 | The recovery that fails: an entry is sent and flushed, the abort is cleared in step, the index of the peer, who has completed nothing, lands again, and the next look offers a second completion, for an entry that was never posted. |
| `Polling.StaleIndexReports` | drivers/infiniband/hw/ntrdma/ntrdma_ib.c:1208-1242 | The run that fails: two entries are sent and flushed, the completion of the first lands late, the abort is cleared, and the next look offers a third completion, for an entry that was never posted. |
| `Polling.CompletionSide.CmplGet` | drivers/infiniband/hw/ntrdma/ntrdma_qp.c:1138-1167 | The in-place look on 32-bit indices refines the specification in every state, consistent or not, including entering abort. |
| `Polling.CompletionSide.PollStart` | drivers/infiniband/hw/ntrdma/ntrdma_qp.c:1280-1311 | What a poll starts with is what the look finds, cut to sixteen, with a second look after entering abort, in every state; in a consistent one it is the contiguous part of what the peer has completed. |
| `Polling.CompletionSide.PollCqe` | drivers/infiniband/hw/ntrdma/ntrdma_qp.c:1322-1359 | The completion of one entry: the local port error or aborted in abort, the entry's own error, or the peer's completion from its slot; and the abort flags after it. |
| `Polling.ReportedExactly` | drivers/infiniband/hw/ntrdma/ntrdma_ib.c:563-589 | Completion i is reported, behind those reported before it, if and only if its entry asked for it or is none of the writes and sends. |
| `Polling.CompletionSide.PollCq` | drivers/infiniband/hw/ntrdma/ntrdma_ib.c:538-621 | The loop over batches of one queue pair returns exactly the reported part of the completions it consumed, in order, and fewer than asked for only if nothing is left. |
| `PollQueue.CompletionQueue.PollCq` | drivers/infiniband/hw/ntrdma/ntrdma_ib.c:538-621 | Polling a queue that several queue pairs share: of each of them exactly the reported part of what was polled of it is returned, in its order; fewer than asked for only if no queue pair has any left; the list of pollers ends as a rotation of what it was. |
| `PollQueue.CompletionQueue.Round` | drivers/infiniband/hw/ntrdma/ntrdma_cq.c:162-181 | One round takes a batch of the first poller in the list that has completions and makes it the last one; the pollers before it have none. None is found only if no poller has any. |
| `PollQueue.PolledNext` | drivers/infiniband/hw/ntrdma/ntrdma_ib.c:559-602 | A batch of one queue pair extends what was returned of it by the reported part of the batch and leaves the completions of all others alone. |
| `Link.AlwaysDisciplined` | drivers/ntc/ntc_ntb_msi.c:998-1212 | Whatever the peer announces and whatever local steps fail, the calls the link makes since the device exists obey the discipline the next four rows spell out, and the link is up only in the last hello state or on its way down. |
| `Link.HelloInOrder` | drivers/ntc/ntc_ntb_msi.c:1008-1035 | In a disciplined trace, hello phases since the last reset are 0, 1, 2, 3 without gap or repetition; a fifth is only ever refused. |
| `Link.EnableAfterDone` | drivers/ntc/ntc_ntb_msi.c:637-655 | Enabling comes only after phase 3 reported done in the same session. |
| `Link.Alternate` | drivers/ntc/ntc_ntb_msi.c:637-655 | Enables and disables alternate. |
| `Link.ResetAfterQuiesce` | drivers/ntc/ntc_ntb_msi.c:657-666 | A quiesce comes right before every reset, with the link already disabled. |
| `Link.PhaseFourRequested` | drivers/ntc/ntc_ntb_msi.c:1160-1188 | Against an arbitrary peer a fifth phase is requested if and only if this node is through, or gets through in this run, while the peer announces that state or the next without both done flags. |
| `Link.WorkExactly` | drivers/ntc/ntc_ntb_msi.c:1078-1158 | Where a run of the work takes a node before hello: one beyond the state the peer announces if the peer is in the same state or one ahead and the version, doorbell and hello steps on the way succeed; it waits for a peer one behind; it quiesces otherwise, and so after every step that fails. |
| `Link.StartExactly` | drivers/ntc/ntc_ntb_msi.c:1059-1095 | The same for a node that has yet to set its windows or to send its version. |
| `Link.HelloExactly` | drivers/ntc/ntc_ntb_msi.c:1160-1188 | The same for a node in hello that is not through: phases that succeed take it one beyond the peer, a phase that fails, a fifth phase or a peer out of step ends in quiescence, and the link goes up only if both are through. |
| `Link.UpExactly` | drivers/ntc/ntc_ntb_msi.c:1190-1211 | When both are through, the link is up after the run if and only if the peer announces the same state; a peer one behind takes it down, any other one also makes the node quiesce, and so does an enable that fails. |
| `Link.QuiesceResets` | drivers/ntc/ntc_ntb_msi.c:1052-1058 | A node that quiesces is reset by the next run of the work, whatever that sees, with the link disabled first if it was up. |
| `Link.ResetIsCarriedOut` | drivers/ntc/ntc_ntb_msi.c:1250-1290 | A reset asked for by the upper layer is carried out by the next run of the work. |
| `Link.Crossed` | drivers/ntc/ntc_ntb_msi.c:862-1000 | In every run a node at a state or beyond got there in one run of the work whose step into that state succeeded, and was not below since: windows are set beyond ENABLED, a version is chosen from VER_CHOSEN on, doorbells are configured from DB_CONFIGURED on, phase 0 is done from HELLO on. |
| `Link.Device.HelloLoop` | drivers/ntc/ntc_ntb_msi.c:1160-1206 | The hello loop computes the specified run: phases called, done flag, next state, link up or not. |
| `Link.Device.Negotiate` | drivers/ntc/ntc_ntb_msi.c:1059-1158 | The fall-through over the states before hello computes the specified negotiation. |
| `Link.Device.LinkWork` | drivers/ntc/ntc_ntb_msi.c:1037-1212 | One run of the link work on the device's fields is the specified step. |
| `Link.Device.Update` | drivers/ntc/ntc_ntb_msi.c:637-655 | Enable or disable on a change only; a failing enable takes the link down again. |
| `Hello.StepLockstep` | drivers/ntc/ntc_ntb_msi.c:1037-1212 | Every step of two nodes that run the protocol against each other, with messages and writes landing in order, keeps the joint invariant. |
| `Hello.InStep` | drivers/infiniband/hw/ntrdma/ntrdma_hello.c:291-330 | In every run of the two nodes no error is raised and no fifth phase requested, states differ by at most one, every phase has read exactly what the peer wrote in the phase before, and a node whose link is up knows both are through. |
| `Hello.NoOverwriteBeforeRead` | drivers/infiniband/hw/ntrdma/ntrdma_hello.c:291-330 | When a write to a half-buffer lands, the node has read what the peer had written there before. |
| `Hello.SettleIsLinkWork` | drivers/ntc/ntc_ntb_msi.c:1037-1212 | A run of the link work whose local steps succeed is a sequence of moves of the two-node protocol: both models describe the same code. |
| `Version.Choose` | drivers/infiniband/hw/ntrdma/ntrdma_hello.c:111-131 | The two nested loops return the last version of the first list that the second one has. |
| `Version.LastCommonIs` | drivers/ntc/ntc_ntb_msi.c:362-380 | What is chosen is in both lists, nothing is chosen only if no version is common, and of an increasing list it is the greatest common one. |
| `Version.SameIfOrdersAgree` | drivers/ntc/ntc_ntb_msi.c:362-380 | Two nodes whose lists agree on the order of the versions both have choose the same one, whichever list is passed first: here each node passes its own, in ntrdma_hello.c the peer's. |
| `Version.OrderMatters` | drivers/ntc/ntc_ntb_msi.c:362-380 | Lists with the same versions in different orders lead to different choices. |
| `Version.BothChooseTheSame` | drivers/infiniband/hw/ntrdma/ntrdma_hello.c:111-131 | Nodes that list their versions in increasing order always choose the same one. |
| `Zip.SegBytesCount` | drivers/infiniband/hw/ntrdma/ntrdma_zip.c:180-233 | Walking a region from an offset finds all the bytes asked for if and only if they end within it. |
| `Zip.AccessWithin` | drivers/infiniband/hw/ntrdma/ntrdma_zip.c:211-233 | With 64-bit wrap-around of the offset computation, an access is found in order if and only if it lies within the region. |
| `Zip.AccessAt` | drivers/infiniband/hw/ntrdma/ntrdma_zip.c:211-233 | An access that lies in its region is in order, and its byte i is where the region has the byte at the access's address plus i: in the segment that holds that offset, counted from the segment's start. |
| `Zip.BytesAt` | drivers/infiniband/hw/ntrdma/ntrdma_zip.c:235-302 | Byte k of a list is byte k - m of the item it falls into, m being the lengths before it: at its base for a buffer given directly, else where its region has it. |
| `Zip.BytesCount` | drivers/infiniband/hw/ntrdma/ntrdma_zip.c:235-302 | A list is in order if and only if every item of it can be reached as far as it is asked for, and then it has the sum of the lengths. |
| `Zip.Cursor.Update` | drivers/infiniband/hw/ntrdma/ntrdma_zip.c:180-302 | Makes the next byte available without changing what is ahead, skipping empty items and pieces; it ends exactly when nothing is ahead, with the code for a proper or an improper end. What is ahead is placed by BytesAt. |
| `Zip.Cursor.Forward` | drivers/infiniband/hw/ntrdma/ntrdma_zip.c:361-388 | What was ahead is the bytes passed over followed by what is ahead now. |
| `Zip.ForwardBoth` | drivers/infiniband/hw/ntrdma/ntrdma_zip.c:429-513 | Both cursors move on; the end of the send list ends the copy before the receive list can fail it. |
| `Zip.SumFits` | drivers/infiniband/hw/ntrdma/ntrdma_zip.c:528-579 | The overflow test of the 32-bit total is exact. |
| `Zip.ZipRdma` | drivers/infiniband/hw/ntrdma/ntrdma_zip.c:528-579 | The copies pair the first bytes of the send list with the first bytes of the receive list, and each address copied from or to is where that byte of the list is, through its item and region. The call succeeds if and only if the send list is in order, the receive list is long enough, the length fits 32 bits and no request failed; then every byte was copied once and the length is the sum of the items'. |
| `Zip.ZipRdmaImm` | drivers/infiniband/hw/ntrdma/ntrdma_zip.c:637-679 | The same for inline data, which goes to where the first bytes of the receive list are; it succeeds if and only if the receive list is long enough and no request failed. |
| `Zip.LandedExactly` | drivers/infiniband/hw/ntrdma/ntrdma_zip.c:725-736 | The bytes of a copy into an own region land where the region has them if and only if nothing is copied or the copy begins at the start of a segment. |
| `Zip.ZipMemcpy` | drivers/infiniband/hw/ntrdma/ntrdma_zip.c:706-747 | Fails if and only if the region is not known or ends before; what it copied are the first bytes of the data, in order, to where the code puts them, which is where the region has them exactly under the condition of LandedExactly. |
| `Zip.LandsElsewhere` | drivers/infiniband/hw/ntrdma/ntrdma_zip.c:725-736 | Eight bytes for the middle of a segment land at its start. |
| `Command.StepGood` | drivers/infiniband/hw/ntrdma/ntrdma_cmd.c:485-651 | Adding, unlinking, preparing, executing, landing and completing keep the invariant of the command channel. |
| `Command.ExecutedOnceInOrder` | drivers/infiniband/hw/ntrdma/ntrdma_cmd.c:1283-1383 | In every run the commands the receiver ran are those posted, once each and in order, and at most a ring of them is outstanding. |
| `Command.PreparedBy` | drivers/infiniband/hw/ntrdma/ntrdma_cmd.c:559-618 | Command n of a run was prepared by one event, which had room for it: it is what the callback that was first in the pending list prepared, in the slot of its number. |
| `Command.ExecutedBy` | drivers/infiniband/hw/ntrdma/ntrdma_cmd.c:1283-1383 | Response n of a run is what the n-th execution answered, with the number of its slot. |
| `Command.CompletesExactly` | drivers/infiniband/hw/ntrdma/ntrdma_cmd.c:517-551 | Handling a response calls the callback of its command if that still waits, takes it off the posted list and puts it last in the pending list if it adds itself; otherwise only the count moves on. |
| `Command.PendingIsAQueue` | drivers/infiniband/hw/ntrdma/ntrdma_cmd.c:461-469 | In every step whoever is added is behind all pending callbacks, the first one prepares its command, and unlinking takes out one and keeps the order. |
| `Command.MismatchIsNoticed` | drivers/infiniband/hw/ntrdma/ntrdma_cmd.c:519-526 | In any state a response that does not carry the number of its slot takes the link down, and nothing else does. |
| `Command.WorkCovers` | drivers/infiniband/hw/ntrdma/ntrdma_cmd.c:499-618 | What one run of the sender's work handles and posts: all there is up to the end of the ring, with room and pending callbacks. |
| `Command.RestIsDone` | drivers/infiniband/hw/ntrdma/ntrdma_cmd.c:485-651 | In every run that comes to rest with all it issued announced, both lists are empty and every command was executed and answered or given up. |
| `Command.ResponseReachesItsCallback` | drivers/infiniband/hw/ntrdma/ntrdma_cmd.c:499-557 | A response goes to the callback that prepared the command of its number and to no other, at most once; it is skipped if and only if that callback was unlinked meanwhile. |
| `Command.SlotMatches` | drivers/infiniband/hw/ntrdma/ntrdma_cmd.c:527-542 | Comparing slots modulo the capacity is enough: the first posted callback has the slot of the response if and only if it is the one that waits for it. |
| `Command.LinkedExactly` | drivers/infiniband/hw/ntrdma/ntrdma_res.c:121-155 | A callback is linked exactly while it is in one of the two lists, in one only, and never runs after it was unlinked or called unless it was added in between. |
| `Command.CmdSender.AddCallback` | drivers/infiniband/hw/ntrdma/ntrdma_cmd.c:461-469 | Adding a callback that is not linked, on the lists of the object, is the specified step. |
| `Command.CmdSender.UnlinkCallback` | drivers/infiniband/hw/ntrdma/ntrdma_res.c:121-137 | Unlinking removes the callback from whichever list holds it and returns whether one did. |
| `Command.CmdSender.CompleteAll` | drivers/infiniband/hw/ntrdma/ntrdma_cmd.c:499-557 | The loop over arrived responses is the specified sequence of completions. |
| `Command.CmdSender.PrepareAll` | drivers/infiniband/hw/ntrdma/ntrdma_cmd.c:559-618 | The loop over free slots posts the pending commands in order and publishes exactly those. |
| `Command.CmdSender.SendWork` | drivers/infiniband/hw/ntrdma/ntrdma_cmd.c:485-651 | The sender's work is completions, then posts. |
| `Vbell.NoLostWakeup` | drivers/infiniband/hw/ntrdma/ntrdma_vbell.c:196-216 | With one interrupt vector, in every interleaving: work published and not consumed has the worker queued or yet to look, or a newer number on its way, as a write, a signal or a scan that will still look at the bell; and when nothing is left to do everything was consumed. |
| `Vbell.MoreVectorsLose` | include/linux/ntc.h:275-280 | With two or more vectors there is a run that ends with nothing left to do and a work item never looked at. |
| `Vbell.OnlyOneVectorIsSafe` | drivers/ntc/ntc_ntb_msi.c:1416-1434 | All work is consumed whenever nothing is left to do, if and only if there is a single vector. |
| `Vbell.SignalsCoalesce` | drivers/ntc/ntc_ntb_msi.c:1416-1434 | A signal that finds the bit of its vector set changes nothing; any other schedules a scan of that vector. |
| `Vbell.LookMisses` | drivers/infiniband/hw/ntrdma/ntrdma_dev.h:404-417 | A look misses news if and only if a multiple of 2^32 rings happened since the last one. |
| `Vbell.Bell.ReaddBell` | drivers/infiniband/hw/ntrdma/ntrdma_dev.h:313-343 | Re-arming on the bell's fields is the specified step, which queues the work at once if the number moved; a deleted bell is left as it is and answers with an error. |
| `Vbell.Bell.TriggerNow` | drivers/infiniband/hw/ntrdma/ntrdma_dev.h:374-400 | A local trigger is the specified step; a disabled bell is left as it is and answers with an error. |
| `Vbell.Bell.FireBell` | drivers/infiniband/hw/ntrdma/ntrdma_dev.h:404-436 | A scan that found a new value is the specified step; a disabled bell stays armed and unqueued while the number moves on, and a disabled head keeps its number. |
| `Mr.Peer.MapFrom` | drivers/infiniband/hw/ntrdma/ntrdma_cmd.c:743-815 | Maps all descriptors from a position on, or leaves the slots as they were: it succeeds if and only if every slot was free and every descriptor can be mapped. |
| `Mr.ReplicateUnaligned` | drivers/infiniband/hw/ntrdma/ntrdma_cmd.c:702-718 | A region of length 0x1000 at address 0x1008 can be registered, and its replication fails, whatever it consists of and whatever the peer has. |
| `Mr.Peer.RecvCreate` | drivers/infiniband/hw/ntrdma/ntrdma_cmd.c:686-815 | Succeeds if and only if counts, length, alignment and access flags pass, memory can be had and every descriptor can be mapped; the whole new state in both cases. |
| `Mr.Peer.RecvAppend` | drivers/infiniband/hw/ntrdma/ntrdma_cmd.c:861-930 | Exact condition of success, and the whole new state in both cases. |
| `Mr.Callback.Cmpl` | drivers/infiniband/hw/ntrdma/ntrdma_mr.c:167-200 | The callback is added again if and only if the chunk succeeded and more is left, with as many of the next descriptors as an append command holds. |
| `Mr.Replicate` | drivers/infiniband/hw/ntrdma/ntrdma_mr.c:99-200 | The chain of create and append commands ends; it succeeds if and only if the region has at most 32 GB and 2^23 descriptors, an address aligned to 16 and known access flags, the peer has memory, and every descriptor is blank or can be mapped. Then the peer has the region's address, length and access, and slot i has descriptor i, or nothing for a blank one. After a failure the peer has what it had, or the descriptors of the chunks that succeeded. |
| `Umem.UmemSgl` | drivers/ntc/ntc.c:81-142 | The bytes of the ranges are, one by one, those of the list from the offset on, up to the length asked for, whether stored or only counted; a range that cannot be mapped ends the split after the ones stored. In every call that stores all, neighbouring ranges are discontiguous if and only if no empty entry makes a detour between contiguous bytes of that part; if it ended early, they are discontiguous if there is no detour. |
| `Umem.FlatAt` | drivers/ntc/ntc.c:81-142 | Byte o of entry j of a list is behind the bytes of the entries before it, at the entry's address plus o. |
| `Umem.DetourExists` | include/linux/ntc.h:1910-1937 | A list with such a detour, which a shorter part of the list does not have. |
| `Mm.ChunkSizeIs` | include/linux/ntc_mm.h:64-84 | The chunk for a size is the least power of two that holds it and a free-list entry; sizes that round up to a gigabyte or more have none. |
| `Mm.Partition` | include/linux/ntc_mm.h:165-336 | In every valid state the live and free chunks are distinct, aligned, disjoint, within bounds, and cover all memory handed out so far. |
| `Mm.Allocator.Init` | include/linux/ntc_mm.h:127-151 | Fails if and only if rounding the start up passes the end or the end cannot be addressed. |
| `Mm.Allocator.Alloc` | include/linux/ntc_mm.h:280-322 | Exact condition of success and the error otherwise; the chunk is the head of its free list or cut from the end, and nothing else changes hands. |
| `Mm.Allocator.Free` | include/linux/ntc_mm.h:324-336 | A live chunk goes back to the head of the list of its own class, so the next request of the class gets it. |
| `Mm.Allocator.Preinit` | include/linux/ntc_mm.h:249-278 | Cuts the chunks it reports, all of the class, and puts them into its free list; it stops early only when memory ends, fails exactly if there is no class or room for none, and leaves live chunks alone. |
| `Address.SegmentValidExactly` | include/linux/ntc.h:709-719 | The segment test accepts exactly the segments within a buffer if and only if the buffer has at most 2^63 bytes. |
| `Address.ProgramExactly` | drivers/ntc/ntc_ntb_msi.c:673-765 | Exactly when a window cannot be programmed, and what it is otherwise: a dead zone before the base asked for and the whole length, or the node's own memory for an aligned base. |
| `Address.RoundTrip` | include/linux/ntc.h:485-514 | The peer locates a buffer if and only if its first byte is within the window; byte i of a located buffer is reached at byte i of the buffer as far as the window goes, and nothing is reached beyond. It holds for flat buffers and for those of regions, which are never flat. |
| `Address.WholeBuffer` | include/linux/ntc.h:1830-1857 | All of a located buffer is reached if and only if it is empty or ends within the window. |
| `Address.StraddlingBuffer` | include/linux/ntc.h:1830-1857 | A buffer that begins at the last byte of the window is located and not reached as a whole. |
| `Address.MappedIsReached` | include/linux/ntc.h:1697-1730 | A buffer that passes the test made when memory is mapped for the peer is located and reached byte by byte, if the peer's window holds the node's. |
| `Address.WindowIs` | drivers/ntc/ntc_ntb_msi.c:673-765 | The window begins a dead zone before the own base if and only if the base granted is consistent with it. |
| `Address.RoundTripNeedsConsistency` | drivers/ntc/ntc_ntb_msi.c:673-765 | That consistency is necessary: the first byte of a located buffer, flat or not, is reached at its own address if and only if it holds. |
| `Address.PartRoundTrip` | include/linux/ntc.h:1528-1588 | A partial descriptor decodes to the offset and length it was made from, if and only if its offset fits; otherwise it is refused. |
| `Address.AcceptedIsMade` | include/linux/ntc.h:1556-1588 | A descriptor accepted as a part is the one made for that part. |
| `Address.ClipComposes` | include/linux/ntc.h:1795-1805 | Clipping a whole buffer's descriptor is making the part's; clipping twice adds up. |
| `Kvec.Kvec.Create` | drivers/infiniband/hw/ntrdma/ntrdma_util.c:116-166 | The error for each refused size; otherwise an empty table. |
| `Kvec.Kvec.NewCopy` | drivers/infiniband/hw/ntrdma/ntrdma_util.c:176-216 | A fresh table with the same keys and elements, or failure exactly for a capacity too large or memory not to be had. |
| `Kvec.Kvec.ReserveKey` | drivers/infiniband/hw/ntrdma/ntrdma_util.c:218-251 | The key handed out is the first one from the last place on that is not held, and not preallocated; the search goes on behind it the next time. All elements stay, the table doubles only when needed, readers of the former table see no change, and it fails exactly as stated. |
| `Kvec.Kvec.DisposeKey` | drivers/infiniband/hw/ntrdma/ntrdma_util.h:134-157 | Only that key is free afterwards, preallocated ones stay, and readers of the former table see no change. |
| `Kvec.Kvec.SetKey` | drivers/infiniband/hw/ntrdma/ntrdma_util.h:159-180 | Only that key's element changes, and readers of the former table see no change. |
| `Cq.PollList.CmplGet` | drivers/infiniband/hw/ntrdma/ntrdma_cq.c:162-201 | The first poller with completions is found if there is one and becomes the last of the list, which is the one put and cqe address. |
| `Cq.ServedInTurn` | drivers/infiniband/hw/ntrdma/ntrdma_cq.c:162-181 | A poller that stays ready is served within as many gets as its place in the list, whatever the others do. |
| `Cq.CyclicOrder` | drivers/infiniband/hw/ntrdma/ntrdma_cq.c:162-181 | After any gets the list is a rotation of what it was. |
| `Cq.ArmsAnswered` | drivers/infiniband/hw/ntrdma/ntrdma_cq.c:81-144 | In every run each arm is answered by one call of the handler, still pending, or dropped because the queue was destroyed before it was cued; a cue is remembered only while nothing is armed. |
| `Cq.CueNotLost` | drivers/infiniband/hw/ntrdma/ntrdma_cq.c:93-144 | In every run of a valid queue: a cue that finds nothing armed, however many follow it, is owed to the next arm, and when it is made, it answers that arm and all that came after. |
| `Cq.RememberedExactly` | drivers/infiniband/hw/ntrdma/ntrdma_cq.c:93-144 | In every run a valid queue remembers a cue if and only if one found nothing armed and no arm has come since. |
| `Cq.CueAnswers` | drivers/infiniband/hw/ntrdma/ntrdma_cq.c:117-144 | After a cue of a valid queue the handler was called once for every arm there was. |
| `Cq.DestroyDrops` | drivers/infiniband/hw/ntrdma/ntrdma_ib.h:205-224 | After any run, destroying leaves nothing armed or remembered: every arm was answered before or is dropped, and the handler is not called. |
| `Cq.SilentOnceInvalid` | drivers/infiniband/hw/ntrdma/ntrdma_ib.h:205-224 | Once the queue is invalid its handler is never called. |
| `Cq.Notifier.DestroyQueue` | drivers/infiniband/hw/ntrdma/ntrdma_ib.h:205-224 | Destroying on the queue's fields is the two specified steps: nothing is armed or remembered afterwards, and what was pending is dropped. |
| `Cq.Notifier.CueAll` | drivers/infiniband/hw/ntrdma/ntrdma_cq.c:117-144 | The cue on the queue's fields is the specified step: one call per pending arm, nothing armed afterwards, and a cue that finds nothing is remembered. |
| `Cq.Notifier.ArmAndCue` | drivers/infiniband/hw/ntrdma/ntrdma_cq.c:93-115 | An arm and the cue it finds due, as specified. |

## Left out

- Receive posting on arrays (`ntrdma_post_recv`): it is a step of QueuePair only, on values; posting sends is modelled on arrays. A posted receive keeps the status its slot had, as in the code, which never writes it there.
- The loop of `ntrdma_cmd_recv_work` on arrays: executing a command is a step of Command, on values; which command does what is not modelled except for memory regions.
- What follows when the link is given up after a DMA request was refused (the work functions say what state they leave), and the flags that decide whether a completion queue is cued. A copy request never answers `-EAGAIN`, which it can only if told not to wait.
- The order between an unsignalled write done at once in posting and entries that wait in the ring.
- Receive completions through abort (`ntrdma_qp_poll_recv_*`): the send side, which has the same structure and more branches, is modelled.
- Resetting and enabling a queue pair again after the link was lost, the connection manager, and the user-space posting and polling through ioctl.
- `ntrdma_zip_sync`, which walks a receive list like `ntrdma_zip_rdma` and hands each piece to the cache.
- The `ready` flag of the command channel and its completion for waiters.
- The list of doorbells that one scan goes through: one bell is modelled, with any number of vectors scanning it; timers and the polling thread for pings are steps that can happen any time.
- Reclaiming memory after readers are done (RCU), reference counts, and the second table for non-resource keys (`ntrdma_vec`).
- The Ethernet device, debugfs, the module's set-up and tear-down, and the hardware parts of `ntc_ntb_msi.c` outside the link, the windows and the doorbells.
- Sender.SendSide.PostSend: a request that is carried out at once counts as posted without an entry; what it transfers is Zip's subject.
- Polling.CompletionSide.PollCq: polls one queue pair; PollQueue.CompletionQueue.PollCq is the loop over several.
- PollQueue.CompletionQueue.PollCq: the pollers are those of send completions; the pollers of receives have the same interface.
- Vbell.NoLostWakeup: assumes fewer than 2^32 rings between two looks, which Vbell.LookMisses shows to be needed.
- Polling.ExactlyOnceInOrder: an abort is cleared only in step, and outside abort no index behind what was polled lands; Polling.ClearExactly and Polling.LandExactly say exactly what happens otherwise.
- Command.LinkedExactly: adding a callback that is linked changes nothing in the model; the code has no test for it and would corrupt its lists.
- Command.CmdSender.AddCallback: the callback is not linked, which the code expects of its callers without a test.
- Hello.InStep: local steps do not fail and no node is reset on its way, and a message left over from an earlier session is neither START nor VER_SENT; Link.AlwaysDisciplined covers those cases for one node.
- Cq.ArmsAnswered: the number of pending arms is unbounded, where the code has an unsigned int.
- Mm.ChunkSizeIs: sizes are not negative; for -15 to -1 the code counts the leading zeros of zero, which is undefined.
- Kvec.Kvec.SetKey: the key is within the table, as the code requires of its callers.
- Address.RoundTrip: offsets are below 2^61, the width of the descriptor's offset field.
- Mr.Replicate: the table of regions is one slot; a region already known under the key is replaced, as in the code.
