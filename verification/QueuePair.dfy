/**
 The queue pair protocol between a sending and a receiving node.

 One direction of a connected pair: the send queue of a queue pair on the
 sending node, its image (the remote queue pair) on the receiving node, the
 receive queue of the queue pair on the receiving node and its image on the
 sending node.  The other direction has its own rings and shares none of these.
 Every lock-protected section is one step; remote writes land in issue order at
 arbitrary later times.
 */
module QueuePair {
  import opened Ring
  import opened RemoteRing
  import opened Work

  /** Why a node gave up: ntrdma_unrecoverable_err, or an error seen while polling. */
  datatype Fault = NoFault | SenderAbort | ReceiverAbort(why: Reason) | PollAbort

  datatype Pair = Pair(
    sq: RemoteRing<SendWqe>,  // send ring: queue pair -> remote queue pair
    rq: RemoteRing<RecvWqe>,  // receive ring: queue pair -> remote queue pair
    cq: RemoteRing<Cqe>,      // send completions: remote queue pair -> queue pair
    posted: seq<SendWqe>,     // send entries posted;      |posted| is send_post
    polled: seq<Cqe>,         // send completions polled;  |polled| is send_cmpl
    rposted: seq<RecvWqe>,    // receives posted;          |rposted| is recv_post
    rtaken: nat,              // receives taken by the sending node (rqp recv_cons)
    rcqe: seq<Cqe>,           // receive completion buffer
    rdone: seq<Cqe>,          // receives completed;       |rdone| is recv_cons
    rpolled: seq<Cqe>,        // receive completions polled; |rpolled| is recv_cmpl
    fault: Fault
  )

  const NoWqe := SendWqe(0, RdmaWrite, Success, 0, 0, 0, false)
  const NoRecv := RecvWqe(0, Recv, Success, 0)

  function Init(scap: nat, rcap: nat): Pair {
    Pair(EmptyRing(scap, NoWqe), EmptyRing(rcap, NoRecv), EmptyRing(scap, ZeroCqe),
         [], [], [], 0, seq(rcap, _ => ZeroCqe), [], [], NoFault)
  }

  const BATCH := 16

  /**
   A request to post.  `fits` is false for too many segments; `filled` is false
   when the entry cannot be filled in or, for a write carried out while posting,
   when the transfer fails.
   */
  datatype Request = Request(handle: nat, op: OpCode, imm: nat, signaled: bool, fits: bool, filled: bool)

  function ToWqe(r: Request): SendWqe {
    SendWqe(r.handle, r.op, Success, U32 - 1, 0, r.imm, r.signaled)
  }

  /** Requests that touch a ring entry at all. */
  predicate Accepted(r: Request) {
    r.fits && Postable(r.op)
  }

  /** Requests that keep their ring entry: unsignalled writes are carried out while posting. */
  predicate Queued(r: Request) {
    Accepted(r) && r.filled && (r.op.RdmaWrite? ==> r.signaled)
  }

  /** How filling in a receive ends: done, too many segments, or no memory for a shadow buffer. */
  datatype Filling = Filled | TooMany | NoMemory

  datatype RecvRequest = RecvRequest(handle: nat, sgCount: nat, filling: Filling)

  /** The status of the entry is not written: it stays what the slot held before. */
  function ToRecvWqe(r: RecvRequest, slot: RecvWqe): RecvWqe {
    RecvWqe(r.handle, Recv, slot.status,
            match r.filling case Filled => r.sgCount case TooMany => slot.sgCount case NoMemory => 0)
  }

  datatype Event =
    | PostSend(req: Request)
    | PostRecv(rreq: RecvRequest)
    | SendWork(move: seq<Transfer>)
    | RecvWork
    | RemoteWork
    | LandSend | LandRecv | LandCqe
    | PollSend
    | PollRecv

  ghost predicate Shape(s: Pair) {
    && Capacity(s.sq.cap) && Capacity(s.rq.cap)
    && s.sq.cap == |s.sq.src| == |s.sq.dst| == s.cq.cap == |s.cq.src| == |s.cq.dst|
    && s.rq.cap == |s.rq.src| == |s.rq.dst| == |s.rcqe|
  }

  // ---------------------------------------------------------------------
  // Steps
  // ---------------------------------------------------------------------

  /** A request that does not keep its entry leaves its traces in a free slot. */
  ghost function DoPostSend(s: Pair, r: Request): Pair
    requires Shape(s)
  {
    if |s.posted| < |s.polled| + s.sq.cap && Accepted(r) then
      s.(sq := Put(s.sq, |s.posted|, ToWqe(r)),
         posted := if Queued(r) then s.posted + [ToWqe(r)] else s.posted)
    else s
  }

  ghost function DoPostRecv(s: Pair, r: RecvRequest): Pair
    requires Shape(s)
  {
    if |s.rposted| < |s.rpolled| + s.rq.cap then
      var e := ToRecvWqe(r, s.rq.src[Slot(|s.rposted|, s.rq.cap)]);
      s.(rq := Put(s.rq, |s.rposted|, e),
         rposted := if r.filling.Filled? then s.rposted + [e] else s.rposted)
    else s
  }

  /** Entries of the send ring that one pass of the sending node covers. */
  ghost function SendBatch(s: Pair): nat
    requires Shape(s)
  {
    if |s.posted| <= |s.sq.log| then 0
    else Min(|s.posted| - |s.sq.log|, Contiguous(|s.sq.log|, s.sq.cap))
  }

  /** Receives the sending node can take from its image of the receive ring. */
  ghost function Available(s: Pair): seq<RecvWqe>
    requires Shape(s)
  {
    Window(s.rq.dst, s.rtaken, if s.rq.word <= s.rtaken then 0 else s.rq.word - s.rtaken)
  }

  ghost function SendPassOf(s: Pair, move: seq<Transfer>, k: nat): SendPass
    requires Shape(s) && k <= SendBatch(s)
  {
    Sends(Window(s.sq.src, |s.sq.log|, SendBatch(s)), Available(s), s.rtaken, s.rq.cap, move, k)
  }

  ghost function AfterSends(s: Pair, p: SendPass): Pair
    requires Shape(s)
  {
    s.(sq := IssueAll(s.sq, p.done), rtaken := s.rtaken + p.taken)
  }

  ghost function DoSendWork(s: Pair, move: seq<Transfer>): Pair
    requires Shape(s)
  {
    if SendBatch(s) == 0 then s else
    var p := SendPassOf(s, move, SendBatch(s));
    if p.v.Abort? then s.(fault := SenderAbort)
    else
      var t := AfterSends(s, p);
      t.(sq := Announce(t.sq))
  }

  /** Posted receives are copied to the peer, both contiguous parts, then announced. */
  ghost function DoRecvWork(s: Pair): Pair
    requires Shape(s)
  {
    if |s.rposted| <= |s.rq.log| then s
    else s.(rq := Announce(IssueAll(s.rq, s.rposted[|s.rq.log|..])))
  }

  ghost function RemoteBatch(s: Pair): nat
    requires Shape(s)
  {
    if s.sq.word <= |s.cq.log| then 0
    else Min(Min(s.sq.word - |s.cq.log|, Contiguous(|s.cq.log|, s.cq.cap)), BATCH)
  }

  ghost function RecvPassOf(s: Pair, k: nat): RecvPass
    requires Shape(s) && k <= RemoteBatch(s)
  {
    var b, n := RemoteBatch(s), |s.cq.log|;
    var a := if |s.rq.log| <= |s.rdone| then 0 else |s.rq.log| - |s.rdone|;
    Receives(Window(s.sq.dst, n, b), Window(s.cq.src, n, b),
             Window(s.rq.src, |s.rdone|, a), Window(s.rcqe, |s.rdone|, a), |s.rdone|, s.rq.cap, k)
  }

  /** The receives number n, ..., n+k-1 are cleaned up in place. */
  ghost function Wiped(buf: seq<RecvWqe>, n: nat, k: nat): (r: seq<RecvWqe>)
    requires |buf| > 0
    ensures |r| == |buf|
  {
    if k == 0 then buf
    else
      var b, i := Wiped(buf, n, k - 1), Slot(n + k - 1, |buf|);
      b[i := Cleaned(b[i])]
  }

  ghost function AfterReceives(s: Pair, p: RecvPass): Pair
    requires Shape(s)
  {
    s.(cq := IssueAll(s.cq, p.cqes),
       rq := s.rq.(src := Wiped(s.rq.src, |s.rdone|, |p.rcqes|)),
       rcqe := Store(s.rcqe, |s.rdone|, p.rcqes),
       rdone := s.rdone + p.rcqes)
  }

  ghost function DoRemoteWork(s: Pair): Pair
    requires Shape(s)
  {
    if RemoteBatch(s) == 0 then s else
    var p := RecvPassOf(s, RemoteBatch(s));
    if !p.why.Fine? then s.(fault := ReceiverAbort(p.why))
    else
      var t := AfterReceives(s, p);
      t.(cq := Announce(t.cq))
  }

  /** Polling takes the completion at send_cmpl; an error completion starts the abort. */
  ghost function DoPollSend(s: Pair): Pair
    requires Shape(s)
  {
    if s.cq.word <= |s.polled| then s else
    var w := s.sq.src[Slot(|s.polled|, s.sq.cap)];
    var c := if w.status.Success? then s.cq.dst[Slot(|s.polled|, s.cq.cap)] else SendFail(w, w.status);
    s.(polled := s.polled + [c], fault := if c.status.Success? then NoFault else PollAbort)
  }

  ghost function DoPollRecv(s: Pair): Pair
    requires Shape(s)
  {
    if |s.rdone| <= |s.rpolled| then s else
    var r := s.rq.src[Slot(|s.rpolled|, s.rq.cap)];
    var prev := s.rcqe[Slot(|s.rpolled|, s.rq.cap)];
    var c := if r.status.Success? then prev else RecvFail(r, r.status, prev);
    s.(rpolled := s.rpolled + [c], fault := if c.status.Success? then NoFault else PollAbort)
  }

  /** A node that gave up takes the connection down: nothing follows a fault. */
  ghost function Step(s: Pair, e: Event): (t: Pair)
    requires Shape(s)
    ensures Shape(t) && t.sq.cap == s.sq.cap && t.rq.cap == s.rq.cap
  {
    if !s.fault.NoFault? then s else
    match e
    case PostSend(r) => DoPostSend(s, r)
    case PostRecv(r) => DoPostRecv(s, r)
    case SendWork(move) => DoSendWork(s, move)
    case RecvWork => DoRecvWork(s)
    case RemoteWork => DoRemoteWork(s)
    case LandSend => s.(sq := Land(s.sq))
    case LandRecv => s.(rq := Land(s.rq))
    case LandCqe => s.(cq := Land(s.cq))
    case PollSend => DoPollSend(s)
    case PollRecv => DoPollRecv(s)
  }

  // ---------------------------------------------------------------------
  // The invariant
  // ---------------------------------------------------------------------

  /** The index chains of both rings. */
  ghost predicate Chain(s: Pair) {
    && |s.polled| <= s.cq.word <= |s.cq.log| <= s.sq.word <= |s.sq.log|
    && |s.sq.log| <= |s.posted| <= |s.polled| + s.sq.cap
    && |s.rpolled| <= |s.rdone| <= s.rtaken <= s.rq.word <= |s.rq.log|
    && |s.rq.log| <= |s.rposted| <= |s.rpolled| + s.rq.cap
  }

  /** States with all indices in order; every reachable state is one. */
  type Bounded = s: Pair | Shape(s) && Chain(s) ghost witness Init(1, 1)

  ghost predicate Rings(s: Pair) {
    && Inv(s.sq, |s.polled|)
    && Inv(s.rq, |s.rdone|)
    && Inv(s.cq, |s.polled|)
  }

  /** Posted entries wait in their slots until they are produced. */
  ghost predicate Waiting<T>(m: RemoteRing<T>, posted: seq<T>) {
    |m.src| > 0 && Holds(m.src, posted, |m.log|, |posted|)
  }

  /** What is produced is what was posted, in the same order. */
  ghost predicate Faithful(posted: seq<SendWqe>, log: seq<SendWqe>) {
    && |log| <= |posted|
    && (forall n :: 0 <= n < |posted| ==> Postable(posted[n].op) && posted[n].status.Success?)
    && (forall n :: 0 <= n < |log| ==> SameRequest(posted[n], log[n]) && Publishable(log[n]))
  }

  /**
   Lockstep: both nodes take receives in the order of the entries that need one.
   Of the log, the receiving node has handled the first n entries; `taken` and
   `done` are the receives taken by the sending and the receiving node.
   */
  ghost predicate Lockstep(log: seq<SendWqe>, n: nat, taken: nat, done: nat, rcap: nat) {
    && rcap > 0 && n <= |log|
    && taken == |Takers(log)|
    && done == |Takers(log[..n])|
    && (forall i :: 0 <= i < |log| ==> Keyed(log, i, 0, rcap))
  }

  ghost predicate SendsCompleted(log: seq<SendWqe>, cqes: seq<Cqe>) {
    && |cqes| <= |log|
    && (forall n :: 0 <= n < |cqes| ==> log[n].status.Success? && cqes[n] == Completion(log[n]))
  }

  ghost predicate RecvsCompleted(log: seq<SendWqe>, rposted: seq<RecvWqe>, rdone: seq<Cqe>) {
    && |rdone| <= |Takers(log)| && |rdone| <= |rposted|
    && (forall m :: 0 <= m < |rdone| ==> rdone[m] == RecvCompletion(rposted[m], Takers(log)[m]))
  }

  /** Completions not yet polled stand in their slots. */
  ghost predicate Unpolled(buf: seq<Cqe>, rdone: seq<Cqe>, lo: nat) {
    && |buf| > 0 && Holds(buf, rdone, lo, |rdone|)
    && NoneSignaled(buf)
  }

  ghost predicate Good(s: Pair) {
    && Shape(s)
    && Rings(s)
    && Chain(s)
    && Waiting(s.sq, s.posted) && Waiting(s.rq, s.rposted)
    && Faithful(s.posted, s.sq.log)
    && s.rq.log <= s.rposted && AllFine(s.rposted) && AllFine(s.rq.src)
    && Lockstep(s.sq.log, |s.cq.log|, s.rtaken, |s.rdone|, s.rq.cap)
    && SendsCompleted(s.sq.log, s.cq.log)
    && RecvsCompleted(s.sq.log, s.rposted, s.rdone)
    && s.polled <= s.cq.log && s.rpolled <= s.rdone
    && Unpolled(s.rcqe, s.rdone, |s.rpolled|)
  }

  // ---------------------------------------------------------------------
  // Every step keeps the invariant
  // ---------------------------------------------------------------------

  lemma InitGood(scap: nat, rcap: nat)
    requires Capacity(scap) && Capacity(rcap)
    ensures Good(Init(scap, rcap))
  {
  }

  lemma LandSendGood(s: Pair)
    requires Good(s)
    ensures Good(s.(sq := Land(s.sq)))
  {
    LandInv(s.sq, |s.polled|);
  }

  lemma LandRecvGood(s: Pair)
    requires Good(s)
    ensures Good(s.(rq := Land(s.rq)))
  {
    LandInv(s.rq, |s.rdone|);
  }

  lemma LandCqeGood(s: Pair)
    requires Good(s)
    ensures Good(s.(cq := Land(s.cq)))
  {
    LandInv(s.cq, |s.polled|);
  }

  /** An entry appended to a log is in its slot; the ones before it stay. */
  lemma PostKeeps<T>(buf: seq<T>, log: seq<T>, lo: nat, e: T)
    requires |buf| > 0 && lo <= |log| < lo + |buf| && Holds(buf, log, lo, |log|)
    ensures Holds(buf[Slot(|log|, |buf|) := e], log + [e], lo, |log| + 1)
  {
    hide Slot;
    StoreKeeps(buf, log, lo, |log|, |log|, e);
    var b, l := buf[Slot(|log|, |buf|) := e], log + [e];
    forall n | lo <= n < |log| + 1 ensures b[Slot(n, |buf|)] == l[n] {
      assert n < |log| ==> b[Slot(n, |buf|)] == log[n];
    }
  }

  /** The slot behind the posted entries can be filled in, whether it is then posted or not. */
  lemma ScratchKeeps<T>(m: RemoteRing<T>, posted: seq<T>, e: T)
    requires Waiting(m, posted) && |m.log| <= |posted| < |m.log| + |m.src| && m.cap == |m.src|
    ensures Waiting(Put(m, |posted|, e), posted) && Waiting(Put(m, |posted|, e), posted + [e])
  {
    StoreKeeps(m.src, posted, |m.log|, |posted|, |posted|, e);
    PostKeeps(m.src, posted, |m.log|, e);
  }

  lemma PostSendGood(s: Pair, r: Request)
    requires Good(s)
    ensures Good(DoPostSend(s, r))
  {
    if |s.posted| < |s.polled| + s.sq.cap && Accepted(r) {
      var e := ToWqe(r);
      hide Inv, Waiting, Lockstep, SendsCompleted, RecvsCompleted, Unpolled, AllFine;
      PutInv(s.sq, |s.polled|, |s.posted|, e);
      ScratchKeeps(s.sq, s.posted, e);
    }
  }

  lemma FinePut(m: RemoteRing<RecvWqe>, posted: seq<RecvWqe>, n: nat, e: RecvWqe)
    requires 0 < m.cap == |m.src| && AllFine(m.src) && AllFine(posted) && e.status == m.src[Slot(n, m.cap)].status
    ensures AllFine(Put(m, n, e).src) && AllFine(posted + [e])
  {
  }

  lemma RecvsAppend(log: seq<SendWqe>, posted: seq<RecvWqe>, rdone: seq<Cqe>, e: RecvWqe)
    requires RecvsCompleted(log, posted, rdone)
    ensures RecvsCompleted(log, posted + [e], rdone)
  {
  }

  lemma PostRecvGood(s: Pair, r: RecvRequest)
    requires Good(s)
    ensures Good(DoPostRecv(s, r))
  {
    if |s.rposted| < |s.rpolled| + s.rq.cap {
      var e := ToRecvWqe(r, s.rq.src[Slot(|s.rposted|, s.rq.cap)]);
      hide Inv, Waiting, Lockstep, SendsCompleted, RecvsCompleted, Unpolled, Faithful, AllFine;
      FinePut(s.rq, s.rposted, |s.rposted|, e);
      RecvsAppend(s.sq.log, s.rposted, s.rdone, e);
      PutInv(s.rq, |s.rdone|, |s.rposted|, e);
      ScratchKeeps(s.rq, s.rposted, e);
    }
  }

  lemma PollSendGood(s: Pair)
    requires Good(s)
    ensures Good(DoPollSend(s))
  {
    if |s.polled| < s.cq.word {
      assert s.sq.src[Slot(|s.polled|, s.sq.cap)] == s.sq.log[|s.polled|];
      assert s.cq.dst[Slot(|s.polled|, s.cq.cap)] == s.cq.log[|s.polled|];
    }
  }

  lemma PollRecvGood(s: Pair)
    requires Good(s)
    ensures Good(DoPollRecv(s))
  {
    if |s.rpolled| < |s.rdone| {
      assert s.rcqe[Slot(|s.rpolled|, s.rq.cap)] == s.rdone[|s.rpolled|];
    }
  }

  lemma RecvIssued(m: RemoteRing<RecvWqe>, all: seq<RecvWqe>, lo: nat)
    requires Inv(m, lo) && m.log <= all && |all| <= lo + m.cap && Holds(m.src, all, |m.log|, |all|)
    ensures var r := Announce(IssueAll(m, all[|m.log|..]));
            Inv(r, lo) && r.log == all && r.src == m.src && r.cap == m.cap && r.word == m.word
  {
    hide Holds, IssueAll;
    assert 0 < m.cap == |m.src|;
    hide Inv;
    var es := all[|m.log|..];
    IssueAllSame(m, all, |es|);
    assert es == all[|m.log|..|m.log| + |es|];
    assert m.log + es == all;
    IssueAllInv(m, lo, es);
    AnnounceInv(IssueAll(m, es), lo);
  }

  lemma RecvWorkGood(s: Pair)
    requires Good(s)
    ensures Good(DoRecvWork(s))
  {
    if |s.rq.log| < |s.rposted| {
      RecvIssued(s.rq, s.rposted, |s.rdone|);
    }
  }

  // --- the sending node's pass

  lemma SendPassProduces(s: Pair, move: seq<Transfer>)
    requires Shape(s) && Chain(s) && Waiting(s.sq, s.posted) && Faithful(s.posted, s.sq.log)
    requires Available(s) == s.rposted[s.rtaken..s.rq.word] && AllFine(s.rposted)
    ensures var p := SendPassOf(s, move, SendBatch(s));
            !p.v.Abort? ==>
              && |p.done| <= SendBatch(s) && p.taken <= s.rq.word - s.rtaken
              && Work.Produced(s.posted[|s.sq.log|..|s.sq.log| + SendBatch(s)], s.rtaken, s.rq.cap, p)
  {
    var n, b := |s.sq.log|, SendBatch(s);
    var ws := Window(s.sq.src, n, b);
    forall i | 0 <= i < b ensures ws[i] == s.posted[n + i] {
    }
    assert ws == s.posted[n..n + b];
    SendsProduces(ws, Available(s), s.rtaken, s.rq.cap, move, b);
  }

  lemma FaithfulAppend(posted: seq<SendWqe>, log: seq<SendWqe>, b: nat, next: nat, rcap: nat, p: SendPass)
    requires Faithful(posted, log) && |log| + b <= |posted| && rcap > 0
    requires Work.Produced(posted[|log|..|log| + b], next, rcap, p)
    ensures Faithful(posted, log + p.done)
  {
    var ws := posted[|log|..|log| + b];
    forall n | |log| <= n < |log| + |p.done|
      ensures SameRequest(posted[n], (log + p.done)[n]) && Publishable((log + p.done)[n])
    {
      assert ws[n - |log|] == posted[n] && (log + p.done)[n] == p.done[n - |log|];
    }
  }

  /** A run appended to a keyed log is keyed if it counts on from the log's takers. */
  lemma KeyedAppend(log: seq<SendWqe>, done: seq<SendWqe>, rcap: nat)
    requires rcap > 0
    requires forall n :: 0 <= n < |log| ==> Keyed(log, n, 0, rcap)
    requires forall i :: 0 <= i < |done| ==> Keyed(done, i, |Takers(log)|, rcap)
    ensures forall n :: 0 <= n < |log + done| ==> Keyed(log + done, n, 0, rcap)
  {
    forall n | 0 <= n < |log + done| ensures Keyed(log + done, n, 0, rcap) {
      if n < |log| {
        assert Keyed(log, n, 0, rcap);
        assert (log + done)[..n] == log[..n];
      } else {
        assert Keyed(done, n - |log|, |Takers(log)|, rcap);
        assert (log + done)[..n] == log + done[..n - |log|];
        TakersSplit(log, done[..n - |log|]);
      }
    }
  }

  lemma LockstepAppend(log: seq<SendWqe>, n: nat, taken: nat, done: nat, rcap: nat, ws: seq<SendWqe>, p: SendPass)
    requires Lockstep(log, n, taken, done, rcap) && Work.Produced(ws, taken, rcap, p)
    ensures Lockstep(log + p.done, n, taken + p.taken, done, rcap)
  {
    TakersSplit(log, p.done);
    KeyedAppend(log, p.done, rcap);
    assert (log + p.done)[..n] == log[..n];
  }

  lemma SendRing(s: Pair, es: seq<SendWqe>)
    requires Inv(s.sq, |s.polled|) && Waiting(s.sq, s.posted)
    requires |s.sq.log| + |es| <= |s.posted| <= |s.polled| + s.sq.cap && |s.polled| <= |s.sq.log|
    ensures Inv(Announce(IssueAll(s.sq, es)), |s.polled|)
    ensures Waiting(Announce(IssueAll(s.sq, es)), s.posted)
  {
    IssueAllInv(s.sq, |s.polled|, es);
    AnnounceInv(IssueAll(s.sq, es), |s.polled|);
    IssueAllKeeps(s.sq, s.posted, es);
  }

  lemma CompletedAppend(log: seq<SendWqe>, cqes: seq<Cqe>, rposted: seq<RecvWqe>, rdone: seq<Cqe>, es: seq<SendWqe>)
    requires SendsCompleted(log, cqes) && RecvsCompleted(log, rposted, rdone)
    ensures SendsCompleted(log + es, cqes) && RecvsCompleted(log + es, rposted, rdone)
  {
    TakersSplit(log, es);
  }

  lemma ProducedGood(s: Pair, p: SendPass)
    requires Good(s) && |s.sq.log| + |p.done| <= |s.posted| && s.rtaken + p.taken <= s.rq.word
    requires Faithful(s.posted, s.sq.log + p.done)
    requires Lockstep(s.sq.log + p.done, |s.cq.log|, s.rtaken + p.taken, |s.rdone|, s.rq.cap)
    ensures var t := AfterSends(s, p); Good(t.(sq := Announce(t.sq)))
  {
    hide Inv, Waiting, Faithful, Lockstep, SendsCompleted, RecvsCompleted, Unpolled, AllFine;
    CompletedAppend(s.sq.log, s.cq.log, s.rposted, s.rdone, p.done);
    SendRing(s, p.done);
  }

  lemma SendWorkGood(s: Pair, move: seq<Transfer>)
    requires Good(s)
    ensures Good(DoSendWork(s, move))
  {
    var p := SendPassOf(s, move, SendBatch(s));
    if SendBatch(s) != 0 && !p.v.Abort? {
      hide Inv, Waiting, Faithful, Lockstep, SendsCompleted, RecvsCompleted, Unpolled, AllFine, Produced;
      SendPassReady(s);
      SendPassProduces(s, move);
      FaithfulAppend(s.posted, s.sq.log, SendBatch(s), s.rtaken, s.rq.cap, p);
      LockstepAppend(s.sq.log, |s.cq.log|, s.rtaken, |s.rdone|, s.rq.cap,
                     s.posted[|s.sq.log|..|s.sq.log| + SendBatch(s)], p);
      ProducedGood(s, p);
    }
  }

  lemma SendPassReady(s: Pair)
    requires Shape(s) && Chain(s) && Inv(s.rq, |s.rdone|) && s.rq.log <= s.rposted
    ensures Available(s) == s.rposted[s.rtaken..s.rq.word]
  {
    PeerReads(s.rq, |s.rdone|, s.rtaken, s.rq.word - s.rtaken);
    assert s.rq.log[s.rtaken..s.rq.word] == s.rposted[s.rtaken..s.rq.word];
  }

  // --- the receiving node's pass

  /** Receives behind the cleaned ones stay in their slots. */
  lemma {:induction false} WipedKeeps(buf: seq<RecvWqe>, all: seq<RecvWqe>, n: nat, k: nat, lo: nat, hi: nat)
    requires |buf| > 0 && n <= lo <= hi <= |all| && hi <= n + |buf|
    requires Holds(buf, all, lo, hi)
    ensures Holds(Wiped(buf, n, k), all, if n + k <= lo then lo else n + k, hi)
  {
    if k > 0 {
      WipedKeeps(buf, all, n, k - 1, lo, hi);
      var c := Wiped(buf, n, k - 1);
      forall j | lo <= j < hi && n + k <= j ensures Wiped(buf, n, k)[Slot(j, |buf|)] == all[j] {
        SlotInjective(n + k - 1, j, |buf|);
        assert c[Slot(j, |buf|)] == all[j];
      }
    }
  }

  lemma {:induction false} WipedStatus(buf: seq<RecvWqe>, n: nat, k: nat)
    requires |buf| > 0 && AllFine(buf)
    ensures AllFine(Wiped(buf, n, k))
  {
    if k > 0 {
      WipedStatus(buf, n, k - 1);
    }
  }

  lemma WipedRing(m: RemoteRing<RecvWqe>, lo: nat, k: nat, posted: seq<RecvWqe>)
    requires Inv(m, lo) && lo + k <= m.word && Waiting(m, posted) && |m.log| <= |posted| <= lo + m.cap
    ensures var w := m.(src := Wiped(m.src, lo, k)); Inv(w, lo + k) && Waiting(w, posted)
  {
    WipedKeeps(m.src, m.log, lo, k, lo, |m.log|);
    WipedKeeps(m.src, posted, lo, k, |m.log|, |posted|);
  }

  /** Completions stored behind the ones not yet polled leave those in place. */
  lemma {:induction false} StoreHolds(buf: seq<Cqe>, log: seq<Cqe>, lo: nat, es: seq<Cqe>)
    requires |buf| > 0 && lo <= |log| && |log| + |es| <= lo + |buf|
    requires Holds(buf, log, lo, |log|)
    ensures Holds(Store(buf, |log|, es), log + es, lo, |log| + |es|)
  {
    if es == [] {
      assert log + es == log;
    } else {
      var n := |es| - 1;
      StoreHolds(buf, log, lo, es[..n]);
      PostKeeps(Store(buf, |log|, es[..n]), log + es[..n], lo, es[n]);
      assert log + es == (log + es[..n]) + [es[n]];
    }
  }

  lemma {:induction false} StoreFlags(buf: seq<Cqe>, n: nat, es: seq<Cqe>)
    requires |buf| > 0 && NoneSignaled(buf) && NoneSignaled(es)
    ensures NoneSignaled(Store(buf, n, es))
  {
    if es != [] {
      StoreFlags(buf, n, es[..|es| - 1]);
    }
  }

  lemma UnpolledStore(buf: seq<Cqe>, rdone: seq<Cqe>, lo: nat, es: seq<Cqe>)
    requires Unpolled(buf, rdone, lo) && lo <= |rdone| && |rdone| + |es| <= lo + |buf|
    requires NoneSignaled(es)
    ensures Unpolled(Store(buf, |rdone|, es), rdone + es, lo)
  {
    StoreHolds(buf, rdone, lo, es);
    StoreFlags(buf, |rdone|, es);
  }

  /** What a pass adds: completions of entries n, n+1, ... and of receives r, r+1, ... */
  ghost predicate Effect(log: seq<SendWqe>, n: nat, posted: seq<RecvWqe>, r: nat, p: RecvPass) {
    && n + |p.cqes| <= |log|
    && (forall i :: 0 <= i < |p.cqes| ==>
          log[n + i].status.Success? && p.cqes[i] == Completion(log[n + i]))
    && r + |p.rcqes| == |Takers(log[..n + |p.cqes|])| <= |Takers(log)|
    && r + |p.rcqes| <= |posted|
    && (forall j :: 0 <= j < |p.rcqes| ==>
          p.rcqes[j] == RecvCompletion(posted[r + j], Takers(log)[r + j]))
  }

  lemma TakersSlice(log: seq<SendWqe>, n: nat, b: nat)
    requires n + b <= |log|
    ensures Takers(log[..n + b]) == Takers(log[..n]) + Takers(log[n..n + b])
    ensures Takers(log[..n]) + Takers(log[n..n + b]) <= Takers(log)
  {
    hide Takers;
    SliceJoin(log, n, b);
    TakersSplit(log[..n], log[n..n + b]);
    TakersPrefix(log, n + b);
  }

  lemma SliceJoin<T>(s: seq<T>, n: nat, b: nat)
    requires n + b <= |s|
    ensures s[..n + b] == s[..n] + s[n..n + b]
  {
  }

  lemma DoneEffect(log: seq<SendWqe>, n: nat, b: nat, posted: seq<RecvWqe>, r: nat, avail: seq<RecvWqe>, p: RecvPass)
    requires n + b <= |log| && Done(log[n..n + b], avail, p, b)
    requires r == |Takers(log[..n])| && r + |avail| <= |posted| && avail == posted[r..r + |avail|]
    ensures Effect(log, n, posted, r, p) && |p.cqes| == b
  {
    var ws := log[n..n + b];
    assert ws[..b] == ws;
    DoneSends(log, n, b, avail, p);
    DoneRecvs(log, n, b, posted, r, avail, p);
    hide Takers, Done;
  }

  /** The send half of a pass. */
  lemma DoneSends(log: seq<SendWqe>, n: nat, b: nat, avail: seq<RecvWqe>, p: RecvPass)
    requires n + b <= |log| && Done(log[n..n + b], avail, p, b)
    ensures |p.cqes| == b
    ensures forall i :: 0 <= i < b ==> log[n + i].status.Success? && p.cqes[i] == Completion(log[n + i])
  {
    hide Takers, Completion;
    var ws := log[n..n + b];
    forall i | 0 <= i < b ensures log[n + i].status.Success? && p.cqes[i] == Completion(log[n + i]) {
      assert ws[i] == log[n + i];
    }
  }

  /** Its receive half. */
  lemma DoneRecvs(log: seq<SendWqe>, n: nat, b: nat, posted: seq<RecvWqe>, r: nat, avail: seq<RecvWqe>, p: RecvPass)
    requires n + b <= |log| && Done(log[n..n + b], avail, p, b)
    requires r == |Takers(log[..n])| && r + |avail| <= |posted| && avail == posted[r..r + |avail|]
    ensures r + |p.rcqes| == |Takers(log[..n + b])| <= |Takers(log)| && r + |p.rcqes| <= |posted|
    ensures forall j :: 0 <= j < |p.rcqes| ==> p.rcqes[j] == RecvCompletion(posted[r + j], Takers(log)[r + j])
  {
    hide Takers, Completion, RecvCompletion;
    var ws := log[n..n + b];
    assert ws[..b] == ws;
    TakersSlice(log, n, b);
    forall j | 0 <= j < |p.rcqes| ensures p.rcqes[j] == RecvCompletion(posted[r + j], Takers(log)[r + j]) {
      assert p.rcqes[j] == RecvCompletion(avail[j], Takers(ws)[j]);
      assert (Takers(log[..n]) + Takers(ws))[r + j] == Takers(ws)[j];
    }
  }

  /** Counted from the receives completed so far, the next entries name the right receives. */
  lemma SoundSlice(posted: seq<SendWqe>, log: seq<SendWqe>, n: nat, b: nat, rcap: nat)
    requires rcap > 0 && n + b <= |log| && Faithful(posted, log)
    requires forall i :: 0 <= i < |log| ==> Keyed(log, i, 0, rcap)
    ensures Sound(log[n..n + b], |Takers(log[..n])|, rcap)
  {
    var ws := log[n..n + b];
    forall i | 0 <= i < b
      ensures && Publishable(ws[i]) && Keyed(ws, i, |Takers(log[..n])|, rcap)
              && (PushData(ws[i].op) || PullData(ws[i].op))
    {
      assert ws[i] == log[n + i] && SameRequest(posted[n + i], log[n + i]);
      assert Keyed(log, n + i, 0, rcap);
      assert log[..n + i] == log[..n] + ws[..i];
      TakersSplit(log[..n], ws[..i]);
    }
  }

  /** The receives a pass can take: from the first one not completed. */
  ghost function RecvWindow(s: Pair): seq<RecvWqe>
    requires Shape(s) && |s.rdone| <= |s.rq.log|
  {
    Window(s.rq.src, |s.rdone|, |s.rq.log| - |s.rdone|)
  }

  /** The entries a pass handles. */
  ghost function Batch(s: Pair): seq<SendWqe>
    requires Shape(s) && |s.cq.log| + RemoteBatch(s) <= |s.sq.log|
  {
    s.sq.log[|s.cq.log|..|s.cq.log| + RemoteBatch(s)]
  }

  /** What a pass of the receiving node finds. */
  ghost predicate SendsReady(s: Pair) {
    && Shape(s) && |s.cq.log| + RemoteBatch(s) <= s.sq.word <= |s.sq.log|
    && Window(s.sq.dst, |s.cq.log|, RemoteBatch(s)) == Batch(s)
    && |s.rdone| == |Takers(s.sq.log[..|s.cq.log|])|
    && Sound(Batch(s), |s.rdone|, s.rq.cap)
  }

  ghost predicate RecvsReady(s: Pair) {
    && Shape(s) && |s.rdone| <= |s.rq.log| <= |s.rposted|
    && RecvWindow(s) == s.rposted[|s.rdone|..|s.rq.log|]
  }

  lemma WordBelow<T>(m: RemoteRing<T>, lo: nat)
    requires Inv(m, lo)
    ensures m.word <= |m.log|
  {
  }

  lemma LogSound(s: Pair)
    requires Shape(s) && Faithful(s.posted, s.sq.log) && |s.cq.log| + RemoteBatch(s) <= |s.sq.log|
    requires Lockstep(s.sq.log, |s.cq.log|, s.rtaken, |s.rdone|, s.rq.cap)
    ensures Sound(Batch(s), |s.rdone|, s.rq.cap)
  {
    hide Sound, Keyed, Faithful, Takers, RemoteBatch;
    SoundSlice(s.posted, s.sq.log, |s.cq.log|, RemoteBatch(s), s.rq.cap);
  }

  lemma RemoteSendsReady(s: Pair)
    requires Shape(s) && Inv(s.sq, |s.polled|) && Chain(s) && Faithful(s.posted, s.sq.log)
    requires Lockstep(s.sq.log, |s.cq.log|, s.rtaken, |s.rdone|, s.rq.cap)
    ensures SendsReady(s) && |s.rdone| + |Takers(Batch(s))| <= s.rtaken
  {
    hide Inv, Sound, Keyed, Faithful, Takers, Window, Contiguous;
    var n, b := |s.cq.log|, RemoteBatch(s);
    assert n + b <= s.sq.word <= |s.sq.log| by { WordBelow(s.sq, |s.polled|); }
    LogSound(s);
    TakersSlice(s.sq.log, n, b);
    PeerReads(s.sq, |s.polled|, n, b);
  }

  lemma RemoteRecvsReady(s: Pair)
    requires Shape(s) && Inv(s.rq, |s.rdone|) && Chain(s) && s.rq.log <= s.rposted
    ensures RecvsReady(s)
  {
    hide Inv;
    OwnerReads(s.rq, |s.rdone|, |s.rdone|, |s.rq.log| - |s.rdone|);
    assert s.rq.log[|s.rdone|..|s.rq.log|] == s.rposted[|s.rdone|..|s.rq.log|];
  }

  /**
   The receiving node never meets a key that names another receive, a send
   without a receive, or a receive with an error.
   */
  lemma WindowsFine(recvs: seq<RecvWqe>, cqes: seq<Cqe>, n: nat, k: nat)
    requires recvs != [] && cqes != [] && AllFine(recvs) && NoneSignaled(cqes)
    ensures AllFine(Window(recvs, n, k)) && NoneSignaled(Window(cqes, n, k))
  {
  }

  lemma RemotePassOk(s: Pair)
    requires SendsReady(s) && RecvsReady(s) && |Takers(Batch(s))| <= |s.rq.log| - |s.rdone|
    requires AllFine(s.rq.src) && NoneSignaled(s.rcqe)
    ensures var p := RecvPassOf(s, RemoteBatch(s));
            && (p.why.Fine? || p.why.BadStatus?)
            && (p.why.Fine? ==>
                  |s.cq.log| + |p.cqes| <= s.sq.word && Effect(s.sq.log, |s.cq.log|, s.rposted, |s.rdone|, p))
  {
    hide AllFine, NoneSignaled, Sound, Effect, Done, Takers, Receives, Window, Contiguous;
    var n, b, r, a := |s.cq.log|, RemoteBatch(s), |s.rdone|, |s.rq.log| - |s.rdone|;
    var p := RecvPassOf(s, b);
    WindowsFine(s.rq.src, s.rcqe, r, a);
    ReceivesCompletes(Batch(s), Window(s.cq.src, n, b), RecvWindow(s), Window(s.rcqe, r, a), r, s.rq.cap, b);
    if p.why.Fine? {
      DoneEffect(s.sq.log, n, b, s.rposted, r, RecvWindow(s), p);
    }
  }

  lemma EffectSends(log: seq<SendWqe>, cqes: seq<Cqe>, posted: seq<RecvWqe>, r: nat, p: RecvPass)
    requires SendsCompleted(log, cqes) && Effect(log, |cqes|, posted, r, p)
    ensures SendsCompleted(log, cqes + p.cqes)
  {
    var n, all := |cqes|, cqes + p.cqes;
    forall i | n <= i < |all| ensures log[i].status.Success? && all[i] == Completion(log[i]) {
      assert all[i] == p.cqes[i - n] && log[n + (i - n)] == log[i];
    }
  }

  lemma EffectRecvs(log: seq<SendWqe>, n: nat, posted: seq<RecvWqe>, rdone: seq<Cqe>, p: RecvPass)
    requires RecvsCompleted(log, posted, rdone) && Effect(log, n, posted, |rdone|, p)
    ensures RecvsCompleted(log, posted, rdone + p.rcqes)
    ensures NoneSignaled(p.rcqes)
  {
    var r, all := |rdone|, rdone + p.rcqes;
    forall m | r <= m < |all| ensures all[m] == RecvCompletion(posted[m], Takers(log)[m]) {
      assert all[m] == p.rcqes[m - r] && posted[r + (m - r)] == posted[m];
    }
    forall j | 0 <= j < |p.rcqes| ensures !p.rcqes[j].signaled {
      assert p.rcqes[j] == RecvCompletion(posted[r + j], Takers(log)[r + j]);
    }
  }

  lemma EffectLockstep(log: seq<SendWqe>, n: nat, taken: nat, done: nat, rcap: nat, posted: seq<RecvWqe>, p: RecvPass)
    requires Lockstep(log, n, taken, done, rcap) && Effect(log, n, posted, done, p)
    ensures Lockstep(log, n + |p.cqes|, taken, done + |p.rcqes|, rcap)
    ensures done + |p.rcqes| <= taken && done + |p.rcqes| <= |posted|
  {
  }

  lemma EffectGood(s: Pair, p: RecvPass)
    requires Good(s) && |s.cq.log| + |p.cqes| <= s.sq.word
    requires Effect(s.sq.log, |s.cq.log|, s.rposted, |s.rdone|, p)
    ensures var t := AfterReceives(s, p); Good(t.(cq := Announce(t.cq)))
  {
    hide Inv, Waiting, Faithful, Lockstep, SendsCompleted, RecvsCompleted, Effect, Unpolled, AllFine;
    EffectLockstep(s.sq.log, |s.cq.log|, s.rtaken, |s.rdone|, s.rq.cap, s.rposted, p);
    EffectSends(s.sq.log, s.cq.log, s.rposted, |s.rdone|, p);
    EffectRecvs(s.sq.log, |s.cq.log|, s.rposted, s.rdone, p);
    UnpolledStore(s.rcqe, s.rdone, |s.rpolled|, p.rcqes);
    WipedStatus(s.rq.src, |s.rdone|, |p.rcqes|);
    WipedRing(s.rq, |s.rdone|, |p.rcqes|, s.rposted);
    CompletionRing(s.cq, |s.polled|, p.cqes);
  }

  lemma CompletionRing(m: RemoteRing<Cqe>, lo: nat, es: seq<Cqe>)
    requires Inv(m, lo) && |m.log| + |es| <= lo + m.cap
    ensures Inv(Announce(IssueAll(m, es)), lo)
  {
    IssueAllInv(m, lo, es);
    AnnounceInv(IssueAll(m, es), lo);
  }

  lemma RemoteGood(s: Pair)
    requires Good(s)
    ensures var p := RecvPassOf(s, RemoteBatch(s));
            && (p.why.Fine? || p.why.BadStatus?)
            && (p.why.Fine? ==>
                  |s.cq.log| + |p.cqes| <= s.sq.word && Effect(s.sq.log, |s.cq.log|, s.rposted, |s.rdone|, p))
  {
    hide Inv, Waiting, Faithful, Lockstep, SendsCompleted, RecvsCompleted, AllFine, Effect, Sound, Takers,
      SendsReady, RecvsReady;
    RemoteSendsReady(s);
    RemoteRecvsReady(s);
    RemotePassOk(s);
  }

  lemma RemoteWorkGood(s: Pair)
    requires Good(s)
    ensures Good(DoRemoteWork(s))
    ensures DoRemoteWork(s).fault == s.fault || DoRemoteWork(s).fault == ReceiverAbort(BadStatus)
  {
    RemoteGood(s);
    hide Good, Effect;
    var p := RecvPassOf(s, RemoteBatch(s));
    if RemoteBatch(s) != 0 && p.why.Fine? {
      EffectGood(s, p);
    }
  }

  // ---------------------------------------------------------------------
  // Every run of a fresh connection
  // ---------------------------------------------------------------------

  ghost function Run(scap: nat, rcap: nat, es: seq<Event>): (s: Pair)
    requires Capacity(scap) && Capacity(rcap)
    ensures Shape(s) && s.sq.cap == scap && s.rq.cap == rcap
  {
    if es == [] then Init(scap, rcap)
    else Step(Run(scap, rcap, es[..|es| - 1]), es[|es| - 1])
  }

  lemma StepGood(s: Pair, e: Event)
    requires Good(s)
    ensures Good(Step(s, e))
    ensures Step(s, e).fault.ReceiverAbort? ==> Step(s, e).fault == s.fault || Step(s, e).fault.why.BadStatus?
  {
    hide Good;
    if s.fault.NoFault? {
      match e
      case PostSend(r) => PostSendGood(s, r);
      case PostRecv(r) => PostRecvGood(s, r);
      case SendWork(move) => SendWorkGood(s, move);
      case RecvWork => RecvWorkGood(s);
      case RemoteWork => RemoteWorkGood(s);
      case LandSend => LandSendGood(s);
      case LandRecv => LandRecvGood(s);
      case LandCqe => LandCqeGood(s);
      case PollSend => PollSendGood(s);
      case PollRecv => PollRecvGood(s);
    }
  }

  lemma {:induction false} RunGood(scap: nat, rcap: nat, es: seq<Event>)
    requires Capacity(scap) && Capacity(rcap)
    ensures Good(Run(scap, rcap, es))
    ensures Run(scap, rcap, es).fault.ReceiverAbort? ==> Run(scap, rcap, es).fault.why.BadStatus?
  {
    if es == [] {
      InitGood(scap, rcap);
    } else {
      RunGood(scap, rcap, es[..|es| - 1]);
      StepGood(Run(scap, rcap, es[..|es| - 1]), es[|es| - 1]);
    }
  }

  /**
   Lockstep across the peers.  In every run the receiving node never finds a
   receive key that names another receive, a send without a receive, or a
   receive in error; both nodes have taken exactly one receive per entry that
   needs one, and such an entry names the receive of its own number.
   */
  lemma {:induction false} LockstepAcrossPeers(scap: nat, rcap: nat, es: seq<Event>, n: nat)
    requires Capacity(scap) && Capacity(rcap)
    ensures var s := Run(scap, rcap, es);
            && s.fault !in {ReceiverAbort(KeyMismatch), ReceiverAbort(NoReceive),
                            ReceiverAbort(RecvStatus), ReceiverAbort(StatusNoRecv)}
            && |s.cq.log| <= |s.sq.log|
            && s.rtaken == |Takers(s.sq.log)|
            && |s.rdone| == |Takers(s.sq.log[..|s.cq.log|])|
            && (n < |s.sq.log| && IsSend(s.sq.log[n].op) ==>
                  && s.sq.log[n].recvKey == |Takers(s.sq.log[..n])| % (2 * rcap)
                  && |Takers(s.sq.log[..n])| < |s.rposted|)
  {
    RunGood(scap, rcap, es);
    var s := Run(scap, rcap, es);
    if n < |s.sq.log| && IsSend(s.sq.log[n].op) {
      assert Keyed(s.sq.log, n, 0, rcap);
      IndexIsRemainder(|Takers(s.sq.log[..n])|, rcap);
      TakerAt(s.sq.log, n);
    }
  }

  /** The index chains of both rings hold in every run. */
  lemma {:induction false} IndexChains(scap: nat, rcap: nat, es: seq<Event>)
    requires Capacity(scap) && Capacity(rcap)
    ensures Chain(Run(scap, rcap, es))
  {
    RunGood(scap, rcap, es);
  }

  ghost predicate ExactReads(s: Pair)
    requires Shape(s)
  {
    && Chain(s)
    && Window(s.sq.dst, |s.cq.log|, s.sq.word - |s.cq.log|) == s.sq.log[|s.cq.log|..s.sq.word]
    && Available(s) == s.rposted[s.rtaken..s.rq.word]
    && Window(s.cq.dst, |s.polled|, s.cq.word - |s.polled|) == s.cq.log[|s.polled|..s.cq.word]
  }

  lemma GoodReads(s: Pair)
    requires Shape(s) && Rings(s) && Chain(s) && s.rq.log <= s.rposted
    ensures ExactReads(s)
  {
    PeerReads(s.sq, |s.polled|, |s.cq.log|, s.sq.word - |s.cq.log|);
    PeerReads(s.cq, |s.polled|, |s.polled|, s.cq.word - |s.polled|);
    SendPassReady(s);
  }

  /**
   Every entry either side reads is the one issued under its number: the
   receiving node reads the produced entries, the sending node the posted
   receives and the delivered completions.
   */
  lemma {:induction false} ReadsAreExact(scap: nat, rcap: nat, es: seq<Event>)
    requires Capacity(scap) && Capacity(rcap)
    ensures ExactReads(Run(scap, rcap, es))
  {
    RunGood(scap, rcap, es);
    GoodReads(Run(scap, rcap, es));
  }

  /** Copy n of the ring is in flight: its source is intact and the slot it goes to is free. */
  ghost predicate SafeCopy<T>(m: RemoteRing<T>, n: nat, consumed: nat) {
    m.landed <= n < |m.log| ==> n < consumed + m.cap && m.cap == |m.src| > 0 && m.src[Slot(n, m.cap)] == m.log[n]
  }

  /** The completions that have landed and were not polled stand in their slots. */
  lemma {:induction false} CompletionsAwait(scap: nat, rcap: nat, es: seq<Event>)
    requires Capacity(scap) && Capacity(rcap)
    ensures var s := Run(scap, rcap, es);
            && Shape(s) && s.cq.cap == scap && s.cq.word <= |s.sq.log|
            && forall n :: |s.polled| <= n < s.cq.word ==> s.cq.dst[Slot(n, scap)] == Completion(s.sq.log[n])
  {
    hide Run;
    RunGood(scap, rcap, es);
    var s := Run(scap, rcap, es);
    hide Lockstep, Faithful, Unpolled, Waiting, RecvsCompleted;
    forall n | |s.polled| <= n < s.cq.word ensures s.cq.dst[Slot(n, scap)] == Completion(s.sq.log[n]) {
      assert s.cq.dst[Slot(n, scap)] == s.cq.log[n];
    }
  }

  /** A completion that lands changes nothing else. */
  lemma LandingCompletion(scap: nat, rcap: nat, es: seq<Event>)
    requires Capacity(scap) && Capacity(rcap)
    ensures var s, t := Run(scap, rcap, es), Run(scap, rcap, es + [LandCqe]);
            t.sq == s.sq && t.polled == s.polled && t.cq.cap == s.cq.cap && s.cq.word <= t.cq.word
  {
    assert (es + [LandCqe])[..|es|] == es;
    RunGood(scap, rcap, es);
    var s := Run(scap, rcap, es);
    hide Run;
    LandInv(s.cq, |s.polled|);
  }

  /**
   No slot is reused too early: when a copy lands, the entry that had the slot
   before has been consumed, and the source of every copy in flight still holds
   the entry it was issued for.
   */
  lemma {:induction false} NoSlotReusedEarly(scap: nat, rcap: nat, es: seq<Event>, n: nat)
    requires Capacity(scap) && Capacity(rcap)
    ensures var s := Run(scap, rcap, es);
            SafeCopy(s.sq, n, |s.cq.log|) && SafeCopy(s.rq, n, s.rtaken) && SafeCopy(s.cq, n, |s.polled|)
  {
    RunGood(scap, rcap, es);
  }

  /** The completions polled, field by field. */
  lemma PolledTell(s: Pair, n: nat)
    requires Good(s)
    ensures n < |s.polled| ==> n < |s.sq.log| && CompletedSend(s.sq.log[n], s.polled[n])
    ensures n < |s.rpolled| ==>
              && n < |Takers(s.sq.log)| && n < |s.rposted|
              && CompletedRecv(s.rposted[n], Takers(s.sq.log)[n], s.rpolled[n])
  {
    hide Inv, Rings, Lockstep, Unpolled, CompletedSend, CompletedRecv, Completion, RecvCompletion;
    if n < |s.polled| {
      CompletionsTell(s.sq.log[n], NoRecv);
    }
    if n < |s.rpolled| {
      TakersSend(s.sq.log, n);
      CompletionsTell(Takers(s.sq.log)[n], s.rposted[n]);
    }
  }

  /**
   End to end: polling yields the completion of every posted send exactly once
   and in order, and every receive polled answers the send of its own number,
   with its length and its immediate value.
   */
  lemma {:induction false} CompletionsEndToEnd(scap: nat, rcap: nat, es: seq<Event>, n: nat)
    requires Capacity(scap) && Capacity(rcap)
    ensures var s := Run(scap, rcap, es);
            && |s.polled| <= |s.sq.log| <= |s.posted| && |s.rpolled| <= |Takers(s.sq.log)|
            && |s.rpolled| <= |s.rposted|
            && (n < |s.polled| ==>
                  && SameRequest(s.posted[n], s.sq.log[n]) && s.sq.log[n].status == Success
                  && s.polled[n].handle == s.posted[n].handle
                  && CompletedSend(s.sq.log[n], s.polled[n]))
            && (n < |s.rpolled| ==>
                  && s.rpolled[n].handle == s.rposted[n].handle
                  && CompletedRecv(s.rposted[n], Takers(s.sq.log)[n], s.rpolled[n]))
  {
    hide Run;
    RunGood(scap, rcap, es);
    PolledTell(Run(scap, rcap, es), n);
  }

  // ---------------------------------------------------------------------
  // Where entries come from
  // ---------------------------------------------------------------------

  lemma RunSnoc(scap: nat, rcap: nat, es: seq<Event>)
    requires Capacity(scap) && Capacity(rcap) && es != []
    ensures var n := |es| - 1; Run(scap, rcap, es) == Step(Run(scap, rcap, es[..n]), es[n])
  {
    hide Step;
  }

  /** The send request keeps an entry of the ring: there is room, it can be filled in, and it is not done at once. */
  ghost predicate Keeps(s: Pair, r: Request) {
    && s.fault == NoFault && |s.posted| < |s.polled| + s.sq.cap && r.fits && r.filled
    && r.op in {RdmaWrite, WriteImm, Send, SendImm, RdmaRead} && (r.op == RdmaWrite ==> r.signaled)
  }

  ghost predicate Requested(w: SendWqe, r: Request) {
    && w.handle == r.handle && w.op == r.op && w.imm == r.imm && w.signaled == r.signaled
    && w.status == Success && w.len == 0
  }

  lemma PostedStep(s: Pair, e: Event)
    requires Shape(s)
    ensures var t := Step(s, e);
            && s.posted <= t.posted && |t.posted| <= |s.posted| + 1
            && (|t.posted| > |s.posted| <==> e.PostSend? && Keeps(s, e.req))
            && (|t.posted| > |s.posted| ==> Requested(t.posted[|s.posted|], e.req))
  {
    hide SendBatch, SendPassOf, IssueAll, RecvPassOf, RemoteBatch, Land, Announce;
  }

  /** Entry n was posted by one request of the run, which kept it, and is that request. */
  lemma {:induction false} PostedBy(scap: nat, rcap: nat, es: seq<Event>, n: nat) returns (k: nat)
    requires Capacity(scap) && Capacity(rcap) && n < |Run(scap, rcap, es).posted|
    ensures k < |es| && es[k].PostSend? && |Run(scap, rcap, es[..k]).posted| == n
    ensures Keeps(Run(scap, rcap, es[..k]), es[k].req) && Requested(Run(scap, rcap, es).posted[n], es[k].req)
  {
    hide Run, Step, Shape, Keeps, Requested;
    RunNone(scap, rcap);
    var m := |es| - 1;
    RunSnoc(scap, rcap, es);
    var s := Run(scap, rcap, es[..m]);
    PostedStep(s, es[m]);
    if n < |s.posted| {
      k := PostedBy(scap, rcap, es[..m], n);
      assert es[..m][..k] == es[..k];
    } else {
      k := m;
    }
  }

  lemma RecvPostedStep(s: Pair, e: Event)
    requires Shape(s)
    ensures var t := Step(s, e);
            && s.rposted <= t.rposted && |t.rposted| <= |s.rposted| + 1
            && (|t.rposted| > |s.rposted| <==>
                  e.PostRecv? && s.fault == NoFault && |s.rposted| < |s.rpolled| + s.rq.cap && e.rreq.filling == Filled)
            && (|t.rposted| > |s.rposted| ==>
                  var w := t.rposted[|s.rposted|];
                  w.handle == e.rreq.handle && w.op == Recv && w.sgCount == e.rreq.sgCount)
  {
    hide SendBatch, SendPassOf, IssueAll, RecvPassOf, RemoteBatch, Land, Announce;
  }

  /** Receive n was posted by one request of the run, and is that request. */
  lemma {:induction false} RecvPostedBy(scap: nat, rcap: nat, es: seq<Event>, n: nat) returns (k: nat)
    requires Capacity(scap) && Capacity(rcap) && n < |Run(scap, rcap, es).rposted|
    ensures k < |es| && es[k].PostRecv? && es[k].rreq.filling == Filled && |Run(scap, rcap, es[..k]).rposted| == n
    ensures var w, r := Run(scap, rcap, es).rposted[n], es[k].rreq;
            w.handle == r.handle && w.op == Recv && w.sgCount == r.sgCount
  {
    hide Run, Step, Shape;
    RunNone(scap, rcap);
    var m := |es| - 1;
    RunSnoc(scap, rcap, es);
    var s := Run(scap, rcap, es[..m]);
    RecvPostedStep(s, es[m]);
    if n < |s.rposted| {
      k := RecvPostedBy(scap, rcap, es[..m], n);
      assert es[..m][..k] == es[..k];
    } else {
      k := m;
    }
  }

  /** A send pass of a good state, in terms of what was posted. */
  lemma SendPassExact(s: Pair, move: seq<Transfer>)
    requires Good(s)
    ensures var n, b := |s.sq.log|, SendBatch(s);
            && n + b <= |s.posted| && |SendPassOf(s, move, b).done| <= b
            && PassExact(s.posted[n..n + b], s.rposted[s.rtaken..s.rq.word], move, b, SendPassOf(s, move, b))
  {
    hide Inv, Lockstep, SendsCompleted, RecvsCompleted, Unpolled, PassExact, SameRequest, Publishable;
    SendPassReady(s);
    var n, b := |s.sq.log|, SendBatch(s);
    var ws := Window(s.sq.src, n, b);
    forall i | 0 <= i < b ensures ws[i] == s.posted[n + i] {
    }
    assert ws == s.posted[n..n + b];
    SendsExactly(ws, Available(s), s.rtaken, s.rq.cap, move, b);
  }

  /** Entry n of the log is from the pass with these outcomes that began at number `from`. */
  ghost predicate SentIn(posted: seq<SendWqe>, log: seq<SendWqe>, n: nat, move: seq<Transfer>, from: nat) {
    && from <= n < |log| <= |posted|
    && (log[n].status == Success ==> Measured(posted[n], log[n], move, n - from))
    && (log[n].status != Success ==> log[n].status == LocPort && n - from < |move| && move[n - from] == Again)
  }

  lemma SentOf(posted: seq<SendWqe>, log: seq<SendWqe>, avail: seq<RecvWqe>, move: seq<Transfer>, b: nat,
               p: SendPass, n: nat)
    requires |log| + |p.done| <= |log| + b <= |posted| && !p.v.Abort?
    requires PassExact(posted[|log|..|log| + b], avail, move, b, p) && |log| <= n < |log| + |p.done|
    ensures SentIn(posted, log + p.done, n, move, |log|)
  {
    hide Measured, Starved;
    var i := n - |log|;
    assert posted[|log|..|log| + b][i] == posted[n] && (log + p.done)[n] == p.done[i];
  }

  lemma SentNow(s: Pair, move: seq<Transfer>, n: nat)
    requires Good(s) && |s.sq.log| <= n < |DoSendWork(s, move).sq.log|
    ensures var t := DoSendWork(s, move); SentIn(t.posted, t.sq.log, n, move, |s.sq.log|)
  {
    hide Good, SendPassOf, SendBatch, SentIn, IssueAll, PassExact, Shape;
    GoodShape(s);
    SendPassExact(s, move);
    SentOf(s.posted, s.sq.log, s.rposted[s.rtaken..s.rq.word], move, SendBatch(s),
           SendPassOf(s, move, SendBatch(s)), n);
  }

  lemma GoodShape(s: Pair)
    requires Good(s)
    ensures Shape(s) && |s.sq.log| <= |s.posted| && s.rtaken <= s.rq.word <= |s.rposted|
  {
  }

  lemma LogStep(s: Pair, e: Event)
    requires Shape(s)
    ensures var t := Step(s, e);
            && s.posted <= t.posted && s.sq.log <= t.sq.log
            && (|t.sq.log| > |s.sq.log| ==> s.fault == NoFault && e.SendWork?)
  {
    PostedStep(s, e);
    if e.SendWork? && SendBatch(s) != 0 {
      var done := SendPassOf(s, e.move, SendBatch(s)).done;
      assert IssueAll(s.sq, done).log == s.sq.log + done;
    }
    hide SendBatch, SendPassOf, IssueAll, RecvPassOf, RemoteBatch;
  }

  /**
   Entry n of the log was sent by one pass of the run.  Its length is the one that its
   own transfer reported there; if it carries an error, it is that the transfer is to be
   repeated.
   */
  lemma {:induction false} SentBy(scap: nat, rcap: nat, es: seq<Event>, n: nat) returns (k: nat)
    requires Capacity(scap) && Capacity(rcap) && n < |Run(scap, rcap, es).sq.log|
    ensures k < |es| && es[k].SendWork?
    ensures var s := Run(scap, rcap, es); SentIn(s.posted, s.sq.log, n, es[k].move, |Run(scap, rcap, es[..k]).sq.log|)
  {
    hide Run, Step, Shape, Good, Measured;
    RunNone(scap, rcap);
    var m := |es| - 1;
    RunSnoc(scap, rcap, es);
    var s := Run(scap, rcap, es[..m]);
    RunGood(scap, rcap, es);
    RunGood(scap, rcap, es[..m]);
    GoodShape(Run(scap, rcap, es));
    LogStep(s, es[m]);
    if n < |s.sq.log| {
      k := SentBy(scap, rcap, es[..m], n);
      assert es[..m][..k] == es[..k];
    } else {
      k := m;
      StepIsSendWork(s, es[m]);
      SentNow(s, es[m].move, n);
    }
  }

  lemma StepIsSendWork(s: Pair, e: Event)
    requires Shape(s) && s.fault == NoFault && e.SendWork?
    ensures Step(s, e) == DoSendWork(s, e.move)
  {
  }

  /** What one pass of either node covers: up to the end of the ring, and at most sixteen entries at the receiver. */
  lemma PassCovers(s: Pair)
    requires Good(s)
    ensures SendBatch(s) == Min(|s.posted| - |s.sq.log|, s.sq.cap - |s.sq.log| % s.sq.cap)
    ensures RemoteBatch(s) == Min(Min(s.sq.word - |s.cq.log|, s.sq.cap - |s.cq.log| % s.sq.cap), 16)
  {
    hide Inv, Waiting, Faithful, Lockstep, SendsCompleted, RecvsCompleted, Unpolled;
    SlotIsRemainder(|s.sq.log|, s.sq.cap);
    SlotIsRemainder(|s.cq.log|, s.sq.cap);
  }

  /** What the receiving node has completed after its work: all the pass covers, unless an entry is in error. */
  lemma RemoteWorkCovers(s: Pair)
    requires Good(s) && s.fault == NoFault
    ensures var t := Step(s, RemoteWork);
            && (t.fault == NoFault ==> |t.cq.log| == |s.cq.log| + RemoteBatch(s))
            && (t.fault != NoFault ==> t == s.(fault := ReceiverAbort(BadStatus)))
  {
    hide Good, IssueAll, RemoteBatch, Receives, Window, Wiped, Store, Shape;
    GoodShape(s);
    RemoteWorkGood(s);
  }

  /** A poll that meets an error starts the abort, and only that: else all polled completions are successful. */
  ghost predicate PollsFine(s: Pair) {
    && (s.fault != PollAbort ==> AllSucceed(s.polled) && AllSucceed(s.rpolled))
    && (s.fault == PollAbort ==> !AllSucceed(s.polled) || !AllSucceed(s.rpolled))
  }

  ghost predicate AllSucceed(cs: seq<Cqe>) {
    forall i :: 0 <= i < |cs| ==> cs[i].status == Success
  }

  lemma AllSucceedSnoc(cs: seq<Cqe>, c: Cqe)
    ensures AllSucceed(cs + [c]) <==> AllSucceed(cs) && c.status == Success
  {
    if AllSucceed(cs + [c]) {
      assert (cs + [c])[|cs|] == c;
      assert forall i :: 0 <= i < |cs| ==> cs[i] == (cs + [c])[i];
    }
  }

  lemma PollsFineStep(s: Pair, e: Event)
    requires Shape(s) && PollsFine(s)
    ensures PollsFine(Step(s, e))
  {
    var t := Step(s, e);
    if |t.polled| > |s.polled| {
      AllSucceedSnoc(s.polled, t.polled[|s.polled|]);
    }
    if |t.rpolled| > |s.rpolled| {
      AllSucceedSnoc(s.rpolled, t.rpolled[|s.rpolled|]);
    }
    hide AllSucceed, SendBatch, SendPassOf, IssueAll, RecvPassOf, RemoteBatch, Land, Announce;
  }

  lemma {:induction false} ErrorAborts(scap: nat, rcap: nat, es: seq<Event>)
    requires Capacity(scap) && Capacity(rcap)
    ensures PollsFine(Run(scap, rcap, es))
  {
    if es != [] {
      ErrorAborts(scap, rcap, es[..|es| - 1]);
      hide Run, Step, PollsFine;
      RunSnoc(scap, rcap, es);
      PollsFineStep(Run(scap, rcap, es[..|es| - 1]), es[|es| - 1]);
    }
  }

  // ---------------------------------------------------------------------
  // Nothing is left behind
  // ---------------------------------------------------------------------

  /** Whatever was issued was announced: the index word covers it, or is the last write on its way. */
  ghost predicate Announced<T>(m: RemoteRing<T>) {
    if m.queue == [] then m.word == |m.log| else m.queue[|m.queue| - 1] == Word(|m.log|)
  }

  ghost predicate AllAnnounced(s: Pair) {
    Announced(s.sq) && Announced(s.rq) && Announced(s.cq)
  }

  lemma LandAnnounced<T>(m: RemoteRing<T>)
    requires Announced(m) && 0 < m.cap == |m.src| == |m.dst|
    ensures Announced(Land(m))
  {
  }

  lemma AnnouncedStep(s: Pair, e: Event)
    requires Shape(s) && AllAnnounced(s)
    ensures AllAnnounced(Step(s, e))
  {
    LandAnnounced(s.sq);
    LandAnnounced(s.rq);
    LandAnnounced(s.cq);
    hide SendBatch, SendPassOf, IssueAll, RecvPassOf, RemoteBatch, Land;
  }

  lemma {:induction false} RunAnnounced(scap: nat, rcap: nat, es: seq<Event>)
    requires Capacity(scap) && Capacity(rcap)
    ensures AllAnnounced(Run(scap, rcap, es))
  {
    if es != [] {
      RunAnnounced(scap, rcap, es[..|es| - 1]);
      hide Run, Step, AllAnnounced;
      RunSnoc(scap, rcap, es);
      AnnouncedStep(Run(scap, rcap, es[..|es| - 1]), es[|es| - 1]);
    }
  }

  /** No step but posting changes anything: no write is on its way, and no work and no poll finds anything to do. */
  ghost predicate AtRest(s: Pair)
    requires Shape(s)
  {
    && s.fault == NoFault
    && (forall move :: Step(s, SendWork(move)) == s) && Step(s, RecvWork) == s && Step(s, RemoteWork) == s
    && Step(s, LandSend) == s && Step(s, LandRecv) == s && Step(s, LandCqe) == s
    && Step(s, PollSend) == s && Step(s, PollRecv) == s
  }

  lemma LandMoves<T>(m: RemoteRing<T>)
    requires 0 < m.cap == |m.src| == |m.dst|
    ensures Land(m) == m ==> m.queue == []
  {
    assert m.queue != [] ==> |Land(m).queue| < |m.queue|;
  }

  lemma RestSends(s: Pair)
    requires Good(s) && AtRest(s)
    ensures |s.sq.log| == |s.posted|
  {
    hide Inv, Waiting, Faithful, Lockstep, SendsCompleted, RecvsCompleted, Unpolled;
    hide PassExact, IssueAll, SendPassOf;
    SendPassExact(s, []);
    assert Step(s, SendWork([])) == s;
    var p := SendPassOf(s, [], SendBatch(s));
    if SendBatch(s) > 0 {
      PassMoves(s.posted[|s.sq.log|..|s.sq.log| + SendBatch(s)], s.rposted[s.rtaken..s.rq.word], [], SendBatch(s), p);
    }
  }

  lemma PassMoves(ws: seq<SendWqe>, avail: seq<RecvWqe>, move: seq<Transfer>, k: nat, p: SendPass)
    requires k <= |ws| && PassExact(ws, avail, move, k, p) && k > 0
    ensures p.done != []
  {
  }

  lemma RestReceives(s: Pair)
    requires Good(s) && AtRest(s)
    ensures |s.rq.log| == |s.rposted| && |s.cq.log| == s.sq.word
    ensures s.cq.word == |s.polled| && |s.rdone| == |s.rpolled|
  {
    RemoteWorkCovers(s);
    PassCovers(s);
    RecvWorkMoves(s);
    hide Inv, Waiting, Faithful, Lockstep, SendsCompleted, RecvsCompleted, Unpolled;
    hide IssueAll, SendPassOf, RecvPassOf, Announce, Land, RemoteBatch, SendBatch;
    assert s.sq.cap - |s.cq.log| % s.sq.cap > 0;
  }

  lemma RecvWorkMoves(s: Pair)
    requires Good(s) && DoRecvWork(s) == s
    ensures |s.rq.log| == |s.rposted|
  {
    hide Inv, Waiting, Faithful, Lockstep, SendsCompleted, RecvsCompleted, Unpolled, IssueAll;
  }

  /**
   Nothing is forgotten.  In every run that comes to rest without a fault every posted send
   and every receive that was taken has been completed and polled, and all posted receives
   are with the peer.
   */
  lemma {:induction false} RestIsDone(scap: nat, rcap: nat, es: seq<Event>)
    requires Capacity(scap) && Capacity(rcap) && AtRest(Run(scap, rcap, es))
    ensures var s := Run(scap, rcap, es);
            && |s.polled| == |s.sq.log| == |s.posted|
            && |s.rpolled| == s.rtaken == |Takers(s.sq.log)| && s.rq.word == |s.rposted|
  {
    RunGood(scap, rcap, es);
    RunAnnounced(scap, rcap, es);
    hide Run;
    var s := Run(scap, rcap, es);
    LandMoves(s.sq);
    LandMoves(s.rq);
    LandMoves(s.cq);
    RestSends(s);
    RestReceives(s);
    assert s.sq.log[..|s.sq.log|] == s.sq.log;
    hide Inv, Waiting, Faithful, SendsCompleted, RecvsCompleted, Unpolled, Land;
  }

  /** The receives that were completed and not polled have their own entry still, without segments. */
  ghost predicate Emptied(s: Pair)
    requires Shape(s)
  {
    forall m :: |s.rpolled| <= m < |s.rdone| && m < |s.rposted| ==>
      s.rq.src[Slot(m, s.rq.cap)] == s.rposted[m].(sgCount := 0)
  }

  lemma {:induction false} WipedAt(buf: seq<RecvWqe>, n: nat, k: nat, m: nat, lo: nat)
    requires |buf| > 0 && lo <= n && lo <= m < n + k <= lo + |buf|
    ensures Wiped(buf, n, k)[Slot(m, |buf|)] ==
            if m < n then buf[Slot(m, |buf|)] else buf[Slot(m, |buf|)].(sgCount := 0)
  {
    if k > 0 {
      SlotInjective(m, n + k - 1, |buf|);
      if m < n + k - 1 {
        WipedAt(buf, n, k - 1, m, lo);
      } else {
        WipedLater(buf, n, k - 1, m, lo);
      }
    }
  }

  lemma {:induction false} WipedLater(buf: seq<RecvWqe>, n: nat, k: nat, m: nat, lo: nat)
    requires |buf| > 0 && lo <= n && n + k <= m < lo + |buf|
    ensures Wiped(buf, n, k)[Slot(m, |buf|)] == buf[Slot(m, |buf|)]
  {
    if k > 0 {
      WipedLater(buf, n, k - 1, m, lo);
      SlotInjective(n + k - 1, m, |buf|);
    }
  }

  lemma EmptiedPost(s: Pair, r: RecvRequest)
    requires Good(s) && Emptied(s)
    ensures Emptied(DoPostRecv(s, r))
  {
    hide Inv, Waiting, Faithful, Lockstep, SendsCompleted, RecvsCompleted, Unpolled, AllFine;
    forall m | |s.rpolled| <= m < |s.rdone| && |s.rposted| < |s.rpolled| + s.rq.cap
      ensures Slot(m, s.rq.cap) != Slot(|s.rposted|, s.rq.cap)
    {
      SlotInjective(m, |s.rposted|, s.rq.cap);
    }
  }

  /** What a remote pass does to the receive ring. */
  lemma RemoteWipes(s: Pair)
    requires Shape(s)
    ensures var t := DoRemoteWork(s);
            && |s.rdone| <= |t.rdone| && t.rposted == s.rposted && t.rpolled == s.rpolled && t.rq.cap == s.rq.cap
            && t.rq.src == Wiped(s.rq.src, |s.rdone|, |t.rdone| - |s.rdone|) && |t.rq.log| == |s.rq.log|
  {
    hide Wiped, Receives, IssueAll, Store, RemoteBatch, Announce, Window;
    assert Wiped(s.rq.src, |s.rdone|, 0) == s.rq.src by { WipedNone(s.rq.src, |s.rdone|); }
  }

  lemma WipedNone(buf: seq<RecvWqe>, n: nat)
    requires |buf| > 0
    ensures Wiped(buf, n, 0) == buf
  {
  }

  lemma EmptiedRemote(s: Pair)
    requires Good(s) && Emptied(s)
    ensures Emptied(DoRemoteWork(s))
  {
    hide Good, DoRemoteWork, Wiped, Shape;
    GoodShape(s);
    RemoteWipes(s);
    RemoteWorkGood(s);
    var t := DoRemoteWork(s);
    RecvEntries(s);
    RecvEntries(t);
    var k := |t.rdone| - |s.rdone|;
    forall m | |t.rpolled| <= m < |t.rdone| ensures t.rq.src[Slot(m, t.rq.cap)] == t.rposted[m].(sgCount := 0) {
      WipedAt(s.rq.src, |s.rdone|, k, m, |s.rpolled|);
    }
  }

  lemma RecvEntries(s: Pair)
    requires Good(s)
    ensures |s.rpolled| <= |s.rdone| <= |s.rposted| <= |s.rpolled| + s.rq.cap && s.rq.cap == |s.rq.src|
    ensures forall m :: |s.rdone| <= m < |s.rq.log| ==> m < |s.rposted| && s.rq.src[Slot(m, s.rq.cap)] == s.rposted[m]
    ensures |s.rdone| <= |s.rq.log|
  {
    hide Waiting, Faithful, Lockstep, SendsCompleted, RecvsCompleted, Unpolled, AllFine, Ordered;
  }

  lemma EmptiedStep(s: Pair, e: Event)
    requires Good(s) && Emptied(s)
    ensures Shape(Step(s, e)) && Emptied(Step(s, e))
  {
    if s.fault.NoFault? {
      match e
      case PostRecv(r) => EmptiedPost(s, r);
      case RemoteWork => EmptiedRemote(s);
      case RecvWork => EmptiedIssue(s);
      case _ => hide Good, SendBatch, SendPassOf, IssueAll, RemoteBatch, Announce;
    }
  }

  lemma EmptiedIssue(s: Pair)
    requires Good(s) && Emptied(s)
    ensures Emptied(DoRecvWork(s))
  {
    if |s.rq.log| < |s.rposted| {
      RecvIssued(s.rq, s.rposted, |s.rdone|);
      hide Inv, IssueAll, Announce, Waiting, Faithful, Lockstep, SendsCompleted, RecvsCompleted, Unpolled, AllFine;
    }
  }

  /** In every run a receive that was completed keeps its entry until it is polled, with its segments given back. */
  lemma {:induction false} RunEmptied(scap: nat, rcap: nat, es: seq<Event>)
    requires Capacity(scap) && Capacity(rcap)
    ensures Emptied(Run(scap, rcap, es))
  {
    if es != [] {
      var m := |es| - 1;
      RunEmptied(scap, rcap, es[..m]);
      hide Run, Step, Emptied, Good, Shape;
      RunSnoc(scap, rcap, es);
      RunGood(scap, rcap, es[..m]);
      EmptiedStep(Run(scap, rcap, es[..m]), es[m]);
    }
  }

  lemma RunNone(scap: nat, rcap: nat)
    requires Capacity(scap) && Capacity(rcap)
    ensures Run(scap, rcap, []) == Init(scap, rcap)
  {
  }
}
