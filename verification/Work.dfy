/**
 Work queue entries, completion entries and what one pass of either side does
 with a single entry (ntrdma_wr.h, and the loop bodies of ntrdma_qp_send_work
 and ntrdma_rqp_send_work in ntrdma_qp.c).
 */
module Work {
  import opened Ring

  datatype OpCode =
    | RdmaWrite | WriteImm | Send | SendImm | RdmaRead
    | Recv | RecvInv | RecvImm | RecvRdma | SendInv

  datatype Status =
    | Success | Aborted | Corrupt | BadOpcode | RecvNotReady | RecvMissing
    | RecvOverflow | RdmaKey | RdmaRange | RdmaAccess | LocPort

  datatype SendWqe = SendWqe(
    handle: nat, op: OpCode, status: Status, recvKey: nat, len: nat, imm: nat, signaled: bool)

  datatype RecvWqe = RecvWqe(handle: nat, op: OpCode, status: Status, sgCount: nat)

  datatype Cqe = Cqe(handle: nat, op: OpCode, status: Status, len: nat, imm: nat, signaled: bool)

  const ZeroCqe := Cqe(0, RdmaWrite, Success, 0, 0, false)

  predicate IsSend(op: OpCode) {
    op.Send? || op.SendInv? || op.SendImm? || op.WriteImm?
  }

  predicate PushData(op: OpCode) {
    IsSend(op) || op.RdmaWrite?
  }

  predicate PullData(op: OpCode) {
    op.RdmaRead?
  }

  /** The opcodes that posting accepts (NTRDMA_SEND_WR_MAX_SUPPORTED). */
  predicate Postable(op: OpCode) {
    op.RdmaWrite? || op.WriteImm? || op.Send? || op.SendImm? || op.RdmaRead?
  }

  predicate NoRecvStatus(s: Status) {
    s.RecvNotReady? || s.RecvMissing?
  }

  function SendFail(w: SendWqe, s: Status): Cqe {
    Cqe(w.handle, w.op, s, 0, 0, w.signaled)
  }

  /** The completion names the entry and has what the peer copies from it. */
  predicate SameEntry(w: SendWqe, c: Cqe) {
    c.handle == w.handle && c.op == w.op && c.signaled == w.signaled
  }

  function SendDone(w: SendWqe): Cqe {
    Cqe(w.handle, w.op, Success, w.len, 0, w.signaled)
  }

  /** A receive completion leaves the flags of the buffer entry as they were. */
  function RecvFail(r: RecvWqe, s: Status, prev: Cqe): Cqe {
    Cqe(r.handle, r.op, s, 0, 0, prev.signaled)
  }

  function RecvOpcode(op: OpCode): OpCode {
    match op
    case SendInv => RecvInv
    case SendImm => RecvImm
    case WriteImm => RecvRdma
    case _ => Recv
  }

  function RecvDone(r: RecvWqe, w: SendWqe, prev: Cqe): Cqe {
    Cqe(r.handle, RecvOpcode(w.op), Success,
        if w.op.WriteImm? then 0 else w.len,
        if w.op.Send? then 0 else w.imm,
        prev.signaled)
  }

  // ---------------------------------------------------------------------
  // What a completion tells
  // ---------------------------------------------------------------------

  /** A completion with an error: it names the entry, and nothing was moved. */
  ghost predicate FailedEntry(w: SendWqe, c: Cqe, s: Status) {
    SameEntry(w, c) && c.status == s && c.len == 0 && c.imm == 0
  }

  /** The completion of an entry that was carried out: its length, or no access for a read. */
  ghost predicate CompletedSend(w: SendWqe, c: Cqe) {
    && SameEntry(w, c) && c.imm == 0
    && c.status == (if w.op.RdmaRead? then RdmaAccess else Success)
    && c.len == (if w.op.RdmaRead? then 0 else w.len)
  }

  /** What the opcode of a receive tells of the entry that took it. */
  ghost predicate Announces(sent: OpCode, told: OpCode) {
    && (sent.Send? ==> told.Recv?) && (sent.SendInv? ==> told.RecvInv?)
    && (sent.SendImm? ==> told.RecvImm?) && (sent.WriteImm? ==> told.RecvRdma?)
  }

  /** The completion of a receive tells of the entry that took it, with its length and its immediate value. */
  ghost predicate CompletedRecv(r: RecvWqe, w: SendWqe, c: Cqe) {
    && c.handle == r.handle && c.status == Success && Announces(w.op, c.op)
    && (w.op.Send? || w.op.SendInv? || w.op.SendImm? ==> c.len == w.len)
    && (w.op.WriteImm? ==> c.len == 0)
    && (w.op.SendInv? || w.op.SendImm? || w.op.WriteImm? ==> c.imm == w.imm)
    && (w.op.Send? ==> c.imm == 0)
  }

  /** The completion of a receive that failed names the receive, and nothing was moved. */
  ghost predicate FailedRecv(r: RecvWqe, c: Cqe, s: Status) {
    c.handle == r.handle && c.op == r.op && c.status == s && c.len == 0 && c.imm == 0
  }

  /** What ntrdma_recv_wqe_cleanup leaves of a consumed receive. */
  function Cleaned(r: RecvWqe): RecvWqe {
    r.(sgCount := 0)
  }

  function FirstError(a: Status, b: Status): Status {
    if a.Success? then b else a
  }

  // ---------------------------------------------------------------------
  // Sending side: one entry of ntrdma_qp_send_work
  // ---------------------------------------------------------------------

  /** Outcome of moving the data of one entry; `Again` is -EAGAIN from the DMA engine. */
  datatype Transfer = Moved(len: nat) | Again | Failed

  function Outcome(move: seq<Transfer>, i: nat): Transfer {
    if i < |move| then move[i] else Failed
  }

  /** Go on with the next entry, stop and publish, or stop without publishing. */
  datatype Verdict = Go | Stop | Abort

  datatype Sent = Sent(w: SendWqe, took: bool, v: Verdict)

  function MoveData(w: SendWqe, took: bool, t: Transfer): Sent {
    if !w.status.Success? then Sent(w, took, Abort)
    else if !PushData(w.op) then Sent(w, took, Go)
    else match t
      case Moved(len) => Sent(w.(len := len), took, Go)
      case Again => Sent(w.(status := LocPort), took, Stop)
      case Failed => Sent(w.(status := RdmaRange), took, Abort)
  }

  /** `avail` are the receives that can be taken, `next` the number of the first one. */
  function SendOne(w: SendWqe, avail: seq<RecvWqe>, next: nat, rcap: nat, t: Transfer): Sent
    requires rcap > 0
  {
    if !IsSend(w.op) then
      MoveData(w, false, t)
    else
      var k := w.(recvKey := Index(next, rcap));
      if avail == [] then
        Sent(k.(status := FirstError(k.status, RecvMissing)), false, Abort)
      else if !avail[0].status.Success? then
        Sent(k.(status := FirstError(k.status, avail[0].status)), true, Abort)
      else
        MoveData(k, true, t)
  }

  /** The state of a pass after some entries: entries as published, receives taken. */
  datatype SendPass = SendPass(done: seq<SendWqe>, taken: nat, v: Verdict)

  /** The pass goes on to entry w. */
  function SendNext(p: SendPass, w: SendWqe, avail: seq<RecvWqe>, next: nat, rcap: nat, t: Transfer): SendPass
    requires rcap > 0 && p.taken <= |avail|
  {
    var o := SendOne(w, avail[p.taken..], next + p.taken, rcap, t);
    SendPass(p.done + [o.w], p.taken + (if o.took then 1 else 0), o.v)
  }

  /** The pass over the first k entries of ws; `move` holds the outcomes of moving their data. */
  function Sends(ws: seq<SendWqe>, avail: seq<RecvWqe>, next: nat, rcap: nat,
                 move: seq<Transfer>, k: nat): (p: SendPass)
    requires rcap > 0 && k <= |ws|
    ensures |p.done| <= k && p.taken <= |avail|
    ensures p.v.Go? ==> |p.done| == k
  {
    if k == 0 then SendPass([], 0, Go) else
    var p := Sends(ws, avail, next, rcap, move, k - 1);
    if !p.v.Go? then p else SendNext(p, ws[k - 1], avail, next, rcap, Outcome(move, k - 1))
  }

  /** A pass that stopped has seen all it sees. */
  lemma {:induction false} SendsStop(ws: seq<SendWqe>, avail: seq<RecvWqe>, next: nat, rcap: nat,
                                     move: seq<Transfer>, i: nat, k: nat)
    requires rcap > 0 && i <= k <= |ws| && !Sends(ws, avail, next, rcap, move, i).v.Go?
    ensures Sends(ws, avail, next, rcap, move, k) == Sends(ws, avail, next, rcap, move, i)
  {
    if i < k {
      SendsStop(ws, avail, next, rcap, move, i, k - 1);
    }
  }

  // ---------------------------------------------------------------------
  // Receiving side: one entry of ntrdma_rqp_send_work
  // ---------------------------------------------------------------------

  datatype Reason =
    | Fine | BadStatus | StatusNoRecv | KeyMismatch | NoReceive | RecvStatus

  /** The send completion, the receive completion if a receive was taken, and why the pass ends. */
  datatype Received = Received(cqe: Cqe, took: bool, rcqe: Cqe, why: Reason)

  function RecvOne(w: SendWqe, prev: Cqe, rprev: Cqe, avail: seq<RecvWqe>, next: nat, rcap: nat): Received
    requires rcap > 0
  {
    if IsSend(w.op) then
      if NoRecvStatus(w.status) then
        Received(SendFail(w, w.status), false, rprev, StatusNoRecv)
      else if w.recvKey != Index(next, rcap) then
        Received(SendFail(w, FirstError(w.status, Corrupt)), false, rprev, KeyMismatch)
      else if avail == [] then
        Received(SendFail(w, FirstError(w.status, RecvMissing)), false, rprev, NoReceive)
      else if !avail[0].status.Success? then
        Received(SendFail(w, FirstError(w.status, avail[0].status)), true,
                 RecvFail(avail[0], avail[0].status, rprev), RecvStatus)
      else if !w.status.Success? then
        Received(SendFail(w, w.status), true, RecvFail(avail[0], w.status, rprev), BadStatus)
      else
        Received(SendDone(w), true, RecvDone(avail[0], w, rprev), Fine)
    else if !w.status.Success? then
      Received(SendFail(w, w.status), false, rprev, BadStatus)
    else if PushData(w.op) then
      Received(SendDone(w), false, rprev, Fine)
    else if PullData(w.op) then
      Received(SendFail(w, RdmaAccess), false, rprev, Fine)
    else
      Received(prev, false, rprev, Fine)
  }

  /** Why the receiving node ends a pass at an entry, if it does. */
  ghost predicate EndsFor(w: SendWqe, avail: seq<RecvWqe>, next: nat, rcap: nat, why: Reason)
    requires rcap > 0
  {
    var late := w.status.RecvNotReady? || w.status.RecvMissing?;
    var known := !late && w.recvKey == next % (2 * rcap);
    var needs := w.op.Send? || w.op.SendInv? || w.op.SendImm? || w.op.WriteImm?;
    match why
    case StatusNoRecv => needs && late
    case KeyMismatch => needs && !late && !known
    case NoReceive => needs && known && avail == []
    case RecvStatus => needs && known && avail != [] && avail[0].status != Success
    case BadStatus => w.status != Success && (needs ==> known && avail != [] && avail[0].status == Success)
    case Fine => w.status == Success && (needs ==> known && avail != [] && avail[0].status == Success)
  }

  /** The completions that one entry leads to. */
  ghost predicate CompletedEntry(w: SendWqe, prev: Cqe, avail: seq<RecvWqe>, o: Received) {
    && (match o.why
        case Fine =>
          if w.op in {RdmaWrite, WriteImm, Send, SendImm, SendInv, RdmaRead} then CompletedSend(w, o.cqe)
          else o.cqe == prev
        case StatusNoRecv => FailedEntry(w, o.cqe, w.status)
        case BadStatus => FailedEntry(w, o.cqe, w.status)
        case KeyMismatch => FailedEntry(w, o.cqe, if w.status == Success then Corrupt else w.status)
        case NoReceive => FailedEntry(w, o.cqe, if w.status == Success then RecvMissing else w.status)
        case RecvStatus =>
          avail != [] && FailedEntry(w, o.cqe, if w.status == Success then avail[0].status else w.status))
    && (o.took <==> IsSend(w.op) && (o.why.Fine? || o.why.BadStatus? || o.why.RecvStatus?))
    && (o.took ==> avail != [])
    && (o.took && o.why.Fine? ==> CompletedRecv(avail[0], w, o.rcqe))
    && (o.took && o.why.BadStatus? ==> FailedRecv(avail[0], o.rcqe, w.status))
    && (o.took && o.why.RecvStatus? ==> FailedRecv(avail[0], o.rcqe, avail[0].status))
  }

  /** One entry at the receiving node: exactly when its pass ends here and why, and what is completed how. */
  lemma EntryCompletes(w: SendWqe, prev: Cqe, rprev: Cqe, avail: seq<RecvWqe>, next: nat, rcap: nat)
    requires rcap > 0
    ensures var o := RecvOne(w, prev, rprev, avail, next, rcap);
            && (forall why :: EndsFor(w, avail, next, rcap, why) <==> o.why == why)
            && CompletedEntry(w, prev, avail, o) && (o.took ==> o.rcqe.signaled == rprev.signaled)
            && (!o.took ==> o.rcqe == rprev)
  {
    IndexIsRemainder(next, rcap);
  }

  /** The completions produced by a pass, and why it ended. */
  datatype RecvPass = RecvPass(cqes: seq<Cqe>, rcqes: seq<Cqe>, why: Reason)

  /** The pass goes on to entry w; prev and rprev stand where its completions go. */
  function RecvNext(p: RecvPass, w: SendWqe, prev: Cqe, avail: seq<RecvWqe>, rprev: Cqe,
                    next: nat, rcap: nat): RecvPass
    requires rcap > 0 && |p.rcqes| <= |avail|
  {
    var t := |p.rcqes|;
    var o := RecvOne(w, prev, rprev, avail[t..], next + t, rcap);
    RecvPass(p.cqes + [o.cqe], p.rcqes + (if o.took then [o.rcqe] else []), o.why)
  }

  /**
   The pass over the first k entries of ws.  `prev` and `rprev` are what the
   completion buffers hold where the new completions go.
   */
  function Receives(ws: seq<SendWqe>, prev: seq<Cqe>, avail: seq<RecvWqe>, rprev: seq<Cqe>,
                    next: nat, rcap: nat, k: nat): (p: RecvPass)
    requires rcap > 0 && k <= |ws| == |prev| && |avail| == |rprev|
    ensures |p.cqes| <= k && |p.rcqes| <= |avail|
    ensures p.why.Fine? ==> |p.cqes| == k
  {
    if k == 0 then RecvPass([], [], Fine) else
    var p := Receives(ws, prev, avail, rprev, next, rcap, k - 1);
    if !p.why.Fine? then p else
    var t := |p.rcqes|;
    RecvNext(p, ws[k - 1], prev[k - 1], avail, if t < |rprev| then rprev[t] else ZeroCqe, next, rcap)
  }

  lemma {:induction false} ReceivesStop(ws: seq<SendWqe>, prev: seq<Cqe>, avail: seq<RecvWqe>, rprev: seq<Cqe>,
                                        next: nat, rcap: nat, i: nat, k: nat)
    requires rcap > 0 && i <= k <= |ws| == |prev| && |avail| == |rprev|
    requires !Receives(ws, prev, avail, rprev, next, rcap, i).why.Fine?
    ensures Receives(ws, prev, avail, rprev, next, rcap, k) == Receives(ws, prev, avail, rprev, next, rcap, i)
  {
    if i < k {
      ReceivesStop(ws, prev, avail, rprev, next, rcap, i, k - 1);
    }
  }

  // ---------------------------------------------------------------------
  // Which receive an entry takes
  // ---------------------------------------------------------------------

  /** The entries of a log that take a receive, in order. */
  function Takers(log: seq<SendWqe>): seq<SendWqe> {
    if log == [] then []
    else
      var w := log[|log| - 1];
      Takers(log[..|log| - 1]) + if IsSend(w.op) then [w] else []
  }

  lemma {:induction false} TakersSplit(a: seq<SendWqe>, b: seq<SendWqe>)
    ensures Takers(a + b) == Takers(a) + Takers(b)
  {
    if b == [] {
      assert a + b == a;
    } else {
      var n := |b| - 1;
      assert (a + b)[..|a + b| - 1] == a + b[..n];
      TakersSplit(a, b[..n]);
    }
  }

  lemma {:induction false} TakersSnoc(a: seq<SendWqe>, w: SendWqe)
    ensures Takers(a + [w]) == Takers(a) + if IsSend(w.op) then [w] else []
  {
    assert (a + [w])[..|a|] == a;
  }

  lemma {:induction false} TakersPrefix(log: seq<SendWqe>, n: nat)
    requires n <= |log|
    ensures Takers(log[..n]) <= Takers(log)
  {
    assert log[..n] + log[n..] == log;
    TakersSplit(log[..n], log[n..]);
  }

  /** If entry n takes a receive, it is the one numbered by the takers before it. */
  lemma {:induction false} TakerAt(log: seq<SendWqe>, n: nat)
    requires n < |log| && IsSend(log[n].op)
    ensures |Takers(log[..n])| < |Takers(log)|
    ensures Takers(log)[|Takers(log[..n])|] == log[n]
  {
    TakersSnoc(log[..n], log[n]);
    assert log[..n + 1] == log[..n] + [log[n]];
    TakersPrefix(log, n + 1);
  }

  // ---------------------------------------------------------------------
  // What a whole pass does
  // ---------------------------------------------------------------------

  /** The entry is the posted one; only status, receive key and length were filled in. */
  ghost predicate SameRequest(p: SendWqe, w: SendWqe) {
    w == p.(status := w.status, recvKey := w.recvKey, len := w.len)
  }

  /** Entry i of a produced run names the receive it takes, counting from `next`. */
  ghost predicate Keyed(done: seq<SendWqe>, i: nat, next: nat, rcap: nat)
    requires rcap > 0 && i < |done|
  {
    IsSend(done[i].op) ==> done[i].recvKey == Index(next + |Takers(done[..i])|, rcap)
  }

  ghost predicate Publishable(w: SendWqe) {
    w.status.Success? || w.status.LocPort?
  }

  lemma KeyedSnoc(done: seq<SendWqe>, w: SendWqe, next: nat, rcap: nat)
    requires rcap > 0
    requires forall i :: 0 <= i < |done| ==> Keyed(done, i, next, rcap)
    requires IsSend(w.op) ==> w.recvKey == Index(next + |Takers(done)|, rcap)
    ensures forall i :: 0 <= i < |done| + 1 ==> Keyed(done + [w], i, next, rcap)
  {
    forall i | 0 <= i < |done| + 1 ensures Keyed(done + [w], i, next, rcap) {
      if i < |done| {
        assert Keyed(done, i, next, rcap);
        assert (done + [w])[..i] == done[..i];
      } else {
        assert (done + [w])[..i] == done;
      }
    }
  }

  /** What one entry looks like after the sending node handled it. */
  lemma SentFacts(w: SendWqe, avail: seq<RecvWqe>, next: nat, rcap: nat, m: Transfer)
    requires rcap > 0 && w.status.Success? && (avail != [] ==> avail[0].status.Success?)
    ensures var o := SendOne(w, avail, next, rcap, m);
            !o.v.Abort? ==>
              && SameRequest(w, o.w) && Publishable(o.w)
              && (o.took <==> IsSend(o.w.op))
              && (o.took ==> o.w.recvKey == Index(next, rcap))
  {
  }

  /** What was produced is what was posted, in order, each taker with its own receive. */
  ghost predicate Produced(ws: seq<SendWqe>, next: nat, rcap: nat, p: SendPass)
    requires rcap > 0
  {
    && |p.done| <= |ws|
    && p.taken == |Takers(p.done)|
    && (forall i :: 0 <= i < |p.done| ==> SameRequest(ws[i], p.done[i]) && Publishable(p.done[i]))
    && (forall i :: 0 <= i < |p.done| ==> Keyed(p.done, i, next, rcap))
  }

  lemma ProducedSnoc(ws: seq<SendWqe>, next: nat, rcap: nat, q: SendPass, o: Sent)
    requires rcap > 0 && Produced(ws, next, rcap, q) && |q.done| < |ws|
    requires SameRequest(ws[|q.done|], o.w) && Publishable(o.w)
    requires o.took <==> IsSend(o.w.op)
    requires o.took ==> o.w.recvKey == Index(next + q.taken, rcap)
    ensures Produced(ws, next, rcap, SendPass(q.done + [o.w], q.taken + (if o.took then 1 else 0), o.v))
  {
    TakersSnoc(q.done, o.w);
    KeyedSnoc(q.done, o.w, next, rcap);
  }

  lemma SendNextProduces(ws: seq<SendWqe>, avail: seq<RecvWqe>, next: nat, rcap: nat, q: SendPass, t: Transfer)
    requires rcap > 0 && Produced(ws, next, rcap, q) && |q.done| < |ws| && q.taken <= |avail|
    requires ws[|q.done|].status.Success? && (q.taken < |avail| ==> avail[q.taken].status.Success?)
    ensures var p := SendNext(q, ws[|q.done|], avail, next, rcap, t);
            !p.v.Abort? ==> Produced(ws, next, rcap, p)
  {
    hide Takers, Keyed, SameRequest, Publishable, SendOne, Index, IsSend, Produced;
    var o := SendOne(ws[|q.done|], avail[q.taken..], next + q.taken, rcap, t);
    SentFacts(ws[|q.done|], avail[q.taken..], next + q.taken, rcap, t);
    if !o.v.Abort? {
      ProducedSnoc(ws, next, rcap, q, o);
    }
  }

  /** Entry i cannot be sent: it needs a receive and all are taken, or its data cannot be moved. */
  ghost predicate Stuck(ws: seq<SendWqe>, avail: seq<RecvWqe>, move: seq<Transfer>, i: nat)
    requires i < |ws|
  {
    || Starved(ws, avail, i)
    || (ws[i].op in {RdmaWrite, WriteImm, Send, SendImm, SendInv} && (i < |move| ==> !move[i].Moved?))
  }

  ghost predicate Starved(ws: seq<SendWqe>, avail: seq<RecvWqe>, i: nat)
    requires i < |ws|
  {
    ws[i].op in {WriteImm, Send, SendImm, SendInv} && |Takers(ws[..i])| >= |avail|
  }

  /** An entry that was sent has the length that its transfer reported; a read keeps its own. */
  ghost predicate Measured(w: SendWqe, e: SendWqe, move: seq<Transfer>, i: nat) {
    if w.op in {RdmaWrite, WriteImm, Send, SendImm, SendInv} then i < |move| && move[i] == Moved(e.len)
    else e.len == w.len
  }

  /** How a pass ends at entry i, and the status that it leaves there. */
  ghost predicate StoppedAt(ws: seq<SendWqe>, avail: seq<RecvWqe>, move: seq<Transfer>, i: nat, p: SendPass)
    requires i < |ws| && |p.done| == i + 1
  {
    var again := i < |move| && move[i].Again?;
    && p.done[i].status ==
         (if Starved(ws, avail, i) then RecvMissing else if again then LocPort else RdmaRange)
    && (p.v.Stop? <==> !Starved(ws, avail, i) && again)
  }

  /** Where a pass over fresh entries and sound receives ends, how, and with which lengths. */
  ghost predicate PassExact(ws: seq<SendWqe>, avail: seq<RecvWqe>, move: seq<Transfer>, k: nat, p: SendPass)
    requires k <= |ws|
  {
    var n := |p.done| - if p.v.Go? then 0 else 1;
    && 0 <= n <= k && (p.v.Go? <==> n == k) && (p.v.Go? ==> p.taken == |Takers(ws[..k])|)
    && (forall i :: 0 <= i < n ==>
          !Stuck(ws, avail, move, i) && p.done[i].status == Success && Measured(ws[i], p.done[i], move, i))
    && (n < k ==> Stuck(ws, avail, move, n) && StoppedAt(ws, avail, move, n, p))
  }

  /** One entry at the sending node: exactly when the pass goes on, what is taken, and what the entry carries then. */
  lemma SentExactly(w: SendWqe, avail: seq<RecvWqe>, next: nat, rcap: nat, t: Transfer)
    requires rcap > 0
    ensures var o := SendOne(w, avail, next, rcap, t);
            var needs := w.op in {WriteImm, Send, SendImm, SendInv};
            var moves := needs || w.op == RdmaWrite;
            var missing, bad := needs && avail == [], needs && avail != [] && avail[0].status != Success;
            && SameRequest(w, o.w) && o.w.recvKey == (if needs then next % (2 * rcap) else w.recvKey)
            && (o.took <==> needs && avail != [])
            && (o.v.Go? <==> !missing && !bad && w.status == Success && (moves ==> t.Moved?))
            && (o.v.Stop? <==> !missing && !bad && w.status == Success && moves && t == Again)
            && o.w.len == (if o.v.Go? && moves then t.len else w.len)
            && o.w.status ==
                 (if w.status != Success then w.status
                  else if missing then RecvMissing
                  else if bad then avail[0].status
                  else if !moves || t.Moved? then Success
                  else if t == Again then LocPort else RdmaRange)
  {
    IndexIsRemainder(next, rcap);
  }

  lemma StuckMore(ws: seq<SendWqe>, avail: seq<RecvWqe>, move: seq<Transfer>, k: nat, q: SendPass, o: Sent)
    requires k < |ws| && PassExact(ws, avail, move, k, q) && q.v.Go?
    requires o.v.Go? <==> !Stuck(ws, avail, move, k)
    requires o.v.Go? ==>
               && o.w.status == Success && Measured(ws[k], o.w, move, k)
               && q.taken + (if o.took then 1 else 0) == |Takers(ws[..k + 1])|
    requires !o.v.Go? ==>
               && o.w.status == (if Starved(ws, avail, k) then RecvMissing
                                 else if k < |move| && move[k].Again? then LocPort else RdmaRange)
               && (o.v.Stop? <==> !Starved(ws, avail, k) && k < |move| && move[k].Again?)
    ensures PassExact(ws, avail, move, k + 1, SendPass(q.done + [o.w], q.taken + (if o.took then 1 else 0), o.v))
  {
    hide Takers, Stuck, Starved, Measured;
  }

  lemma SendNextExact(ws: seq<SendWqe>, avail: seq<RecvWqe>, next: nat, rcap: nat, move: seq<Transfer>,
                      k: nat, q: SendPass)
    requires rcap > 0 && k < |ws| && PassExact(ws, avail, move, k, q) && q.v.Go?
    requires ws[k].status.Success? && AllFine(avail) && q.taken <= |avail|
    ensures PassExact(ws, avail, move, k + 1, SendNext(q, ws[k], avail, next, rcap, Outcome(move, k)))
  {
    hide Takers, SendOne;
    assert ws[..k + 1] == ws[..k] + [ws[k]];
    TakersSnoc(ws[..k], ws[k]);
    assert q.taken == |Takers(ws[..k])|;
    var o := SendOne(ws[k], avail[q.taken..], next + q.taken, rcap, Outcome(move, k));
    SentExactly(ws[k], avail[q.taken..], next + q.taken, rcap, Outcome(move, k));
    hide PassExact;
    StuckMore(ws, avail, move, k, q, o);
  }

  /**
   A pass goes on exactly up to the first entry that cannot be sent.  There it stops, and
   publishes, if the data can be moved later, and gives up otherwise; what was sent before
   has the length that was moved for it.
   */
  lemma {:induction false} SendsExactly(ws: seq<SendWqe>, avail: seq<RecvWqe>, next: nat, rcap: nat,
                                        move: seq<Transfer>, k: nat)
    requires rcap > 0 && k <= |ws| && AllFine(avail)
    requires forall i :: 0 <= i < |ws| ==> ws[i].status.Success?
    ensures PassExact(ws, avail, move, k, Sends(ws, avail, next, rcap, move, k))
  {
    if k > 0 {
      SendsExactly(ws, avail, next, rcap, move, k - 1);
      var q := Sends(ws, avail, next, rcap, move, k - 1);
      if q.v.Go? {
        SendNextExact(ws, avail, next, rcap, move, k - 1, q);
      }
    }
  }

  lemma {:induction false} SendsProduces(ws: seq<SendWqe>, avail: seq<RecvWqe>, next: nat, rcap: nat,
                                         move: seq<Transfer>, k: nat)
    requires rcap > 0 && k <= |ws|
    requires forall i :: 0 <= i < |ws| ==> ws[i].status.Success?
    requires forall i :: 0 <= i < |avail| ==> avail[i].status.Success?
    ensures var p := Sends(ws, avail, next, rcap, move, k);
            !p.v.Abort? ==> Produced(ws, next, rcap, p)
  {
    if k > 0 {
      SendsProduces(ws, avail, next, rcap, move, k - 1);
      var q := Sends(ws, avail, next, rcap, move, k - 1);
      if q.v.Go? {
        SendNextProduces(ws, avail, next, rcap, q, Outcome(move, k - 1));
      }
    }
  }

  function Completion(w: SendWqe): Cqe {
    if PushData(w.op) then SendDone(w) else SendFail(w, RdmaAccess)
  }

  function RecvCompletion(r: RecvWqe, w: SendWqe): Cqe {
    RecvDone(r, w, ZeroCqe)
  }

  lemma CompletionsTell(w: SendWqe, r: RecvWqe)
    ensures PushData(w.op) || PullData(w.op) ==> CompletedSend(w, Completion(w))
    ensures IsSend(w.op) ==> CompletedRecv(r, w, RecvCompletion(r, w)) && !RecvCompletion(r, w).signaled
  {
  }

  /** The first k entries are completed, and so are the receives they take. */
  ghost predicate Done(ws: seq<SendWqe>, avail: seq<RecvWqe>, p: RecvPass, k: nat)
    requires k <= |ws|
  {
    && |p.cqes| == k
    && (forall i :: 0 <= i < k ==> ws[i].status.Success? && p.cqes[i] == Completion(ws[i]))
    && |p.rcqes| == |Takers(ws[..k])| <= |avail|
    && (forall j :: 0 <= j < |p.rcqes| ==> p.rcqes[j] == RecvCompletion(avail[j], Takers(ws[..k])[j]))
  }

  /** What the receiving node makes of an entry that names the right receive. */
  lemma ReceivedFacts(w: SendWqe, prev: Cqe, rprev: Cqe, avail: seq<RecvWqe>, next: nat, rcap: nat)
    requires rcap > 0 && Publishable(w) && (PushData(w.op) || PullData(w.op)) && !rprev.signaled
    requires IsSend(w.op) ==> w.recvKey == Index(next, rcap) && avail != [] && avail[0].status.Success?
    ensures var o := RecvOne(w, prev, rprev, avail, next, rcap);
            && (o.why.Fine? || o.why.BadStatus?)
            && (o.why.Fine? ==>
                  && w.status.Success? && o.cqe == Completion(w) && (o.took <==> IsSend(w.op))
                  && (o.took ==> o.rcqe == RecvCompletion(avail[0], w)))
  {
  }

  lemma DoneSnoc(ws: seq<SendWqe>, avail: seq<RecvWqe>, q: RecvPass, k: nat, o: Received)
    requires k < |ws| && Done(ws, avail, q, k)
    requires ws[k].status.Success? && o.cqe == Completion(ws[k]) && (o.took <==> IsSend(ws[k].op))
    requires o.took ==> |q.rcqes| < |avail| && o.rcqe == RecvCompletion(avail[|q.rcqes|], ws[k])
    ensures Done(ws, avail, RecvPass(q.cqes + [o.cqe], q.rcqes + (if o.took then [o.rcqe] else []), o.why), k + 1)
  {
    assert Takers(ws[..k + 1]) == Takers(ws[..k]) + if IsSend(ws[k].op) then [ws[k]] else [] by {
      assert ws[..k + 1] == ws[..k] + [ws[k]];
      TakersSnoc(ws[..k], ws[k]);
    }
  }

  lemma RecvNextDone(ws: seq<SendWqe>, prev: Cqe, avail: seq<RecvWqe>, rprev: Cqe, next: nat, rcap: nat,
                     q: RecvPass, k: nat)
    requires rcap > 0 && k < |ws| && Done(ws, avail, q, k)
    requires Publishable(ws[k]) && Keyed(ws, k, next, rcap) && (PushData(ws[k].op) || PullData(ws[k].op))
    requires forall i :: 0 <= i < |avail| ==> avail[i].status.Success?
    requires !rprev.signaled && |Takers(ws)| <= |avail|
    ensures var p := RecvNext(q, ws[k], prev, avail, rprev, next, rcap);
            && (p.why.Fine? || p.why.BadStatus?)
            && (p.why.Fine? ==> Done(ws, avail, p, k + 1))
  {
    var t := |q.rcqes|;
    if IsSend(ws[k].op) {
      TakerAt(ws, k);
      assert avail[t..][0] == avail[t];
    }
    ReceivedFacts(ws[k], prev, rprev, avail[t..], next + t, rcap);
    var o := RecvOne(ws[k], prev, rprev, avail[t..], next + t, rcap);
    if o.why.Fine? {
      DoneSnoc(ws, avail, q, k, o);
    }
  }

  /** Entries that can be completed, with keys that count on from `next`. */
  ghost predicate Sound(ws: seq<SendWqe>, next: nat, rcap: nat)
    requires rcap > 0
  {
    forall i :: 0 <= i < |ws| ==>
      && Publishable(ws[i]) && Keyed(ws, i, next, rcap)
      && (PushData(ws[i].op) || PullData(ws[i].op))
  }

  ghost predicate AllFine(rs: seq<RecvWqe>) {
    forall i :: 0 <= i < |rs| ==> rs[i].status.Success?
  }

  ghost predicate NoneSignaled(cqes: seq<Cqe>) {
    forall i :: 0 <= i < |cqes| ==> !cqes[i].signaled
  }

  lemma {:induction false} TakersSend(log: seq<SendWqe>, m: nat)
    requires m < |Takers(log)|
    ensures IsSend(Takers(log)[m].op)
  {
    if m < |Takers(log[..|log| - 1])| {
      TakersSend(log[..|log| - 1], m);
    }
  }

  /** The completions of a pass, field by field. */
  ghost predicate Told(ws: seq<SendWqe>, avail: seq<RecvWqe>, p: RecvPass, k: nat)
    requires k <= |ws|
  {
    && |p.cqes| == k && |p.rcqes| == |Takers(ws[..k])| <= |avail|
    && (forall i :: 0 <= i < k ==> ws[i].status == Success && CompletedSend(ws[i], p.cqes[i]))
    && (forall j :: 0 <= j < |p.rcqes| ==> CompletedRecv(avail[j], Takers(ws[..k])[j], p.rcqes[j]))
  }

  lemma DoneTells(ws: seq<SendWqe>, avail: seq<RecvWqe>, p: RecvPass, k: nat, next: nat, rcap: nat)
    requires rcap > 0 && k <= |ws| && Done(ws, avail, p, k) && Sound(ws, next, rcap)
    ensures Told(ws, avail, p, k)
  {
    hide CompletedSend, CompletedRecv, Completion, RecvCompletion;
    forall i | 0 <= i < k ensures CompletedSend(ws[i], p.cqes[i]) {
      CompletionsTell(ws[i], RecvWqe(0, Recv, Success, 0));
    }
    forall j | 0 <= j < |p.rcqes| ensures CompletedRecv(avail[j], Takers(ws[..k])[j], p.rcqes[j]) {
      TakersSend(ws[..k], j);
      CompletionsTell(Takers(ws[..k])[j], avail[j]);
    }
  }

  /**
   A pass over entries whose keys count the takers never meets a wrong key or a
   missing receive; it completes every entry and every receive it takes.
   */
  lemma {:induction false} ReceivesCompletes(
    ws: seq<SendWqe>, prev: seq<Cqe>, avail: seq<RecvWqe>, rprev: seq<Cqe>, next: nat, rcap: nat, k: nat)
    requires rcap > 0 && k <= |ws| == |prev| && |avail| == |rprev|
    requires Sound(ws, next, rcap) && AllFine(avail) && NoneSignaled(rprev)
    requires |Takers(ws)| <= |avail|
    ensures var p := Receives(ws, prev, avail, rprev, next, rcap, k);
            && (p.why.Fine? || p.why.BadStatus?)
            && (p.why.Fine? ==> Done(ws, avail, p, k) && Told(ws, avail, p, k))
  {
    if k > 0 {
      ReceivesCompletes(ws, prev, avail, rprev, next, rcap, k - 1);
      var q := Receives(ws, prev, avail, rprev, next, rcap, k - 1);
      if q.why.Fine? {
        var t := |q.rcqes|;
        RecvNextDone(ws, prev[k - 1], avail, if t < |rprev| then rprev[t] else ZeroCqe, next, rcap, q, k - 1);
      }
    }
    var p := Receives(ws, prev, avail, rprev, next, rcap, k);
    if p.why.Fine? {
      DoneTells(ws, avail, p, k, next, rcap);
    }
  }
}
