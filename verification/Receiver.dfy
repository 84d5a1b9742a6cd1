/**
 The receiving node's code: posting receives, copying them to the peer and the
 pass over the entries the peer has produced (ntrdma_post_recv,
 ntrdma_qp_recv_work, ntrdma_rqp_send_work), on 32-bit ring indices and buffers
 updated in place.
 */
module Receiver {
  import opened Ring
  import opened RemoteRing
  import opened Work
  import opened QueuePair

  // ---------------------------------------------------------------------
  // The pass over produced entries
  // ---------------------------------------------------------------------

  /** What a pass starts from: entries and completions of the range, the receives c..p. */
  datatype Start = Start(
    ws: seq<SendWqe>, cqes: seq<Cqe>, start: nat, end: nat,
    recvs: seq<RecvWqe>, rcqes: seq<Cqe>, c: nat, p: nat)

  type Pass = x: Start |
      && x.start <= x.end <= |x.ws| && |x.ws| == |x.cqes| && |x.recvs| == |x.rcqes|
      && Capacity(|x.recvs|) && x.c <= x.p <= x.c + |x.recvs|
    ghost witness Start([], [], 0, 0, [QueuePair.NoRecv], [ZeroCqe], 0, 0)

  /** The pass up to position `at`. */
  ghost function To(x: Pass, at: nat): (q: RecvPass)
    requires x.start <= at <= x.end
    ensures |q.cqes| <= at - x.start && x.c + |q.rcqes| <= x.p
  {
    Receives(x.ws[x.start..x.end], x.cqes[x.start..x.end], Window(x.recvs, x.c, x.p - x.c),
             Window(x.rcqes, x.c, x.p - x.c), x.c, |x.recvs|, at - x.start)
  }

  /** What becomes of the entry at `at`, after a pass that took the receives before number d. */
  ghost function EntryAt(x: Pass, at: nat, d: nat): Received
    requires x.start <= at < x.end && x.c <= d <= x.p
  {
    RecvOne(x.ws[at], x.cqes[at], if d < x.p then x.rcqes[Slot(d, |x.rcqes|)] else ZeroCqe,
            Window(x.recvs, d, x.p - d), d, |x.recvs|)
  }

  lemma PassNext(x: Pass, at: nat)
    requires x.start <= at < x.end && To(x, at).why.Fine?
    ensures var q, o := To(x, at), EntryAt(x, at, x.c + |To(x, at).rcqes|);
            To(x, at + 1) == RecvPass(q.cqes + [o.cqe], q.rcqes + (if o.took then [o.rcqe] else []), o.why)
  {
    hide RecvOne;
    var q, i := To(x, at), at - x.start;
    var d := x.c + |q.rcqes|;
    assert Window(x.recvs, x.c, x.p - x.c)[d - x.c..] == Window(x.recvs, d, x.p - d);
  }

  lemma PassStop(x: Pass, at: nat)
    requires x.start <= at <= x.end && (at < x.end ==> !To(x, at).why.Fine?)
    ensures To(x, x.end) == To(x, at)
  {
    if at < x.end {
      ReceivesStop(x.ws[x.start..x.end], x.cqes[x.start..x.end], Window(x.recvs, x.c, x.p - x.c),
                   Window(x.rcqes, x.c, x.p - x.c), x.c, |x.recvs|, at - x.start, x.end - x.start);
    }
  }

  /** The buffers a pass writes. */
  datatype Buffers = Buffers(cqes: seq<Cqe>, recvs: seq<RecvWqe>, rcqes: seq<Cqe>)

  ghost function After(x: Pass, q: RecvPass): (b: Buffers)
    requires x.start + |q.cqes| <= |x.cqes|
    ensures |b.cqes| == |x.cqes| && |b.recvs| == |x.recvs| && |b.rcqes| == |x.rcqes|
  {
    Buffers(Spliced(x.cqes, x.start, q.cqes), Wiped(x.recvs, x.c, |q.rcqes|), Store(x.rcqes, x.c, q.rcqes))
  }

  /** One more entry: its completion, and the receive it took. */
  ghost function AfterEntry(b: Buffers, at: nat, slot: nat, o: Received): Buffers
    requires at < |b.cqes| && slot < |b.recvs| && slot < |b.rcqes|
  {
    if o.took then
      Buffers(b.cqes[at := o.cqe], b.recvs[slot := Cleaned(b.recvs[slot])], b.rcqes[slot := o.rcqe])
    else b.(cqes := b.cqes[at := o.cqe])
  }

  /** Slots behind the ones handled are untouched. */
  lemma {:induction false} Untouched(recvs: seq<RecvWqe>, rcqes: seq<Cqe>, n: nat, es: seq<Cqe>, j: nat)
    requires 0 < |recvs| == |rcqes| && |es| <= j < |recvs|
    ensures Wiped(recvs, n, |es|)[Slot(n + j, |recvs|)] == recvs[Slot(n + j, |recvs|)]
    ensures Store(rcqes, n, es)[Slot(n + j, |recvs|)] == rcqes[Slot(n + j, |recvs|)]
  {
    if es != [] {
      var k := |es| - 1;
      Untouched(recvs, rcqes, n, es[..k], j);
      SlotInjective(n + k, n + j, |recvs|);
    }
  }

  lemma AfterTook(x: Pass, q: RecvPass, o: Received)
    requires x.start + |q.cqes| < |x.cqes| && o.took
    ensures var at, slot := x.start + |q.cqes|, Slot(x.c + |q.rcqes|, |x.recvs|);
            After(x, RecvPass(q.cqes + [o.cqe], q.rcqes + [o.rcqe], o.why)) == AfterEntry(After(x, q), at, slot, o)
  {
    SplicedSnoc(x.cqes, x.start, q.cqes, o.cqe);
    hide Spliced;
    assert (q.rcqes + [o.rcqe])[..|q.rcqes|] == q.rcqes;
  }

  lemma AfterNone(x: Pass, q: RecvPass, o: Received)
    requires x.start + |q.cqes| < |x.cqes| && !o.took
    ensures var at, slot := x.start + |q.cqes|, Slot(x.c + |q.rcqes|, |x.recvs|);
            After(x, RecvPass(q.cqes + [o.cqe], q.rcqes, o.why)) == AfterEntry(After(x, q), at, slot, o)
  {
    hide Wiped, Store;
    SplicedSnoc(x.cqes, x.start, q.cqes, o.cqe);
  }

  /** The pass has come to `at`. */
  ghost predicate HandledUpTo(x: Pass, b: Buffers, at: nat, cur: Range, why: Reason) {
    && x.start <= at <= x.end
    && |To(x, at).cqes| == at - x.start && why == To(x, at).why && b == After(x, To(x, at))
    && CursorAfter(cur, x.c + |To(x, at).rcqes|, x.p, |x.recvs|, why.Fine?)
  }

  /** The entry at `at` was handled, with the receives from number d on. */
  ghost predicate EntryHandled(x: Pass, b: Buffers, b': Buffers, at: nat, d: nat, cur: Range, why: Reason) {
    && x.start <= at < x.end && at < |b.cqes| && x.c <= d <= x.p
    && |b.recvs| == |x.recvs| == |b.rcqes|
    && var slot := Slot(d, |x.recvs|);
    && (Intact(x, b, at, d) ==>
          var o := EntryAt(x, at, d);
          && why == o.why && b' == AfterEntry(b, at, slot, o)
          && CursorAfter(cur, if o.took then d + 1 else d, x.p, |x.recvs|, why.Fine?))
  }

  /** The places entry `at` and receive d look at are as they were. */
  ghost predicate Intact(x: Pass, b: Buffers, at: nat, d: nat)
    requires at < x.end && at < |b.cqes| && |b.recvs| == |x.recvs| == |b.rcqes|
  {
    var slot := Slot(d, |x.recvs|);
    b.cqes[at] == x.cqes[at] && (d < x.p ==> b.recvs[slot] == x.recvs[slot] && b.rcqes[slot] == x.rcqes[slot])
  }

  lemma HandledStart(x: Pass, cur: Range)
    requires Cursor(cur, x.c, x.p, |x.recvs|)
    ensures HandledUpTo(x, Buffers(x.cqes, x.recvs, x.rcqes), x.start, cur, Fine)
  {
    CursorIndex(cur, x.c, x.p, |x.recvs|);
    assert Spliced(x.cqes, x.start, []) == x.cqes;
  }

  lemma HandledFacts(x: Pass, b: Buffers, at: nat, cur: Range)
    requires HandledUpTo(x, b, at, cur, Fine) && at < x.end
    ensures Cursor(cur, x.c + |To(x, at).rcqes|, x.p, |x.recvs|)
    ensures |b.cqes| == |x.cqes| && |b.recvs| == |x.recvs| == |b.rcqes|
    ensures Intact(x, b, at, x.c + |To(x, at).rcqes|)
  {
    hide To, Cursor;
    var q := To(x, at);
    SplicedSnoc(x.cqes, x.start, q.cqes, ZeroCqe);
    if |q.rcqes| < |x.recvs| {
      Untouched(x.recvs, x.rcqes, x.c, q.rcqes, |q.rcqes|);
    }
  }

  lemma HandledNext(x: Pass, b: Buffers, b': Buffers, at: nat, cur: Range, cur': Range, why: Reason)
    requires HandledUpTo(x, b, at, cur, Fine) && at < x.end
    requires EntryHandled(x, b, b', at, x.c + |To(x, at).rcqes|, cur', why)
    ensures HandledUpTo(x, b', at + 1, cur', why)
  {
    hide To, EntryAt, CursorAfter, Intact, After, AfterEntry;
    var q, o := To(x, at), EntryAt(x, at, x.c + |To(x, at).rcqes|);
    HandledFacts(x, b, at, cur);
    PassNext(x, at);
    if o.took {
      AfterTook(x, q, o);
    } else {
      assert q.rcqes + [] == q.rcqes;
      AfterNone(x, q, o);
    }
  }

  /** The whole pass was done, up to position pos. */
  ghost predicate PassDone(x: Pass, b: Buffers, pos: nat, why: Reason, recvCons: u32) {
    var q := To(x, x.end);
    && pos == x.start + |q.cqes| && why == q.why && b == After(x, q)
    && recvCons == Index(x.c + |q.rcqes|, |x.recvs|)
  }

  lemma HandledEnd(x: Pass, b: Buffers, at: nat, cur: Range, why: Reason)
    requires HandledUpTo(x, b, at, cur, why) && (at == x.end || !why.Fine?)
    ensures cur.idx <= |x.recvs| < U32 && PassDone(x, b, at, why, Update(cur.idx, cur.base, |x.recvs|))
  {
    hide Cursor, To, After;
    PassStop(x, at);
  }

  /** What becomes of an entry that takes receive r. */
  function WithReceive(w: SendWqe, r: RecvWqe, rprev: Cqe): Received {
    if !r.status.Success? then
      Received(SendFail(w, FirstError(w.status, r.status)), true, RecvFail(r, r.status, rprev), RecvStatus)
    else if !w.status.Success? then
      Received(SendFail(w, w.status), true, RecvFail(r, w.status, rprev), BadStatus)
    else
      Received(SendDone(w), true, RecvDone(r, w, rprev), Fine)
  }

  class RecvSide {
    const sendCap: u32
    const recvCap: u32
    const sendWqe: array<SendWqe>  // the image of the peer's send ring
    const sendCqe: array<Cqe>      // completions of its entries
    const recvWqe: array<RecvWqe>  // the receive ring
    const recvCqe: array<Cqe>      // completions of receives
    var sendProd: u32              // written by the peer
    var sendCons: u32
    var recvPost: u32
    var recvProd: u32
    var recvCons: u32
    var recvCmpl: u32

    ghost predicate Separate() {
      && sendCqe != recvCqe && sendWqe.Length == sendCqe.Length == sendCap
      && recvWqe.Length == recvCqe.Length == recvCap
    }

    ghost function Contents(): Buffers
      reads sendCqe, recvWqe, recvCqe
    {
      Buffers(sendCqe[..], recvWqe[..], recvCqe[..])
    }

    /** A receive is completed with c and cleaned up. */
    method FinishReceive(slot: u32, c: Cqe)
      requires Separate() && slot < recvCap
      modifies recvWqe, recvCqe
      ensures recvWqe[..] == old(recvWqe[..])[slot := Cleaned(old(recvWqe[slot]))]
      ensures recvCqe[..] == old(recvCqe[..])[slot := c]
    {
      recvCqe[slot] := c;
      recvWqe[slot] := Cleaned(recvWqe[slot]);
    }

    /** An entry that takes the receive in `slot`. */
    method HandleReceive(at: u32, slot: u32, w: SendWqe) returns (why: Reason)
      requires Separate() && at < sendCap && slot < recvCap
      modifies sendCqe, recvWqe, recvCqe
      ensures var o := WithReceive(w, old(recvWqe[slot]), old(recvCqe[slot]));
              why == o.why && Contents() == AfterEntry(old(Contents()), at, slot, o)
    {
      var r, c := recvWqe[slot], recvCqe[slot];
      if !r.status.Success? {
        sendCqe[at] := SendFail(w, FirstError(w.status, r.status));
        FinishReceive(slot, RecvFail(r, r.status, c));
        why := RecvStatus;
      } else if !w.status.Success? {
        sendCqe[at] := SendFail(w, w.status);
        FinishReceive(slot, RecvFail(r, w.status, c));
        why := BadStatus;
      } else {
        FinishReceive(slot, RecvDone(r, w, c));
        sendCqe[at] := SendDone(w);
        why := Fine;
      }
    }

    /** One entry: complete it and the receive it takes. */
    method HandleEntry(at: u32, cur: Range, ghost x: Pass, ghost d: nat) returns (cur': Range, why: Reason)
      requires Separate() && x.start <= at < x.end && at < sendCap && x.c <= d
      requires sendWqe[..] == x.ws && recvCap == |x.recvs|
      requires Cursor(cur, d, x.p, recvCap) && recvProd == Index(x.p, recvCap)
      modifies this`recvCons, sendCqe, recvWqe, recvCqe
      ensures EntryHandled(x, old(Contents()), Contents(), at, d, cur', why)
    {
      hide Cursor, Index, Update, Consume, Wrap;
      CursorIndex(cur, d, x.p, recvCap);
      var w := sendWqe[at];
      cur', why := cur, Fine;
      if IsSend(w.op) {
        if NoRecvStatus(w.status) {
          sendCqe[at] := SendFail(w, w.status);
          why := StatusNoRecv;
          return;
        }
        if w.recvKey != cur.idx + cur.base {
          sendCqe[at] := SendFail(w, FirstError(w.status, Corrupt));
          why := KeyMismatch;
          return;
        }
        if cur.idx == cur.end {
          sendCqe[at] := SendFail(w, FirstError(w.status, RecvMissing));
          why := NoReceive;
          return;
        }
        CursorNext(cur, d, x.p, recvCap);
        cur' := cur.(idx := cur.idx + 1);
        why := HandleReceive(at, cur.idx, w);
        if !why.Fine? {
          return;
        }
      } else if !w.status.Success? {
        sendCqe[at] := SendFail(w, w.status);
        why := BadStatus;
        return;
      } else if PushData(w.op) {
        sendCqe[at] := SendDone(w);
      } else if PullData(w.op) {
        sendCqe[at] := SendFail(w, RdmaAccess);
      }
      if cur'.idx == cur'.end {
        recvCons := Update(cur'.idx, cur'.base, recvCap);
        CursorRefetch(cur', if IsSend(w.op) then d + 1 else d, x.p, recvCap);
        cur' := Consume(recvProd, recvCons, recvCap);
      }
    }

    ghost predicate Starts(x: Pass)
      reads this, sendWqe, sendCqe, recvWqe, recvCqe
    {
      && Separate() && sendWqe[..] == x.ws && Contents() == Buffers(x.cqes, x.recvs, x.rcqes)
      && recvCons == Index(x.c, recvCap) && recvProd == Index(x.p, recvCap)
    }

    /** The loop of the pass; ends with an entry in error, or at the end of the range. */
    method HandleLoop(start: u32, end: u32, ghost x: Pass) returns (pos: u32, why: Reason)
      requires Starts(x) && x.start == start && x.end == end
      modifies this`recvCons, sendCqe, recvWqe, recvCqe
      ensures PassDone(x, Contents(), pos, why, recvCons)
    {
      hide To, CursorAfter, Cursor, Consume, Update, Index, PassDone, After;
      CursorGet(x.p, x.c, recvCap);
      var cur := Consume(recvProd, recvCons, recvCap);
      HandledStart(x, cur);
      pos, why := start, Fine;
      hide HandledUpTo, EntryHandled, Intact;
      while pos < end && why.Fine?
        invariant start <= pos <= end && HandledUpTo(x, Contents(), pos, cur, why)
        decreases end - pos
      {
        ghost var was, cur0 := Contents(), cur;
        HandledFacts(x, was, pos, cur);
        cur, why := HandleEntry(pos, cur, x, x.c + |To(x, pos).rcqes|);
        HandledNext(x, was, Contents(), pos, cur0, cur, why);
        pos := pos + 1;
      }
      HandledEnd(x, Contents(), pos, cur, why);
      recvCons := Update(cur.idx, cur.base, recvCap);
    }

    ghost predicate Represents(s: Pair)
      reads this, sendWqe, sendCqe, recvWqe, recvCqe
    {
      && Shape(s) && Separate() && sendCap == s.sq.cap && recvCap == s.rq.cap
      && sendWqe[..] == s.sq.dst && Contents() == Buffers(s.cq.src, s.rq.src, s.rcqe)
      && sendProd == Index(s.sq.word, sendCap)
      && sendCons == Index(|s.cq.log|, sendCap)
      && recvPost == Index(|s.rposted|, recvCap)
      && recvProd == Index(|s.rq.log|, recvCap)
      && recvCons == Index(|s.rdone|, recvCap)
      && recvCmpl == Index(|s.rpolled|, recvCap)
    }

    /**
     The pass over at most sixteen of the entries the peer has announced.  It ends in the
     state of the pair's step.  After an entry in error or a request that is refused the link
     is given up: this node has the entries up to that one completed in its own buffers, and
     unless only the doorbell failed it announces none.
     */
    method RemoteWork(ghost s: Bounded, dma: Dma) returns (out: seq<Issued>, why: Reason, failed: bool)
      requires Represents(s)
      modifies this`sendCons, this`recvCons, sendCqe, recvWqe, recvCqe
      ensures RemoteBatch(s) == 0 ==> Represents(s) && out == [] && why.Fine? && !failed && DoRemoteWork(s) == s
      ensures RemoteBatch(s) != 0 ==>
                var p := RecvPassOf(s, RemoteBatch(s));
                && why == p.why && Represents(AfterReceives(s, p))
                && (failed <==> !why.Fine? || !dma.copy || !dma.index || !dma.bell)
                && (if why.Fine? then Represents(DoRemoteWork(s))
                    else out == [] && DoRemoteWork(s) == s.(fault := ReceiverAbort(why)))
                && (if why.Fine? && dma.copy && dma.index
                    then Publishes(out, |s.cq.log|, |p.cqes|, sendCap) else Unannounced(out))
    {
      out, why, failed := [], Fine, false;
      hide RecvPassOf, Slot, Index, Window, Base, Consume, Update, AfterReceives, RemoteBatch, To, After;
      RemoteRange(s);
      var r := Consume(sendProd, sendCons, sendCap);
      var start: u32, end: u32 := r.idx, r.end;
      if start == end {
        return;
      }
      end := if end <= start + BATCH then end else start + BATCH;
      AfterReceivesIs(s);
      var pos: u32;
      pos, why := HandleLoop(start, end, PassOver(s));
      sendCons := Update(pos, r.base, sendCap);
      failed := !why.Fine? || !dma.copy || !dma.index || !dma.bell;
      if why.Fine? && dma.copy {
        out := [Copy(start, pos)] + if dma.index then [SetIndex(sendCons)] else [];
      }
    }

    /**
     All posted receives are copied to the peer, then announced.  `dma` answers the requests
     in their order; the first one that is refused ends it, and nothing is announced.
     */
    method RecvWork(ghost s: Bounded, dma: seq<bool>) returns (out: seq<Issued>, failed: bool)
      requires Represents(s) && Good(s)
      modifies this`recvProd
      ensures var rs := PublishRecvs(|s.rq.log|, |s.rposted|, recvCap);
              && (failed <==> Refused(dma, |rs|))
              && (!failed ==> out == rs && Represents(DoRecvWork(s)))
              && (failed ==> out < rs && |out| < |dma| && !dma[|out|] && Unannounced(out))
      ensures failed ==> exists m :: |s.rq.log| < m <= |s.rposted| && recvProd == Index(m, recvCap)
    {
      hide Index, Consume, Update, Good, DoRecvWork, Copies, Cursor;
      RecvWorkIs(s);
      out, failed := [], false;
      ghost var c, p := |s.rq.log|, |s.rposted|;
      CursorGet(p, c, recvCap);
      CopiesAreCopies(c, p, recvCap);
      var r := Consume(recvPost, recvProd, recvCap);
      CursorIndex(r, c, p, recvCap);
      if r.idx == r.end {
        return;
      }
      while r.idx != r.end
        invariant |s.rq.log| <= c <= p <= c + recvCap && recvProd == Index(c, recvCap) && Cursor(r, c, p, recvCap)
        invariant out + Copies(c, p, recvCap) == Copies(|s.rq.log|, p, recvCap) && !Refused(dma, |out|)
        decreases p - c
      {
        CopiesStep(r, c, p, recvCap);
        ghost var x, rest := Copy(r.idx, r.end), Copies(c + (r.end - r.idx), p, recvCap);
        assert out + ([x] + rest) == (out + [x]) + rest;
        recvProd := Update(r.end, r.base, recvCap);
        c := c + (r.end - r.idx);
        if |out| < |dma| && !dma[|out|] {
          failed := true;
          return;
        }
        out := out + [Copy(r.idx, r.end)];
        CursorGet(p, c, recvCap);
        r := Consume(recvPost, recvProd, recvCap);
      }
      CursorIndex(r, c, p, recvCap);
      CopiesNone(p, recvCap);
      if |out| < |dma| && !dma[|out|] {
        failed := true;
        return;
      }
      out := out + [SetIndex(recvProd)];
    }
  }

  /** The copies that carry entries n, ..., m-1: one per contiguous part. */
  ghost function Copies(n: nat, m: nat, cap: nat): seq<Issued>
    requires Capacity(cap) && n <= m
    decreases m - n
  {
    if n == m then [] else
    var k := Min(m - n, Contiguous(n, cap));
    [Copy(Slot(n, cap), Slot(n, cap) + k)] + Copies(n + k, m, cap)
  }

  /** One of the first k requests is refused. */
  ghost predicate Refused(dma: seq<bool>, k: nat) {
    exists i :: 0 <= i < k && i < |dma| && !dma[i]
  }

  ghost function PublishRecvs(n: nat, m: nat, cap: nat): seq<Issued>
    requires Capacity(cap) && n <= m
  {
    if n == m then [] else Copies(n, m, cap) + [SetIndex(Index(m, cap))]
  }

  lemma CopiesStep(r: Range, c: nat, p: nat, cap: nat)
    requires Cursor(r, c, p, cap) && r.idx != r.end
    ensures r.idx < r.end <= cap && c + (r.end - r.idx) <= p
    ensures Copies(c, p, cap) == [Copy(r.idx, r.end)] + Copies(c + (r.end - r.idx), p, cap)
    ensures Update(r.end, r.base, cap) == Index(c + (r.end - r.idx), cap)
  {
    UpdateRefines(c, r.end - r.idx, cap);
  }

  lemma {:induction false} CopiesAreCopies(n: nat, m: nat, cap: nat)
    requires Capacity(cap) && n <= m
    ensures Unannounced(Copies(n, m, cap))
    decreases m - n
  {
    if n < m {
      CopiesAreCopies(n + Min(m - n, Contiguous(n, cap)), m, cap);
    }
  }

  lemma CopiesNone(p: nat, cap: nat)
    requires Capacity(cap)
    ensures Copies(p, p, cap) == []
  {
  }

  /** The requests copy at most two parts, and land every entry that was posted exactly once. */
  lemma CopiesExact(n: nat, m: nat, cap: nat)
    requires Capacity(cap) && n <= m <= n + cap
    ensures var cs := Copies(n, m, cap);
            && |cs| <= 2
            && (forall i :: 0 <= i < |cs| ==> cs[i].Copy? && cs[i].start < cs[i].end <= cap)
            && (forall k :: n <= k < m ==> Copied(cs, Slot(k, cap)))
            && (|cs| == 2 ==> cs[1].end <= cs[0].start)
  {
    if n < m {
      var k := Min(m - n, Contiguous(n, cap));
      ContiguousEnd(n, cap);
      var cs := Copies(n, m, cap);
      if n + k < m {
        assert Copies(n + k, m, cap) == [Copy(0, m - n - k)] + Copies(m, m, cap);
      }
      forall j | n <= j < m ensures Copied(cs, Slot(j, cap)) {
        if j < n + k {
          SlotAdd(n, j - n, cap);
          assert cs[0].start <= Slot(j, cap) < cs[0].end;
        } else {
          SlotAdd(n + k, j - n - k, cap);
          assert cs[1].start <= Slot(j, cap) < cs[1].end;
        }
      }
    }
  }

  ghost predicate Copied(cs: seq<Issued>, slot: nat) {
    exists i :: 0 <= i < |cs| && cs[i].Copy? && cs[i].start <= slot < cs[i].end
  }

  lemma RecvWorkIs(s: Bounded)
    requires Good(s)
    ensures var t := DoRecvWork(s);
            && Shape(t) && t == s.(rq := s.rq.(log := t.rq.log, queue := t.rq.queue))
            && t.rq.log == s.rposted
  {
    if |s.rq.log| < |s.rposted| {
      RecvIssued(s.rq, s.rposted, |s.rdone|);
    } else {
      assert s.rq.log == s.rposted;
    }
  }

  /** The range that the indices give, cut to sixteen entries, is the batch. */
  lemma RemoteRange(s: Bounded)
    ensures var r := Consume(Index(s.sq.word, s.sq.cap), Index(|s.cq.log|, s.sq.cap), s.sq.cap);
            && r.idx == Slot(|s.cq.log|, s.sq.cap) && r.base == Base(|s.cq.log|, s.sq.cap)
            && (r.idx == r.end <==> RemoteBatch(s) == 0)
            && r.idx + BATCH < U32
            && (if r.end <= r.idx + BATCH then r.end else r.idx + BATCH) == r.idx + RemoteBatch(s) <= s.sq.cap
  {
    ConsumeRefines(s.sq.word, |s.cq.log|, s.sq.cap);
  }

  ghost function PassOver(s: Bounded): (x: Pass)
    ensures x.start == Slot(|s.cq.log|, s.sq.cap) && x.end == x.start + RemoteBatch(s)
  {
    var at := Slot(|s.cq.log|, s.sq.cap);
    Start(s.sq.dst, s.cq.src, at, at + RemoteBatch(s), s.rq.src, s.rcqe, |s.rdone|, |s.rq.log|)
  }

  /** The state after a pass, in terms of the slots the code works on. */
  lemma AfterReceivesIs(s: Bounded)
    ensures var at, p := Slot(|s.cq.log|, s.sq.cap), RecvPassOf(s, RemoteBatch(s));
            && at + |p.cqes| <= at + RemoteBatch(s) <= s.sq.cap && RemoteBatch(s) <= Contiguous(|s.cq.log|, s.sq.cap)
            && p == To(PassOver(s), at + RemoteBatch(s))
            && Update(at + |p.cqes|, Base(|s.cq.log|, s.sq.cap), s.sq.cap) == Index(|s.cq.log| + |p.cqes|, s.sq.cap)
            && var t := AfterReceives(s, p);
            && Shape(t) && t == s.(cq := t.cq, rq := s.rq.(src := t.rq.src), rcqe := t.rcqe, rdone := t.rdone)
            && Buffers(t.cq.src, t.rq.src, t.rcqe) == After(PassOver(s), p)
            && |t.cq.log| == |s.cq.log| + |p.cqes| && |t.rdone| == |s.rdone| + |p.rcqes|
            && t.cq.cap == s.cq.cap && t.cq.dst == s.cq.dst && t.cq.word == s.cq.word
  {
    hide Chain, Window, Receives, IssueAll, Update, Index, Slot, Store;
    var n, b := |s.cq.log|, RemoteBatch(s);
    var p := RecvPassOf(s, b);
    WindowContiguous(s.sq.dst, n, b);
    WindowContiguous(s.cq.src, n, b);
    IssueAllContiguous(s.cq, p.cqes);
    UpdateRefines(n, |p.cqes|, s.sq.cap);
  }
}
