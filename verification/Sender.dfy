/**
 The sending node's code: posting sends and the pass over the posted entries
 (ntrdma_post_send_locked, ntrdma_qp_send_work), on 32-bit ring indices and
 buffers updated in place.
 */
module Sender {
  import opened Ring
  import opened RemoteRing
  import opened Work
  import opened QueuePair

  /** What a pass starts from: the buffer, the range to handle, the receives c..p of the image. */
  datatype Start = Start(
    buf: seq<SendWqe>, start: nat, end: nat, img: seq<RecvWqe>, c: nat, p: nat, move: seq<Transfer>)

  type Pass = x: Start | x.start <= x.end <= |x.buf| && Capacity(|x.img|) && x.c <= x.p <= x.c + |x.img|
    ghost witness Start([], 0, 0, [QueuePair.NoRecv], 0, 0, [])

  /** The pass up to position `at`. */
  ghost function To(x: Pass, at: nat): (q: SendPass)
    requires x.start <= at <= x.end
    ensures |q.done| <= at - x.start && x.c + q.taken <= x.p
  {
    Sends(x.buf[x.start..x.end], Window(x.img, x.c, x.p - x.c), x.c, |x.img|, x.move, at - x.start)
  }

  /** What the entry at `at` becomes, after a pass that took the receives before number d. */
  ghost function EntryAt(x: Pass, at: nat, d: nat): Work.Sent
    requires x.start <= at < x.end && x.c <= d <= x.p
  {
    SendOne(x.buf[at], Window(x.img, d, x.p - d), d, |x.img|, Outcome(x.move, at - x.start))
  }

  lemma PassNext(x: Pass, at: nat)
    requires x.start <= at < x.end && To(x, at).v.Go?
    ensures var q, o := To(x, at), EntryAt(x, at, x.c + To(x, at).taken);
            To(x, at + 1) == SendPass(q.done + [o.w], q.taken + (if o.took then 1 else 0), o.v)
  {
    hide SendOne;
    var d := x.c + To(x, at).taken;
    assert Window(x.img, x.c, x.p - x.c)[d - x.c..] == Window(x.img, d, x.p - d);
  }

  lemma PassStop(x: Pass, at: nat)
    requires x.start <= at <= x.end && (at < x.end ==> !To(x, at).v.Go?)
    ensures To(x, x.end) == To(x, at)
  {
    if at < x.end {
      SendsStop(x.buf[x.start..x.end], Window(x.img, x.c, x.p - x.c), x.c, |x.img|, x.move,
                at - x.start, x.end - x.start);
    }
  }

  /** The pass has come to `at`. */
  ghost predicate SentUpTo(x: Pass, buf': seq<SendWqe>, at: nat, cur: Range, v: Verdict) {
    && x.start <= at <= x.end
    && |To(x, at).done| == at - x.start && v == To(x, at).v && buf' == Spliced(x.buf, x.start, To(x, at).done)
    && CursorAfter(cur, x.c + To(x, at).taken, x.p, |x.img|, !v.Abort?)
  }

  /** The entry at `at` was handled, with the receives from number d on. */
  ghost predicate EntrySent(x: Pass, buf': seq<SendWqe>, buf'': seq<SendWqe>, at: nat, d: nat, cur: Range, v: Verdict) {
    && x.start <= at < x.end && at < |buf'| && x.c <= d <= x.p
    && (buf'[at] == x.buf[at] ==>
          && v == EntryAt(x, at, d).v && buf'' == buf'[at := EntryAt(x, at, d).w]
          && CursorAfter(cur, if EntryAt(x, at, d).took then d + 1 else d, x.p, |x.img|, !v.Abort?))
  }

  lemma SentStart(x: Pass, cur: Range)
    requires Cursor(cur, x.c, x.p, |x.img|)
    ensures SentUpTo(x, x.buf, x.start, cur, Go)
  {
    CursorIndex(cur, x.c, x.p, |x.img|);
    assert Spliced(x.buf, x.start, []) == x.buf;
  }

  lemma SentCursor(x: Pass, buf': seq<SendWqe>, at: nat, cur: Range)
    requires SentUpTo(x, buf', at, cur, Go) && at < x.end
    ensures Cursor(cur, x.c + To(x, at).taken, x.p, |x.img|) && |buf'| == |x.buf| && buf'[at] == x.buf[at]
  {
  }

  lemma SentNext(x: Pass, buf': seq<SendWqe>, buf'': seq<SendWqe>, at: nat, cur: Range, cur': Range, v: Verdict)
    requires SentUpTo(x, buf', at, cur, Go) && at < x.end
    requires EntrySent(x, buf', buf'', at, x.c + To(x, at).taken, cur', v)
    ensures SentUpTo(x, buf'', at + 1, cur', v)
  {
    hide To, EntryAt, CursorAfter;
    var q, o := To(x, at), EntryAt(x, at, x.c + To(x, at).taken);
    SplicedSnoc(x.buf, x.start, q.done, o.w);
    PassNext(x, at);
  }

  /** The whole pass was done, up to position pos; recvCons counts the receives taken. */
  ghost predicate PassDone(x: Pass, buf': seq<SendWqe>, pos: nat, v: Verdict, recvCons: u32) {
    var q := To(x, x.end);
    && pos == x.start + |q.done| && v == q.v && buf' == Spliced(x.buf, x.start, q.done)
    && recvCons == Index(x.c + q.taken, |x.img|)
  }

  /** Where the loop ends, the whole pass is done. */
  lemma SentEnd(x: Pass, buf': seq<SendWqe>, at: nat, cur: Range, v: Verdict)
    requires SentUpTo(x, buf', at, cur, v) && (at == x.end || !v.Go?)
    ensures cur.idx <= |x.img| < U32 && PassDone(x, buf', at, v, Update(cur.idx, cur.base, |x.img|))
  {
    hide Cursor, To;
    PassStop(x, at);
  }

  /** The range that the indices give is the batch. */
  lemma SendRange(s: Bounded)
    ensures var r := Consume(Index(|s.posted|, s.sq.cap), Index(|s.sq.log|, s.sq.cap), s.sq.cap);
            && r.idx == Slot(|s.sq.log|, s.sq.cap) && r.end == r.idx + SendBatch(s) <= s.sq.cap
            && r.base == Base(|s.sq.log|, s.sq.cap)
  {
    ConsumeRefines(|s.posted|, |s.sq.log|, s.sq.cap);
  }

  ghost function PassOver(s: Bounded, move: seq<Transfer>): (x: Pass)
    ensures x.start == Slot(|s.sq.log|, s.sq.cap) && x.end == x.start + SendBatch(s)
  {
    var at := Slot(|s.sq.log|, s.sq.cap);
    Start(s.sq.src, at, at + SendBatch(s), s.rq.dst, s.rtaken, s.rq.word, move)
  }

  /** The state after a pass, in terms of the slots the code works on. */
  lemma AfterSendsIs(s: Bounded, move: seq<Transfer>)
    ensures var at, p := Slot(|s.sq.log|, s.sq.cap), SendPassOf(s, move, SendBatch(s));
            var t := AfterSends(s, p);
            && at + |p.done| <= at + SendBatch(s) <= s.sq.cap && SendBatch(s) <= Contiguous(|s.sq.log|, s.sq.cap)
            && p == To(PassOver(s, move), at + SendBatch(s))
            && t == s.(sq := t.sq, rtaken := s.rtaken + p.taken)
            && t.sq.src == Spliced(s.sq.src, at, p.done) && |t.sq.log| == |s.sq.log| + |p.done|
            && Shape(t) && Chain(t)
            && Update(at + |p.done|, Base(|s.sq.log|, s.sq.cap), s.sq.cap) == Index(|t.sq.log|, s.sq.cap)
  {
    hide Window, Sends, IssueAll, Update, Index, Slot, Spliced;
    var p := SendPassOf(s, move, SendBatch(s));
    WindowContiguous(s.sq.src, |s.sq.log|, SendBatch(s));
    IssueAllContiguous(s.sq, p.done);
    UpdateRefines(|s.sq.log|, |p.done|, s.sq.cap);
  }

  datatype PostResult = PostOk | RingFull | BadRequest | NotFilled

  /** What posting one request returns. */
  function PostOne(full: bool, r: Request): PostResult {
    if full then RingFull else if !Accepted(r) then BadRequest else if !r.filled then NotFilled else PostOk
  }

  ghost predicate Full(s: Pair) {
    |s.posted| >= |s.polled| + s.sq.cap
  }

  /** The requests posted one after the other. */
  ghost function PostAll(s: Bounded, rs: seq<Request>): (t: Bounded)
    ensures t.sq.cap == s.sq.cap && |t.posted| >= |s.posted|
    ensures t == s.(sq := s.sq.(src := t.sq.src), posted := t.posted)
  {
    if rs == [] then s else DoPostSend(PostAll(s, rs[..|rs| - 1]), rs[|rs| - 1])
  }

  /** All of the requests were posted. */
  ghost predicate AllPosted(s: Bounded, rs: seq<Request>) {
    rs != [] ==>
      var n := |rs| - 1;
      AllPosted(s, rs[..n]) && PostOne(Full(PostAll(s, rs[..n])), rs[n]).PostOk?
  }

  lemma AllPostedSnoc(s: Bounded, rs: seq<Request>, i: nat)
    requires i < |rs| && AllPosted(s, rs[..i]) && PostOne(Full(PostAll(s, rs[..i])), rs[i]).PostOk?
    ensures AllPosted(s, rs[..i + 1])
  {
    assert rs[..i + 1][..i] == rs[..i];
  }

  lemma PostAllSnoc(s: Bounded, rs: seq<Request>, i: nat)
    requires i < |rs|
    ensures PostAll(s, rs[..i + 1]) == DoPostSend(PostAll(s, rs[..i]), rs[i])
  {
    assert rs[..i + 1][..i] == rs[..i];
  }

  /** Position pos of the range r, fetched at number n, is where the next entry of t goes. */
  ghost predicate PostAt(t: Pair, n: nat, r: Range, pos: nat) {
    Producing(r, n, |t.posted|, |t.polled|, t.sq.cap, pos)
  }

  lemma PostStep(t: Bounded, q: Request, n: nat, r: Range, pos: nat)
    requires PostAt(t, n, r, pos) && pos < r.end
    ensures var u := DoPostSend(t, q);
            && pos < t.sq.cap && !Full(t)
            && u.sq.src == (if Accepted(q) then t.sq.src[pos := ToWqe(q)] else t.sq.src)
            && PostAt(u, n, r, if Queued(q) then pos + 1 else pos)
  {
    ProducingStep(r, n, |t.posted|, |t.polled|, t.sq.cap, pos);
  }

  lemma PostStart(t: Bounded)
    ensures var r := Produce(Index(|t.posted|, t.sq.cap), Index(|t.polled|, t.sq.cap), t.sq.cap);
            PostAt(t, |t.posted|, r, r.idx) && r.idx <= r.end && (r.idx == r.end <==> Full(t))
  {
    ProducingStart(|t.posted|, |t.polled|, t.sq.cap);
  }

  lemma PostEnd(t: Bounded, n: nat, r: Range, pos: nat)
    requires PostAt(t, n, r, pos)
    ensures pos <= t.sq.cap && Update(pos, r.base, t.sq.cap) == Index(|t.posted|, t.sq.cap)
  {
    ProducingEnd(r, n, |t.posted|, |t.polled|, t.sq.cap, pos);
  }

  class SendSide {
    const sendCap: u32
    const recvCap: u32
    const sendWqe: array<SendWqe>  // the send ring
    const recvWqe: array<RecvWqe>  // the image of the peer's receive ring
    var sendPost: u32
    var sendProd: u32
    var sendCmpl: u32
    var recvCons: u32
    var recvProd: u32              // written by the peer

    ghost predicate Represents(s: Bounded)
      reads this, sendWqe, recvWqe
    {
      && sendCap == s.sq.cap && recvCap == s.rq.cap
      && sendWqe[..] == s.sq.src && recvWqe[..] == s.rq.dst
      && sendPost == Index(|s.posted|, sendCap)
      && sendProd == Index(|s.sq.log|, sendCap)
      && sendCmpl == Index(|s.polled|, sendCap)
      && recvCons == Index(s.rtaken, recvCap)
      && recvProd == Index(s.rq.word, recvCap)
    }

    /** Take the receive at the cursor; an erroneous one ends the pass, so no new range is fetched then. */
    method TakeReceive(cur: Range, ghost c: nat, ghost p: nat) returns (r: RecvWqe, cur': Range)
      requires recvCap == recvWqe.Length && Cursor(cur, c, p, recvCap) && c < p && recvProd == Index(p, recvCap)
      modifies this`recvCons
      ensures r == recvWqe[Slot(c, recvCap)]
      ensures CursorAfter(cur', c + 1, p, recvCap, r.status.Success?)
    {
      assert cur.idx == Slot(c, recvCap);
      hide Cursor, Index, Slot, Update, Consume;
      CursorAdvance(cur, c, p, recvCap);
      CursorIndex(Advance(cur, recvProd, recvCap), c + 1, p, recvCap);
      r := recvWqe[cur.idx];
      cur' := cur.(idx := cur.idx + 1);
      if r.status.Success? && cur'.idx == cur'.end {
        recvCons := Update(cur'.idx, cur'.base, recvCap);
        cur' := Consume(recvProd, recvCons, recvCap);
      }
    }

    /** One entry of the pass: take a receive if it needs one, then move its data. */
    method SendEntry(at: u32, cur: Range, t: Transfer, ghost x: Pass, ghost d: nat)
      returns (cur': Range, v: Verdict)
      requires x.start <= at < x.end && at < sendWqe.Length && x.c <= d && t == Outcome(x.move, at - x.start)
      requires recvWqe[..] == x.img && recvCap == |x.img| && Cursor(cur, d, x.p, recvCap)
      requires recvProd == Index(x.p, recvCap)
      modifies this`recvCons, sendWqe
      ensures EntrySent(x, old(sendWqe[..]), sendWqe[..], at, d, cur', v)
    {
      CursorIndex(cur, d, x.p, recvCap);
      hide Cursor, Index, Slot, Update;
      cur', v := cur, Go;
      var w := sendWqe[at];
      if IsSend(w.op) {
        w := w.(recvKey := cur.idx + cur.base);
        if cur.idx == cur.end {
          sendWqe[at] := w.(status := FirstError(w.status, RecvMissing));
          v := Abort;
          return;
        }
        var r: RecvWqe;
        r, cur' := TakeReceive(cur, d, x.p);
        if !r.status.Success? {
          sendWqe[at] := w.(status := FirstError(w.status, r.status));
          v := Abort;
          return;
        }
      }
      if !w.status.Success? {
        v := Abort;
      } else if PushData(w.op) {
        match t {
          case Moved(len) => w := w.(len := len);
          case Again => w := w.(status := LocPort); v := Stop;
          case Failed => w := w.(status := RdmaRange); v := Abort;
        }
      }
      sendWqe[at] := w;
    }

    ghost predicate Starts(x: Pass)
      reads this, sendWqe, recvWqe
    {
      && x.buf == sendWqe[..] && x.img == recvWqe[..] && recvCap == |x.img|
      && recvCons == Index(x.c, recvCap) && recvProd == Index(x.p, recvCap)
    }

    /** The loop of the pass; ends with an entry that stops it, or at the end of the range. */
    method SendLoop(move: seq<Transfer>, start: u32, end: u32, ghost x: Pass) returns (pos: u32, v: Verdict)
      requires Starts(x) && x.start == start && x.end == end && x.move == move
      modifies this`recvCons, sendWqe
      ensures PassDone(x, sendWqe[..], pos, v, recvCons)
    {
      hide To, CursorAfter, Cursor, Consume, Update, Index, PassDone;
      CursorGet(x.p, x.c, recvCap);
      var cur := Consume(recvProd, recvCons, recvCap);
      SentStart(x, cur);
      pos, v := start, Go;
      hide SentUpTo, EntrySent;
      while pos < end && v.Go?
        invariant start <= pos <= end && SentUpTo(x, sendWqe[..], pos, cur, v)
        decreases end - pos
      {
        ghost var was, cur0 := sendWqe[..], cur;
        SentCursor(x, was, pos, cur);
        cur, v := SendEntry(pos, cur, Outcome(move, pos - start), x, x.c + To(x, pos).taken);
        SentNext(x, was, sendWqe[..], pos, cur0, cur, v);
        pos := pos + 1;
      }
      SentEnd(x, sendWqe[..], pos, cur, v);
      recvCons := Update(cur.idx, cur.base, recvCap);
    }

    /**
     The pass over the next contiguous part of the posted entries.  It ends in the state of
     the pair's step.  After an entry in error or a request that is refused the link is given
     up: this node has the entries up to that one done in its own buffer, and unless only the
     doorbell failed it announces none.
     */
    method SendWork(ghost s: Bounded, move: seq<Transfer>, dma: Dma)
      returns (out: seq<Issued>, reschedule: bool, abort: bool)
      requires Represents(s)
      modifies this`sendProd, this`recvCons, sendWqe
      ensures SendBatch(s) == 0 ==> Represents(s) && out == [] && !reschedule && !abort && DoSendWork(s, move) == s
      ensures SendBatch(s) != 0 ==>
                var p := SendPassOf(s, move, SendBatch(s));
                && Represents(AfterSends(s, p)) && reschedule == p.v.Go?
                && (abort <==> p.v.Abort? || !dma.copy || !dma.index || !dma.bell)
                && (if p.v.Abort? then out == [] && DoSendWork(s, move) == s.(fault := SenderAbort)
                    else Represents(DoSendWork(s, move)))
                && (if !p.v.Abort? && dma.copy && dma.index
                    then Publishes(out, |s.sq.log|, |p.done|, sendCap) else Unannounced(out))
    {
      out, reschedule, abort := [], false, false;
      hide SendPassOf, Slot, Index, Window, Base, Consume, Update, AfterSends, SendBatch, Spliced, To;
      SendRange(s);
      var r := Consume(sendPost, sendProd, sendCap);
      var start: u32, end: u32, base: u32 := r.idx, r.end, r.base;
      if start == end {
        return;
      }
      AfterSendsIs(s, move);
      ghost var p := SendPassOf(s, move, SendBatch(s));
      var pos, v := SendLoop(move, start, end, PassOver(s, move));
      sendProd := Update(pos, base, sendCap);
      reschedule, abort := v.Go?, v.Abort?;
      if abort {
        return;
      }
      abort := !dma.copy || !dma.index || !dma.bell;
      if dma.copy {
        out := [Copy(start, pos)] + if dma.index then [SetIndex(sendProd)] else [];
      }
    }

    /** What stays of Represents while a posting range is held. */
    ghost predicate Posting(t: Bounded)
      reads this, sendWqe, recvWqe
    {
      && sendCap == t.sq.cap && recvCap == t.rq.cap
      && sendWqe[..] == t.sq.src && recvWqe[..] == t.rq.dst
      && sendProd == Index(|t.sq.log|, sendCap)
      && sendCmpl == Index(|t.polled|, sendCap)
      && recvCons == Index(t.rtaken, recvCap)
      && recvProd == Index(t.rq.word, recvCap)
    }

    /** Fill the range with requests from number i on. */
    method PostRange(rs: seq<Request>, i: nat, r: Range, ghost s: Bounded)
      returns (j: nat, pos: u32, rc: PostResult)
      requires i < |rs| && Posting(PostAll(s, rs[..i])) && AllPosted(s, rs[..i])
      requires PostAt(PostAll(s, rs[..i]), |PostAll(s, rs[..i]).posted|, r, r.idx) && r.idx < r.end
      modifies sendWqe
      ensures i <= j <= |rs| && AllPosted(s, rs[..j]) && (rc.PostOk? ==> i < j)
      ensures !rc.PostOk? ==> j < |rs| && rc == PostOne(Full(PostAll(s, rs[..j])), rs[j])
      ensures var t := PostAll(s, rs[..if rc.PostOk? then j else j + 1]);
              Posting(t) && PostAt(t, |PostAll(s, rs[..i]).posted|, r, pos)
    {
      hide PostAll, AllPosted, PostAt, Full, Index, DoPostSend;
      ghost var n := |PostAll(s, rs[..i]).posted|;
      j, pos, rc := i, r.idx, PostOk;
      while true
        invariant i <= j < |rs| && pos < r.end && rc.PostOk?
        invariant AllPosted(s, rs[..j]) && Posting(PostAll(s, rs[..j])) && PostAt(PostAll(s, rs[..j]), n, r, pos)
        decreases |rs| - j
      {
        ghost var t := PostAll(s, rs[..j]);
        PostStep(t, rs[j], n, r, pos);
        PostAllSnoc(s, rs, j);
        if !rs[j].fits || !Postable(rs[j].op) {
          rc := BadRequest;
          break;
        }
        sendWqe[pos] := ToWqe(rs[j]);
        if !rs[j].filled {
          rc := NotFilled;
          break;
        }
        if !rs[j].op.RdmaWrite? || rs[j].signaled {
          pos := pos + 1;
        }
        AllPostedSnoc(s, rs, j);
        j := j + 1;
        if j == |rs| || pos == r.end {
          break;
        }
      }
    }

    /** What was posted of the first requests, and how posting ended. */
    ghost predicate Posted(rs: seq<Request>, s: Bounded, bad: nat, rc: PostResult)
      reads this, sendWqe, recvWqe
    {
      && bad <= |rs| && AllPosted(s, rs[..bad])
      && (if rc.PostOk? then Represents(PostAll(s, rs[..bad]))
          else
            && bad < |rs| && rc == PostOne(Full(PostAll(s, rs[..bad])), rs[bad])
            && Represents(PostAll(s, rs[..bad + 1])))
    }

    /** Post into the next free range. */
    method PostRound(rs: seq<Request>, i: nat, ghost s: Bounded) returns (rc: PostResult, j: nat)
      requires Posted(rs, s, i, PostOk) && i < |rs|
      modifies this`sendPost, sendWqe
      ensures Posted(rs, s, j, rc) && i <= j && (rc.PostOk? ==> i < j)
    {
      hide PostAt, Full, Index, DoPostSend, Produce, Update, PostOne, PostAll, AllPosted;
      ghost var t := PostAll(s, rs[..i]);
      PostStart(t);
      var r := Produce(sendPost, sendCmpl, sendCap);
      if r.idx == r.end {
        FullKeeps(s, rs, i);
        return RingFull, i;
      }
      var pos: u32;
      j, pos, rc := PostRange(rs, i, r, s);
      PostEnd(PostAll(s, rs[..if rc.PostOk? then j else j + 1]), |t.posted|, r, pos);
      sendPost := Update(pos, r.base, sendCap);
    }

    /**
     Post a list of requests.  Exactly the longest prefix that fits and can be
     filled in is posted; `bad` is the number of the first request that is not.
     */
    method PostSend(rs: seq<Request>, ghost s: Bounded) returns (rc: PostResult, bad: nat)
      requires Represents(s)
      modifies this`sendPost, sendWqe
      ensures bad <= |rs| && AllPosted(s, rs[..bad]) && (rc.PostOk? <==> bad == |rs|)
      ensures rc.PostOk? ==> Represents(PostAll(s, rs))
      ensures !rc.PostOk? ==>
                && Represents(PostAll(s, rs[..bad + 1]))
                && Refused(PostAll(s, rs[..bad]), rs[bad], rc)
      ensures forall i :: 0 <= i < bad ==> CanPost(rs[i]) && rs[i].filled
    {
      hide PostAll, AllPosted, Represents, PostOne, CanPost, Full, Refused;
      rc, bad := PostOk, 0;
      PostNone(s, rs);
      while bad < |rs|
        invariant rc.PostOk? && Posted(rs, s, bad, rc)
        decreases |rs| - bad
      {
        rc, bad := PostRound(rs, bad, s);
        if !rc.PostOk? {
          AllCanPost(s, rs, bad);
          PostOneIs(PostAll(s, rs[..bad]), rs[bad]);
          return;
        }
      }
      assert rs[..bad] == rs;
      AllCanPost(s, rs, bad);
    }
  }

  /** The request has no more segments than fit, and an opcode that can be posted. */
  ghost predicate CanPost(r: Request) {
    r.fits && r.op in {RdmaWrite, WriteImm, Send, SendImm, RdmaRead}
  }

  /** Why a request was not posted: the ring is full, it cannot be posted at all, or it cannot be filled in. */
  ghost predicate Refused(t: Pair, r: Request, why: PostResult) {
    var full := |t.posted| >= |t.polled| + t.sq.cap;
    why == if full then RingFull else if !CanPost(r) then BadRequest else NotFilled
  }

  lemma PostOneIs(t: Pair, r: Request)
    ensures PostOne(Full(t), r).PostOk? || Refused(t, r, PostOne(Full(t), r))
    ensures PostOne(Full(t), r).PostOk? ==> CanPost(r) && r.filled && |t.posted| < |t.polled| + t.sq.cap
  {
  }

  lemma {:induction false} AllCanPost(s: Bounded, rs: seq<Request>, n: nat)
    requires n <= |rs| && AllPosted(s, rs[..n])
    ensures forall i :: 0 <= i < n ==> CanPost(rs[i]) && rs[i].filled
  {
    if n > 0 {
      assert rs[..n][..n - 1] == rs[..n - 1];
      AllCanPost(s, rs, n - 1);
    }
  }

  lemma PostNone(s: Bounded, rs: seq<Request>)
    ensures PostAll(s, rs[..0]) == s && AllPosted(s, rs[..0])
  {
  }

  lemma FullKeeps(s: Bounded, rs: seq<Request>, i: nat)
    requires i < |rs| && Full(PostAll(s, rs[..i]))
    ensures PostAll(s, rs[..i + 1]) == PostAll(s, rs[..i]) && PostOne(Full(PostAll(s, rs[..i])), rs[i]) == RingFull
  {
    PostAllSnoc(s, rs, i);
  }
}
