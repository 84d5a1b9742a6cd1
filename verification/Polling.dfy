/**
 Send completions through abort (the send completion functions of ntrdma_qp.c
 and ntrdma_poll_cq).

 Completions are polled in ring order.  A queue pair that starts aborting first
 drains what the peer has completed; once that is drained it enters abort, where
 every posted entry up to the last one is completed locally with an error.
 */
module Polling {
  import opened Ring
  import opened RemoteRing
  import opened Work
  import QueuePair

  const BATCH := 16

  /** Where a polled completion came from: the peer, the entry's own error, or the flush of an abort episode. */
  datatype Kind = Delivered | EntryError | Flushed(episode: nat)

  /** A polled completion, and how many completions of the peer had landed when it was polled. */
  datatype Polled = Polled(cqe: Cqe, kind: Kind, done: nat)

  datatype State = State(
    cap: nat,
    posted: seq<SendWqe>,   // entries posted, as they stand now
    prod: nat,              // entries sent to the peer, or passed over
    sent: nat,              // entries announced to the peer
    skipped: set<nat>,      // entries passed over by an abort or a failed pass: they were never sent
    done: nat,              // completions of the peer that have landed
    cons: nat,              // the completion index as it stands in the local buffer
    cqes: seq<Cqe>,         // the buffer the peer writes completions to
    abort: bool,
    aborting: bool,
    first: bool,            // the next flushed completion is the first of its episode
    out: seq<Polled>,       // completions polled so far; their number is the completion index
    entered: seq<nat>,      // number of completions polled when each abort episode began
    landed: seq<nat>,       // completions of the peer that had landed by then
    left: seq<nat>          // number of completions polled when it ended
  )

  type Shaped = s: State | Capacity(s.cap) && |s.cqes| == s.cap ghost witness Fresh(1)

  function Fresh(cap: nat): State {
    State(cap, [], 0, 0, {}, 0, 0, seq(cap, _ => ZeroCqe), false, false, false, [], [], [], [])
  }

  // ---------------------------------------------------------------------
  // Steps
  // ---------------------------------------------------------------------

  /** The range that a look finds in the ring, from the indices as they stand. */
  ghost function Look(s: Shaped): Range {
    Consume(Index(s.cons, s.cap), Index(|s.out|, s.cap), s.cap)
  }

  /** A look finds nothing. */
  ghost predicate Drained(s: Shaped) {
    Look(s).idx == Look(s).end
  }

  /** The numbers from a to b - 1. */
  function Numbers(a: nat, b: nat): (r: set<nat>)
    ensures forall n :: n in r <==> a <= n < b
  {
    if a >= b then {} else Numbers(a, b - 1) + {b - 1}
  }

  /**
   Look for completions; an aborting queue pair with nothing left to drain enters
   abort, and one in abort passes over all posted entries.
   */
  ghost function Get(s: Shaped): (t: Shaped) {
    if s.abort then
      s.(cons := |s.posted|, prod := |s.posted|, skipped := s.skipped + Numbers(s.prod, |s.posted|))
    else if s.aborting && Drained(s) then
      s.(abort := true, first := true, entered := s.entered + [|s.out|], landed := s.landed + [s.done])
    else s
  }

  /** The start of a poll; it looks again after entering abort. */
  ghost function Begin(s: Shaped): (t: Shaped) {
    var t := Get(s);
    if Drained(t) && t.first then Get(t) else t
  }

  /** Completions that the next batch can take. */
  ghost function Batch(s: Shaped): nat {
    var r := Look(s);
    if r.idx <= r.end then Min(r.end - r.idx, BATCH) else 0
  }

  /** The next completion in ring order. */
  ghost function PollOne(s: Shaped): (t: Shaped)
    requires |s.out| < |s.posted|
  {
    var w, c := s.posted[|s.out|], s.cqes[Slot(|s.out|, s.cap)];
    if s.abort then
      var f := SendFail(w, if s.first then LocPort else Aborted);
      s.(out := s.out + [Polled(f, Flushed(Episode(s)), s.done)], first := false)
    else if !w.status.Success? then
      s.(out := s.out + [Polled(SendFail(w, w.status), EntryError, s.done)], aborting := true)
    else
      s.(out := s.out + [Polled(c, Delivered, s.done)], aborting := s.aborting || !c.status.Success?)
  }

  ghost function Episode(s: State): nat {
    if s.entered == [] then 0 else |s.entered| - 1
  }

  ghost function PollMany(s: Shaped, k: nat): (t: Shaped)
    requires |s.out| + k <= |s.posted|
    ensures |t.out| == |s.out| + k && s.out <= t.out
    ensures t == s.(out := t.out, aborting := t.aborting, first := t.first)
  {
    if k == 0 then s else PollOne(PollMany(s, k - 1))
  }

  datatype Event =
    | Post(w: SendWqe)
    | Produce(ws: seq<SendWqe>)            // entries sent, with what the send pass filled in
    | FailPass(ws: seq<SendWqe>)           // a pass that fails: its entries are filled in and not sent
    | Land(c: nat, cqes: seq<Cqe>)         // completions and the index word of the peer land
    | StartAbort
    | Clear                                // the queue pair leaves the error state
    | Poll(k: nat)                         // one batch, of which at most k are taken

  ghost predicate Refines(ws: seq<SendWqe>, posted: seq<SendWqe>, prod: nat) {
    && prod + |ws| <= |posted|
    && forall i :: 0 <= i < |ws| ==> SameRequest(posted[prod + i], ws[i])
  }

  ghost function Step(s: Shaped, e: Event): (t: Shaped) {
    match e
    case Post(w) =>
      if |s.posted| < |s.out| + s.cap then s.(posted := s.posted + [w]) else s
    case Produce(ws) =>
      if !s.abort && !s.aborting && Refines(ws, s.posted, s.prod) then
        s.(posted := s.posted[..s.prod] + ws + s.posted[s.prod + |ws|..], prod := s.prod + |ws|, sent := s.prod + |ws|)
      else s
    case FailPass(ws) =>
      if !s.abort && !s.aborting && Refines(ws, s.posted, s.prod) then
        s.(posted := s.posted[..s.prod] + ws + s.posted[s.prod + |ws|..], prod := s.prod + |ws|,
           skipped := s.skipped + Numbers(s.prod, s.prod + |ws|))
      else s
    case Land(c, cqes) =>
      if |cqes| == s.cap then s.(cons := c, done := c, cqes := cqes) else s
    case StartAbort => s.(aborting := true)
    case Clear =>
      s.(abort := false, aborting := false, left := if s.abort then s.left + [|s.out|] else s.left)
    case Poll(k) =>
      var t := Begin(s);
      if |t.out| + Min(k, Batch(t)) <= |t.posted| then PollMany(t, Min(k, Batch(t))) else t
  }

  /**
   What the peer's writes do: it completes entries it was told of, in order; it
   writes the completion of an entry that was sent to the entry's slot, and leaves
   alone those that are yet to be polled.
   */
  ghost predicate Honest(s: State, c: nat, cqes: seq<Cqe>)
    requires s.cap > 0
  {
    && s.done <= c <= s.sent && |cqes| == s.cap == |s.cqes| && c <= |s.posted|
    && forall n :: |s.out| <= n < c ==>
         if n < s.done then cqes[Slot(n, s.cap)] == s.cqes[Slot(n, s.cap)]
         else n !in s.skipped ==> SameEntry(s.posted[n], cqes[Slot(n, s.cap)])
  }

  /** The index in the buffer is the peer's and not behind what was polled, or exactly what was polled. */
  ghost predicate InStep(s: State) {
    |s.out| <= s.cons && (s.cons <= s.done || s.cons == |s.out|)
  }

  /**
   The peer is honest, an abort is cleared only in step, and outside abort no index
   lands that is behind what was polled, as the peer's can be after a flush.
   */
  ghost predicate Orderly(s: Shaped, e: Event) {
    match e
    case Land(c, cqes) => Honest(s, c, cqes) && (s.abort || |s.out| <= c)
    case Clear => InStep(s)
    case _ => true
  }

  // ---------------------------------------------------------------------
  // The invariant
  // ---------------------------------------------------------------------

  ghost predicate Consistent(s: State) {
    && Capacity(s.cap) && |s.cqes| == s.cap
    && Counters(s)
    && Episodes(s.entered, s.left, s.abort, |s.out|) && AllLanded(s.landed, s.entered)
    && (s.abort ==> (s.first <==> |s.out| == s.entered[Episode(s)]))
    && Waiting(s.posted, s.cqes, s.skipped, |s.out|, s.done)
    && AllRight(s.posted, s.out, s.skipped, s.entered, s.left)
  }

  /** When an episode began, no completion of the peer was waiting. */
  ghost predicate AllLanded(landed: seq<nat>, entered: seq<nat>) {
    |landed| == |entered| && forall e :: 0 <= e < |landed| ==> landed[e] <= entered[e]
  }

  /** The index in the buffer is the peer's, or one that an abort has put there. */
  ghost predicate Counters(s: State) {
    && |s.out| <= s.prod <= |s.posted| <= |s.out| + s.cap
    && s.done <= s.sent <= s.prod
    && (|| (s.cons == s.done && (s.abort || |s.out| <= s.cons))
        || (s.cons == |s.out| && s.done <= s.cons)
        || (s.abort && s.cons == s.prod))
    && forall n :: n in s.skipped ==> n < s.prod
  }

  /** The completions that landed and were not polled yet belong to their entries. */
  ghost predicate Waiting(posted: seq<SendWqe>, cqes: seq<Cqe>, skipped: set<nat>, lo: nat, hi: nat) {
    hi <= |posted| && cqes != [] &&
    forall n :: lo <= n < hi && n !in skipped ==> SameEntry(posted[n], cqes[Slot(n, |cqes|)])
  }

  /** Episodes follow each other; only the last one can be open. */
  ghost predicate Episodes(entered: seq<nat>, left: seq<nat>, open: bool, n: nat) {
    && |entered| == |left| + (if open then 1 else 0)
    && (forall e :: 0 <= e < |left| ==> entered[e] <= left[e] <= n)
    && (forall e :: 0 <= e < |entered| ==> entered[e] <= n)
    && (forall e, f :: 0 <= e < f < |entered| ==> left[e] <= entered[f])
  }

  /** Completion i belongs to episode e. */
  ghost predicate During(i: nat, e: nat, entered: seq<nat>, left: seq<nat>) {
    e < |entered| && entered[e] <= i && (e < |left| ==> i < left[e])
  }

  /**
   Completion i is right: flushed exactly within an abort episode; otherwise the
   peer had completed entry i, and the completion is that one unless the entry was
   skipped, or it is the entry's own error.
   */
  ghost predicate Right(posted: seq<SendWqe>, out: seq<Polled>, i: nat, skipped: set<nat>,
                        entered: seq<nat>, left: seq<nat>)
    requires i < |out| && i < |posted|
  {
    && (out[i].kind.Flushed? ==>
          && During(i, out[i].kind.episode, entered, left)
          && out[i].cqe == SendFail(posted[i], if i == entered[out[i].kind.episode] then LocPort else Aborted))
    && (!out[i].kind.Flushed? ==> i < out[i].done)
    && (out[i].kind.EntryError? ==>
          !posted[i].status.Success? && out[i].cqe == SendFail(posted[i], posted[i].status))
    && (out[i].kind.Delivered? ==>
          posted[i].status.Success? && (i !in skipped ==> SameEntry(posted[i], out[i].cqe)))
    && (forall e: nat :: During(i, e, entered, left) ==> out[i].kind == Flushed(e))
  }

  ghost predicate AllRight(posted: seq<SendWqe>, out: seq<Polled>, skipped: set<nat>,
                           entered: seq<nat>, left: seq<nat>) {
    && |out| <= |posted|
    && forall i :: 0 <= i < |out| ==> Right(posted, out, i, skipped, entered, left)
  }

  lemma FreshValid(cap: nat)
    requires Capacity(cap)
    ensures Consistent(Fresh(cap))
  {
  }

  lemma DuringEnter(i: nat, e: nat, entered: seq<nat>, left: seq<nat>, n: nat)
    requires |entered| == |left| && i < n
    ensures During(i, e, entered + [n], left) <==> During(i, e, entered, left)
  {
  }

  lemma DuringLeave(i: nat, e: nat, entered: seq<nat>, left: seq<nat>, n: nat)
    requires |entered| == |left| + 1 && i < n
    ensures During(i, e, entered, left + [n]) <==> During(i, e, entered, left)
  {
  }

  lemma RightEnter(posted: seq<SendWqe>, out: seq<Polled>, skipped: set<nat>, entered: seq<nat>, left: seq<nat>, n: nat)
    requires AllRight(posted, out, skipped, entered, left) && |entered| == |left| && |out| <= n
    ensures AllRight(posted, out, skipped, entered + [n], left)
  {
    forall i | 0 <= i < |out| ensures Right(posted, out, i, skipped, entered + [n], left) {
      assert Right(posted, out, i, skipped, entered, left);
      forall e: nat ensures During(i, e, entered + [n], left) <==> During(i, e, entered, left) {
        DuringEnter(i, e, entered, left, n);
      }
    }
  }

  lemma RightLeave(posted: seq<SendWqe>, out: seq<Polled>, skipped: set<nat>, entered: seq<nat>, left: seq<nat>, n: nat)
    requires AllRight(posted, out, skipped, entered, left) && |entered| == |left| + 1 && |out| <= n
    ensures AllRight(posted, out, skipped, entered, left + [n])
  {
    forall i | 0 <= i < |out| ensures Right(posted, out, i, skipped, entered, left + [n]) {
      assert Right(posted, out, i, skipped, entered, left);
      forall e: nat ensures During(i, e, entered, left + [n]) <==> During(i, e, entered, left) {
        DuringLeave(i, e, entered, left, n);
      }
    }
  }

  /** Entries behind the polled ones may change, and more may be skipped. */
  lemma RightPosted(posted: seq<SendWqe>, posted': seq<SendWqe>, out: seq<Polled>,
                    skipped: set<nat>, skipped': set<nat>, entered: seq<nat>, left: seq<nat>)
    requires AllRight(posted, out, skipped, entered, left) && skipped <= skipped'
    requires |out| <= |posted'| && forall i :: 0 <= i < |out| ==> posted'[i] == posted[i]
    ensures AllRight(posted', out, skipped', entered, left)
  {
    forall i | 0 <= i < |out| ensures Right(posted', out, i, skipped', entered, left) {
      assert Right(posted, out, i, skipped, entered, left);
    }
  }

  lemma RightNext(posted: seq<SendWqe>, out: seq<Polled>, skipped: set<nat>, entered: seq<nat>, left: seq<nat>,
                  p: Polled)
    requires AllRight(posted, out, skipped, entered, left) && |out| < |posted|
    requires Right(posted, out + [p], |out|, skipped, entered, left)
    ensures AllRight(posted, out + [p], skipped, entered, left)
  {
    forall i | 0 <= i < |out| ensures Right(posted, out + [p], i, skipped, entered, left) {
      assert Right(posted, out, i, skipped, entered, left);
    }
  }

  /** With the index at most a ring ahead, a look finds exactly what is between. */
  lemma LookIs(s: Shaped)
    requires |s.out| <= s.cons <= |s.out| + s.cap
    ensures Drained(s) <==> s.cons == |s.out|
    ensures Batch(s) == Min(Min(s.cons - |s.out|, Contiguous(|s.out|, s.cap)), BATCH)
    ensures Cursor(Look(s), |s.out|, s.cons, s.cap)
  {
    CursorGet(s.cons, |s.out|, s.cap);
    CursorIndex(Look(s), |s.out|, s.cons, s.cap);
  }

  lemma GetValid(s: State)
    requires Consistent(s)
    ensures var t := Get(s);
            && Consistent(t) && t.out == s.out && t.posted == s.posted && t.cap == s.cap && t.done == s.done
            && |t.out| <= t.cons <= |t.posted|
  {
    hide Right, Look, Waiting;
    if s.abort {
      RightPosted(s.posted, s.posted, s.out, s.skipped, Get(s).skipped, s.entered, s.left);
      WaitingLess(s.posted, s.cqes, s.skipped, Get(s).skipped, |s.out|, |s.out|, s.done);
    } else if s.aborting {
      LookIs(s);
      RightEnter(s.posted, s.out, s.skipped, s.entered, s.left, |s.out|);
    }
  }

  lemma WaitingLess(posted: seq<SendWqe>, cqes: seq<Cqe>, skipped: set<nat>, skipped': set<nat>, lo: nat, lo': nat,
                    hi: nat)
    requires Waiting(posted, cqes, skipped, lo, hi) && skipped <= skipped' && lo <= lo'
    ensures Waiting(posted, cqes, skipped', lo', hi)
  {
  }

  lemma BeginValid(s: State)
    requires Consistent(s)
    ensures var t := Begin(s);
            && Consistent(t) && t.out == s.out && t.posted == s.posted && t.cap == s.cap && t.done == s.done
            && |t.out| <= t.cons <= |t.posted|
  {
    hide Consistent, Get, Look;
    ValidCap(s);
    GetValid(s);
    GetValid(Get(s));
  }

  /** Only the last episode, if open, goes on at the end. */
  lemma DuringLast(e: nat, entered: seq<nat>, left: seq<nat>, open: bool, n: nat)
    requires Episodes(entered, left, open, n)
    ensures During(n, e, entered, left) <==> open && e == |left|
  {
  }

  lemma NextRight(s: State)
    requires Consistent(s) && |s.out| < s.cons <= |s.posted|
    ensures Right(s.posted, PollOne(s).out, |s.out|, s.skipped, s.entered, s.left)
  {
    hide AllRight;
    var t, n := PollOne(s), |s.out|;
    forall e: nat ensures During(n, e, s.entered, s.left) ==> t.out[n].kind == Flushed(e) {
      DuringLast(e, s.entered, s.left, s.abort, n);
    }
  }

  lemma PollOneValid(s: State)
    requires Consistent(s) && |s.out| < s.cons <= |s.posted|
    ensures Consistent(PollOne(s))
  {
    hide Right, Waiting;
    var t, n := PollOne(s), |s.out|;
    NextRight(s);
    RightNext(s.posted, s.out, s.skipped, s.entered, s.left, t.out[n]);
    WaitingLess(s.posted, s.cqes, s.skipped, s.skipped, n, n + 1, s.done);
    hide AllRight, Slot;
  }

  lemma {:induction false} PollManyValid(s: State, k: nat)
    requires Consistent(s) && |s.out| + k <= s.cons <= |s.posted|
    ensures Consistent(PollMany(s, k))
  {
    hide Consistent;
    ValidCap(s);
    if k > 0 {
      PollManyValid(s, k - 1);
      PollOneValid(PollMany(s, k - 1));
    }
  }

  lemma PollValid(s: State, k: nat)
    requires Consistent(s)
    ensures Consistent(Step(s, Poll(k))) && s.out <= Step(s, Poll(k)).out && Step(s, Poll(k)).done == s.done
  {
    hide Consistent, Begin, Look;
    ValidCap(s);
    BeginValid(s);
    var t := Begin(s);
    ValidCap(t);
    LookIs(t);
    hide Batch;
    PollManyValid(t, Min(k, Batch(t)));
  }

  lemma ValidCap(s: State)
    requires Consistent(s)
    ensures Capacity(s.cap) && |s.cqes| == s.cap && |s.out| <= |s.posted| <= |s.out| + s.cap
  {
  }

  lemma LandWaiting(s: State, c: nat, cqes: seq<Cqe>)
    requires s.cap > 0 && Honest(s, c, cqes) && Waiting(s.posted, s.cqes, s.skipped, |s.out|, s.done)
    ensures Waiting(s.posted, cqes, s.skipped, |s.out|, c)
  {
  }

  lemma ProduceWaiting(s: State, ws: seq<SendWqe>)
    requires Refines(ws, s.posted, s.prod) && s.done <= s.prod && Waiting(s.posted, s.cqes, s.skipped, |s.out|, s.done)
    ensures Waiting(s.posted[..s.prod] + ws + s.posted[s.prod + |ws|..], s.cqes, s.skipped, |s.out|, s.done)
  {
  }

  /** Every step keeps the invariant and takes back nothing that was polled. */
  lemma StepValid(s: State, e: Event)
    requires Consistent(s) && Orderly(s, e)
    ensures Consistent(Step(s, e)) && s.out <= Step(s, e).out
  {
    hide Right, Waiting, Begin, Batch;
    match e
    case Post(w) =>
      RightPosted(s.posted, s.posted + [w], s.out, s.skipped, s.skipped, s.entered, s.left);
      PostWaiting(s, w);
    case Produce(ws) =>
      if !s.abort && !s.aborting && Refines(ws, s.posted, s.prod) {
        RightPosted(s.posted, s.posted[..s.prod] + ws + s.posted[s.prod + |ws|..], s.out,
                    s.skipped, s.skipped, s.entered, s.left);
        ProduceWaiting(s, ws);
      }
    case FailPass(ws) => FailPassValid(s, ws);
    case Land(c, cqes) => LandWaiting(s, c, cqes);
    case Clear =>
      if s.abort {
        RightLeave(s.posted, s.out, s.skipped, s.entered, s.left, |s.out|);
      }
    case Poll(k) => PollValid(s, k);
    case StartAbort =>
  }

  lemma FailPassValid(s: State, ws: seq<SendWqe>)
    requires Consistent(s)
    ensures Consistent(Step(s, FailPass(ws))) && s.out <= Step(s, FailPass(ws)).out
  {
    hide Right, Waiting;
    var t := Step(s, FailPass(ws));
    if !s.abort && !s.aborting && Refines(ws, s.posted, s.prod) {
      RightPosted(s.posted, t.posted, s.out, s.skipped, t.skipped, s.entered, s.left);
      ProduceWaiting(s, ws);
      WaitingLess(t.posted, s.cqes, s.skipped, t.skipped, |s.out|, |s.out|, s.done);
    }
  }

  lemma PostWaiting(s: State, w: SendWqe)
    requires Waiting(s.posted, s.cqes, s.skipped, |s.out|, s.done)
    ensures Waiting(s.posted + [w], s.cqes, s.skipped, |s.out|, s.done)
  {
  }

  // ---------------------------------------------------------------------
  // Every run
  // ---------------------------------------------------------------------

  /** A run of a new queue pair; events that are not orderly do not happen. */
  ghost function Run(cap: nat, es: seq<Event>): (s: Shaped)
    requires Capacity(cap)
    ensures s.cap == cap
  {
    if es == [] then Fresh(cap)
    else
      var s, e := Run(cap, es[..|es| - 1]), es[|es| - 1];
      if Orderly(s, e) then StepCap(s, e); Step(s, e) else s
  }

  lemma StepCap(s: Shaped, e: Event)
    ensures Step(s, e).cap == s.cap
  {
  }

  lemma RunNone(cap: nat)
    requires Capacity(cap)
    ensures Run(cap, []) == Fresh(cap)
  {
  }

  lemma RunSnoc(cap: nat, es: seq<Event>, e: Event)
    requires Capacity(cap)
    ensures var s := Run(cap, es); Run(cap, es + [e]) == if Orderly(s, e) then Step(s, e) else s
  {
    hide Orderly, Step;
    assert (es + [e])[..|es|] == es;
  }

  lemma {:induction false} RunValid(cap: nat, es: seq<Event>)
    requires Capacity(cap)
    ensures Consistent(Run(cap, es))
  {
    hide Consistent, Step, Orderly;
    if es == [] {
      FreshValid(cap);
    } else {
      var s, e := Run(cap, es[..|es| - 1]), es[|es| - 1];
      RunValid(cap, es[..|es| - 1]);
      if Orderly(s, e) {
        StepValid(s, e);
      }
    }
  }

  /** What was polled stays polled: a longer run only adds completions. */
  lemma {:induction false} RunGrows(cap: nat, es: seq<Event>, n: nat)
    requires Capacity(cap) && n <= |es|
    ensures Run(cap, es[..n]).out <= Run(cap, es).out
  {
    hide Consistent, Step, Orderly;
    if n == |es| {
      assert es[..n] == es;
    } else {
      var k := |es| - 1;
      RunGrows(cap, es[..k], n);
      assert es[..k][..n] == es[..n];
      var s := Run(cap, es[..k]);
      RunValid(cap, es[..k]);
      if Orderly(s, es[k]) {
        StepValid(s, es[k]);
      }
    }
  }

  /**
   Exactly once and in post order: completion i is the one of the i-th posted
   entry.  It is flushed exactly if it was polled within an abort episode.
   Otherwise the peer had completed the entry, and the completion is the peer's or
   the entry's own error.  Only an entry that was never sent, because an abort or a
   failed pass went past it and it was not flushed either, can get a foreign one.
   */
  lemma {:induction false} ExactlyOnceInOrder(cap: nat, es: seq<Event>, i: nat)
    requires Capacity(cap) && i < |Run(cap, es).out|
    ensures var s := Run(cap, es);
            var p := s.out[i];
            && |s.out| <= |s.posted| <= |s.out| + cap
            && (p.kind.Flushed? <==> exists e: nat :: During(i, e, s.entered, s.left))
            && (!p.kind.Flushed? ==> i < p.done)
            && (p.kind.Delivered? <==> !p.kind.Flushed? && s.posted[i].status == Success)
            && (p.kind.EntryError? ==> p.cqe.status == s.posted[i].status)
            && (p.kind.Flushed? ==> p.cqe.status == LocPort || p.cqe.status == Aborted)
            && (!p.kind.Delivered? ==> p.cqe.status != Success && p.cqe.len == 0 && p.cqe.imm == 0)
            && (!p.kind.Delivered? || i !in s.skipped ==> SameEntry(s.posted[i], p.cqe))
  {
    hide Run;
    RunValid(cap, es);
    CompletionRight(Run(cap, es), i);
  }

  lemma CompletionRight(s: State, i: nat)
    requires Consistent(s) && i < |s.out|
    ensures var p := s.out[i];
            && |s.out| <= |s.posted| <= |s.out| + s.cap
            && (p.kind.Flushed? <==> exists e: nat :: During(i, e, s.entered, s.left))
            && (!p.kind.Flushed? ==> i < p.done)
            && (p.kind.Delivered? <==> !p.kind.Flushed? && s.posted[i].status == Success)
            && (p.kind.EntryError? ==> p.cqe.status == s.posted[i].status)
            && (p.kind.Flushed? ==> p.cqe.status == LocPort || p.cqe.status == Aborted)
            && (!p.kind.Delivered? ==> p.cqe.status != Success && p.cqe.len == 0 && p.cqe.imm == 0)
            && (!p.kind.Delivered? || i !in s.skipped ==> SameEntry(s.posted[i], p.cqe))
  {
    assert Right(s.posted, s.out, i, s.skipped, s.entered, s.left);
    hide During;
  }

  /**
   An abort episode reports the local port error for the entry it began with and for
   no other: every later completion of the episode has the status aborted, and no
   completion of the peer comes in between.
   */
  lemma {:induction false} OneLocPortPerEpisode(cap: nat, es: seq<Event>, i: nat, j: nat, e: nat)
    requires Capacity(cap) && i <= j < |Run(cap, es).out|
    requires Run(cap, es).out[i].kind == Flushed(e) && Run(cap, es).out[j].kind == Flushed(e)
    ensures var s := Run(cap, es);
            && e < |s.entered| && s.entered[e] <= i
            && s.out[i].cqe.status == (if i == s.entered[e] then LocPort else Aborted)
            && s.out[j].cqe.status == (if j == s.entered[e] then LocPort else Aborted)
            && s.out[i].cqe.len == 0 && s.out[i].cqe.imm == 0
            && (forall k :: i <= k <= j ==> s.out[k].kind == Flushed(e))
  {
    hide Run, Waiting, Counters;
    RunValid(cap, es);
    var s := Run(cap, es);
    assert Right(s.posted, s.out, i, s.skipped, s.entered, s.left);
    assert Right(s.posted, s.out, j, s.skipped, s.entered, s.left);
    forall k | i <= k <= j ensures s.out[k].kind == Flushed(e) {
      assert Right(s.posted, s.out, k, s.skipped, s.entered, s.left);
      assert During(k, e, s.entered, s.left);
    }
  }

  /** Completions number a, a+1, ... are successful. */
  ghost predicate AllSucceed(out: seq<Polled>, a: nat) {
    forall i :: a <= i < |out| ==> out[i].cqe.status == Success
  }

  lemma AllSucceedMore(out: seq<Polled>, out': seq<Polled>, a: nat)
    requires out <= out'
    ensures AllSucceed(out', a) <==> AllSucceed(out, a) && AllSucceed(out', if a <= |out| then |out| else a)
  {
    assert forall i :: 0 <= i < |out| ==> out'[i] == out[i];
  }

  lemma PollOneAborting(u: Shaped)
    requires |u.out| < |u.posted| && (u.abort ==> u.aborting)
    ensures var t := PollOne(u);
            && u.out <= t.out && |t.out| == |u.out| + 1 && t.abort == u.abort
            && (t.aborting <==> u.aborting || !AllSucceed(t.out, |u.out|))
  {
    hide Slot;
    assert AllSucceed(PollOne(u).out, |u.out|) <==> PollOne(u).out[|u.out|].cqe.status == Success;
  }

  lemma {:induction false} PollManyAborting(s: Shaped, k: nat)
    requires |s.out| + k <= |s.posted| && (s.abort ==> s.aborting)
    ensures var t := PollMany(s, k); t.aborting <==> s.aborting || !AllSucceed(t.out, |s.out|)
  {
    if k > 0 {
      PollManyAborting(s, k - 1);
      var u := PollMany(s, k - 1);
      var t := PollOne(u);
      assert PollMany(s, k) == t;
      PollOneAborting(u);
      hide PollMany, PollOne, AllSucceed;
      AllSucceedMore(u.out, t.out, |s.out|);
    } else {
      AllSucceedNone(s.out);
    }
  }

  lemma AbortingStep(s: Shaped, e: Event)
    requires Consistent(s) && Orderly(s, e) && (s.abort ==> s.aborting)
    ensures var t := Step(s, e);
            && (t.abort ==> t.aborting)
            && (e != Clear ==> (t.aborting <==> s.aborting || e == StartAbort || !AllSucceed(t.out, |s.out|)))
            && (e == Clear ==> !t.aborting)
  {
    hide Consistent, Look, Orderly, PollOne;
    if e.Poll? {
      ValidCap(s);
      BeginValid(s);
      var t := Begin(s);
      ValidCap(t);
      assert t.aborting == s.aborting && (t.abort ==> t.aborting);
      LookIs(t);
      hide Batch, Begin;
      PollManyAborting(t, Min(e.k, Batch(t)));
    }
  }

  /**
   An error starts an abort, and nothing else but a request does.  In every run, between
   a state that is not aborting and the next clear: the queue pair is aborting if and only
   if it was told to, or a completion with an error was polled in between.
   */
  lemma {:induction false} ErrorStartsAbort(cap: nat, es: seq<Event>, n: nat)
    requires Capacity(cap) && n <= |es| && !Run(cap, es[..n]).aborting && Clear !in es[n..]
    ensures var s := Run(cap, es);
            && (s.abort ==> s.aborting)
            && (s.aborting <==> StartAbort in es[n..] || !AllSucceed(s.out, |Run(cap, es[..n]).out|))
  {
    hide Run, Step, Orderly, Consistent, AllSucceed;
    RunAborting(cap, es);
    if n == |es| {
      assert es[..n] == es;
      AllSucceedNone(Run(cap, es).out);
    } else {
      var k := |es| - 1;
      assert es[n..] == es[..k][n..] + [es[k]] && es[..k][..n] == es[..n];
      ErrorStartsAbort(cap, es[..k], n);
      var s := Run(cap, es[..k]);
      RunLast(cap, es);
      RunValid(cap, es[..k]);
      RunGrows(cap, es[..k], n);
      if Orderly(s, es[k]) {
        AbortingStep(s, es[k]);
        StepValid(s, es[k]);
        AllSucceedMore(s.out, Step(s, es[k]).out, |Run(cap, es[..n]).out|);
      } else {
        AlwaysOrderly(s);
      }
    }
  }

  lemma AllSucceedNone(out: seq<Polled>)
    ensures AllSucceed(out, |out|)
  {
  }

  lemma AlwaysOrderly(s: Shaped)
    ensures Orderly(s, StartAbort)
  {
  }

  lemma RunLast(cap: nat, es: seq<Event>)
    requires Capacity(cap) && es != []
    ensures var s, e := Run(cap, es[..|es| - 1]), es[|es| - 1];
            Run(cap, es) == if Orderly(s, e) then Step(s, e) else s
  {
    hide Step, Orderly;
  }

  lemma {:induction false} RunAborting(cap: nat, es: seq<Event>)
    requires Capacity(cap)
    ensures Run(cap, es).abort ==> Run(cap, es).aborting
  {
    hide Run, Step, Orderly, Consistent;
    if es == [] {
      RunNone(cap);
    } else {
      var s, e := Run(cap, es[..|es| - 1]), es[|es| - 1];
      RunAborting(cap, es[..|es| - 1]);
      RunValid(cap, es[..|es| - 1]);
      RunLast(cap, es);
      if Orderly(s, e) {
        AbortingStep(s, e);
        ClearEnds(s, e);
      }
    }
  }

  lemma ClearEnds(s: Shaped, e: Event)
    ensures e == Clear ==> !Step(s, e).abort && !Step(s, e).aborting
  {
  }

  /**
   An abort flushes everything: in every run a poll of a queue pair in abort, or of an
   aborting one with nothing left to drain, finds nothing only if every posted entry has
   its completion.
   */
  lemma {:induction false} AbortFlushesAll(cap: nat, es: seq<Event>)
    requires Capacity(cap) && (Run(cap, es).abort || (Run(cap, es).aborting && Drained(Run(cap, es))))
    ensures var s := Run(cap, es);
            && Begin(s).abort && (Drained(Begin(s)) <==> |s.out| == |s.posted|)
            && Batch(Begin(s)) == Min(Min(|s.posted| - |s.out|, cap - |s.out| % cap), 16)
  {
    hide Run;
    RunValid(cap, es);
    var s := Run(cap, es);
    ValidCap(s);
    BeginFlushes(s);
    var t := Begin(s);
    hide Begin, Get, Look, Consistent;
    LookIs(t);
    SlotIsRemainder(|s.out|, cap);
  }

  /**
   What a poll takes, in every run: as many as it is allowed of what is there, up to the end
   of the ring and at most sixteen.  Outside abort that is what the peer has completed, or
   nothing if the buffer still has the index of an earlier abort.
   */
  lemma {:induction false} PollTakes(cap: nat, es: seq<Event>, k: nat)
    requires Capacity(cap)
    ensures var s, t := Run(cap, es), Step(Run(cap, es), Poll(k));
            && |t.out| == |s.out| + Min(k, Batch(Begin(s))) && s.out <= t.out
            && (!s.abort && !(s.aborting && Drained(s)) ==>
                  Batch(Begin(s)) == Min(Min(s.cons - |s.out|, cap - |s.out| % cap), 16)
                  && |s.out| <= s.cons && (s.cons == s.done || s.cons == |s.out|))
  {
    hide Run, Consistent, Step, Begin, Batch, Look, Get;
    RunValid(cap, es);
    TakesExactly(Run(cap, es), k);
    BatchOutside(Run(cap, es));
  }

  lemma TakesExactly(s: State, k: nat)
    requires Consistent(s)
    ensures Capacity(s.cap) && |s.cqes| == s.cap
    ensures var t := Step(s, Poll(k)); |t.out| == |s.out| + Min(k, Batch(Begin(s))) && s.out <= t.out
  {
    hide Consistent, Look, Begin, Get, PollOne, Slot;
    ValidCap(s);
    BeginValid(s);
    ValidCap(Begin(s));
    LookIs(Begin(s));
    hide Batch;
    PollValid(s, k);
  }

  lemma BatchOutside(s: State)
    requires Consistent(s)
    ensures Capacity(s.cap) && |s.cqes| == s.cap
    ensures !s.abort && !(s.aborting && Drained(s)) ==>
              && Batch(Begin(s)) == Min(Min(s.cons - |s.out|, s.cap - |s.out| % s.cap), 16)
              && |s.out| <= s.cons && (s.cons == s.done || s.cons == |s.out|)
  {
    hide Right, Waiting, Look, AllRight, Episodes, AllLanded;
    ValidCap(s);
    assert !s.abort ==> |s.out| <= s.cons && (s.cons == s.done || s.cons == |s.out|);
    BeginValid(s);
    hide Consistent, Counters, Begin, Batch, Get;
    if !s.abort && !(s.aborting && Drained(s)) {
      BeginStays(s);
      LookIs(Begin(s));
      SlotIsRemainder(|s.out|, s.cap);
    }
  }

  lemma BeginStays(s: Shaped)
    requires !s.abort && !(s.aborting && Drained(s))
    ensures Begin(s).cons == s.cons && Begin(s).out == s.out && Begin(s).cap == s.cap
  {
    hide Look;
  }

  lemma BeginFlushes(s: State)
    requires Consistent(s) && (s.abort || (s.aborting && Drained(s)))
    ensures var t := Begin(s);
            t.abort && t.cons == |s.posted| && t.out == s.out && t.posted == s.posted && t.cap == s.cap
  {
    ValidCap(s);
    hide Consistent, Index, Consume;
  }

  /**
   Drained before flushed: when an abort episode began, everything the peer had
   completed was polled, and everything polled outside earlier episodes came from the
   peer or was an entry's own error; an episode flushes only later entries.
   */
  lemma {:induction false} DrainedBeforeFlush(cap: nat, es: seq<Event>, e: nat, i: nat)
    requires Capacity(cap) && e < |Run(cap, es).entered| && i < |Run(cap, es).out|
    ensures var s := Run(cap, es);
            && |s.landed| == |s.entered| && s.landed[e] <= s.entered[e] <= |s.out|
            && (i < s.entered[e] && (forall f: nat :: f < e ==> !During(i, f, s.entered, s.left)) ==>
                  (s.out[i].kind.Delivered? || s.out[i].kind.EntryError?) && i < s.out[i].done)
            && (s.out[i].kind == Flushed(e) ==> s.entered[e] <= i)
  {
    hide Run, Waiting, Counters;
    RunValid(cap, es);
    var s := Run(cap, es);
    assert Right(s.posted, s.out, i, s.skipped, s.entered, s.left);
    if s.out[i].kind.Flushed? && i < s.entered[e] {
      EarlierEpisode(s.entered, s.left, s.abort, |s.out|, i, s.out[i].kind.episode, e);
    }
  }

  lemma EarlierEpisode(entered: seq<nat>, left: seq<nat>, open: bool, n: nat, i: nat, f: nat, e: nat)
    requires Episodes(entered, left, open, n) && During(i, f, entered, left) && e < |entered| && i < entered[e]
    ensures f < e
  {
  }

  // ---------------------------------------------------------------------
  // The peer is honest
  // ---------------------------------------------------------------------

  /** The completion side of the sending node of a pair. */
  ghost predicate Sees(p: State, s: QueuePair.Pair) {
    && p.cap == s.cq.cap && p.cqes == s.cq.dst && |p.out| == |s.polled| && p.done == s.cq.word
    && p.sent == |s.sq.log| <= |p.posted| && p.posted[..p.sent] == s.sq.log && p.skipped == {}
  }

  /** In every run of two nodes, what lands at the sending node is what an honest peer writes. */
  lemma {:induction false} PeerIsHonest(p: State, scap: nat, rcap: nat, es: seq<QueuePair.Event>)
    requires Capacity(scap) && Capacity(rcap) && Sees(p, QueuePair.Run(scap, rcap, es))
    ensures var t := QueuePair.Run(scap, rcap, es + [QueuePair.LandCqe]);
            Honest(p, t.cq.word, t.cq.dst)
  {
    hide QueuePair.Run, QueuePair.Good;
    QueuePair.CompletionsAwait(scap, rcap, es);
    QueuePair.CompletionsAwait(scap, rcap, es + [QueuePair.LandCqe]);
    QueuePair.LandingCompletion(scap, rcap, es);
    var s := QueuePair.Run(scap, rcap, es);
    var t := QueuePair.Run(scap, rcap, es + [QueuePair.LandCqe]);
    forall n | |p.out| <= n < t.cq.word
      ensures if n < p.done then t.cq.dst[Slot(n, p.cap)] == p.cqes[Slot(n, p.cap)]
              else SameEntry(p.posted[n], t.cq.dst[Slot(n, p.cap)])
    {
      assert t.cq.dst[Slot(n, p.cap)] == Completion(t.sq.log[n]);
      assert p.posted[..p.sent][n] == s.sq.log[n];
      if n < p.done {
        assert s.cq.dst[Slot(n, p.cap)] == Completion(s.sq.log[n]);
      }
    }
  }

  // ---------------------------------------------------------------------
  // Clearing an abort
  // ---------------------------------------------------------------------

  /** Polls of batches of these sizes, with no write of the peer in between. */
  ghost function PollAll(s: Shaped, ks: seq<nat>): (t: Shaped) {
    if ks == [] then s else Step(PollAll(s, ks[..|ks| - 1]), Poll(ks[|ks| - 1]))
  }

  /** However one polls, a look outside abort only offers entries that the peer has completed. */
  ghost predicate Sound(s: Shaped) {
    forall ks :: var u := PollAll(s, ks); !u.abort && !Drained(u) ==> |u.out| < u.done
  }

  lemma {:induction false} PollAllValid(s: State, ks: seq<nat>)
    requires Consistent(s)
    ensures Consistent(PollAll(s, ks)) && PollAll(s, ks).done == s.done
  {
    ValidCap(s);
    hide Consistent, Step;
    if ks != [] {
      PollAllValid(s, ks[..|ks| - 1]);
      PollValid(PollAll(s, ks[..|ks| - 1]), ks[|ks| - 1]);
    }
  }

  lemma InStepSound(s: State)
    requires Consistent(s)
    ensures Sound(s)
  {
    ValidCap(s);
    forall ks ensures var u := PollAll(s, ks); !u.abort && !Drained(u) ==> |u.out| < u.done {
      PollAllValid(s, ks);
      var u := PollAll(s, ks);
      if !u.abort {
        LookIs(u);
      }
    }
  }

  /** With nothing to find polling changes nothing. */
  lemma {:induction false} DrainedStays(s: Shaped, ks: seq<nat>)
    requires !s.abort && !s.aborting && Drained(s)
    ensures PollAll(s, ks) == s
  {
    hide Look;
    if ks != [] {
      DrainedStays(s, ks[..|ks| - 1]);
      var k := ks[|ks| - 1];
      assert Begin(s) == s && Batch(s) == 0;
      assert Step(s, Poll(k)) == s;
    }
  }

  /** One by one, polling reaches every number below the index in the buffer. */
  lemma {:induction false} PollOnes(s: Shaped, m: nat) returns (ks: seq<nat>)
    requires !s.abort && !s.aborting && |s.out| + m < s.cons <= |s.posted| <= |s.out| + s.cap
    ensures var u := PollAll(s, ks);
            && u == s.(out := u.out, aborting := u.aborting, first := u.first) && |u.out| == |s.out| + m
  {
    hide Look, Step;
    if m == 0 {
      ks := [];
    } else {
      var was := PollOnes(s, m - 1);
      ks := was + [1];
      assert ks[..|ks| - 1] == was;
      PollNext(PollAll(s, was));
    }
  }

  lemma PollNext(u: Shaped)
    requires !u.abort && |u.out| < u.cons <= |u.posted| <= |u.out| + u.cap
    ensures var t := Step(u, Poll(1));
            && t == u.(out := t.out, aborting := t.aborting) && |t.out| == |u.out| + 1
  {
    hide Look;
    LookIs(u);
    assert Begin(u) == u;
    hide Batch, Begin;
    assert PollMany(u, 1) == PollOne(PollMany(u, 0));
  }

  /**
   When clearing an abort is safe.  In every run: after a clear, polling reports only
   entries that the peer has completed if and only if the index in the buffer is the
   peer's and not behind what was polled, or no look finds anything.
   */
  lemma {:induction false} ClearExactly(cap: nat, es: seq<Event>)
    requires Capacity(cap) && Run(cap, es).abort
    ensures var s := Run(cap, es);
            Sound(Step(s, Clear)) <==> InStep(s) || Drained(s)
  {
    hide Run, Right, Waiting;
    RunValid(cap, es);
    var s := Run(cap, es);
    var t := Step(s, Clear);
    if InStep(s) {
      StepValid(s, Clear);
      InStepSound(t);
    } else if Drained(s) {
      forall ks ensures PollAll(t, ks) == t {
        DrainedStays(t, ks);
      }
    } else if s.cons < |s.out| || s.done <= |s.out| {
      assert PollAll(t, []) == t;
      assert !Drained(t);
    } else {
      var ks := PollOnes(t, s.done - |s.out|);
      LookIs(PollAll(t, ks));
    }
  }

  lemma {:induction false} DrainedAborts(s: Shaped, ks: seq<nat>)
    requires !s.abort && Drained(s)
    ensures PollAll(s, ks) == s || PollAll(s, ks).abort
  {
    hide Look;
    if ks != [] {
      DrainedAborts(s, ks[..|ks| - 1]);
      var u, k := PollAll(s, ks[..|ks| - 1]), ks[|ks| - 1];
      if u.abort {
        AbortStays(u, k);
      } else if s.aborting {
        assert Get(s).abort;
        AbortStays(s, k);
      } else {
        assert Begin(s) == s && Batch(s) == 0;
        assert Step(s, Poll(k)) == s;
      }
    }
  }

  lemma AbortStays(s: Shaped, k: nat)
    requires s.abort || Get(s).abort
    ensures Step(s, Poll(k)).abort
  {
    hide Look;
    assert Begin(s).abort;
    hide Begin, Batch;
  }

  /**
   The other step that breaks a queue pair.  In every run outside abort: after an index
   of the honest peer lands, polling reports only entries that the peer has completed if
   and only if the index is not behind what was polled, or no look finds anything.
   */
  lemma {:induction false} LandExactly(cap: nat, es: seq<Event>, c: nat, cqes: seq<Cqe>)
    requires Capacity(cap) && !Run(cap, es).abort && Honest(Run(cap, es), c, cqes)
    ensures var s := Run(cap, es);
            var t := Step(s, Land(c, cqes));
            Sound(t) <==> |s.out| <= c || Drained(t)
  {
    hide Run, Right, Waiting, Honest;
    RunValid(cap, es);
    var s := Run(cap, es);
    var t := Step(s, Land(c, cqes));
    assert t == s.(cons := c, done := c, cqes := cqes) by { HonestSize(s, c, cqes); }
    if |s.out| <= c {
      StepValid(s, Land(c, cqes));
      InStepSound(t);
    } else if Drained(t) {
      forall ks ensures PollAll(t, ks) == t || PollAll(t, ks).abort {
        DrainedAborts(t, ks);
      }
    } else {
      assert PollAll(t, []) == t;
    }
  }

  lemma HonestSize(s: State, c: nat, cqes: seq<Cqe>)
    requires s.cap > 0 && Honest(s, c, cqes)
    ensures |cqes| == s.cap
  {
  }

  const W := SendWqe(1, Send, Success, 0, 0, 0, true)

  /**
   An entry that an abort passed over and that was not flushed before the clear gets
   whatever the peer makes of the slot it was never sent in.
   */
  lemma SkippedGetsForeign()
    ensures var s := Run(2, [Post(W), StartAbort, Poll(0), Land(0, ZEROS), Clear,
                             Post(W), Produce([W]), Land(1, ZEROS), Poll(1)]);
            && 0 in s.skipped && s.posted == [W, W] && |s.out| == 1
            && s.out[0].kind.Delivered? && !SameEntry(s.posted[0], s.out[0].cqe)
  {
    hide Run, Look, Begin, Batch;
    var e2 := [Post(W)] + [StartAbort];
    var s2: Shaped := Fresh(2).(posted := [W], aborting := true);
    assert Run(2, e2) == s2 by {
      RunNone(2);
      RunSnoc(2, [], Post(W));
      RunSnoc(2, [Post(W)], StartAbort);
      assert [] + [Post(W)] == [Post(W)];
    }
    var s3: Shaped := s2.(abort := true, first := true, entered := [0], landed := [0],
                          cons := 1, prod := 1, skipped := {0});
    PassOver(s2);
    var e5 := e2 + [Poll(0)] + [Land(0, ZEROS)] + [Clear];
    var s5: Shaped := s3.(abort := false, aborting := false, cons := 0, cqes := ZEROS, left := [0]);
    assert Run(2, e5) == s5 by {
      RunSnoc(2, e2, Poll(0));
      RunSnoc(2, e2 + [Poll(0)], Land(0, ZEROS));
      RunSnoc(2, e2 + [Poll(0)] + [Land(0, ZEROS)], Clear);
    }
    var e7 := e5 + [Post(W)] + [Produce([W])];
    var s7: Shaped := s5.(posted := [W, W], prod := 2, sent := 2);
    assert Run(2, e7) == s7 by {
      assert Refines([W], [W, W], 1);
      RunSnoc(2, e5, Post(W));
      RunSnoc(2, e5 + [Post(W)], Produce([W]));
    }
    var s8: Shaped := s7.(cons := 1, done := 1);
    RunSnoc(2, e7, Land(1, ZEROS));
    RunSnoc(2, e7 + [Land(1, ZEROS)], Poll(1));
    TakeOne(s8);
    assert e7 + [Land(1, ZEROS)] + [Poll(1)] == [Post(W), StartAbort, Poll(0), Land(0, ZEROS), Clear,
                                                 Post(W), Produce([W]), Land(1, ZEROS), Poll(1)];
  }

  const ZEROS := [ZeroCqe, ZeroCqe]

  lemma PassOver(s: Shaped)
    requires s == Fresh(2).(posted := [W], aborting := true)
    ensures Step(s, Poll(0)) ==
            s.(abort := true, first := true, entered := [0], landed := [0], cons := 1, prod := 1, skipped := {0})
  {
    var g := Get(s);
    assert g == s.(abort := true, first := true, entered := [0], landed := [0]);
    var b := Get(g);
    assert Numbers(0, 1) == {0};
    assert Begin(s) == b;
    assert PollMany(b, 0) == b;
  }

  lemma TakeOne(s: Shaped)
    requires s.cap == 2 && s.cqes == ZEROS && s.posted == [W, W]
    requires s.out == [] && s.cons == 1 && !s.abort && !s.aborting
    ensures var t := Step(s, Poll(1));
            t == s.(out := [Polled(ZeroCqe, Delivered, s.done)])
  {
    assert Look(s) == Range(0, 1, 0);
    assert Begin(s) == s && Batch(s) == 1;
    assert PollMany(s, 1) == PollOne(PollMany(s, 0));
  }

  /**
   A clear with a stale index.  Two entries are sent and flushed by an abort, then the
   peer's completion of the first one lands; after the clear the next look offers a
   third completion, for an entry that was never posted.
   */
  lemma StaleIndexReports()
    ensures var s := Run(2, [Post(W), Post(W), Produce([W, W]), StartAbort, Poll(2),
                            Land(1, [Completion(W), ZeroCqe])]);
            var t := Step(s, Clear);
            && s.abort && s.cons == 1 && |s.out| == 2
            && !t.abort && !Drained(Begin(t)) && |t.out| == |t.posted| == 2 && t.done == 1
  {
    hide Run, Look, Begin, Batch, Honest;
    var e2 := [Post(W), Post(W)];
    var s2: Shaped := Fresh(2).(posted := [W, W]);
    assert Run(2, e2) == s2 by {
      RunNone(2);
      RunSnoc(2, [], Post(W));
      RunSnoc(2, [Post(W)], Post(W));
      assert [] + [Post(W)] == [Post(W)] && [Post(W)] + [Post(W)] == e2;
    }
    var e4 := e2 + [Produce([W, W])] + [StartAbort];
    var s4: Shaped := s2.(prod := 2, sent := 2, aborting := true);
    assert Run(2, e4) == s4 by {
      assert Refines([W, W], [W, W], 0);
      RunSnoc(2, e2, Produce([W, W]));
      RunSnoc(2, e2 + [Produce([W, W])], StartAbort);
    }
    var t := Step(s4, Poll(2));
    FlushBoth(s4);
    var land := Land(1, [Completion(W), ZeroCqe]);
    assert Run(2, e4 + [Poll(2)] + [land]) == t.(cons := 1, done := 1, cqes := land.cqes) by {
      RunSnoc(2, e4, Poll(2));
      RunSnoc(2, e4 + [Poll(2)], land);
      LandFirst(t, land.cqes);
    }
    assert e4 + [Poll(2)] + [land] == [Post(W), Post(W), Produce([W, W]), StartAbort, Poll(2), land];
    StaleLook(t.(cons := 1, done := 1, cqes := land.cqes, abort := false, aborting := false, left := t.left + [2]));
  }

  lemma LandFirst(t: Shaped, cqes: seq<Cqe>)
    requires t.cap == 2 == |cqes| && |t.out| == 2 == |t.posted| && t.done == 0 && t.sent == 2
    ensures Honest(t, 1, cqes)
  {
  }

  lemma StaleLook(t: Shaped)
    requires t.cap == 2 == |t.out| && t.cons == 1 && !t.abort && !t.aborting
    ensures !Drained(Begin(t))
  {
    assert Look(t) == Range(0, 2, 2);
  }

  /**
   A recovery that goes wrong.  An entry is sent and flushed, the abort is cleared in
   step, and then the index of the peer, who has completed nothing, lands again: the next
   look offers a second completion, for an entry that was never posted.
   */
  lemma LateLandReports()
    ensures var s := Run(1, [Post(W), Produce([W]), StartAbort, Poll(1), Clear]);
            var t := Step(s, Land(0, [ZeroCqe]));
            && !s.abort && s.cons == |s.out| == 1 && s.done == 0 && Honest(s, 0, [ZeroCqe])
            && !t.abort && !Drained(Begin(t)) && |t.out| == |t.posted| == 1 && t.done == 0
  {
    hide Run, Look, Begin, Batch;
    var e3 := [Post(W)] + [Produce([W])] + [StartAbort];
    var s3: Shaped := Fresh(1).(posted := [W], prod := 1, sent := 1, aborting := true);
    assert Run(1, e3) == s3 by {
      assert Refines([W], [W], 0);
      RunNone(1);
      RunSnoc(1, [], Post(W));
      RunSnoc(1, [Post(W)], Produce([W]));
      RunSnoc(1, [Post(W)] + [Produce([W])], StartAbort);
      assert [] + [Post(W)] == [Post(W)];
    }
    FlushOne(s3);
    RunSnoc(1, e3, Poll(1));
    RunSnoc(1, e3 + [Poll(1)], Clear);
    assert e3 + [Poll(1)] + [Clear] == [Post(W), Produce([W]), StartAbort, Poll(1), Clear];
    var s := Run(1, e3 + [Poll(1)] + [Clear]);
    LateLook(Step(s, Land(0, [ZeroCqe])));
  }

  lemma FlushOne(s: Shaped)
    requires s.cap == 1 && s.posted == [W] && s.prod == s.sent == 1 && s.done == s.cons == 0 && s.out == []
    requires s.aborting && !s.abort && s.skipped == {}
    ensures var t := Step(s, Poll(1));
            && t.abort && |t.out| == 1 == t.cons && t.posted == s.posted && t.done == 0 && t.sent == 1 && t.cap == 1
  {
    var b := Get(Get(s));
    assert Begin(s) == b && b.cons == 1;
    assert Look(b) == Range(0, 1, 0);
    assert PollMany(b, 1) == PollOne(PollMany(b, 0));
  }

  lemma LateLook(t: Shaped)
    requires t.cap == 1 == |t.out| && t.cons == 0 && !t.abort && !t.aborting
    ensures !Drained(Begin(t))
  {
    assert Look(t) == Range(0, 1, 1);
  }

  lemma FlushBoth(s: Shaped)
    requires s.cap == 2 && s.posted == [W, W] && s.prod == s.sent == 2 && s.done == s.cons == 0 && s.out == []
    requires s.aborting && !s.abort && s.skipped == {}
    ensures var t := Step(s, Poll(2));
            && t.abort && |t.out| == 2 && t.posted == s.posted && t.done == 0 && t.sent == 2 && t.skipped == {}
            && t.cap == 2
  {
    var g := Get(s);
    assert g.abort && g.first && g.cons == 0;
    var b := Get(g);
    assert Begin(s) == b && b.cons == 2 && b.skipped == {};
    assert Look(b) == Range(0, 2, 0);
  }

  // ---------------------------------------------------------------------
  // The code
  // ---------------------------------------------------------------------

  /** Completions that are reported: all but those of writes and sends that did not ask for one. */
  predicate Reports(c: Cqe) {
    !PushData(c.op) || c.signaled
  }

  function Reported(ps: seq<Polled>): (r: seq<Cqe>)
    ensures |r| <= |ps|
  {
    if ps == [] then [] else
    var p := ps[|ps| - 1];
    Reported(ps[..|ps| - 1]) + if Reports(p.cqe) then [p.cqe] else []
  }

  lemma ReportedSnoc(ps: seq<Polled>, p: Polled)
    ensures Reported(ps + [p]) == Reported(ps) + if Reports(p.cqe) then [p.cqe] else []
  {
    assert (ps + [p])[..|ps|] == ps;
  }

  /**
   Completion i is reported, behind those reported before it, exactly if its entry asked
   for it or moves no data to the peer.
   */
  lemma {:induction false} ReportedExactly(ps: seq<Polled>, i: nat)
    requires i < |ps|
    ensures var c, n := ps[i].cqe, |Reported(ps[..i])|;
            && n <= |Reported(ps)| && Reported(ps[..i]) <= Reported(ps)
            && Reported(ps[..i + 1]) <= Reported(ps)
            && |Reported(ps[..i + 1])| ==
                 (if c.signaled || c.op !in {RdmaWrite, WriteImm, Send, SendImm, SendInv} then n + 1 else n)
            && (|Reported(ps[..i + 1])| == n + 1 ==> Reported(ps)[n] == c)
  {
    if i < |ps| - 1 {
      ReportedExactly(ps[..|ps| - 1], i);
      assert ps[..|ps| - 1][..i] == ps[..i] && ps[..|ps| - 1][..i + 1] == ps[..i + 1];
    } else {
      assert ps[..i + 1] == ps;
    }
  }

  class CompletionSide {
    const cap: u32
    const sendWqe: array<SendWqe>
    const sendCqe: array<Cqe>
    var sendPost: u32
    var sendProd: u32
    var sendCons: u32    // written by the peer, and by an abort
    var sendCmpl: u32
    var abort: bool
    var aborting: bool
    var first: bool

    /** All but the completion index, which is stored when a batch is done. */
    ghost predicate Holding(s: State)
      reads this, sendWqe, sendCqe
    {
      && Capacity(s.cap) && cap == s.cap == sendWqe.Length && sendCqe[..] == s.cqes
      && Holds(sendWqe[..], s.posted, |s.out|, |s.posted|)
      && sendPost == Index(|s.posted|, cap) && sendProd == Index(s.prod, cap) && sendCons == Index(s.cons, cap)
      && abort == s.abort && aborting == s.aborting && first == s.first
    }

    ghost predicate Represents(s: State)
      reads this, sendWqe, sendCqe
    {
      Holding(s) && sendCmpl == Index(|s.out|, cap)
    }

    /** The look at the indices as they stand, consistent or not. */
    method CmplGet(ghost s: Shaped) returns (r: Range)
      requires Represents(s)
      modifies this`sendProd, this`sendCons, this`abort, this`first
      ensures Represents(Get(s)) && r == Look(Get(s))
    {
      hide Index, Consume, Holds;
      if abort {
        sendCons, sendProd := sendPost, sendPost;
      }
      r := Consume(sendCons, sendCmpl, cap);
      if aborting && r.idx == r.end && !abort {
        abort, first := true, true;
      }
    }

    /**
     The start of a poll: what it finds, cut to sixteen entries.  In a consistent
     state that is the batch.
     */
    method PollStart(ghost s: Shaped) returns (r: Range, ready: bool)
      requires Represents(s)
      modifies this`sendProd, this`sendCons, this`abort, this`first
      ensures Represents(Begin(s)) && (ready <==> !Drained(Begin(s)))
      ensures var l := Look(Begin(s)); r == l.(end := Min(l.end, Wrap(l.idx + 16)))
      ensures Consistent(s) ==>
                var t := Begin(s);
                && r.idx == Slot(|t.out|, cap) && r.base == Base(|t.out|, cap) && r.end == r.idx + Batch(t) <= cap
                && (ready <==> Batch(t) != 0)
    {
      hide Consistent, Get, Holds, Look;
      r := CmplGet(s);
      if r.idx == r.end && first {
        r := CmplGet(Get(s));
      }
      ready := r.idx != r.end;
      if Consistent(s) {
        BeginValid(s);
        ValidCap(Begin(s));
        LookIs(Begin(s));
      }
      r := r.(end := Min(r.end, Wrap(r.idx + BATCH)));
    }

    method PollCqe(pos: u32, ghost s: Sane) returns (c: Cqe)
      requires Holding(s) && |s.out| < s.cons <= |s.posted| && pos == Slot(|s.out|, cap)
      modifies this`aborting, this`first
      ensures Holding(PollOne(s)) && c == PollOne(s).out[|s.out|].cqe
      ensures var w := s.posted[|s.out|];
              if s.abort then FailedEntry(w, c, if s.first then LocPort else Aborted)
              else if w.status != Success then FailedEntry(w, c, w.status)
              else c == s.cqes[Slot(|s.out|, s.cap)]
      ensures abort == old(abort) && (first <==> old(first) && !old(abort))
      ensures aborting <==> old(aborting) || (!old(abort) && c.status != Success)
    {
      PollOneValid(s);
      assert sendWqe[pos] == s.posted[|s.out|];
      hide Consistent, Index, Slot;
      var w := sendWqe[pos];
      if abort {
        c := SendFail(w, if first then LocPort else Aborted);
        first := false;
      } else if !w.status.Success? {
        aborting := true;
        c := SendFail(w, w.status);
      } else {
        c := sendCqe[pos];
        if !c.status.Success? {
          aborting := true;
        }
      }
    }

    /** Take a batch until `howmany` completions are reported. */
    method PollBatch(howmany: nat, r: Range, ghost t: Sane, ghost n0: nat, wcs: seq<Cqe>)
      returns (wcs': seq<Cqe>, pos: u32, ghost k: nat)
      requires Holding(t) && |t.out| <= t.cons <= |t.posted| && Batch(t) != 0
      requires r.idx == Slot(|t.out|, cap) && r.end == r.idx + Batch(t) <= cap
      requires n0 <= |t.out| && wcs == Reported(t.out[n0..]) && |wcs| < howmany
      modifies this`aborting, this`first
      ensures 0 < k <= Batch(t) && pos == r.idx + k && |t.out| + k <= |t.posted| && Holding(PollMany(t, k))
      ensures wcs' == Reported(PollMany(t, k).out[n0..]) && |wcs'| <= howmany
    {
      hide Consistent, Index, Slot, Reported, Reports, PollOne;
      wcs', pos, k := wcs, r.idx, 0;
      ValidCap(t);
      BatchSlots(t);
      while true
        invariant k < Batch(t) && pos == r.idx + k && Holding(PollMany(t, k))
        invariant wcs' == Reported(PollMany(t, k).out[n0..]) && |wcs'| < howmany
        decreases Batch(t) - k
      {
        ghost var u := PollMany(t, k);
        ghost var u' := PollOne(u);
        PollManyValid(t, k);
        BatchSlot(t, k);
        OneMore(u, n0);
        var c := PollCqe(pos, u);
        k := k + 1;
        if Reports(c) {
          wcs' := wcs' + [c];
        }
        pos := pos + 1;
        if |wcs'| == howmany || pos == r.end {
          break;
        }
      }
    }

    /** One batch: start a poll, take completions, store the index. */
    method PollRound(howmany: nat, ghost t: Sane, ghost n0: nat, wcs: seq<Cqe>)
      returns (more: bool, wcs': seq<Cqe>, ghost k: nat)
      requires Represents(t) && n0 <= |t.out| && wcs == Reported(t.out[n0..]) && |wcs| < howmany
      modifies this`sendProd, this`sendCons, this`sendCmpl, this`abort, this`aborting, this`first
      ensures var b := Begin(t);
              && k <= Batch(b) && (more <==> k > 0) && (!more ==> Batch(b) == 0)
              && |b.out| + k <= |b.posted| && Represents(PollMany(b, k))
              && n0 <= |b.out| && wcs' == Reported(PollMany(b, k).out[n0..]) && |wcs'| <= howmany
    {
      hide Consistent, Index, Slot, Begin, Update, Base, PollMany, Reported, Holds, Batch, Look, Drained, Get, Step;
      PollStepIs(t, 0);
      wcs', k := wcs, 0;
      var r: Range;
      r, more := PollStart(t);
      ghost var b := Begin(t);
      BeginValid(t);
      if more {
        var pos: u32;
        wcs', pos, k := PollBatch(howmany, r, b, n0, wcs);
        BatchEnd(b, k);
        sendCmpl := Update(pos, r.base, cap);
      }
    }

    /**
     Poll up to `howmany` completions of this queue pair: ks are the sizes of
     the batches taken.  What is returned is the reported part of the
     completions consumed, and fewer than asked for only if nothing is left.
     */
    method PollCq(howmany: nat, ghost s: Sane) returns (wcs: seq<Cqe>, ghost ks: seq<nat>)
      requires Represents(s)
      modifies this`sendProd, this`sendCons, this`sendCmpl, this`abort, this`aborting, this`first
      ensures var t := Polls(s, ks);
              && Represents(t) && s.out <= t.out
              && wcs == Reported(t.out[|s.out|..]) && |wcs| <= howmany
              && (|wcs| < howmany ==> Batch(t) == 0)
    {
      hide Consistent, Begin, Polls, PollMany, Reported, Batch, Look, Drained, Get, Step, Represents;
      wcs, ks := [], [];
      PollsNone(s);
      ghost var t: Sane := s;
      while |wcs| < howmany
        invariant t == Polls(s, ks) && Represents(t) && s.out <= t.out
        invariant wcs == Reported(t.out[|s.out|..]) && |wcs| <= howmany
        decreases |t.posted| - |t.out|
      {
        PollsNext(s, ks, 0);
        var more, w, k := PollRound(howmany, t, |s.out|, wcs);
        PollsNext(s, ks, k);
        wcs, ks := w, ks + [k];
        t := Polls(s, ks);
        if !more {
          return;
        }
      }
    }
  }

  type Sane = s: Shaped | Consistent(s) ghost witness Fresh(1)

  lemma PollsNone(s: Sane)
    ensures Polls(s, []) == s && Reported(s.out[|s.out|..]) == []
  {
  }

  /** The state after polling batches of these sizes. */
  ghost function Polls(s: Sane, ks: seq<nat>): (t: Sane)
    ensures s.out <= t.out
  {
    if ks == [] then s else
    var t := Polls(s, ks[..|ks| - 1]);
    StepValid(t, Poll(ks[|ks| - 1]));
    Step(t, Poll(ks[|ks| - 1]))
  }

  lemma PollsNext(s: Sane, ks: seq<nat>, k: nat)
    ensures var b := Begin(Polls(s, ks));
            && b.out == Polls(s, ks).out && b.posted == Polls(s, ks).posted
            && |b.out| <= b.cons <= |b.posted| <= |b.out| + b.cap
            && (k <= Batch(b) ==>
                  && |b.out| + k <= |b.posted| && Polls(s, ks + [k]) == PollMany(b, k)
                  && |PollMany(b, k).posted| == |b.posted| && (k == 0 ==> PollMany(b, k) == b))
  {
    assert (ks + [k])[..|ks|] == ks;
    var t := Polls(s, ks);
    PollStepIs(t, k);
    hide Consistent, Begin, Step, PollMany, Batch;
  }

  lemma PollStepIs(t: Sane, k: nat)
    ensures var b := Begin(t);
            && b.out == t.out && b.posted == t.posted
            && |b.out| <= b.cons <= |b.posted| <= |b.out| + b.cap
            && (k <= Batch(b) ==>
                  && |b.out| + k <= |b.posted| && Step(t, Poll(k)) == PollMany(b, k)
                  && |PollMany(b, k).posted| == |b.posted| && (k == 0 ==> PollMany(b, k) == b))
  {
    hide Consistent, Begin, Look;
    BeginValid(t);
    ValidCap(Begin(t));
    LookIs(Begin(t));
    hide Batch;
  }

  lemma BatchEnd(b: Shaped, k: nat)
    requires |b.out| <= b.cons <= |b.out| + b.cap && k <= Batch(b)
    ensures var at := Slot(|b.out|, b.cap);
            at + k <= b.cap && Update(at + k, Base(|b.out|, b.cap), b.cap) == Index(|b.out| + k, b.cap)
  {
    LookIs(b);
    UpdateRefines(|b.out|, k, b.cap);
  }

  lemma BatchSlots(t: Shaped)
    requires |t.out| <= t.cons <= |t.out| + t.cap
    ensures |t.out| + Batch(t) <= t.cons
  {
    LookIs(t);
  }

  lemma BatchSlot(t: Shaped, k: nat)
    requires |t.out| <= t.cons <= |t.out| + t.cap && k < Batch(t)
    ensures Slot(|t.out| + k, t.cap) == Slot(|t.out|, t.cap) + k
  {
    LookIs(t);
    SlotAdd(|t.out|, k, t.cap);
  }

  /** One more completion polled, one more reported if it asks for it. */
  lemma OneMore(u: Shaped, n0: nat)
    requires |u.out| < |u.posted| && n0 <= |u.out|
    ensures var t := PollOne(u);
            && |t.out| == |u.out| + 1
            && Reported(t.out[n0..]) ==
                 Reported(u.out[n0..]) + if Reports(t.out[|u.out|].cqe) then [t.out[|u.out|].cqe] else []
  {
    var t := PollOne(u);
    assert t.out[n0..] == u.out[n0..] + [t.out[|u.out|]];
    ReportedSnoc(u.out[n0..], t.out[|u.out|]);
  }
}
