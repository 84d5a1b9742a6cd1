/**
 Virtual doorbells (the inline functions of ntrdma_dev.h, ntrdma_vbell.c, and
 the way ntrdma_cmd_recv_work and ntrdma_rqp_send_work use them).

 The peer publishes work, then rings a bell by writing its next sequence number,
 then raises a signal on one of several interrupt vectors.  A scan per vector
 compares the bell with the number last seen and queues the worker that waits
 for the bell.  The worker notes the number last seen, looks for work, and then
 either queues itself again or waits for a newer number.

 Bells are counted without bound; the code compares them modulo 2^32.
 */
module Vbell {

  const U32: int := 0x1_0000_0000

  /** Where the scan of a vector is; `Firing` holds the bell value that was read. */
  datatype Scan = Off | Reading | Firing(v: nat) | Checking | Resetting

  /** An interrupt vector: its doorbell bit, whether its scan is scheduled, and where that is. */
  datatype Vec = Vec(db: bool, due: bool, at: Scan)

  datatype Worker = Idle | Begun | Cleared | Finishing(got: bool)

  datatype State = State(
    rings: nat,       // work items published by the peer; each is followed by a ring and a signal
    published: nat,   // of these: landed
    bell: nat,        // rings landed
    sig: nat,         // signals landed
    vecs: seq<Vec>,
    head: nat,        // number last seen by a scan
    seen: nat,        // number last seen by the worker
    armed: bool,      // the worker waits for a newer number
    queued: bool,     // the worker is scheduled
    worker: Worker,
    consumed: nat     // work items consumed
  )

  predicate Same(a: nat, b: nat) {
    a % U32 == b % U32
  }

  function Init(n: nat): State {
    State(0, 0, 0, 0, seq(n, _ => Vec(false, false, Off)), 0, 0, true, false, Idle, 0)
  }

  datatype Event =
    | Publish
    | Land(i: nat)       // the next write of the peer lands; a signal goes to vector i
    | Interrupt(i: nat)  // a signal that belongs to another bell
    | Start(i: nat) | Look(i: nat) | Fire(i: nat) | Check(i: nat) | Reset(i: nat)
    | Trigger            // the worker is queued by its own node
    | Begin | Clear | Read(k: nat) | Finish

  // ---------------------------------------------------------------------
  // Steps
  // ---------------------------------------------------------------------

  /** A signal sets the doorbell bit; only a new one raises an interrupt. */
  function Raise(v: Vec): Vec {
    if v.db then v else Vec(true, true, v.at)
  }

  /** Writes of the peer land in order; fewer than 2^32 rings happen between two looks. */
  function LandNext(s: State, i: nat): State
    requires i < |s.vecs|
  {
    if s.sig < s.bell then s.(sig := s.sig + 1, vecs := s.vecs[i := Raise(s.vecs[i])])
    else if s.bell < s.published then
      if s.bell + 1 - s.seen < U32 then s.(bell := s.bell + 1) else s
    else if s.published < s.rings then s.(published := s.published + 1)
    else s
  }

  /** A scan found value v: everyone waiting for the bell is queued. */
  function FireHead(s: State, v: nat): State {
    if Same(s.head, v) then s
    else if s.armed then s.(head := v, armed := false, seen := v, queued := true)
    else s.(head := v)
  }

  function TriggerBell(s: State): State {
    s.(armed := false, seen := s.head, queued := true)
  }

  function Readd(s: State): State {
    if s.armed then s
    else if Same(s.seen, s.head) then s.(armed := true)
    else s.(seen := s.head, queued := true)
  }

  function ScanStep(s: State, e: Event): State
    requires (e.Start? || e.Look? || e.Fire? || e.Check? || e.Reset?) && e.i < |s.vecs|
  {
    var i, v := e.i, s.vecs[e.i];
    match e
    case Start(_) => if v.due && v.at.Off? then s.(vecs := s.vecs[i := Vec(v.db, false, Reading)]) else s
    case Look(_) =>
      if v.at.Reading? then
        s.(vecs := s.vecs[i := v.(at := if Same(s.head, s.bell) then Checking else Firing(s.bell))])
      else s
    case Fire(_) => if v.at.Firing? then FireHead(s, v.at.v).(vecs := s.vecs[i := v.(at := Checking)]) else s
    case Check(_) =>
      if v.at.Checking? then s.(vecs := s.vecs[i := v.(at := if v.db then Resetting else Off)]) else s
    case Reset(_) => if v.at.Resetting? then s.(vecs := s.vecs[i := Vec(false, true, Off)]) else s
  }

  function WorkStep(s: State, e: Event): State
    requires e.Begin? || e.Clear? || e.Read? || e.Finish?
  {
    match e
    case Begin => if s.queued && s.worker.Idle? then s.(queued := false, worker := Begun) else s
    case Clear => if s.worker.Begun? then s.(seen := s.head, worker := Cleared) else s
    case Read(k) =>
      if !s.worker.Cleared? then s
      else if s.consumed >= s.published then s.(worker := Finishing(false))
      else if 1 <= k <= s.published - s.consumed then s.(consumed := s.consumed + k, worker := Finishing(true))
      else s
    case Finish =>
      if !s.worker.Finishing? then s
      else if s.worker.got then TriggerBell(s).(worker := Idle)
      else Readd(s).(worker := Idle)
  }

  function Step(s: State, e: Event): State {
    match e
    case Publish => s.(rings := s.rings + 1)
    case Trigger => TriggerBell(s)
    case Land(i) => if i < |s.vecs| then LandNext(s, i) else s
    case Interrupt(i) => if i < |s.vecs| then s.(vecs := s.vecs[i := Raise(s.vecs[i])]) else s
    case Begin => WorkStep(s, e)
    case Clear => WorkStep(s, e)
    case Read(_) => WorkStep(s, e)
    case Finish => WorkStep(s, e)
    case _ => if e.i < |s.vecs| then ScanStep(s, e) else s
  }

  function Run(n: nat, es: seq<Event>): State {
    if es == [] then Init(n) else Step(Run(n, es[..|es| - 1]), es[|es| - 1])
  }

  // ---------------------------------------------------------------------
  // No lost wakeup
  // ---------------------------------------------------------------------

  /** The worker is queued, or has yet to look for work, or will look again. */
  ghost predicate WillLook(s: State) {
    s.queued || s.worker.Begun? || s.worker.Cleared? || s.worker == Finishing(true)
    || (s.worker == Finishing(false) && !s.armed && !Same(s.seen, s.head))
  }

  /** The vector will still look at the bell, or has its value at hand. */
  ghost predicate WillScan(s: State, v: Vec) {
    v.due || v.at.Reading? || v.at == Firing(s.bell) || (v.db && !v.at.Off?)
  }

  /** A newer number is on its way to the worker: the ring or its signal, or a scan that will find it. */
  ghost predicate OnItsWay(s: State) {
    || s.sig < s.published
    || exists i :: 0 <= i < |s.vecs| && WillScan(s, s.vecs[i])
  }

  ghost predicate NotLost(s: State) {
    s.consumed < s.published ==> WillLook(s) || (s.head < s.published && OnItsWay(s))
  }

  /** Nothing is left to do: all writes landed, no scan, no work. */
  ghost predicate Quiet(s: State) {
    && s.sig == s.rings && !s.queued && s.worker.Idle?
    && forall i :: 0 <= i < |s.vecs| ==> !s.vecs[i].due && s.vecs[i].at.Off?
  }

  ghost predicate Inv(s: State) {
    && |s.vecs| == 1
    && s.sig <= s.bell <= s.published <= s.rings && s.published <= s.sig + 1
    && s.seen <= s.head <= s.bell && s.bell - s.seen < U32
    && s.consumed <= s.published
    && (s.armed ==> s.seen == s.head)
    && (s.worker.Idle? ==> s.queued || s.armed)
    && (!s.queued && (s.worker.Idle? || s.worker == Finishing(false)) ==> s.seen <= s.consumed)
    && (var v := s.vecs[0];
        && (v.at.Firing? ==> s.head <= v.at.v <= s.bell)
        && (v.db && v.at.Off? ==> v.due)
        && (s.head < s.bell ==> s.sig < s.bell || WillScan(s, v)))
  }

  lemma SameNear(a: nat, b: nat)
    requires a <= b < a + U32
    ensures Same(a, b) <==> a == b
  {
    assert b % U32 == a % U32 ==> b - a == U32 * (b / U32 - a / U32);
  }

  lemma {:induction false} InvNotLost(s: State)
    requires Inv(s)
    ensures NotLost(s) && (Quiet(s) ==> s.consumed == s.rings)
  {
    SameNear(s.seen, s.head);
    assert WillScan(s, s.vecs[0]) ==> OnItsWay(s);
  }

  lemma {:induction false} ScanInv(s: State, e: Event)
    requires Inv(s) && (e.Start? || e.Look? || e.Fire? || e.Check? || e.Reset?) && e.i < |s.vecs|
    ensures Inv(ScanStep(s, e))
  {
    SameNear(s.head, s.bell);
    if s.vecs[0].at.Firing? {
      SameNear(s.head, s.vecs[0].at.v);
    }
  }

  lemma {:induction false} WorkInv(s: State, e: Event)
    requires Inv(s) && (e.Begin? || e.Clear? || e.Read? || e.Finish?)
    ensures Inv(WorkStep(s, e))
  {
    SameNear(s.seen, s.head);
  }

  lemma {:induction false} SignalInv(s: State, e: Event)
    requires Inv(s) && (e.Publish? || e.Trigger? || e.Land? || e.Interrupt?)
    ensures Inv(Step(s, e))
  {
    hide ScanStep, WorkStep;
  }

  lemma {:induction false} StepInv(s: State, e: Event)
    requires Inv(s)
    ensures Inv(Step(s, e))
  {
    hide Inv, ScanStep, WorkStep;
    if e.Publish? || e.Trigger? || e.Land? || e.Interrupt? {
      SignalInv(s, e);
    } else if e.Begin? || e.Clear? || e.Read? || e.Finish? {
      WorkInv(s, e);
    } else if e.i < |s.vecs| {
      ScanInv(s, e);
    }
  }

  lemma {:induction false} RunInv(es: seq<Event>)
    ensures Inv(Run(1, es))
  {
    if es != [] {
      RunInv(es[..|es| - 1]);
      StepInv(Run(1, es[..|es| - 1]), es[|es| - 1]);
    }
  }

  /**
   With one interrupt vector no wakeup is lost: work that is published and not
   consumed has the worker queued or yet to look, or a newer number on its way;
   and when nothing is left to do, everything was consumed.
   */
  lemma {:induction false} NoLostWakeup(es: seq<Event>)
    ensures NotLost(Run(1, es)) && (Quiet(Run(1, es)) ==> Run(1, es).consumed == Run(1, es).rings)
  {
    RunInv(es);
    InvNotLost(Run(1, es));
  }

  /** A look misses news exactly if a multiple of 2^32 rings happened since the last one. */
  lemma {:induction false} LookMisses(head: nat, bell: nat)
    requires head < bell
    ensures Same(head, bell) <==> (bell - head) % U32 == 0
  {
    assert bell % U32 == head % U32 ==> bell - head == U32 * (bell / U32 - head / U32);
    if (bell - head) % U32 == 0 {
      var q := (bell - head) / U32;
      assert bell == head + U32 * q;
    }
  }

  // ---------------------------------------------------------------------
  // With more vectors a wakeup can be lost
  // ---------------------------------------------------------------------

  /** The vectors, all but the first two idle. */
  function Two(n: nat, a: Vec, b: Vec): seq<Vec>
    requires n >= 2
  {
    [a, b] + seq(n - 2, _ => Vec(false, false, Off))
  }

  const None := Vec(false, false, Off)

  /** One more event of a run, and the state it leads to. */
  lemma {:induction false} Do(n: nat, es: seq<Event>, e: Event, t: State) returns (es': seq<Event>)
    requires var r := Step(Run(n, es), e); r.vecs == t.vecs && r == t.(vecs := r.vecs)
    ensures Run(n, es') == t
  {
    es' := es + [e];
    assert es'[..|es|] == es;
  }

  /** The scan of vector 0 has read the first ring and pauses before firing. */
  const PAUSED := Vec(false, false, Firing(1))

  /** Nothing has happened yet. */
  function Before(n: nat): State
    requires n >= 2
  {
    State(0, 0, 0, 0, Two(n, None, None), 0, 0, true, false, Idle, 0)
  }

  /** Vector 0 looks again. */
  function Looking(n: nat): State
    requires n >= 2
  {
    Before(n).(vecs := Two(n, Vec(false, false, Reading), None))
  }

  /** Both scans have read the first ring and not fired. */
  function Paused(n: nat): State
    requires n >= 2
  {
    Looking(n).(rings := 1, published := 1, bell := 1, sig := 1, vecs := Two(n, PAUSED, Vec(true, false, Firing(1))))
  }

  /** The worker has taken the work. */
  function Taken(n: nat): State
    requires n >= 2
  {
    Paused(n).(vecs := Two(n, PAUSED, Vec(false, false, Reading)), head := 1, seen := 1, armed := false,
               worker := Finishing(true), consumed := 1)
  }

  /** The second ring has come while the worker finishes. */
  function Rung(n: nat): State
    requires n >= 2
  {
    Taken(n).(rings := 2, published := 2, bell := 2, sig := 2, vecs := Two(n, PAUSED, Vec(true, true, Reading)),
              worker := Finishing(false))
  }

  /** The second ring is noted, and the worker not yet waiting. */
  function Noted(n: nat): State
    requires n >= 2
  {
    Rung(n).(vecs := Two(n, PAUSED, None), head := 2)
  }

  /** The worker waits as if the second ring had not come. */
  function Lost(n: nat): State
    requires n >= 2
  {
    Noted(n).(vecs := Two(n, None, None), head := 1, armed := true, worker := Idle)
  }

  /** A scan of vector 0, signalled for another bell, has cleared its doorbell bit and looks again. */
  lemma {:induction false} Lose1(n: nat, es: seq<Event>) returns (es': seq<Event>)
    requires n >= 2 && Run(n, es) == Before(n)
    ensures Run(n, es') == Looking(n)
  {
    hide Run;
    var s := Before(n);
    es' := Do(n, es, Interrupt(0), s.(vecs := Two(n, Vec(true, true, Off), None)));
    es' := Do(n, es', Start(0), s.(vecs := Two(n, Vec(true, false, Reading), None)));
    es' := Do(n, es', Look(0), s.(vecs := Two(n, Vec(true, false, Checking), None)));
    es' := Do(n, es', Check(0), s.(vecs := Two(n, Vec(true, false, Resetting), None)));
    es' := Do(n, es', Reset(0), s.(vecs := Two(n, Vec(false, true, Off), None)));
    es' := Do(n, es', Start(0), s.(vecs := Two(n, Vec(false, false, Reading), None)));
  }

  /** The first ring, with its signal on vector 1: the scan of vector 0 reads it and pauses before firing. */
  lemma {:induction false} Lose2(n: nat, es: seq<Event>) returns (es': seq<Event>)
    requires n >= 2 && Run(n, es) == Looking(n)
    ensures Run(n, es') == Paused(n)
  {
    hide Run;
    var s := Looking(n);
    es' := Do(n, es, Publish, s.(rings := 1));
    es' := Do(n, es', Land(1), s.(rings := 1, published := 1));
    es' := Do(n, es', Land(1), s.(rings := 1, published := 1, bell := 1));
    es' := Do(n, es', Land(1),
              s.(rings := 1, published := 1, bell := 1, sig := 1,
                 vecs := Two(n, Vec(false, false, Reading), Vec(true, true, Off))));
    es' := Do(n, es', Look(0),
              s.(rings := 1, published := 1, bell := 1, sig := 1, vecs := Two(n, PAUSED, Vec(true, true, Off))));
    es' := Do(n, es', Start(1),
              s.(rings := 1, published := 1, bell := 1, sig := 1, vecs := Two(n, PAUSED, Vec(true, false, Reading))));
    es' := Do(n, es', Look(1),
              s.(rings := 1, published := 1, bell := 1, sig := 1,
                 vecs := Two(n, PAUSED, Vec(true, false, Firing(1)))));
  }

  /** The scan of vector 1 fires: the worker is queued and takes the work. */
  lemma {:induction false} Lose3(n: nat, es: seq<Event>) returns (es': seq<Event>)
    requires n >= 2 && Run(n, es) == Paused(n)
    ensures Run(n, es') == Taken(n)
  {
    hide Run;
    var s := Paused(n);
    es' := Do(n, es, Fire(1),
              s.(vecs := Two(n, PAUSED, Vec(true, false, Checking)), head := 1, seen := 1, armed := false,
                 queued := true));
    es' := Do(n, es', Check(1),
              s.(vecs := Two(n, PAUSED, Vec(true, false, Resetting)), head := 1, seen := 1, armed := false,
                 queued := true));
    es' := Do(n, es', Reset(1),
              s.(vecs := Two(n, PAUSED, Vec(false, true, Off)), head := 1, seen := 1, armed := false,
                 queued := true));
    es' := Do(n, es', Start(1),
              s.(vecs := Two(n, PAUSED, Vec(false, false, Reading)), head := 1, seen := 1, armed := false,
                 queued := true));
    es' := Do(n, es', Begin,
              s.(vecs := Two(n, PAUSED, Vec(false, false, Reading)), head := 1, seen := 1, armed := false,
                 worker := Begun));
    es' := Do(n, es', Clear,
              s.(vecs := Two(n, PAUSED, Vec(false, false, Reading)), head := 1, seen := 1, armed := false,
                 worker := Cleared));
    es' := Do(n, es', Read(1),
              s.(vecs := Two(n, PAUSED, Vec(false, false, Reading)), head := 1, seen := 1, armed := false,
                 worker := Finishing(true), consumed := 1));
  }

  /** The worker looks once more and finds nothing; then the second ring comes. */
  lemma {:induction false} Lose4(n: nat, es: seq<Event>) returns (es': seq<Event>)
    requires n >= 2 && Run(n, es) == Taken(n)
    ensures Run(n, es') == Rung(n)
  {
    hide Run;
    var s := Taken(n);
    es' := Do(n, es, Finish, s.(queued := true, worker := Idle));
    es' := Do(n, es', Begin, s.(worker := Begun));
    es' := Do(n, es', Clear, s.(worker := Cleared));
    es' := Do(n, es', Read(0), s.(worker := Finishing(false)));
    es' := Do(n, es', Publish, s.(rings := 2, worker := Finishing(false)));
    es' := Do(n, es', Land(1), s.(rings := 2, published := 2, worker := Finishing(false)));
    es' := Do(n, es', Land(1), s.(rings := 2, published := 2, bell := 2, worker := Finishing(false)));
    es' := Do(n, es', Land(1),
              s.(rings := 2, published := 2, bell := 2, sig := 2, vecs := Two(n, PAUSED, Vec(true, true, Reading)),
                 worker := Finishing(false)));
  }

  /** The scan of vector 1 notes the second ring; the worker is not waiting yet. */
  lemma {:induction false} Lose5(n: nat, es: seq<Event>) returns (es': seq<Event>)
    requires n >= 2 && Run(n, es) == Rung(n)
    ensures Run(n, es') == Noted(n)
  {
    hide Run;
    var s := Rung(n);
    es' := Do(n, es, Look(1), s.(vecs := Two(n, PAUSED, Vec(true, true, Firing(2)))));
    es' := Do(n, es', Fire(1), s.(vecs := Two(n, PAUSED, Vec(true, true, Checking)), head := 2));
    es' := Do(n, es', Check(1), s.(vecs := Two(n, PAUSED, Vec(true, true, Resetting)), head := 2));
    es' := Do(n, es', Reset(1), s.(vecs := Two(n, PAUSED, Vec(false, true, Off)), head := 2));
    es' := Do(n, es', Start(1), s.(vecs := Two(n, PAUSED, Vec(false, false, Reading)), head := 2));
    es' := Do(n, es', Look(1), s.(vecs := Two(n, PAUSED, Vec(false, false, Checking)), head := 2));
    es' := Do(n, es', Check(1), s.(vecs := Two(n, PAUSED, None), head := 2));
  }

  /** The scan of vector 0 fires with the first ring, so that the worker waits as if the second had not come. */
  lemma {:induction false} Lose6(n: nat, es: seq<Event>) returns (es': seq<Event>)
    requires n >= 2 && Run(n, es) == Noted(n)
    ensures Run(n, es') == Lost(n)
  {
    hide Run;
    var s := Noted(n);
    es' := Do(n, es, Fire(0), s.(vecs := Two(n, Vec(false, false, Checking), None), head := 1));
    es' := Do(n, es', Check(0), s.(vecs := Two(n, None, None), head := 1));
    es' := Do(n, es', Finish, s.(vecs := Two(n, None, None), head := 1, armed := true, worker := Idle));
  }

  /**
   With two or more vectors a wakeup can be lost: nothing is left to do, and the
   second of two work items was never looked at.
   */
  lemma {:induction false} MoreVectorsLose(n: nat) returns (es: seq<Event>)
    requires n >= 2
    ensures Quiet(Run(n, es)) && Run(n, es).consumed == 1 && Run(n, es).rings == 2
  {
    assert Init(n).vecs == Two(n, None, None);
    es := Lose1(n, []);
    es := Lose2(n, es);
    es := Lose3(n, es);
    es := Lose4(n, es);
    es := Lose5(n, es);
    es := Lose6(n, es);
    hide Run;
  }

  /** Signals coalesce: one that finds the bit of its vector set changes nothing, any other schedules a scan. */
  lemma SignalsCoalesce(s: State, i: nat)
    requires i < |s.vecs|
    ensures var t := Step(s, Interrupt(i));
            if s.vecs[i].db then t == s
            else t == s.(vecs := t.vecs) && |t.vecs| == |s.vecs| && t.vecs[i].db && t.vecs[i].due
                 && forall k :: 0 <= k < |s.vecs| && k != i ==> t.vecs[k] == s.vecs[k]
  {
  }

  /** All work is consumed whenever nothing is left to do, exactly if there is a single vector. */
  lemma {:induction false} OnlyOneVectorIsSafe(n: nat)
    requires n >= 1
    ensures (forall es: seq<Event> :: Quiet(Run(n, es)) ==> Run(n, es).consumed == Run(n, es).rings) <==> n == 1
  {
    if n == 1 {
      forall es: seq<Event> ensures Quiet(Run(n, es)) ==> Run(n, es).consumed == Run(n, es).rings {
        NoLostWakeup(es);
      }
    } else {
      var es := MoreVectorsLose(n);
      assert Quiet(Run(n, es));
    }
  }

  // ---------------------------------------------------------------------
  // The code
  // ---------------------------------------------------------------------

  type u32 = x: int | 0 <= x < 0x1_0000_0000

  const EINVAL := 22

  /** A bell with the one worker that waits for it. */
  class Bell {
    var headSeq: u32
    var headEnabled: bool
    var noted: u32
    var arm: bool
    var enabled: bool
    var alive: bool
    var queued: bool   // the worker was handed to its queue

    ghost predicate Represents(s: State)
      reads this
    {
      headSeq == s.head % U32 && noted == s.seen % U32 && arm == s.armed && queued == s.queued
    }

    method ClearBell(ghost s: State)
      requires Represents(s) && s.worker.Begun?
      modifies this`noted
      ensures Represents(Step(s, Clear)) && noted == headSeq
    {
      noted := headSeq;
    }

    /** Wait for a newer number; a bell that was deleted refuses. */
    method ReaddBell(ghost s: State) returns (rc: int)
      requires Represents(s)
      modifies this`noted, this`arm, this`queued
      ensures if alive then rc == 0 && Represents(Readd(s)) else rc == -EINVAL && Represents(s)
      ensures alive && !old(arm) ==> arm != (old(noted) != headSeq) && noted == headSeq
      ensures queued <==> old(queued) || (alive && !old(arm) && old(noted) != headSeq)
    {
      rc := 0;
      if !alive {
        return -EINVAL;
      }
      if arm {
        return;
      }
      if noted != headSeq {
        noted := headSeq;
        queued := true;
      } else {
        arm := true;
      }
    }

    /** Queue the worker; a disabled bell refuses. */
    method TriggerNow(ghost s: State) returns (rc: int)
      requires Represents(s)
      modifies this`noted, this`arm, this`queued
      ensures if enabled then rc == 0 && Represents(TriggerBell(s)) else rc == -EINVAL && Represents(s)
      ensures enabled ==> queued && !arm && noted == headSeq
    {
      rc := 0;
      if !enabled {
        return -EINVAL;
      }
      arm := false;
      noted := headSeq;
      queued := true;
    }

    /** A scan found a new value; a disabled bell stays as it is and is not queued, a disabled head keeps its number. */
    method FireBell(val: u32, ghost s: State, ghost v: nat)
      requires Represents(s) && val == v % U32
      modifies this`headSeq, this`noted, this`arm, this`queued
      ensures if !headEnabled then Represents(s)
              else if enabled then Represents(FireHead(s, v))
              else Represents(if Same(s.head, v) then s else s.(head := v))
      ensures headSeq == if headEnabled then val else old(headSeq)
      ensures var woken := headEnabled && enabled && old(arm) && old(headSeq) != val;
              (arm <==> old(arm) && !woken) && (queued <==> old(queued) || woken) && (woken ==> noted == val)
    {
      if !headEnabled || headSeq == val {
        return;
      }
      headSeq := val;
      if arm && enabled {
        arm := false;
        noted := headSeq;
        queued := true;
      }
    }

    /** Delete the bell: from now on it is neither armed nor queued, whatever is called. */
    method DeleteBell(ghost s: State)
      requires Represents(s)
      modifies this`arm, this`enabled, this`alive
      ensures !alive && !enabled && Represents(s.(armed := false))
    {
      enabled, alive := false, false;
      arm := false;
    }
  }
}
