/**
 Completion queues (ntrdma_cq.c): the list of pollers is rotated so that each one
 is served in turn, and notifications are matched with requests for them.
 */
module Cq {

  // ---------------------------------------------------------------------
  // Rotation
  // ---------------------------------------------------------------------

  /** The list with its first k + 1 elements moved to the end. */
  function Rotated(polls: seq<nat>, k: nat): seq<nat>
    requires k < |polls|
  {
    polls[k + 1..] + polls[..k + 1]
  }

  /** The first poller that is ready, or the length of the list. */
  function FirstReady(polls: seq<nat>, ready: set<nat>): (k: nat)
    ensures k <= |polls| && (k < |polls| ==> polls[k] in ready) && forall i :: 0 <= i < k ==> polls[i] !in ready
  {
    if polls == [] || polls[0] in ready then 0 else 1 + FirstReady(polls[1..], ready)
  }

  /** The list after a get. */
  function AfterGet(polls: seq<nat>, ready: set<nat>): seq<nat> {
    var k := FirstReady(polls, ready);
    if k < |polls| then Rotated(polls, k) else polls
  }

  class PollList {
    var polls: seq<nat>

    /**
     Ask the pollers in turn for completions; each names its queue pair, so one that
     has none is passed over.  The first one that has some is
     moved to the end of the list, where put and cqe find it.
     */
    method CmplGet(ready: set<nat>) returns (found: bool)
      modifies this
      ensures polls == AfterGet(old(polls), ready)
      ensures found <==> exists p :: p in old(polls) && p in ready
      ensures found ==> Last() == old(polls)[FirstReady(old(polls), ready)]
    {
      var k := 0;
      while k < |polls| && polls[k] !in ready
        invariant 0 <= k <= |polls| && polls == old(polls)
        invariant forall i :: 0 <= i < k ==> polls[i] !in ready
      {
        k := k + 1;
      }
      FirstIs(polls, ready, k);
      found := k < |polls|;
      if found {
        polls := polls[k + 1..] + polls[..k + 1];
      }
    }

    /** The poller that put and cqe address. */
    function Last(): nat
      reads this
    {
      if polls == [] then 0 else polls[|polls| - 1]
    }
  }

  lemma {:induction false} FirstIs(polls: seq<nat>, ready: set<nat>, k: nat)
    requires k <= |polls| && (k < |polls| ==> polls[k] in ready) && forall i :: 0 <= i < k ==> polls[i] !in ready
    ensures FirstReady(polls, ready) == k
  {
    if 0 < k {
      FirstIs(polls[1..], ready, k - 1);
    }
  }

  /** The list after n gets, each with its own set of ready pollers. */
  function AfterGets(polls: seq<nat>, readies: seq<set<nat>>): (r: seq<nat>)
    ensures |r| == |polls|
  {
    if readies == [] then polls else AfterGet(AfterGets(polls, readies[..|readies| - 1]), readies[|readies| - 1])
  }

  /** Get number i picks poller p. */
  ghost predicate Serves(polls: seq<nat>, readies: seq<set<nat>>, i: nat, p: nat)
    requires i < |readies|
  {
    var l := AfterGets(polls, readies[..i]);
    var k := FirstReady(l, readies[i]);
    k < |l| && l[k] == p
  }

  /** A get that does not pick a ready poller brings it closer to the front. */
  lemma CloserToFront(polls: seq<nat>, ready: set<nat>, j: nat)
    requires j < |polls| && polls[j] in ready
    ensures var k := FirstReady(polls, ready);
            && k <= j
            && (k == j || AfterGet(polls, ready)[j - k - 1] == polls[j])
  {
  }

  lemma {:induction false} WaitsLess(polls: seq<nat>, readies: seq<set<nat>>, j: nat) returns (j': nat)
    requires j < |polls| && |readies| <= j
    requires forall i :: 0 <= i < |readies| ==> polls[j] in readies[i] && !Serves(polls, readies, i, polls[j])
    ensures j' + |readies| <= j && AfterGets(polls, readies)[j'] == polls[j]
  {
    if readies == [] {
      j' := j;
    } else {
      var n := |readies| - 1;
      var p := polls[j];
      forall i | 0 <= i < n ensures p in readies[..n][i] && !Serves(polls, readies[..n], i, p) {
        assert readies[..n][..i] == readies[..i];
        assert !Serves(polls, readies, i, p);
      }
      var m := WaitsLess(polls, readies[..n], j);
      var l := AfterGets(polls, readies[..n]);
      assert !Serves(polls, readies, n, p);
      CloserToFront(l, readies[n], m);
      var k := FirstReady(l, readies[n]);
      j' := m - k - 1;
    }
  }

  /** A poller that stays ready is served within as many gets as there are pollers. */
  lemma ServedInTurn(polls: seq<nat>, readies: seq<set<nat>>, j: nat)
    requires j < |polls| && |readies| == |polls|
    requires forall i :: 0 <= i < |readies| ==> polls[j] in readies[i]
    ensures exists i :: 0 <= i <= j && Serves(polls, readies, i, polls[j])
  {
    var p := polls[j];
    if forall i :: 0 <= i <= j ==> !Serves(polls, readies, i, p) {
      var r := readies[..j];
      forall i | 0 <= i < j ensures p in r[i] && !Serves(polls, r, i, p) {
        assert r[..i] == readies[..i];
        assert !Serves(polls, readies, i, p);
      }
      var m := WaitsLess(polls, r, j);
      CloserToFront(AfterGets(polls, r), readies[j], m);
      assert Serves(polls, readies, j, p);
    }
  }

  /** Rotating a rotation gives a rotation. */
  lemma RotatedTwice(polls: seq<nat>, c: nat, k: nat) returns (d: nat)
    requires c <= |polls| && k < |polls|
    ensures d <= |polls| && Rotated(polls[c..] + polls[..c], k) == polls[d..] + polls[..d]
  {
    d := if c + k + 1 <= |polls| then c + k + 1 else c + k + 1 - |polls|;
    var l := Rotated(polls[c..] + polls[..c], k);
    var r := polls[d..] + polls[..d];
    var m := polls[c..] + polls[..c];
    forall i | 0 <= i < |l| ensures l[i] == r[i] {
      assert l[i] == m[if i < |m| - k - 1 then i + k + 1 else i - (|m| - k - 1)];
    }
  }

  /** The cyclic order of the list never changes: after any gets it is a rotation of what it was. */
  lemma {:induction false} CyclicOrder(polls: seq<nat>, readies: seq<set<nat>>) returns (c: nat)
    ensures c <= |polls| && AfterGets(polls, readies) == polls[c..] + polls[..c]
  {
    if readies == [] {
      c := 0;
    } else {
      var n := |readies| - 1;
      c := CyclicOrder(polls, readies[..n]);
      var l := AfterGets(polls, readies[..n]);
      var k := FirstReady(l, readies[n]);
      if k < |l| {
        c := RotatedTwice(polls, c, k);
      }
    }
  }

  // ---------------------------------------------------------------------
  // Notification
  // ---------------------------------------------------------------------

  /**
   What is pending and what was answered.  `owed` counts the cues that an arm found due
   and has yet to make: it makes them after it has left the lock.  `dropped` counts the
   arms that were pending when the queue's doorbell was killed.
   */
  datatype Notify = Notify(
    arm: nat, needCue: bool, valid: bool, calls: nat, arms: nat, owed: nat, dropped: nat)

  /** Destroying a queue makes it invalid, and later kills its doorbell. */
  datatype Event = Arm | Cue | OwedCue | Invalidate | Kill

  function DoArm(s: Notify): Notify {
    s.(arm := s.arm + 1, arms := s.arms + 1, needCue := false, owed := s.owed + if s.needCue then 1 else 0)
  }

  function DoCue(s: Notify): Notify {
    if s.valid then
      s.(arm := 0, needCue := s.needCue || s.arm == 0, calls := s.calls + s.arm)
    else s
  }

  function Step(s: Notify, e: Event): Notify {
    match e
    case Arm => DoArm(s)
    case Cue => DoCue(s)
    case OwedCue => if s.owed == 0 then s else DoCue(s).(owed := s.owed - 1)
    case Invalidate => s.(valid := false)
    case Kill => if s.valid then s else s.(arm := 0, needCue := false, dropped := s.dropped + s.arm)
  }

  function Run(s: Notify, es: seq<Event>): Notify {
    if es == [] then s else Step(Run(s, es[..|es| - 1]), es[|es| - 1])
  }

  const FRESH := Notify(0, false, true, 0, 0, 0, 0)

  /**
   Over any run of a new queue every arm is answered by one call of the handler, still
   pending, or dropped because the queue was destroyed before it was cued; a cue is
   remembered only while nothing is armed.
   */
  lemma {:induction false} ArmsAnswered(es: seq<Event>)
    ensures var s := Run(FRESH, es);
            && s.calls + s.arm + s.dropped == s.arms && (s.needCue ==> s.arm == 0)
            && (s.valid <==> Invalidate !in es) && (s.dropped > 0 ==> Invalidate in es && Kill in es)
  {
    if es != [] {
      var n := |es| - 1;
      ArmsAnswered(es[..n]);
      StepAccounts(Run(FRESH, es[..n]), es[n]);
      hide Step;
      assert es == es[..n] + [es[n]];
      assert forall e :: e in es <==> e in es[..n] || e == es[n];
    }
  }

  /** Destroying a queue leaves nothing pending: every arm was answered before or is dropped. */
  lemma DestroyDrops(es: seq<Event>)
    ensures var s := Run(FRESH, es + [Invalidate] + [Kill]);
            !s.valid && s.arm == 0 && !s.needCue && s.calls == Run(FRESH, es).calls && s.calls + s.dropped == s.arms
  {
    RunSnoc(FRESH, es, Invalidate);
    RunSnoc(FRESH, es + [Invalidate], Kill);
    ArmsAnswered(es + [Invalidate] + [Kill]);
    hide Run;
  }

  lemma StepAccounts(s: Notify, e: Event)
    requires s.calls + s.arm + s.dropped == s.arms && (s.needCue ==> s.arm == 0)
    ensures var t := Step(s, e);
            && t.calls + t.arm + t.dropped == t.arms && (t.needCue ==> t.arm == 0)
            && (t.valid <==> s.valid && e != Invalidate)
            && (t.dropped != s.dropped ==> !s.valid && e == Kill)
  {
  }

  lemma RunSnoc(s: Notify, es: seq<Event>, e: Event)
    ensures Run(s, es + [e]) == Step(Run(s, es), e)
  {
    assert (es + [e])[..|es|] == es;
  }

  lemma {:induction false} RunSplit(s: Notify, a: seq<Event>, b: seq<Event>)
    ensures Run(s, a + b) == Run(Run(s, a), b)
  {
    if b == [] {
      assert a + b == a;
    } else {
      var n := |b| - 1;
      RunSplit(s, a, b[..n]);
      assert (a + b)[..|a + b| - 1] == a + b[..n];
    }
  }

  /** A cue of a valid queue leaves no arm unanswered: the handler was called once for each so far. */
  lemma CueAnswers(es: seq<Event>)
    requires Invalidate !in es
    ensures var s := Run(FRESH, es + [Cue]); s.arm == 0 && s.calls == s.arms == multiset(es)[Arm]
  {
    RunSnoc(FRESH, es, Cue);
    ArmsAnswered(es);
    ArmsCounted(es);
  }

  lemma {:induction false} ArmsCounted(es: seq<Event>)
    ensures Run(FRESH, es).arms == multiset(es)[Arm]
  {
    if es != [] {
      var n := |es| - 1;
      ArmsCounted(es[..n]);
      assert es == es[..n] + [es[n]];
    }
  }

  /** The k-th event is a cue: one made by the peer's signal, or one that an arm found due. */
  ghost predicate IsCue(es: seq<Event>, k: nat)
    requires k < |es|
  {
    es[k] == Cue || (es[k] == OwedCue && Run(FRESH, es[..k]).owed > 0)
  }

  /** The k-th event is a cue that found nothing armed, and no arm came after it. */
  ghost predicate Unclaimed(es: seq<Event>, k: nat) {
    k < |es| && IsCue(es, k) && Run(FRESH, es[..k]).arm == 0 && Arm !in es[k..]
  }

  lemma UnclaimedSnoc(es: seq<Event>, e: Event, k: nat)
    requires k < |es|
    ensures Unclaimed(es + [e], k) <==> Unclaimed(es, k) && e != Arm
  {
    assert (es + [e])[..k] == es[..k] && (es + [e])[k..] == es[k..] + [e];
  }

  /**
   A valid queue remembers a cue exactly if a cue found nothing armed and no arm has come
   since; the next arm is then due a cue.
   */
  lemma {:induction false} RememberedExactly(es: seq<Event>)
    requires Invalidate !in es
    ensures Run(FRESH, es).needCue <==> exists k: nat :: Unclaimed(es, k)
  {
    if es == [] {
      assert !Run(FRESH, es).needCue;
    } else {
      var n := |es| - 1;
      var a, e := es[..n], es[n];
      assert es == a + [e];
      RememberedExactly(a);
      RunSnoc(FRESH, a, e);
      ArmsAnswered(a);
      var s := Run(FRESH, a);
      assert Unclaimed(es, n) <==> (e == Cue || (e == OwedCue && s.owed > 0)) && s.arm == 0 by {
        assert es[n..] == [e];
      }
      forall k: nat | k < n ensures Unclaimed(es, k) <==> Unclaimed(a, k) && e != Arm {
        UnclaimedSnoc(a, e, k);
      }
      hide Run, Unclaimed;
      RememberedStep(s, e);
      if s.needCue && e != Arm {
        var k: nat :| Unclaimed(a, k);
        UnclaimedIn(a, k);
        assert Unclaimed(es, k);
      }
      if k: nat :| Unclaimed(es, k) {
        UnclaimedIn(es, k);
        assert k < n ==> Unclaimed(a, k);
      }
    }
  }

  lemma UnclaimedIn(es: seq<Event>, k: nat)
    requires Unclaimed(es, k)
    ensures k < |es|
  {
  }

  lemma RememberedStep(s: Notify, e: Event)
    requires s.valid && e != Invalidate
    ensures Step(s, e).needCue <==>
            (s.needCue && e != Arm) || ((e == Cue || (e == OwedCue && s.owed > 0)) && s.arm == 0)
  {
  }

  /**
   No cue is lost.  In every run of a valid queue a cue that finds nothing armed, however
   many follow it, is owed to the next arm; when it is made, it answers that arm and all
   that came after it.
   */
  lemma {:induction false} CueNotLost(es: seq<Event>, cues: seq<Event>, arms: seq<Event>)
    requires Invalidate !in es && Run(FRESH, es).arm == 0
    requires forall i :: 0 <= i < |cues| ==> cues[i] == Cue
    requires forall i :: 0 <= i < |arms| ==> arms[i] == Arm
    ensures var s, t := Run(FRESH, es), Run(FRESH, es + [Cue] + cues + [Arm] + arms);
            && t.owed == s.owed + 1 && t.calls == s.calls && t.arm == 1 + |arms|
            && Step(t, OwedCue).calls == s.calls + 1 + |arms| && Step(t, OwedCue).arm == 0
            && Step(t, OwedCue).owed == s.owed
  {
    hide Run;
    var a := es + [Cue];
    ArmsAnswered(es);
    RunSnoc(FRESH, es, Cue);
    RunSplit(FRESH, a, cues);
    RunSnoc(FRESH, a + cues, Arm);
    RunSplit(FRESH, a + cues + [Arm], arms);
    CuesKeep(Run(FRESH, a), cues);
    ArmsAdd(Run(FRESH, a + cues + [Arm]), arms);
  }

  lemma {:induction false} CuesKeep(s: Notify, cues: seq<Event>)
    requires s.valid && s.arm == 0 && s.needCue && forall i :: 0 <= i < |cues| ==> cues[i] == Cue
    ensures Run(s, cues) == s
  {
    if cues != [] {
      CuesKeep(s, cues[..|cues| - 1]);
    }
  }

  lemma {:induction false} ArmsAdd(s: Notify, arms: seq<Event>)
    requires !s.needCue && forall i :: 0 <= i < |arms| ==> arms[i] == Arm
    ensures Run(s, arms) == s.(arm := s.arm + |arms|, arms := s.arms + |arms|)
  {
    if arms != [] {
      ArmsAdd(s, arms[..|arms| - 1]);
    }
  }

  /** Once the queue is invalid the handler is never called. */
  lemma {:induction false} SilentOnceInvalid(s: Notify, es: seq<Event>)
    requires !s.valid
    ensures !Run(s, es).valid && Run(s, es).calls == s.calls
  {
    if es != [] {
      SilentOnceInvalid(s, es[..|es| - 1]);
    }
  }

  /** The notification side of a completion queue. */
  class Notifier {
    var arm: nat
    var needCue: bool
    var valid: bool
    ghost var calls: nat  // calls of the completion handler
    ghost var arms: nat  // calls of ArmOnce
    ghost var owed: nat  // cues found due and not yet made
    ghost var dropped: nat  // arms that were pending when the doorbell was killed

    ghost function Value(): Notify
      reads this
    {
      Notify(arm, needCue, valid, calls, arms, owed, dropped)
    }

    /** The locked part of an arm; the caller makes the cue that is due. */
    method ArmOnce() returns (due: bool)
      modifies this
      ensures Value() == Step(old(Value()), Arm)
      ensures due == (owed == old(owed) + 1)
    {
      arm := arm + 1;
      due := needCue;
      needCue := false;
      arms := arms + 1;
      if due {
        owed := owed + 1;
      }
    }

    /** Call the handler once for every pending arm. */
    method CueAll()
      modifies this
      ensures Value() == Step(old(Value()), Cue)
      ensures valid ==> arm == 0 && calls == old(calls) + old(arm) && (needCue <==> old(needCue) || old(arm) == 0)
    {
      if !valid {
        return;
      }
      var n := arm;
      arm := 0;
      if n == 0 {
        needCue := true;
      }
      while n > 0
        invariant 0 <= n <= old(arm) && calls + n == old(calls) + old(arm)
        invariant Value() == DoCue(old(Value())).(calls := calls)
      {
        calls := calls + 1;
        n := n - 1;
      }
    }

    /** The notification part of destroying the queue. */
    method DestroyQueue()
      modifies this
      ensures Value() == Step(Step(old(Value()), Invalidate), Kill)
      ensures !valid && arm == 0 && !needCue && dropped == old(dropped) + old(arm)
    {
      valid := false;
      dropped := dropped + arm;
      arm, needCue := 0, false;
    }

    /** An arm and, when one is due, its cue, with nothing in between. */
    method ArmAndCue()
      modifies this
      ensures var s := Step(old(Value()), Arm); Value() == if old(needCue) then Step(s, OwedCue) else s
      ensures old(needCue) && old(valid) ==> arm == 0 && calls == old(calls) + old(arm) + 1
    {
      var due := ArmOnce();
      if due {
        CueAll();
        owed := owed - 1;
      }
    }
  }
}
