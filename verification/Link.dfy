/**
 Link negotiation of one node against an arbitrary peer (ntc_ntb_link_work and
 the steps it calls, ntc_ntb_msi.c).

 The peer's state message, its done flag and the outcome of every callback are
 arbitrary inputs.  What is proved is the discipline of the callbacks into the
 upper layer, over the whole life of the device.
 */
module Link {

  const QUIESCE := 0
  const RESET := 1
  const ENABLED := 2
  const START := 3
  const VER_SENT := 4
  const VER_CHOSEN := 5
  const DB_CONFIGURED := 6
  const COMMITTED := 7
  const HELLO := 8
  const EINVAL := 22

  /** Callbacks into the upper layer, in the order they are made. */
  datatype Call = Hello(phase: int, rc: int) | Enable(ok: bool) | Disable | Quiesce | Reset

  // ---------------------------------------------------------------------
  // The discipline
  // ---------------------------------------------------------------------

  /**
   What the calls so far allow next.  `next` is the hello phase that is due,
   `done` is set when the last phase reported so, `failed` when a callback
   failed, `quiet` when a quiesce waits for its reset.
   */
  datatype Monitor =
    | Monitor(next: int, done: bool, failed: bool, up: bool, quiet: bool)
    | Violated

  const Initial := Monitor(0, false, false, false, false)

  function Observe(m: Monitor, c: Call): Monitor {
    if m.Violated? then Violated else
    match c
    case Hello(phase, rc) =>
      if phase == m.next && !m.failed && !m.quiet && ((phase <= 3 && !m.up) || (phase == 4 && rc < 0)) then
        m.(next := phase + 1, done := rc == 1, failed := rc < 0)
      else Violated
    case Enable(ok) =>
      if m.next == 4 && m.done && !m.failed && !m.up && !m.quiet then m.(up := true, failed := !ok) else Violated
    case Disable => if m.up then m.(up := false) else Violated
    case Quiesce => if !m.up && !m.quiet then m.(quiet := true) else Violated
    case Reset => if !m.up && m.quiet then Initial else Violated
  }

  function After(trace: seq<Call>): Monitor {
    if trace == [] then Initial else Observe(After(trace[..|trace| - 1]), trace[|trace| - 1])
  }

  lemma AfterSnoc(trace: seq<Call>, c: Call)
    ensures After(trace + [c]) == Observe(After(trace), c)
  {
    assert (trace + [c])[..|trace|] == trace;
  }

  /** A disciplined trace was disciplined all along. */
  lemma {:induction false} AfterPrefix(trace: seq<Call>, n: nat)
    requires n <= |trace| && After(trace).Monitor?
    ensures After(trace[..n]).Monitor?
  {
    if n == |trace| {
      assert trace[..n] == trace;
    } else {
      AfterPrefix(trace[..|trace| - 1], n);
      assert trace[..|trace| - 1][..n] == trace[..n];
    }
  }

  /** No reset among the calls i, ..., j-1. */
  ghost predicate SameSession(trace: seq<Call>, i: nat, j: nat)
    requires i <= j <= |trace|
  {
    forall k :: i <= k < j ==> !trace[k].Reset?
  }

  /** The number of hello phases run since the last reset. */
  function Phases(trace: seq<Call>): nat {
    if trace == [] || trace[|trace| - 1].Reset? then 0
    else Phases(trace[..|trace| - 1]) + if trace[|trace| - 1].Hello? then 1 else 0
  }

  lemma {:induction false} NextIsPhases(trace: seq<Call>)
    requires After(trace).Monitor?
    ensures After(trace).next == Phases(trace)
  {
    if trace != [] {
      NextIsPhases(trace[..|trace| - 1]);
    }
  }

  /** In a disciplined trace hello phases since the last reset are 0, 1, 2, ... without gap or repetition. */
  lemma HelloInOrder(trace: seq<Call>, n: nat)
    requires After(trace).Monitor? && n < |trace| && trace[n].Hello?
    ensures trace[n].phase == Phases(trace[..n]) <= 4
    ensures trace[n].phase == 4 ==> trace[n].rc < 0
  {
    AfterPrefix(trace, n + 1);
    AfterPrefix(trace, n);
    NextIsPhases(trace[..n]);
    assert trace[..n + 1][..n] == trace[..n];
  }

  /** Once phase 3 has reported done, nothing but enabling and disabling keeps it so. */
  lemma {:induction false} DoneFrom(trace: seq<Call>) returns (k: nat)
    requires After(trace).Monitor? && After(trace).done
    ensures k < |trace| && trace[k].Hello? && trace[k].rc == 1 && trace[k].phase == After(trace).next - 1
    ensures SameSession(trace, k, |trace|)
  {
    var n := |trace| - 1;
    var m := After(trace[..n]);
    if trace[n].Hello? {
      k := n;
    } else {
      k := DoneFrom(trace[..n]);
    }
  }

  /** Enabling comes only after phase 3 reported done in the same session. */
  lemma EnableAfterDone(trace: seq<Call>, n: nat) returns (k: nat)
    requires After(trace).Monitor? && n < |trace| && trace[n].Enable?
    ensures k < n && trace[k] == Hello(3, 1) && SameSession(trace, k, n)
  {
    AfterPrefix(trace, n + 1);
    AfterPrefix(trace, n);
    assert trace[..n + 1][..n] == trace[..n];
    k := DoneFrom(trace[..n]);
  }

  /** The number of enables that no disable has answered. */
  function Ups(trace: seq<Call>): int {
    if trace == [] then 0 else
    Ups(trace[..|trace| - 1]) + match trace[|trace| - 1] case Enable(_) => 1 case Disable => -1 case _ => 0
  }

  lemma {:induction false} UpsIsUp(trace: seq<Call>)
    requires After(trace).Monitor?
    ensures Ups(trace) == if After(trace).up then 1 else 0
  {
    if trace != [] {
      UpsIsUp(trace[..|trace| - 1]);
    }
  }

  /** Enables and disables alternate: their balance is always zero or one. */
  lemma Alternate(trace: seq<Call>, n: nat)
    requires After(trace).Monitor? && n <= |trace|
    ensures 0 <= Ups(trace[..n]) <= 1
  {
    AfterPrefix(trace, n);
    UpsIsUp(trace[..n]);
  }

  lemma {:induction false} QuietIsDown(trace: seq<Call>)
    requires After(trace).Monitor? && After(trace).quiet
    ensures !After(trace).up
  {
    if trace != [] && !trace[|trace| - 1].Quiesce? {
      QuietIsDown(trace[..|trace| - 1]);
    }
  }

  /** A quiesce comes right before every reset, with the link already disabled. */
  lemma ResetAfterQuiesce(trace: seq<Call>, n: nat)
    requires After(trace).Monitor? && n < |trace| && trace[n].Reset?
    ensures n > 0 && trace[n - 1].Quiesce? && Ups(trace[..n - 1]) == 0
  {
    AfterPrefix(trace, n + 1);
    AfterPrefix(trace, n);
    assert trace[..n + 1][..n] == trace[..n];
    assert n > 0;
    AfterPrefix(trace, n - 1);
    assert trace[..n][..n - 1] == trace[..n - 1];
    if After(trace[..n - 1]).quiet {
      QuietIsDown(trace[..n - 1]);
    }
    UpsIsUp(trace[..n - 1]);
  }

  // ---------------------------------------------------------------------
  // The state machine
  // ---------------------------------------------------------------------

  /**
   Everything one run of the link work sees: the peer's last state message, the
   successive readings of its done flag, and the outcome of the steps.
   */
  datatype Inputs = Inputs(
    event: int, peerDone: seq<bool>, isUp: bool, windowOk: bool, versionOk: bool, doorbellOk: bool,
    enableOk: bool, hello: seq<int>)

  /** The upper layer knows four hello phases, and only the last one can report done. */
  ghost predicate FourPhases(hello: seq<int>) {
    |hello| == 4 && forall p :: 0 <= p < 3 ==> hello[p] != 1
  }

  function Answer(hello: seq<int>, phase: int): int {
    if 0 <= phase < 4 && phase < |hello| then hello[phase] else -EINVAL
  }

  function ReadDone(peerDone: seq<bool>, i: nat): bool {
    i < |peerDone| && peerDone[i]
  }

  /** How the hello loop ends: the peer is behind, the peers are out of step or a phase failed, or both are done. */
  datatype Ending = Behind | Broken | BothDone

  datatype Outcome = Outcome(state: int, selfDone: bool, calls: seq<Call>, ending: Ending)

  /**
   The hello loop from a given state on, after `calls`.  It reads the peer's
   done flag once per phase and once more.
   */
  function HelloRun(state: int, selfDone: bool, x: Inputs, seen: nat, calls: seq<Call>): Outcome
    decreases x.event - state + 1
  {
    if ReadDone(x.peerDone, seen) && selfDone then Outcome(state, selfDone, calls, BothDone)
    else if x.event - state == -1 then Outcome(state, selfDone, calls, Behind)
    else if x.event - state != 0 && x.event - state != 1 then Outcome(state, selfDone, calls, Broken)
    else
      var rc := Answer(x.hello, state + 1 - HELLO);
      var cs := calls + [Hello(state + 1 - HELLO, rc)];
      if rc < 0 then Outcome(state, selfDone, cs, Broken)
      else HelloRun(state + 1, selfDone || rc == 1, x, seen + 1, cs)
  }

  /** The phases of a run follow each other, and are no more than the peer's lead allows. */
  lemma {:induction false} RunPhases(state: int, selfDone: bool, x: Inputs, seen: nat, calls: seq<Call>)
    ensures var cs := HelloRun(state, selfDone, x, seen, calls).calls;
            && calls <= cs
            && (forall k :: |calls| <= k < |cs| ==> cs[k].Hello? && cs[k].phase == state + 1 - HELLO + k - |calls|)
            && |cs| <= |calls| + 2 && (cs != calls ==> |cs| - |calls| <= x.event - state + 1)
    decreases x.event - state + 1
  {
    if !(ReadDone(x.peerDone, seen) && selfDone) && (x.event - state == 0 || x.event - state == 1) {
      var rc := Answer(x.hello, state + 1 - HELLO);
      if rc >= 0 {
        RunPhases(state + 1, selfDone || rc == 1, x, seen + 1, calls + [Hello(state + 1 - HELLO, rc)]);
      }
    }
  }

  /** The last phase a run from this state requests. */
  function LastPhase(state: int, r: Outcome): int {
    state - HELLO + |r.calls|
  }

  /**
   A phase beyond the four is requested exactly when this node is through, or
   gets through in this run, while the peer announces that state or the next
   one without both done flags being set.
   */
  lemma PhaseFourRequested(state: int, selfDone: bool, x: Inputs)
    requires FourPhases(x.hello) && HELLO <= state <= HELLO + 3 && (selfDone ==> state == HELLO + 3)
    ensures LastPhase(state, HelloRun(state, selfDone, x, 0, [])) <= 4
    ensures LastPhase(state, HelloRun(state, selfDone, x, 0, [])) == 4 <==>
            || (state == HELLO + 3 && x.event in {HELLO + 3, HELLO + 4} && !(selfDone && ReadDone(x.peerDone, 0)))
            || (state == HELLO + 2 && x.event == HELLO + 3 && x.hello[3] >= 0
                && !(x.hello[3] == 1 && ReadDone(x.peerDone, 1)))
  {
    RunPhases(state, selfDone, x, 0, []);
    if state == HELLO + 2 && x.event == HELLO + 3 && x.hello[3] >= 0 {
      assert HelloRun(state, selfDone, x, 0, []) ==
             HelloRun(HELLO + 3, selfDone || x.hello[3] == 1, x, 1, [] + [Hello(3, x.hello[3])]);
    }
  }

  /** Whether the step out of state s succeeds. */
  predicate StepOk(s: int, x: Inputs) {
    match s
    case 4 => x.versionOk
    case 5 => x.doorbellOk
    case 7 => Answer(x.hello, 0) >= 0
    case _ => true
  }

  /** The node: its state, and all calls made so far. */
  datatype Node = Node(state: int, up: bool, selfDone: bool, calls: seq<Call>)

  datatype Progress = Waiting(n: Node) | InHello(n: Node)

  /**
   The states before hello: from VER_SENT on, a peer in the same state or one
   ahead lets this node advance, a peer one behind makes it wait, and any other
   peer is an error.
   */
  function Negotiation(n: Node, x: Inputs): Progress
    decreases HELLO - n.state
  {
    var s := n.state;
    if s >= HELLO then InHello(n)
    else if s <= ENABLED then
      if x.isUp && x.windowOk then Negotiation(n.(state := START), x) else Waiting(n)
    else if s == START then
      if x.event == START || x.event == VER_SENT then Negotiation(n.(state := VER_SENT), x) else Waiting(n)
    else if x.event - s == 0 || x.event - s == 1 then
      var m := if s == COMMITTED then n.(calls := n.calls + [Hello(0, Answer(x.hello, 0))]) else n;
      if !StepOk(s, x) then Waiting(m.(state := QUIESCE))
      else if s == COMMITTED then InHello(m.(state := HELLO, selfDone := n.selfDone || Answer(x.hello, 0) == 1))
      else Negotiation(n.(state := s + 1, selfDone := n.selfDone && s != VER_SENT), x)
    else Waiting(if x.event - s == -1 then n else n.(state := QUIESCE))
  }

  /** Bring the link up or down, if it is not so yet. */
  function Updated(n: Node, linkUp: bool, enableOk: bool): Node {
    if n.up == linkUp then n
    else if linkUp then
      Node(if enableOk then n.state else QUIESCE, true, n.selfDone, n.calls + [Enable(enableOk)])
    else n.(up := false, calls := n.calls + [Disable])
  }

  /** The hello states. */
  function HelloStep(n: Node, x: Inputs): Node {
    var r := HelloRun(n.state, n.selfDone, x, 0, n.calls);
    var m := Node(r.state, n.up, r.selfDone, r.calls);
    match r.ending
    case Broken => m.(state := QUIESCE)
    case Behind => Updated(m, false, x.enableOk)
    case BothDone =>
      if x.event == r.state then Updated(m, true, x.enableOk)
      else Updated(if x.event == r.state - 1 then m else m.(state := QUIESCE), false, x.enableOk)
  }

  /** One run of the link work. */
  function LinkStep(n: Node, x: Inputs): Node {
    if n.state == QUIESCE then
      var m := Updated(n, false, true);
      m.(state := ENABLED, calls := m.calls + [Quiesce] + [Reset])
    else if n.state == RESET then
      Updated(n.(state := ENABLED, calls := n.calls + [Reset]), false, x.enableOk)
    else
      match Negotiation(n, x)
      case Waiting(m) => Updated(m, false, x.enableOk)
      case InHello(m) => HelloStep(m, x)
  }

  // ---------------------------------------------------------------------
  // Every run is disciplined
  // ---------------------------------------------------------------------

  /** How the state fits the calls made so far. */
  ghost predicate Fits(n: Node) {
    var m := After(n.calls);
    && m.Monitor? && m.up == n.up && !m.quiet
    && (n.state == QUIESCE || ENABLED <= n.state <= HELLO + 3)
    && (n.state != QUIESCE ==> !m.failed)
    && (ENABLED <= n.state <= COMMITTED ==> m.next == 0 && !n.up)
    && (HELLO <= n.state ==> m.next == n.state - HELLO + 1 && n.selfDone == m.done)
    && (VER_CHOSEN <= n.state <= COMMITTED ==> !n.selfDone)
    && (m.done ==> m.next == 4)
    && (n.up ==> n.state == HELLO + 3 || n.state == QUIESCE)
  }

  lemma {:induction false} NegotiationFits(n: Node, x: Inputs)
    requires Fits(n) && FourPhases(x.hello) && ENABLED <= n.state
    ensures var p := Negotiation(n, x); Fits(p.n) && (p.InHello? ==> HELLO <= p.n.state)
    decreases HELLO - n.state
  {
    hide After;
    if n.state == COMMITTED {
      AfterSnoc(n.calls, Hello(0, Answer(x.hello, 0)));
    } else if n.state < HELLO {
      NegotiationFits(n.(state := n.state + 1, selfDone := n.selfDone && n.state != VER_SENT), x);
    }
  }

  lemma UpdatedFits(n: Node, linkUp: bool, enableOk: bool)
    requires Fits(n) && (linkUp ==> n.state == HELLO + 3 && n.selfDone)
    ensures Fits(Updated(n, linkUp, enableOk))
  {
    hide After;
    AfterSnoc(n.calls, if linkUp then Enable(enableOk) else Disable);
  }

  lemma {:induction false} HelloRunFits(n: Node, x: Inputs, seen: nat)
    requires Fits(n) && FourPhases(x.hello) && HELLO <= n.state
    ensures var r := HelloRun(n.state, n.selfDone, x, seen, n.calls);
            && (!r.ending.Broken? ==> Fits(Node(r.state, n.up, r.selfDone, r.calls)) && HELLO <= r.state)
            && (r.ending.BothDone? ==> r.selfDone)
            && Fits(Node(QUIESCE, n.up, r.selfDone, r.calls))
    decreases x.event - n.state + 1
  {
    hide After;
    var rc := Answer(x.hello, n.state + 1 - HELLO);
    var c := Hello(n.state + 1 - HELLO, rc);
    if !(ReadDone(x.peerDone, seen) && n.selfDone) && (x.event - n.state == 0 || x.event - n.state == 1) {
      AfterSnoc(n.calls, c);
      if rc >= 0 {
        HelloRunFits(Node(n.state + 1, n.up, n.selfDone || rc == 1, n.calls + [c]), x, seen + 1);
      }
    }
  }

  lemma HelloStepFits(n: Node, x: Inputs)
    requires Fits(n) && FourPhases(x.hello) && HELLO <= n.state
    ensures Fits(HelloStep(n, x))
  {
    HelloRunFits(n, x, 0);
    hide After, HelloRun, FourPhases;
    var r := HelloRun(n.state, n.selfDone, x, 0, n.calls);
    var m := Node(r.state, n.up, r.selfDone, r.calls);
    if r.ending.BothDone? && x.event == r.state {
      UpdatedFits(m, true, x.enableOk);
    } else if !r.ending.Broken? {
      UpdatedFits(m, false, x.enableOk);
      UpdatedFits(m.(state := QUIESCE), false, x.enableOk);
    }
  }

  lemma LinkStepFits(n: Node, x: Inputs)
    requires Fits(n) && FourPhases(x.hello)
    ensures Fits(LinkStep(n, x))
  {
    if n.state == QUIESCE {
      UpdatedFits(n, false, true);
      var m := Updated(n, false, true);
      AfterSnoc(m.calls, Quiesce);
      AfterSnoc(m.calls + [Quiesce], Reset);
    } else {
      hide Fits, Negotiation, HelloStep, Updated;
      FitsState(n);
      NegotiationFits(n, x);
      match Negotiation(n, x)
      case Waiting(m) => UpdatedFits(m, false, x.enableOk);
      case InHello(m) => HelloStepFits(m, x);
    }
  }

  lemma FitsState(n: Node)
    requires Fits(n)
    ensures n.state != RESET && (n.state != QUIESCE ==> ENABLED <= n.state)
  {
  }

  /** What can happen to a device: a run of the link work, or a reset asked for by the upper layer. */
  datatype Event = Work(x: Inputs) | ResetLink

  function Step(n: Node, e: Event): Node {
    match e
    case Work(x) => LinkStep(n, x)
    case ResetLink => if n.state > ENABLED then n.(state := QUIESCE) else n
  }

  const Fresh := Node(ENABLED, false, false, [])

  function Run(es: seq<Event>): Node {
    if es == [] then Fresh else Step(Run(es[..|es| - 1]), es[|es| - 1])
  }

  ghost predicate Answered(es: seq<Event>) {
    forall i :: 0 <= i < |es| && es[i].Work? ==> FourPhases(es[i].x.hello)
  }

  /**
   Whatever the peer shows, the calls made since the device exists are
   disciplined, and the link is up only with all phases done or on the way down.
   */
  lemma {:induction false} AlwaysDisciplined(es: seq<Event>)
    requires Answered(es)
    ensures After(Run(es).calls).Monitor? && Fits(Run(es))
    ensures Run(es).up ==> Run(es).state == HELLO + 3 || Run(es).state == QUIESCE
  {
    if es == [] {
      assert After([]) == Initial;
    } else {
      var k := |es| - 1;
      AlwaysDisciplined(es[..k]);
      if es[k].Work? {
        LinkStepFits(Run(es[..k]), es[k].x);
      }
    }
  }

  // ---------------------------------------------------------------------
  // What a run of the work leads to
  // ---------------------------------------------------------------------

  /** The local steps on the way from state s past the state that the peer announces succeed. */
  ghost predicate StepsSucceed(s: int, x: Inputs) {
    && (s <= VER_SENT <= x.event ==> x.versionOk)
    && (s <= VER_CHOSEN <= x.event ==> x.doorbellOk)
    && (s <= COMMITTED <= x.event ==> |x.hello| > 0 && x.hello[0] >= 0)
    && (s <= HELLO <= x.event ==> |x.hello| > 1 && x.hello[1] >= 0)
  }

  /**
   Where a run of the work takes a node before hello.  With a peer in the same state or one
   ahead it gets exactly one beyond the state that the peer announces, if the local steps
   on the way succeed; a peer one behind makes it wait; a step that fails or any other peer
   makes it quiesce.
   */
  lemma WorkExactly(n: Node, x: Inputs)
    requires Fits(n) && FourPhases(x.hello) && VER_SENT <= n.state <= COMMITTED
    ensures LinkStep(n, x).state ==
            if x.event == n.state - 1 then n.state
            else if (x.event == n.state || x.event == n.state + 1) && StepsSucceed(n.state, x) then x.event + 1
            else QUIESCE
  {
    hide After;
    assert !n.up && (n.state != VER_SENT ==> !n.selfDone);
    var s := n.state;
    if x.event == s || x.event == s + 1 {
      if s == COMMITTED {
        AtCommitted(n, x);
      } else {
        var m := n.(state := s + 1, selfDone := n.selfDone && s != VER_SENT);
        if StepOk(s, x) {
          assert Negotiation(n, x) == Negotiation(m, x);
          if x.event == s {
            assert Negotiation(m, x) == Waiting(m);
          } else if s + 1 == COMMITTED {
            AtCommitted(m, x);
          } else if StepOk(s + 1, x) {
            var m2 := m.(state := s + 2);
            assert Negotiation(m, x) == Negotiation(m2, x) == Waiting(m2);
          } else {
            assert Negotiation(m, x) == Waiting(m.(state := QUIESCE));
          }
        }
      }
    }
  }

  lemma AtCommitted(n: Node, x: Inputs)
    requires n.state == COMMITTED && !n.selfDone && !n.up && FourPhases(x.hello)
    requires x.event == COMMITTED || x.event == HELLO
    ensures LinkStep(n, x).state == if StepsSucceed(COMMITTED, x) then x.event + 1 else QUIESCE
  {
    var cs := n.calls + [Hello(0, x.hello[0])];
    if x.hello[0] >= 0 {
      var m := n.(state := HELLO, calls := cs);
      assert Negotiation(n, x) == InHello(m);
      if x.event == COMMITTED {
        assert HelloRun(HELLO, false, x, 0, cs) == Outcome(HELLO, false, cs, Behind);
      } else if x.hello[1] >= 0 {
        var cs' := cs + [Hello(1, x.hello[1])];
        assert HelloRun(HELLO, false, x, 0, cs) == HelloRun(HELLO + 1, false, x, 1, cs')
                                                == Outcome(HELLO + 1, false, cs', Behind);
      } else {
        assert HelloRun(HELLO, false, x, 0, cs).ending.Broken?;
      }
    }
  }

  /** The same for a node that has yet to send its version. */
  lemma StartExactly(n: Node, x: Inputs)
    requires Fits(n) && FourPhases(x.hello) && (n.state == ENABLED || n.state == START)
    ensures LinkStep(n, x).state ==
            if n.state == ENABLED && !(x.isUp && x.windowOk) then ENABLED
            else if x.event != START && x.event != VER_SENT then START
            else if x.event == VER_SENT && !x.versionOk then QUIESCE
            else x.event + 1
  {
    hide After;
    assert !n.up;
    if (n.state == ENABLED ==> x.isUp && x.windowOk) && (x.event == START || x.event == VER_SENT) {
      var a, m := n.(state := START), n.(state := VER_SENT);
      var m2 := m.(state := VER_CHOSEN, selfDone := false);
      assert Negotiation(n, x) == Negotiation(a, x) == Negotiation(m, x);
      assert x.event == START ==> Negotiation(m, x) == Waiting(m);
      assert x.event == VER_SENT && x.versionOk ==> Negotiation(m, x) == Negotiation(m2, x) == Waiting(m2);
    } else if n.state == ENABLED && x.isUp && x.windowOk {
      assert Negotiation(n, x) == Negotiation(n.(state := START), x);
    }
  }

  /** Both are through when phase 3 has just reported done: the peer is in that state and says so. */
  ghost predicate ThroughNow(s: int, x: Inputs)
    requires FourPhases(x.hello)
  {
    s + 1 == x.event == HELLO + 3 && x.hello[3] == 1 && |x.peerDone| > 1 && x.peerDone[1]
  }

  /**
   Where a run takes a node in hello that is not through.  Again it gets one beyond the
   state that the peer announces, if the phases on the way succeed, unless both are through
   before; a node that has no phase left, a phase that fails or a peer out of step ends in
   quiescence.
   */
  lemma HelloExactly(n: Node, x: Inputs)
    requires Fits(n) && FourPhases(x.hello) && HELLO <= n.state
    requires !(n.selfDone && ReadDone(x.peerDone, 0))
    ensures var s, m := n.state, LinkStep(n, x);
            && m.state ==
                 (if x.event == s - 1 then s
                  else if (x.event != s && x.event != s + 1) || s == HELLO + 3
                          || x.hello[s + 1 - HELLO] < 0 then QUIESCE
                  else if ThroughNow(s, x) then (if x.enableOk then s + 1 else QUIESCE)
                  else if x.event == s then s + 1
                  else if s == HELLO + 2 || x.hello[s + 2 - HELLO] < 0 then QUIESCE
                  else s + 2)
            && (m.up && !n.up ==> s < HELLO + 3 && ThroughNow(s, x))
  {
    hide After;
    assert n.selfDone ==> n.state == HELLO + 3;
    var s := n.state;
    if x.event == s || x.event == s + 1 {
      var rc := Answer(x.hello, s + 1 - HELLO);
      var cs := n.calls + [Hello(s + 1 - HELLO, rc)];
      if rc >= 0 {
        var d := rc == 1;
        assert HelloRun(s, n.selfDone, x, 0, n.calls) == HelloRun(s + 1, d, x, 1, cs);
        if !(ReadDone(x.peerDone, 1) && d) && x.event == s + 1 {
          var rc2 := Answer(x.hello, s + 2 - HELLO);
          var cs2 := cs + [Hello(s + 2 - HELLO, rc2)];
          assert rc2 >= 0 ==> HelloRun(s + 1, d, x, 1, cs) == HelloRun(s + 2, d || rc2 == 1, x, 2, cs2);
        }
      }
    }
  }

  /** A node through with hello goes up exactly if the peer is through in the same state, and else comes down. */
  lemma UpExactly(n: Node, x: Inputs)
    requires HELLO <= n.state && n.selfDone && |x.peerDone| > 0 && x.peerDone[0]
    ensures var m := LinkStep(n, x);
            && (m.up <==> x.event == n.state)
            && m.state == (if x.event == n.state - 1 || (x.event == n.state && (n.up || x.enableOk))
                           then n.state else QUIESCE)
            && m.calls == n.calls + (if n.up == m.up then [] else if m.up then [Enable(x.enableOk)] else [Disable])
  {
    assert HelloRun(n.state, n.selfDone, x, 0, n.calls) == Outcome(n.state, n.selfDone, n.calls, BothDone);
  }

  /** A node that quiesces is reset by the next run of the work, whatever it sees: the link is taken down first. */
  lemma QuiesceResets(n: Node, x: Inputs)
    requires n.state == QUIESCE
    ensures var m := LinkStep(n, x);
            && m.state == ENABLED && !m.up
            && m.calls == n.calls + (if n.up then [Disable] else []) + [Quiesce, Reset]
  {
    assert [Quiesce] + [Reset] == [Quiesce, Reset];
  }

  /** A reset asked for by the upper layer is carried out by the next run of the work. */
  lemma ResetIsCarriedOut(n: Node, x: Inputs)
    requires Fits(n) && n.state > ENABLED
    ensures var m := Step(Step(n, ResetLink), Work(x));
            && m.state == ENABLED && !m.up
            && m.calls == n.calls + (if n.up then [Disable] else []) + [Quiesce, Reset]
  {
    QuiesceResets(Step(n, ResetLink), x);
  }

  /** What had to succeed in the run that took the node from below state t to t or beyond. */
  ghost predicate Gate(t: int, x: Inputs) {
    && (t == START ==> x.isUp && x.windowOk)
    && (t == VER_CHOSEN ==> x.versionOk)
    && (t == DB_CONFIGURED ==> x.doorbellOk)
    && (t == HELLO ==> |x.hello| > 0 && x.hello[0] >= 0)
    && (t > START ==> x.event >= t - 1)
  }

  lemma {:induction false} NegotiationGates(n: Node, x: Inputs, t: int)
    requires n.state < t <= HELLO && START <= t && t <= Negotiation(n, x).n.state
    ensures Gate(t, x)
    decreases HELLO - n.state
  {
    if n.state <= ENABLED {
      if t > START {
        NegotiationGates(n.(state := START), x, t);
      }
    } else if t > n.state + 1 {
      NegotiationGates(n.(state := n.state + 1, selfDone := n.selfDone && n.state != VER_SENT), x, t);
    }
  }

  lemma StepGates(n: Node, x: Inputs, t: int)
    requires n.state < t <= HELLO && START <= t && t <= LinkStep(n, x).state
    ensures Gate(t, x)
  {
    hide HelloRun, Gate;
    NegotiatedState(n, x);
    if n.state > RESET || n.state < QUIESCE {
      var p := Negotiation(n, x);
      hide Negotiation;
      assert p.n.state >= t;
      NegotiationGates(n, x, t);
    }
  }

  /**
   What a node has been through.  In every run a node at state t or beyond got there in
   one run of the work, in which the step into t succeeded, and has not been below since:
   the windows are set for a node beyond ENABLED, a version is chosen from VER_CHOSEN on,
   doorbells are configured from DB_CONFIGURED on, and phase 0 is done from HELLO on.
   */
  lemma {:induction false} Crossed(es: seq<Event>, t: int) returns (k: nat)
    requires START <= t <= HELLO && t <= Run(es).state
    ensures k < |es| && es[k].Work? && Run(es[..k]).state < t && Gate(t, es[k].x)
    ensures forall l :: k < l <= |es| ==> t <= Run(es[..l]).state
  {
    hide LinkStep, Gate;
    var m := |es| - 1;
    var n := Run(es[..m]);
    if n.state >= t {
      k := Crossed(es[..m], t);
      assert es[..m][..k] == es[..k];
      forall l | k < l <= |es| ensures t <= Run(es[..l]).state {
        if l < |es| {
          assert es[..m][..l] == es[..l];
        } else {
          assert es[..l] == es;
        }
      }
    } else {
      k := m;
      assert es[..|es|] == es;
      StepGates(n, es[m].x, t);
    }
  }

  // ---------------------------------------------------------------------
  // The code
  // ---------------------------------------------------------------------

  class Device {
    var state: int
    var up: bool
    var selfDone: bool
    ghost var trace: seq<Call>

    constructor ()
      ensures Now() == Fresh
    {
      state, up, selfDone, trace := ENABLED, false, false, [];
    }

    ghost function Now(): Node
      reads this
    {
      Node(state, up, selfDone, trace)
    }

    /** A link error: the next run of the work takes the link down. */
    method Error()
      modifies this`state
      ensures state == if old(state) > RESET then QUIESCE else old(state)
    {
      if state > RESET {
        state := QUIESCE;
      }
    }

    method Update(linkUp: bool, enableOk: bool)
      requires linkUp ==> state > RESET
      modifies this`state, this`up, this`trace
      ensures Now() == Updated(old(Now()), linkUp, enableOk)
    {
      if up == linkUp {
        return;
      }
      up := linkUp;
      if linkUp {
        trace := trace + [Enable(enableOk)];
        if !enableOk {
          Error();
        }
      } else {
        trace := trace + [Disable];
      }
    }

    /** One hello phase. */
    method HelloPhase(hello: seq<int>) returns (rc: int)
      requires COMMITTED <= state
      modifies this`state, this`selfDone, this`trace
      ensures var a := Answer(hello, old(state) + 1 - HELLO);
              && trace == old(trace) + [Hello(old(state) + 1 - HELLO, a)] && (rc < 0 <==> a < 0)
              && state == (if a < 0 then old(state) else old(state) + 1)
              && selfDone == (old(selfDone) || a == 1)
    {
      var phase := state + 1 - HELLO;
      rc := Answer(hello, phase);
      trace := trace + [Hello(phase, rc)];
      if rc < 0 {
        return;
      }
      if rc == 1 {
        selfDone := true;
      }
      state, rc := HELLO + phase, 0;
    }

    /** The hello loop; `stopped` tells that an error ended the run. */
    method HelloLoop(x: Inputs) returns (linkUp: bool, stopped: bool)
      requires HELLO <= state
      modifies this`state, this`selfDone, this`trace
      ensures var r := HelloRun(old(state), old(selfDone), x, 0, old(trace));
              && trace == r.calls && selfDone == r.selfDone && (stopped <==> r.ending.Broken?)
              && (linkUp <==> r.ending.BothDone? && x.event == r.state) && (linkUp ==> HELLO <= state)
              && state == if r.ending.Behind? || (r.ending.BothDone? && x.event in {r.state, r.state - 1})
                          then r.state else QUIESCE
    {
      linkUp, stopped := false, false;
      var seen := 0;
      ghost var all := HelloRun(state, selfDone, x, 0, trace);
      while !(ReadDone(x.peerDone, seen) && selfDone)
        invariant HELLO <= state && all == HelloRun(state, selfDone, x, seen, trace)
        decreases x.event - state + 1
      {
        var gap := x.event - state;
        if gap == -1 {
          return;
        } else if gap == 0 || gap == 1 {
          var rc := HelloPhase(x.hello);
          seen := seen + 1;
          if rc < 0 {
            Error();
            stopped := true;
            return;
          }
        } else {
          Error();
          stopped := true;
          return;
        }
      }
      var gap := x.event - state;
      if gap == 0 {
        linkUp := true;
      } else if gap != -1 {
        Error();
      }
    }

    /** The states before hello; `go` tells that the hello loop is to run. */
    method Negotiate(x: Inputs) returns (go: bool)
      requires ENABLED <= state
      modifies this`state, this`selfDone, this`trace
      ensures Negotiation(old(Now()), x) == if go then InHello(Now()) else Waiting(Now())
    {
      go := false;
      if state == ENABLED {
        if !x.isUp || !x.windowOk {
          return;
        }
        state := START;
      }
      if state == START {
        if x.event != START && x.event != VER_SENT {
          return;
        }
        state := VER_SENT;
      }
      go := Agree(x);
    }

    /** From VER_SENT on. */
    method Agree(x: Inputs) returns (go: bool)
      requires VER_SENT <= state
      modifies this`state, this`selfDone, this`trace
      ensures Negotiation(old(Now()), x) == if go then InHello(Now()) else Waiting(Now())
    {
      go := false;
      if state == VER_SENT {
        if x.event != VER_SENT && x.event != VER_CHOSEN {
          if x.event != START {
            Error();
          }
          return;
        }
        if !x.versionOk {
          Error();
          return;
        }
        selfDone, state := false, VER_CHOSEN;
      }
      if state == VER_CHOSEN {
        if x.event != VER_CHOSEN && x.event != DB_CONFIGURED {
          if x.event != VER_SENT {
            Error();
          }
          return;
        }
        if !x.doorbellOk {
          Error();
          return;
        }
        state := DB_CONFIGURED;
      }
      go := Commit(x);
    }

    method Commit(x: Inputs) returns (go: bool)
      requires DB_CONFIGURED <= state
      modifies this`state, this`selfDone, this`trace
      ensures Negotiation(old(Now()), x) == if go then InHello(Now()) else Waiting(Now())
    {
      go := false;
      if state == DB_CONFIGURED {
        if x.event != DB_CONFIGURED && x.event != COMMITTED {
          if x.event != VER_CHOSEN {
            Error();
          }
          return;
        }
        state := COMMITTED;
      }
      if state == COMMITTED {
        if x.event != COMMITTED && x.event != HELLO {
          if x.event != DB_CONFIGURED {
            Error();
          }
          return;
        }
        var rc := HelloPhase(x.hello);
        if rc < 0 {
          Error();
          return;
        }
      }
      go := true;
    }

    /** One run of the link work. */
    method LinkWork(x: Inputs)
      requires QUIESCE <= state
      modifies this
      ensures Now() == LinkStep(old(Now()), x)
    {
      hide HelloRun, Negotiation;
      if state == QUIESCE {
        Update(false, true);
        trace := trace + [Quiesce];
        state := RESET;
      }
      if state == RESET {
        trace := trace + [Reset];
        state := ENABLED;
        Update(false, x.enableOk);
        return;
      }
      var linkUp := false;
      var go := Negotiate(x);
      if go {
        NegotiatedState(old(Now()), x);
        var stopped: bool;
        linkUp, stopped := HelloLoop(x);
        if stopped {
          return;
        }
      }
      Update(linkUp, x.enableOk);
    }

    /** A reset asked for by the upper layer. */
    method LinkReset()
      modifies this`state
      ensures Now() == Step(old(Now()), ResetLink)
    {
      if state > ENABLED {
        Error();
      }
    }
  }

  lemma {:induction false} NegotiatedState(n: Node, x: Inputs)
    ensures Negotiation(n, x).InHello? ==> HELLO <= Negotiation(n, x).n.state
    decreases HELLO - n.state
  {
    if n.state <= ENABLED {
      NegotiatedState(n.(state := START), x);
    } else if n.state < COMMITTED {
      NegotiatedState(n.(state := n.state + 1, selfDone := n.selfDone && n.state != VER_SENT), x);
    }
  }
}
