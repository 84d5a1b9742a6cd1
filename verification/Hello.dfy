/**
 The two-party link negotiation: both nodes step through the link states and the
 hello phases, each writing into the other's memory (ntc_ntb_msi.c and the
 double-buffered hello phases of ntrdma_hello.c).

 Writes of one node land in the other's memory in the order they were made,
 at any later time.  The state message is a register: a node sees only the last
 value that landed when it looks.  A run begins where both nodes have left their
 last reset; what the memories hold from before is arbitrary.  Repetitions of
 the current state message write what is already there and are not steps.
 */
module Hello {
  import opened Link

  /** What a hello half-buffer holds: something left over, or what the peer wrote in a phase. */
  datatype Content = Leftover(v: int) | Written(phase: int)

  /** A write to the peer's memory. */
  datatype Write = Half(h: nat, c: Content) | Done(v: bool) | Ping(msg: int)

  /** The part of a node's memory that the peer writes. */
  datatype Memory = Memory(half0: Content, half1: Content, done: bool, ping: int)

  /** `event` is the state message last looked at, `read` what the hello phases have read. */
  datatype Node = Node(state: int, event: int, selfDone: bool, up: bool, mem: Memory, read: seq<Content>)

  datatype Outcome = Fine | OutOfStep | NoSuchPhase

  /** Node 0 and node 1, and for each the writes that have not landed at the other. */
  datatype Pair = Pair(n: seq<Node>, q: seq<seq<Write>>, outcome: Outcome)

  // ---------------------------------------------------------------------
  // Steps
  // ---------------------------------------------------------------------

  function Land(m: Memory, w: Write): Memory {
    match w
    case Half(h, c) => if h == 0 then m.(half0 := c) else m.(half1 := c)
    case Done(v) => m.(done := v)
    case Ping(s) => m.(ping := s)
  }

  /** Odd phases read the first half of the own buffer and write the second half of the peer's. */
  function ReadsHalf(phase: int): nat {
    if phase % 2 == 1 then 0 else 1
  }

  function WritesHalf(phase: int): nat {
    if phase % 2 == 1 then 1 else 0
  }

  /** What a hello phase writes to the peer: phases 0 to 2 a half-buffer, phase 3 the done flag. */
  function PhaseWrites(phase: int): seq<Write> {
    if phase == 3 then [Done(true)] else [Half(WritesHalf(phase), Written(phase))]
  }

  function ReadIn(m: Memory, phase: int): Content {
    if ReadsHalf(phase) == 0 then m.half0 else m.half1
  }

  /** What a node makes of the message it has seen, and the writes of the step. */
  datatype Move = Stay | Advance(n: Node, ws: seq<Write>) | Error(why: Outcome)

  /** One hello phase; the first one reads nothing. */
  function Phase(n: Node, phase: int): Move {
    if phase > 3 then Error(NoSuchPhase)
    else
      Advance(n.(state := HELLO + phase, selfDone := n.selfDone || phase == 3,
                 read := if phase == 0 then n.read else n.read + [ReadIn(n.mem, phase)]),
              PhaseWrites(phase) + [Ping(HELLO + phase)])
  }

  function Next(n: Node): Move {
    var s, gap := n.state, n.event - n.state;
    if s == START then
      if gap == 0 || gap == 1 then Advance(n.(state := VER_SENT), [Ping(VER_SENT)]) else Stay
    else if s < HELLO then
      if gap == -1 then Stay
      else if gap != 0 && gap != 1 then Error(OutOfStep)
      else if s == VER_SENT then Advance(n.(state := VER_CHOSEN, selfDone := false), [Done(false), Ping(VER_CHOSEN)])
      else if s == COMMITTED then Phase(n, 0)
      else Advance(n.(state := s + 1), [Ping(s + 1)])
    else if n.mem.done && n.selfDone then
      if gap == 0 then Advance(n.(up := true), [])
      else if gap == -1 then Stay
      else Error(OutOfStep)
    else if gap == -1 then Stay
    else if gap == 0 || gap == 1 then Phase(n, s + 1 - HELLO)
    else Error(OutOfStep)
  }

  datatype Event = Arrive(i: nat) | Look(i: nat) | Move(i: nat)

  ghost predicate Two(p: Pair) {
    |p.n| == 2 && |p.q| == 2
  }

  function Step(p: Pair, e: Event): (r: Pair)
    requires |p.n| == 2 && |p.q| == 2 && e.i < 2
    ensures |r.n| == 2 && |r.q| == 2
  {
    var i, j := e.i, 1 - e.i;
    if !p.outcome.Fine? then p else
    match e
    case Arrive(_) =>
      if p.q[i] == [] then p
      else p.(n := p.n[j := p.n[j].(mem := Land(p.n[j].mem, p.q[i][0]))], q := p.q[i := p.q[i][1..]])
    case Look(_) => p.(n := p.n[i := p.n[i].(event := p.n[i].mem.ping)])
    case Move(_) =>
      match Next(p.n[i])
      case Stay => p
      case Error(why) => p.(outcome := why)
      case Advance(m, ws) => p.(n := p.n[i := m], q := p.q[i := p.q[i] + ws])
  }

  /** A message left over from before: any but the two that a node in START reacts to. */
  predicate Stale(msg: int) {
    msg != START && msg != VER_SENT
  }

  /** Both nodes have just entered START; memories hold leftovers, but no message of this session. */
  ghost predicate Init(p: Pair) {
    && Two(p) && p.outcome.Fine? && p.q == [[Ping(START)], [Ping(START)]]
    && forall i :: 0 <= i < 2 ==>
         && p.n[i].state == START && Stale(p.n[i].event) && Stale(p.n[i].mem.ping)
         && !p.n[i].up && p.n[i].read == []
         && p.n[i].mem.half0.Leftover? && p.n[i].mem.half1.Leftover?
  }

  // ---------------------------------------------------------------------
  // The writes of a session
  // ---------------------------------------------------------------------

  /** All writes of a session, in order. */
  const Script: seq<Write> := [
    Ping(3), Ping(4), Done(false), Ping(5), Ping(6), Ping(7),
    Half(0, Written(0)), Ping(8), Half(1, Written(1)), Ping(9), Half(0, Written(2)), Ping(10), Done(true), Ping(11)]

  /** How many of them a node has made when it is in state s. */
  function Made(s: int): nat {
    match s
    case 3 => 1
    case 4 => 2
    case 5 => 4
    case 6 => 5
    case 7 => 6
    case 8 => 8
    case 9 => 10
    case 10 => 12
    case 11 => 14
    case _ => 0
  }

  /** The message register after k writes. */
  function PingAt(k: nat): int {
    if k == 0 then 0 else if k == 1 then 3 else if k <= 3 then 4 else if k == 4 then 5 else if k == 5 then 6
    else if k <= 7 then 7 else if k <= 9 then 8 else if k <= 11 then 9 else if k <= 13 then 10 else 11
  }

  /** A memory into which k writes of the session have landed. */
  ghost predicate Holds(m: Memory, k: nat) {
    && (if k == 0 then Stale(m.ping) else m.ping == PingAt(k))
    && (if k < 7 then m.half0.Leftover? else m.half0 == Written(if k < 11 then 0 else 2))
    && (if k < 9 then m.half1.Leftover? else m.half1 == Written(1))
    && (3 <= k < 13 ==> !m.done) && (13 <= k ==> m.done)
  }

  lemma LandHolds(m: Memory, k: nat)
    requires k < |Script| && Holds(m, k)
    ensures Holds(Land(m, Script[k]), k + 1)
  {
  }

  /** A node's progress: its state, its last message seen, and what its phases read. */
  ghost predicate Progress(n: Node) {
    && START <= n.state <= HELLO + 3
    && ((n.state == START && Stale(n.event)) || START <= n.event)
    && (VER_SENT <= n.state ==> n.state - 1 <= n.event)
    && (VER_CHOSEN <= n.state ==> (n.selfDone <==> n.state == HELLO + 3))
    && n.read == [Written(0), Written(1), Written(2)][..if n.state <= HELLO then 0 else n.state - HELLO]
    && (n.up ==> n.state == HELLO + 3 && n.event == HELLO + 3)
  }

  /** Node i has made the writes of its state, k of which have landed at the other node. */
  ghost predicate Channel(state: int, q: seq<Write>, m: Memory, k: nat) {
    && START <= state <= HELLO + 3 && k <= Made(state) <= |Script|
    && q == Script[k..Made(state)] && Holds(m, k)
  }

  /** What the node has seen is a leftover, which it ignores, or one of the first k writes of the peer. */
  ghost predicate Heard(n: Node, k: nat) {
    (n.state == START && Stale(n.event)) || n.event <= PingAt(k)
  }

  /** Node a towards node b: what a wrote, what of it landed, and what b has seen of it. */
  ghost predicate Side(a: Node, b: Node, q: seq<Write>, k: nat) {
    && Progress(a) && Channel(a.state, q, b.mem, k)
    && Heard(b, k) && PingAt(k) <= a.state
  }

  ghost predicate Lockstep(p: Pair, k: seq<nat>) {
    && Two(p) && |k| == 2 && p.outcome.Fine?
    && Side(p.n[0], p.n[1], p.q[0], k[0]) && Side(p.n[1], p.n[0], p.q[1], k[1])
  }

  // ---------------------------------------------------------------------
  // Every step keeps the nodes in lockstep
  // ---------------------------------------------------------------------

  lemma InitLockstep(p: Pair)
    requires Init(p)
    ensures Lockstep(p, [0, 0])
  {
  }

  lemma PingGrows(k: nat, s: int)
    requires START <= s <= HELLO + 3 && k < Made(s)
    ensures PingAt(k) <= PingAt(k + 1) <= s && Made(s) <= 14
  {
  }

  lemma SideArrive(a: Node, b: Node, q: seq<Write>, k: nat)
    requires Side(a, b, q, k) && q != []
    ensures Side(a, b.(mem := Land(b.mem, q[0])), q[1..], k + 1)
  {
    hide Progress, Land;
    PingGrows(k, a.state);
    assert k < |Script| && q[0] == Script[k];
    LandHolds(b.mem, k);
    hide Holds, PingAt, Made;
  }

  /** A node that has seen message s finds what phase s - HELLO of the peer wrote, not yet overwritten. */
  lemma ReadsRight(m: Memory, k: nat, s: int)
    requires Holds(m, k) && HELLO <= s <= HELLO + 2 && s <= PingAt(k) && k <= Made(s + 1)
    ensures ReadIn(m, s + 1 - HELLO) == Written(s - HELLO)
  {
  }

  lemma MadeGrows(s: int, t: int)
    requires START <= s <= t <= HELLO + 3
    ensures Made(s) <= Made(t)
  {
  }

  /** What one step of a node may rely on: the message seen and the memory below it. */
  ghost predicate Sees(n: Node, k: nat, peer: int) {
    && Progress(n) && Holds(n.mem, k) && Heard(n, k) && PingAt(k) <= peer
    && START <= peer <= n.state + 1 && peer <= HELLO + 3 && k <= Made(peer)
  }

  lemma SidesSee(a: Node, b: Node, q: seq<Write>, k: nat, q': seq<Write>, k': nat)
    requires Side(a, b, q, k) && Side(b, a, q', k')
    ensures Sees(a, k', b.state)
  {
  }

  /** The writes of a session from state s to state t. */
  ghost function Part(s: int, t: int): seq<Write>
    requires START <= s <= t <= HELLO + 3
  {
    MadeGrows(s, t);
    Script[Made(s)..Made(t)]
  }

  lemma PhaseFollows(n: Node, k: nat, peer: int)
    requires Sees(n, k, peer) && COMMITTED <= n.state <= HELLO + 2 && n.event >= n.state
    ensures var m := Phase(n, n.state + 1 - HELLO);
            && m.Advance? && Progress(m.n)
            && m.n == n.(state := n.state + 1, selfDone := m.n.selfDone, read := m.n.read)
            && m.ws == Part(n.state, n.state + 1)
  {
    hide Part, Holds, Made, PingAt;
    LateParts(n.state);
    if n.state >= HELLO {
      MadeGrows(peer, n.state + 1);
      ReadsRight(n.mem, k, n.state);
    }
    hide ReadIn, PhaseWrites;
  }

  /** The writes of the hello phases. */
  lemma LateParts(s: int)
    requires COMMITTED <= s <= HELLO + 2
    ensures Part(s, s + 1) == PhaseWrites(s + 1 - HELLO) + [Ping(s + 1)]
  {
    assert Script[6..8] == [Half(0, Written(0))] + [Ping(8)] && Script[8..10] == [Half(1, Written(1))] + [Ping(9)];
    assert Script[10..12] == [Half(0, Written(2))] + [Ping(10)] && Script[12..14] == [Done(true)] + [Ping(11)];
  }

  /** The move of a node is the next line of the script, or none. */
  lemma NextFollows(n: Node, k: nat, peer: int)
    requires Sees(n, k, peer)
    ensures var m := Next(n);
            && !m.Error?
            && (m.Advance? ==>
                  && Progress(m.n) && Heard(m.n, k) && m.n.mem == n.mem && m.n.event == n.event
                  && n.state <= m.n.state <= n.state + 1 && m.ws == Part(n.state, m.n.state))
  {
    hide Phase, Part, Holds, Made, PingAt;
    if n.state < COMMITTED {
      EarlyParts(n.state);
    } else if n.state <= HELLO + 2 && n.event >= n.state {
      PhaseFollows(n, k, peer);
    } else {
      NoPart(n.state);
      if n.event == HELLO + 3 {
        BothThrough(n, k, peer);
      }
    }
  }

  /** The last message comes after the done flag. */
  lemma BothThrough(n: Node, k: nat, peer: int)
    requires Sees(n, k, peer) && n.state > START && n.event == HELLO + 3
    ensures n.mem.done
  {
  }

  lemma NoPart(s: int)
    requires START <= s <= HELLO + 3
    ensures Part(s, s) == []
  {
  }

  /** The writes before hello. */
  lemma EarlyParts(s: int)
    requires START <= s < COMMITTED
    ensures Part(s, s + 1) == if s == VER_SENT then [Done(false), Ping(VER_CHOSEN)] else [Ping(s + 1)]
  {
    assert Script[1..2] == [Ping(4)] && Script[2..4] == [Done(false), Ping(5)];
    assert Script[4..5] == [Ping(6)] && Script[5..6] == [Ping(7)];
  }

  lemma ChannelMore(s: int, t: int, q: seq<Write>, m: Memory, k: nat)
    requires Channel(s, q, m, k) && s <= t <= HELLO + 3
    ensures Channel(t, q + Part(s, t), m, k)
  {
    hide Holds;
    MadeGrows(s, t);
    var b, c := Made(s), Made(t);
    assert c <= |Script|;
    assert Script[k..b] + Script[b..c] == Script[k..c];
  }

  /** Node a moves. */
  lemma SidesMove(a: Node, b: Node, q: seq<Write>, k: nat, q': seq<Write>, k': nat)
    requires Side(a, b, q, k) && Side(b, a, q', k')
    ensures var m := Next(a);
            !m.Error? && (m.Advance? ==> Side(m.n, b, q + m.ws, k) && Side(b, m.n, q', k'))
  {
    SidesSee(a, b, q, k, q', k');
    NextFollows(a, k', b.state);
    hide Next, Progress, Holds, PingAt, Made, Part, Sees, Heard;
    var m := Next(a);
    if m.Advance? {
      assert m.n.state <= HELLO + 3 by { ProgressState(m.n); }
      ChannelMore(a.state, m.n.state, q, b.mem, k);
    }
  }

  lemma ProgressState(n: Node)
    requires Progress(n)
    ensures START <= n.state <= HELLO + 3
  {
  }

  /** Node a looks at the message register. */
  lemma SidesLook(a: Node, b: Node, q: seq<Write>, k: nat, q': seq<Write>, k': nat)
    requires Side(a, b, q, k) && Side(b, a, q', k')
    ensures var m := a.(event := a.mem.ping); Side(m, b, q, k) && Side(b, m, q', k')
  {
    hide Made;
    if k' == 0 {
      assert a.state == START && Stale(a.mem.ping);
    } else {
      assert a.mem.ping == PingAt(k') && START <= PingAt(k') <= b.state <= HELLO + 3;
    }
    hide Holds, PingAt;
  }

  lemma {:induction false} StepLockstep(p: Pair, k: seq<nat>, e: Event) returns (k': seq<nat>)
    requires Lockstep(p, k) && e.i < 2
    ensures Lockstep(Step(p, e), k')
  {
    hide Side, Next, Land;
    var i, j := e.i, 1 - e.i;
    k' := k;
    match e
    case Arrive(_) =>
      if p.q[i] != [] {
        SideArrive(p.n[i], p.n[j], p.q[i], k[i]);
        SideMemory(p.n[j], p.n[i], p.q[j], k[j], Land(p.n[j].mem, p.q[i][0]));
        k' := k[i := k[i] + 1];
      }
    case Look(_) => SidesLook(p.n[i], p.n[j], p.q[i], k[i], p.q[j], k[j]);
    case Move(_) => SidesMove(p.n[i], p.n[j], p.q[i], k[i], p.q[j], k[j]);
  }

  /** A node's own memory does not matter to what it wrote. */
  lemma {:induction false} SideMemory(a: Node, b: Node, q: seq<Write>, k: nat, m: Memory)
    requires Side(a, b, q, k)
    ensures Side(a.(mem := m), b, q, k)
  {
  }

  // ---------------------------------------------------------------------
  // Every run
  // ---------------------------------------------------------------------

  ghost function Run(p: Pair, es: seq<Event>): (r: Pair)
    requires Two(p)
    ensures Two(r)
  {
    if es == [] then p else
    var q, e := Run(p, es[..|es| - 1]), es[|es| - 1];
    if e.i < 2 then Step(q, e) else q
  }

  lemma {:induction false} RunLockstep(p: Pair, es: seq<Event>) returns (k: seq<nat>)
    requires Init(p)
    ensures Lockstep(Run(p, es), k)
  {
    if es == [] {
      InitLockstep(p);
      k := [0, 0];
    } else {
      k := RunLockstep(p, es[..|es| - 1]);
      if es[|es| - 1].i < 2 {
        k := StepLockstep(Run(p, es[..|es| - 1]), k, es[|es| - 1]);
      }
    }
  }

  /**
   In every run the nodes stay in step: no error is raised and no phase beyond
   the four is requested, the states from VER_SENT on differ by at most one,
   each hello phase has read exactly what the peer wrote in the phase before, and
   a node whose link is up knows that both are through.
   */
  lemma {:induction false} InStep(p: Pair, es: seq<Event>, i: nat)
    requires Init(p) && i < 2
    ensures var r := Run(p, es);
            var a, b := r.n[i], r.n[1 - i];
            && r.outcome.Fine?
            && (VER_SENT <= a.state ==> a.state - 1 <= b.state)
            && a.state <= HELLO + 3
            && a.read == [Written(0), Written(1), Written(2)][..if a.state <= HELLO then 0 else a.state - HELLO]
            && (a.up ==> a.state == HELLO + 3 && b.state == HELLO + 3 && b.selfDone)
  {
    var k := RunLockstep(p, es);
    var r := Run(p, es);
    hide Run;
    SidesSee(r.n[i], r.n[1 - i], r.q[i], k[i], r.q[1 - i], k[1 - i]);
    SidesSee(r.n[1 - i], r.n[i], r.q[1 - i], k[1 - i], r.q[i], k[i]);
  }

  /**
   No half-buffer is overwritten before it is read: when a write to one lands,
   the node it lands at has read what the peer wrote there before.
   */
  lemma {:induction false} NoOverwriteBeforeRead(p: Pair, es: seq<Event>, i: nat)
    requires Init(p) && i < 2 && Run(p, es).q[i] != [] && Run(p, es).q[i][0].Half?
    ensures var r := Run(p, es);
            var w, b := r.q[i][0], r.n[1 - i];
            var before := if w.h == 0 then b.mem.half0 else b.mem.half1;
            before.Leftover? || before in b.read
  {
    var k := RunLockstep(p, es);
    var r := Run(p, es);
    hide Run;
    SidesSee(r.n[i], r.n[1 - i], r.q[i], k[i], r.q[1 - i], k[1 - i]);
    SidesSee(r.n[1 - i], r.n[i], r.q[1 - i], k[1 - i], r.q[i], k[i]);
    OverwriteRead(r.n[i], r.n[1 - i], r.q[i], k[i]);
  }

  lemma {:induction false} OverwriteRead(a: Node, b: Node, q: seq<Write>, k: nat)
    requires Side(a, b, q, k) && Progress(b) && a.state <= b.state + 1 && q != [] && q[0].Half?
    ensures var before := if q[0].h == 0 then b.mem.half0 else b.mem.half1;
            before.Leftover? || before in b.read
  {
    PingGrows(k, a.state);
    assert q[0] == Script[k];
    if k == 10 {
      assert b.read[0] == Written(0);
    }
  }

  // ---------------------------------------------------------------------
  // A run of the link work is a sequence of such moves
  // ---------------------------------------------------------------------

  /** A node that moves on as long as the message it has seen lets it. */
  function Settle(n: Node): Node
    decreases HELLO + 4 - n.state
  {
    match Next(n)
    case Stay => n
    case Error(_) => n.(state := QUIESCE)
    case Advance(m, _) => if n.state < m.state <= HELLO + 4 then Settle(m) else m
  }

  /** The inputs of a run in which every local step succeeds. */
  function Calm(n: Node): Inputs {
    Inputs(n.event, [n.mem.done, n.mem.done, n.mem.done], true, true, true, true, true, [0, 0, 0, 1])
  }

  function Bare(n: Node, calls: seq<Call>): Link.Node {
    Link.Node(n.state, n.up, n.selfDone, calls)
  }

  ghost predicate Agree(l: Link.Node, n: Node) {
    l.state == n.state && l.up == n.up && l.selfDone == n.selfDone
  }

  /** Where the reading of the done flags starts does not matter while the flag stays as it is. */
  lemma {:induction false} SeenShift(state: int, selfDone: bool, n: Node, calls: seq<Call>)
    requires n.event <= state
    ensures HelloRun(state, selfDone, Calm(n), 1, calls) == HelloRun(state, selfDone, Calm(n), 0, calls)
  {
    if n.event == state {
      var rc := Answer([0, 0, 0, 1], state + 1 - HELLO);
      var cs := calls + [Link.Call.Hello(state + 1 - HELLO, rc)];
      assert HelloRun(state + 1, selfDone || rc == 1, Calm(n), 2, cs) ==
             HelloRun(state + 1, selfDone || rc == 1, Calm(n), 1, cs);
    }
  }

  /** The hello loop goes on from the state after its first phase. */
  lemma {:induction false} HelloOn(n: Node, calls: seq<Call>)
    requires HELLO <= n.state < HELLO + 3 && !n.selfDone && n.state <= n.event <= n.state + 1
    ensures var p := n.state + 1 - HELLO;
            HelloStep(Bare(n, calls), Calm(n)) ==
            HelloStep(Bare(Phase(n, p).n, calls + [Link.Call.Hello(p, Answer([0, 0, 0, 1], p))]), Calm(n))
  {
    var p := n.state + 1 - HELLO;
    var cs := calls + [Link.Call.Hello(p, Answer([0, 0, 0, 1], p))];
    SeenShift(n.state + 1, p == 3, n, cs);
    assert HelloRun(n.state, false, Calm(n), 0, calls) == HelloRun(n.state + 1, p == 3, Calm(n), 1, cs);
    hide HelloRun, Updated;
  }

  /** The hello states settle as the hello loop does. */
  lemma {:induction false} SettleHello(n: Node, calls: seq<Call>)
    requires HELLO <= n.state <= HELLO + 3 && (n.selfDone <==> n.state == HELLO + 3)
    requires n.up ==> n.event == n.state == HELLO + 3 && n.mem.done
    ensures var l := HelloStep(Bare(n, calls), Calm(n));
            if Settle(n).state == QUIESCE then l.state == QUIESCE else Agree(l, Settle(n))
    decreases HELLO + 4 - n.state
  {
    hide HelloStep, HelloRun, Updated, Answer;
    if n.state < HELLO + 3 && n.state <= n.event <= n.state + 1 {
      var p := n.state + 1 - HELLO;
      HelloOn(n, calls);
      SettleHello(Phase(n, p).n, calls + [Link.Call.Hello(p, Answer([0, 0, 0, 1], p))]);
    } else {
      HelloEnds(n, calls);
    }
  }

  lemma HelloEnds(n: Node, calls: seq<Call>)
    requires HELLO <= n.state <= HELLO + 3 && (n.selfDone <==> n.state == HELLO + 3)
    requires n.up ==> n.event == n.state == HELLO + 3 && n.mem.done
    requires !(n.state < HELLO + 3 && n.state <= n.event <= n.state + 1)
    ensures var l := HelloStep(Bare(n, calls), Calm(n));
            if Settle(n).state == QUIESCE then l.state == QUIESCE else Agree(l, Settle(n))
  {
  }

  /** A run of the link work in which the local steps succeed is a sequence of moves of the two-party protocol. */
  lemma {:induction false} SettleIsLinkWork(n: Node, calls: seq<Call>)
    requires START <= n.state <= HELLO + 3 && (HELLO <= n.state ==> (n.selfDone <==> n.state == HELLO + 3))
    requires VER_CHOSEN <= n.state < HELLO ==> !n.selfDone
    requires n.up ==> n.event == n.state == HELLO + 3 && n.mem.done
    ensures var l := LinkStep(Bare(n, calls), Calm(n));
            if Settle(n).state == QUIESCE then l.state == QUIESCE else Agree(l, Settle(n))
    decreases HELLO - n.state
  {
    hide HelloStep, HelloRun;
    if n.state >= HELLO {
      SettleHello(n, calls);
    } else {
      match Next(n)
      case Advance(m, _) =>
        var cs := if n.state == COMMITTED then calls + [Link.Call.Hello(0, 0)] else calls;
        assert LinkStep(Bare(n, calls), Calm(n)) == LinkStep(Bare(m, cs), Calm(m));
        SettleIsLinkWork(m, cs);
      case _ =>
    }
  }
}
