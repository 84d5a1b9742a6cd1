/**
 The command channel (ntrdma_cmd_send_work, ntrdma_cmd_recv_work,
 ntrdma_dev_cmd_add in ntrdma_cmd.c, ntrdma_cmd_cb_unlink in ntrdma_res.c).

 Callbacks wait in a pending list, are moved to a posted list when their command
 is written to the ring, and are called with the response.  A callback can be
 unlinked at any time, for instance when its caller stops waiting; the command
 stays in the ring and its response is then skipped.  A callback may add itself
 again when it is called.
 */
module Command {
  import opened Ring
  import opened RemoteRing

  /** A command: the slot it is in, the callback it belongs to, and what that prepared. */
  datatype Cmd = Cmd(id: nat, cb: nat, body: nat)

  datatype Rsp = Rsp(id: nat, body: nat)

  /** A callback in the posted list, and the number of its command. */
  datatype Posted = Posted(cb: nat, n: nat)

  /** What happens to callbacks, in order. */
  datatype Note = Added(cb: nat) | Unlinked(cb: nat) | Called(cb: nat, n: nat, rsp: Rsp)

  /** What became of a command: still in the posted list, answered, or given up by its caller. */
  datatype Fate = Waiting(cb: nat) | Answered(cb: nat, rsp: Rsp) | GivenUp(cb: nat)

  datatype Channel = Channel(
    cmd: RemoteRing<Cmd>,   // commands: sender -> receiver
    rsp: RemoteRing<Rsp>,   // responses: receiver -> sender
    cmpl: nat,              // responses handled by the sender
    pend: seq<nat>,
    post: seq<Posted>,
    ran: seq<Cmd>,          // commands executed by the receiver
    trace: seq<Note>,
    fate: seq<Fate>,        // by command number
    linkDown: bool          // a response did not carry the number of its slot
  )

  function Init(cap: nat): Channel {
    Channel(EmptyRing(cap, Cmd(0, 0, 0)), EmptyRing(cap, Rsp(0, 0)), 0, [], [], [], [], [], false)
  }

  ghost predicate Shape(s: Channel) {
    Capacity(s.cmd.cap) && s.cmd.cap == s.rsp.cap == |s.cmd.src| == |s.cmd.dst| == |s.rsp.src| == |s.rsp.dst|
  }

  /** The callbacks in either list. */
  function Linked(pend: seq<nat>, post: seq<Posted>): set<nat> {
    (set i | 0 <= i < |pend| :: pend[i]) + (set i | 0 <= i < |post| :: post[i].cb)
  }

  // ---------------------------------------------------------------------
  // Steps
  // ---------------------------------------------------------------------

  /** A callback that is linked is not added again. */
  function Add(s: Channel, cb: nat): Channel {
    if cb in Linked(s.pend, s.post) then s
    else s.(pend := s.pend + [cb], trace := s.trace + [Added(cb)])
  }

  function FindPend(pend: seq<nat>, cb: nat): (i: nat)
    ensures i <= |pend| && (i < |pend| ==> pend[i] == cb) && forall j :: 0 <= j < i ==> pend[j] != cb
  {
    if pend == [] || pend[0] == cb then 0 else 1 + FindPend(pend[1..], cb)
  }

  function FindPost(post: seq<Posted>, cb: nat): (i: nat)
    ensures i <= |post| && (i < |post| ==> post[i].cb == cb) && forall j :: 0 <= j < i ==> post[j].cb != cb
  {
    if post == [] || post[0].cb == cb then 0 else 1 + FindPost(post[1..], cb)
  }

  /** The list without its element i, if it has one. */
  function Without<T>(s: seq<T>, i: nat): seq<T> {
    if i < |s| then s[..i] + s[i + 1..] else s
  }

  /** Commands of the callback that still wait are given up. */
  function GiveUp(fate: seq<Fate>, cb: nat): (r: seq<Fate>)
    ensures |r| == |fate|
    ensures forall n :: 0 <= n < |fate| ==> r[n] == if fate[n] == Waiting(cb) then GivenUp(cb) else fate[n]
  {
    seq(|fate|, n requires 0 <= n < |fate| => if fate[n] == Waiting(cb) then GivenUp(cb) else fate[n])
  }

  function Unlink(s: Channel, cb: nat): Channel {
    if cb !in Linked(s.pend, s.post) then s
    else s.(pend := Without(s.pend, FindPend(s.pend, cb)), post := Without(s.post, FindPost(s.post, cb)),
            fate := GiveUp(s.fate, cb),
            trace := s.trace + [Unlinked(cb)])
  }

  /** The next response; `again` tells whether the callback adds itself when it is called. */
  function Complete(s: Channel, again: bool): Channel
    requires 0 < s.cmd.cap == |s.rsp.dst| && s.cmpl < |s.fate|
  {
    var n, at := s.cmpl, Slot(s.cmpl, s.cmd.cap);
    var r := s.rsp.dst[at];
    var t := s.(cmpl := n + 1, linkDown := s.linkDown || r.id != at);
    if s.post == [] || Slot(s.post[0].n, s.cmd.cap) != at then t
    else
      var cb := s.post[0].cb;
      t.(post := s.post[1..], fate := s.fate[n := Answered(cb, r)],
         pend := if again then s.pend + [cb] else s.pend,
         trace := s.trace + [Called(cb, n, r)] + if again then [Added(cb)] else [])
  }

  /** The next pending callback prepares its command in the next slot. */
  function Prepare(s: Channel, body: nat): Channel
    requires 0 < s.cmd.cap == |s.cmd.src| && s.pend != []
  {
    var n, cb := |s.cmd.log|, s.pend[0];
    s.(cmd := Issue(s.cmd, Cmd(Slot(n, s.cmd.cap), cb, body)),
       pend := s.pend[1..], post := s.post + [Posted(cb, n)], fate := s.fate + [Waiting(cb)])
  }

  /** The next command is executed; its response carries the number the command came with. */
  function Execute(s: Channel, body: nat): Channel
    requires 0 < s.rsp.cap == |s.rsp.src| == |s.cmd.dst|
  {
    var c := s.cmd.dst[Slot(|s.rsp.log|, s.rsp.cap)];
    s.(ran := s.ran + [c], rsp := Issue(s.rsp, Rsp(c.id, body)))
  }

  /** Responses one run of the sender's work can handle. */
  function Answers(s: Channel): nat
    requires s.cmd.cap > 0
  {
    if s.rsp.word <= s.cmpl then 0 else Min(s.rsp.word - s.cmpl, Contiguous(s.cmpl, s.cmd.cap))
  }

  /** Commands one run of the sender's work can post. */
  function Room(s: Channel): nat
    requires s.cmd.cap > 0
  {
    var free := s.cmpl + s.cmd.cap - |s.cmd.log|;
    var k := Min(free, Contiguous(|s.cmd.log|, s.cmd.cap));
    if k <= 0 then 0 else Min(k, |s.pend|)
  }

  // ---------------------------------------------------------------------
  // The life of callbacks
  // ---------------------------------------------------------------------

  /** The callbacks that are linked after what the trace tells, or that it cannot have been so. */
  datatype Life = Life(linked: set<nat>) | Impossible

  function Observe(l: Life, e: Note): Life {
    if l.Impossible? then Impossible else
    match e
    case Added(cb) => if cb in l.linked then Impossible else Life(l.linked + {cb})
    case Unlinked(cb) => if cb in l.linked then Life(l.linked - {cb}) else Impossible
    case Called(cb, _, _) => if cb in l.linked then Life(l.linked - {cb}) else Impossible
  }

  function After(trace: seq<Note>): Life {
    if trace == [] then Life({}) else Observe(After(trace[..|trace| - 1]), trace[|trace| - 1])
  }

  lemma AfterSnoc(trace: seq<Note>, e: Note)
    ensures After(trace + [e]) == Observe(After(trace), e)
  {
    assert (trace + [e])[..|trace|] == trace;
  }

  lemma {:induction false} AfterPrefix(trace: seq<Note>, n: nat)
    requires n <= |trace| && After(trace).Life?
    ensures After(trace[..n]).Life?
  {
    if n == |trace| {
      assert trace[..n] == trace;
    } else {
      AfterPrefix(trace[..|trace| - 1], n);
      assert trace[..|trace| - 1][..n] == trace[..n];
    }
  }

  /** A callback that is not linked stays so until it is added. */
  lemma {:induction false} StaysUnlinked(trace: seq<Note>, i: nat, cb: nat)
    requires i <= |trace| && After(trace).Life? && After(trace[..i]).Life? && cb !in After(trace[..i]).linked
    requires forall k :: i <= k < |trace| ==> trace[k] != Added(cb)
    ensures cb !in After(trace).linked
  {
    var n := |trace| - 1;
    if i == |trace| {
      assert trace[..i] == trace;
    } else {
      AfterPrefix(trace, n);
      assert trace[..n][..i] == trace[..i];
      StaysUnlinked(trace[..n], i, cb);
    }
  }

  /** A callback is called after it was unlinked or called before only if it was added in between. */
  lemma CalledOnlyIfAdded(trace: seq<Note>, i: nat, j: nat)
    requires After(trace).Life? && i < j < |trace| && !trace[i].Added? && trace[j].Called? && trace[j].cb == trace[i].cb
    ensures exists k :: i < k < j && trace[k] == Added(trace[i].cb)
  {
    var cb := trace[i].cb;
    AfterPrefix(trace, i + 1);
    AfterPrefix(trace, j);
    AfterPrefix(trace, j + 1);
    assert trace[..i + 1][..i] == trace[..i] && trace[..j + 1][..j] == trace[..j];
    if forall k :: i < k < j ==> trace[k] != Added(cb) {
      assert trace[..j][..i + 1] == trace[..i + 1];
      AfterPrefix(trace, i);
      StaysUnlinked(trace[..j], i + 1, cb);
    }
  }

  // ---------------------------------------------------------------------
  // The invariant
  // ---------------------------------------------------------------------

  /** No callback is linked twice. */
  ghost predicate Distinct(pend: seq<nat>, post: seq<Posted>) {
    && (forall i, j :: 0 <= i < j < |pend| ==> pend[i] != pend[j])
    && (forall i, j :: 0 <= i < j < |post| ==> post[i].cb != post[j].cb)
    && (forall i, j :: 0 <= i < |pend| && 0 <= j < |post| ==> pend[i] != post[j].cb)
  }

  /** Posted callbacks are in the order of their commands, which wait for a response. */
  ghost predicate InOrder(post: seq<Posted>, fate: seq<Fate>, lo: nat) {
    && (forall i :: 0 <= i < |post| ==> lo <= post[i].n < |fate| && fate[post[i].n] == Waiting(post[i].cb))
    && (forall i, j :: 0 <= i < j < |post| ==> post[i].n < post[j].n)
  }

  /** Every command that waits has its callback in the posted list. */
  ghost predicate AllPosted(post: seq<Posted>, fate: seq<Fate>) {
    forall n :: 0 <= n < |fate| && fate[n].Waiting? ==> exists i :: 0 <= i < |post| && post[i].n == n
  }

  /** Commands and responses carry the slot they are in, commands also their callback. */
  ghost predicate Labelled(cmds: seq<Cmd>, rsps: seq<Rsp>, fate: seq<Fate>, cap: nat)
    requires cap > 0
  {
    && |cmds| == |fate|
    && (forall n :: 0 <= n < |cmds| ==> cmds[n].id == Slot(n, cap) && cmds[n].cb == fate[n].cb)
    && (forall n :: 0 <= n < |rsps| ==> rsps[n].id == Slot(n, cap))
  }

  /** An answered command got the response of its own number. */
  ghost predicate Matched(fate: seq<Fate>, rsps: seq<Rsp>, lo: nat) {
    forall n :: 0 <= n < |fate| && fate[n].Answered? ==> n < |rsps| && n < lo && fate[n].rsp == rsps[n]
  }

  /** Callbacks were called in the order of their commands, once each. */
  ghost predicate Calls(trace: seq<Note>, fate: seq<Fate>) {
    && (forall i :: 0 <= i < |trace| && trace[i].Called? ==>
          trace[i].n < |fate| && fate[trace[i].n] == Answered(trace[i].cb, trace[i].rsp))
    && (forall i, j :: 0 <= i < j < |trace| && trace[i].Called? && trace[j].Called? ==> trace[i].n < trace[j].n)
    && (forall n :: 0 <= n < |fate| && fate[n].Answered? ==>
          exists i :: 0 <= i < |trace| && trace[i].Called? && trace[i].n == n)
  }

  ghost predicate Chain(s: Channel) {
    && s.cmpl <= s.rsp.word <= |s.rsp.log| <= s.cmd.word <= |s.cmd.log| <= s.cmpl + s.cmd.cap
  }

  ghost predicate Good(s: Channel) {
    && Shape(s) && Chain(s)
    && Inv(s.cmd, s.cmpl) && Inv(s.rsp, s.cmpl)
    && Distinct(s.pend, s.post)
    && InOrder(s.post, s.fate, s.cmpl) && AllPosted(s.post, s.fate)
    && Labelled(s.cmd.log, s.rsp.log, s.fate, s.cmd.cap)
    && Matched(s.fate, s.rsp.log, s.cmpl)
    && Calls(s.trace, s.fate)
    && |s.ran| == |s.rsp.log| && s.ran <= s.cmd.log
    && After(s.trace) == Life(Linked(s.pend, s.post))
    && !s.linkDown
  }

  lemma InitGood(cap: nat)
    requires Capacity(cap)
    ensures Good(Init(cap))
  {
  }

  // --- adding and unlinking

  lemma LinkedAdd(pend: seq<nat>, post: seq<Posted>, cb: nat)
    ensures Linked(pend + [cb], post) == Linked(pend, post) + {cb}
  {
    var p := pend + [cb];
    assert p[|pend|] == cb;
    forall i | 0 <= i < |pend| ensures p[i] == pend[i] {}
  }

  lemma AddGood(s: Channel, cb: nat)
    requires Good(s)
    ensures Good(Add(s, cb))
  {
    if cb !in Linked(s.pend, s.post) {
      hide Inv, InOrder, AllPosted, Labelled, Matched, Chain, After;
      LinkedAdd(s.pend, s.post, cb);
      AfterSnoc(s.trace, Added(cb));
      CallsMore(s.trace, s.fate, Added(cb));
      DistinctAdd(s.pend, s.post, cb);
      hide Linked, Calls, Distinct;
    }
  }

  lemma CallsMore(trace: seq<Note>, fate: seq<Fate>, e: Note)
    requires Calls(trace, fate) && !e.Called?
    ensures Calls(trace + [e], fate)
  {
    var t := trace + [e];
    forall n | 0 <= n < |fate| && fate[n].Answered?
      ensures exists i :: 0 <= i < |t| && t[i].Called? && t[i].n == n
    {
      var i :| 0 <= i < |trace| && trace[i].Called? && trace[i].n == n;
      assert t[i] == trace[i];
    }
  }

  lemma DistinctAdd(pend: seq<nat>, post: seq<Posted>, cb: nat)
    requires Distinct(pend, post) && cb !in Linked(pend, post)
    ensures Distinct(pend + [cb], post)
  {
  }

  lemma DistinctWithout(pend: seq<nat>, post: seq<Posted>, i: nat, j: nat)
    requires Distinct(pend, post)
    ensures Distinct(Without(pend, i), Without(post, j))
  {
    WithoutAt(pend, i);
    WithoutAt(post, j);
    hide Without;
  }

  lemma LinkedWithout(pend: seq<nat>, post: seq<Posted>, cb: nat)
    requires Distinct(pend, post)
    ensures Linked(Without(pend, FindPend(pend, cb)), Without(post, FindPost(post, cb))) == Linked(pend, post) - {cb}
  {
    hide Linked, Without, Distinct;
    var p, q := Without(pend, FindPend(pend, cb)), Without(post, FindPost(post, cb));
    forall x ensures x in Linked(p, q) <==> x in Linked(pend, post) - {cb} {
      if x in Linked(p, q) {
        WithoutOnly(pend, post, cb, x);
      } else if x in Linked(pend, post) && x != cb {
        WithoutStays(pend, post, cb, x);
      }
    }
  }

  /** The other callbacks stay linked. */
  lemma WithoutStays(pend: seq<nat>, post: seq<Posted>, cb: nat, x: nat)
    requires x in Linked(pend, post) && x != cb
    ensures x in Linked(Without(pend, FindPend(pend, cb)), Without(post, FindPost(post, cb)))
  {
    var i, j := FindPend(pend, cb), FindPost(post, cb);
    var p, q := Without(pend, i), Without(post, j);
    WithoutAt(pend, i);
    WithoutAt(post, j);
    hide Without, FindPend, FindPost;
    if k :| 0 <= k < |pend| && pend[k] == x {
      assert p[if k < i then k else k - 1] == x;
    } else {
      var k :| 0 <= k < |post| && post[k].cb == x;
      assert q[if k < j then k else k - 1].cb == x;
    }
  }

  /** Only they do. */
  lemma WithoutOnly(pend: seq<nat>, post: seq<Posted>, cb: nat, x: nat)
    requires Distinct(pend, post) && x in Linked(Without(pend, FindPend(pend, cb)), Without(post, FindPost(post, cb)))
    ensures x in Linked(pend, post) && x != cb
  {
    var i, j := FindPend(pend, cb), FindPost(post, cb);
    var p, q := Without(pend, i), Without(post, j);
    WithoutAt(pend, i);
    WithoutAt(post, j);
    hide Without, FindPend, FindPost;
    if k :| 0 <= k < |p| && p[k] == x {
      assert pend[if k < i then k else k + 1] == x;
    } else {
      var k :| 0 <= k < |q| && q[k].cb == x;
      assert post[if k < j then k else k + 1].cb == x;
    }
  }

  /** The elements of the list without one, by their places. */
  lemma WithoutAt<T>(s: seq<T>, i: nat)
    ensures var r := Without(s, i);
            && |r| == |s| - (if i < |s| then 1 else 0)
            && (forall k :: 0 <= k < |r| ==> r[k] == s[if k < i then k else k + 1])
            && (forall k :: 0 <= k < |s| && k != i ==> s[k] == r[if k < i then k else k - 1])
  {
    var r := Without(s, i);
    if i < |s| {
      assert |r| == |s| - 1;
      forall k | 0 <= k < |r| ensures r[k] == s[if k < i then k else k + 1] {
        assert k >= i ==> r[k] == s[i + 1..][k - i];
      }
      forall k | 0 <= k < |s| && k != i ensures s[k] == r[if k < i then k else k - 1] {
        assert k > i ==> r[k - 1] == s[i + 1..][k - 1 - i];
      }
    }
  }

  lemma WithoutInOrder(post: seq<Posted>, fate: seq<Fate>, lo: nat, cb: nat)
    requires InOrder(post, fate, lo)
    requires forall i, j :: 0 <= i < j < |post| ==> post[i].cb != post[j].cb
    ensures InOrder(Without(post, FindPost(post, cb)), GiveUp(fate, cb), lo)
  {
    var j := FindPost(post, cb);
    WithoutAt(post, j);
    hide Without, FindPost;
    var q := Without(post, j);
    forall i | 0 <= i < |q| ensures q[i].cb != cb {
      assert q[i] == post[if i < j then i else i + 1];
    }
  }

  lemma WithoutAllPosted(post: seq<Posted>, fate: seq<Fate>, lo: nat, cb: nat)
    requires InOrder(post, fate, lo) && AllPosted(post, fate)
    ensures AllPosted(Without(post, FindPost(post, cb)), GiveUp(fate, cb))
  {
    hide Without, FindPost, InOrder;
    var q, f := Without(post, FindPost(post, cb)), GiveUp(fate, cb);
    forall n | 0 <= n < |f| && f[n].Waiting? ensures exists i :: 0 <= i < |q| && q[i].n == n {
      var i :| 0 <= i < |post| && post[i].n == n;
      var k := StaysPosted(post, fate, lo, cb, i);
    }
  }

  lemma StaysPosted(post: seq<Posted>, fate: seq<Fate>, lo: nat, cb: nat, i: nat) returns (k: nat)
    requires InOrder(post, fate, lo) && i < |post| && GiveUp(fate, cb)[post[i].n].Waiting?
    ensures var q := Without(post, FindPost(post, cb)); k < |q| && q[k].n == post[i].n
  {
    var j := FindPost(post, cb);
    WithoutAt(post, j);
    hide Without, FindPost;
    assert i != j;
    k := if i < j then i else i - 1;
  }

  lemma GiveUpRest(s: Channel, cb: nat)
    requires Shape(s) && Labelled(s.cmd.log, s.rsp.log, s.fate, s.cmd.cap) && Matched(s.fate, s.rsp.log, s.cmpl)
    requires Calls(s.trace, s.fate)
    ensures Labelled(s.cmd.log, s.rsp.log, GiveUp(s.fate, cb), s.cmd.cap)
    ensures Matched(GiveUp(s.fate, cb), s.rsp.log, s.cmpl) && Calls(s.trace, GiveUp(s.fate, cb))
  {
  }

  lemma UnlinkGood(s: Channel, cb: nat)
    requires Good(s)
    ensures Good(Unlink(s, cb))
  {
    if cb in Linked(s.pend, s.post) {
      hide Inv, InOrder, AllPosted, Labelled, Matched, Chain, After, Linked, Calls, GiveUp;
      WithoutInOrder(s.post, s.fate, s.cmpl, cb);
      WithoutAllPosted(s.post, s.fate, s.cmpl, cb);
      hide Distinct, Without, FindPend, FindPost;
      DistinctWithout(s.pend, s.post, FindPend(s.pend, cb), FindPost(s.post, cb));
      LinkedWithout(s.pend, s.post, cb);
      AfterSnoc(s.trace, Unlinked(cb));
      GiveUpRest(s, cb);
      CallsMore(s.trace, GiveUp(s.fate, cb), Unlinked(cb));
    }
  }

  // --- responses

  /** The first posted callback has the response's slot exactly if it is the one of that command. */
  lemma SlotMatches(post: seq<Posted>, fate: seq<Fate>, n: nat, cap: nat)
    requires InOrder(post, fate, n) && AllPosted(post, fate) && n < |fate| <= n + cap && cap > 0
    ensures fate[n].Waiting? <==> post != [] && Slot(post[0].n, cap) == Slot(n, cap)
    ensures fate[n].Waiting? ==> post[0] == Posted(fate[n].cb, n)
  {
    if fate[n].Waiting? {
      var i :| 0 <= i < |post| && post[i].n == n;
      assert i == 0;
    } else if post != [] {
      SlotInjective(n, post[0].n, cap);
    }
  }

  lemma AnswerInOrder(post: seq<Posted>, fate: seq<Fate>, n: nat, r: Rsp)
    requires InOrder(post, fate, n) && AllPosted(post, fate) && n < |fate| && post != [] && post[0].n == n
    ensures var f := fate[n := Answered(post[0].cb, r)];
            InOrder(post[1..], f, n + 1) && AllPosted(post[1..], f)
  {
    var f := fate[n := Answered(post[0].cb, r)];
    forall m | 0 <= m < |f| && f[m].Waiting? ensures exists i :: 0 <= i < |post[1..]| && post[1..][i].n == m {
      var i :| 0 <= i < |post| && post[i].n == m;
      assert post[1..][i - 1].n == m;
    }
  }

  lemma SkipInOrder(post: seq<Posted>, fate: seq<Fate>, n: nat)
    requires InOrder(post, fate, n) && n < |fate| && !fate[n].Waiting?
    ensures InOrder(post, fate, n + 1)
  {
  }

  lemma AnswerCalls(trace: seq<Note>, fate: seq<Fate>, n: nat, cb: nat, r: Rsp)
    requires Calls(trace, fate) && n < |fate| && fate[n] == Waiting(cb)
    requires forall m :: 0 <= m < |fate| && fate[m].Answered? ==> m < n
    ensures Calls(trace + [Called(cb, n, r)], fate[n := Answered(cb, r)])
  {
    var t, f := trace + [Called(cb, n, r)], fate[n := Answered(cb, r)];
    forall m | 0 <= m < |f| && f[m].Answered? ensures exists i :: 0 <= i < |t| && t[i].Called? && t[i].n == m {
      if m == n {
        assert t[|trace|].n == m;
      } else {
        var i :| 0 <= i < |trace| && trace[i].Called? && trace[i].n == m;
        assert t[i] == trace[i];
      }
    }
    forall i | 0 <= i < |trace| && trace[i].Called? ensures trace[i].n < n {
      assert fate[trace[i].n].Answered?;
    }
  }

  lemma LinkedPop(pend: seq<nat>, post: seq<Posted>)
    requires Distinct(pend, post) && post != []
    ensures Linked(pend, post[1..]) == Linked(pend, post) - {post[0].cb} && post[0].cb in Linked(pend, post)
    ensures Distinct(pend, post[1..])
  {
    forall x | x in Linked(pend, post) - {post[0].cb} ensures x in Linked(pend, post[1..]) {
      if k :| 0 <= k < |post| && post[k].cb == x {
        assert post[1..][k - 1].cb == x;
      }
    }
  }

  /** The trace and the lists after a callback was called. */
  lemma CalledLists(trace: seq<Note>, pend: seq<nat>, post: seq<Posted>, n: nat, r: Rsp, again: bool)
    requires Distinct(pend, post) && post != [] && After(trace) == Life(Linked(pend, post))
    ensures var cb := post[0].cb;
            var p := if again then pend + [cb] else pend;
            var t := trace + [Called(cb, n, r)] + if again then [Added(cb)] else [];
            After(t) == Life(Linked(p, post[1..])) && Distinct(p, post[1..])
  {
    var cb := post[0].cb;
    var t := trace + [Called(cb, n, r)];
    LinkedPop(pend, post);
    hide Linked;
    AfterSnoc(trace, Called(cb, n, r));
    if again {
      AfterSnoc(t, Added(cb));
      LinkedAdd(pend, post[1..], cb);
      DistinctAdd(pend, post[1..], cb);
    } else {
      assert t + [] == t;
    }
  }

  /** What the sender reads is the response of that number. */
  lemma ReadsResponse(s: Channel)
    requires Shape(s) && Chain(s) && Inv(s.rsp, s.cmpl) && s.cmpl < s.rsp.word
    ensures s.rsp.dst[Slot(s.cmpl, s.cmd.cap)] == s.rsp.log[s.cmpl]
  {
  }

  /** A response handled frees its slots. */
  lemma Shrinks<T>(m: RemoteRing<T>, lo: nat)
    requires Inv(m, lo) && lo < m.word
    ensures Inv(m, lo + 1)
  {
  }

  lemma MatchedMore(fate: seq<Fate>, rsps: seq<Rsp>, n: nat, cb: nat)
    requires Matched(fate, rsps, n) && n < |rsps| && n < |fate|
    ensures Matched(fate, rsps, n + 1) && Matched(fate[n := Answered(cb, rsps[n])], rsps, n + 1)
    ensures forall m :: 0 <= m < |fate| && fate[m].Answered? ==> m < n
  {
  }

  lemma LabelledAnswer(cmds: seq<Cmd>, rsps: seq<Rsp>, fate: seq<Fate>, cap: nat, n: nat, r: Rsp)
    requires cap > 0 && Labelled(cmds, rsps, fate, cap) && n < |fate|
    ensures Labelled(cmds, rsps, fate[n := Answered(fate[n].cb, r)], cap)
    ensures n < |rsps| ==> rsps[n].id == Slot(n, cap)
  {
  }

  lemma Counts(s: Channel)
    requires Shape(s) && Labelled(s.cmd.log, s.rsp.log, s.fate, s.cmd.cap)
    ensures |s.cmd.log| == |s.fate|
    ensures forall n :: 0 <= n < |s.rsp.log| ==> s.rsp.log[n].id == Slot(n, s.cmd.cap)
  {
  }

  /** The callback of the command gets the response. */
  lemma AnswerGood(s: Channel, again: bool)
    requires Good(s) && s.cmpl < s.rsp.word && s.cmpl < |s.fate| && s.fate[s.cmpl].Waiting?
    requires s.post != [] && s.post[0] == Posted(s.fate[s.cmpl].cb, s.cmpl)
    ensures Good(Complete(s, again))
  {
    hide Inv, InOrder, AllPosted, Labelled, Matched, After, Linked, Calls, Distinct;
    Counts(s);
    var n, cb, r := s.cmpl, s.post[0].cb, s.rsp.log[s.cmpl];
    ReadsResponse(s);
    Shrinks(s.cmd, n);
    Shrinks(s.rsp, n);
    MatchedMore(s.fate, s.rsp.log, n, cb);
    AnswerInOrder(s.post, s.fate, n, r);
    LabelledAnswer(s.cmd.log, s.rsp.log, s.fate, s.cmd.cap, n, r);
    AnswerCalls(s.trace, s.fate, n, cb, r);
    CalledLists(s.trace, s.pend, s.post, n, r, again);
    var t := s.trace + [Called(cb, n, r)];
    if again {
      CallsMore(t, s.fate[n := Answered(cb, r)], Added(cb));
    } else {
      assert t + [] == t;
    }
  }

  /** The response of a command that was given up is skipped. */
  lemma SkipGood(s: Channel, again: bool)
    requires Good(s) && s.cmpl < s.rsp.word && s.cmpl < |s.fate| && !s.fate[s.cmpl].Waiting?
    requires s.post == [] || Slot(s.post[0].n, s.cmd.cap) != Slot(s.cmpl, s.cmd.cap)
    ensures Good(Complete(s, again))
  {
    hide Inv, InOrder, AllPosted, Labelled, Matched, After, Linked, Calls, Distinct;
    Counts(s);
    var n := s.cmpl;
    ReadsResponse(s);
    Shrinks(s.cmd, n);
    Shrinks(s.rsp, n);
    MatchedMore(s.fate, s.rsp.log, n, 0);
    SkipInOrder(s.post, s.fate, n);
  }

  lemma CompleteGood(s: Channel, again: bool)
    requires Good(s) && s.cmpl < s.rsp.word
    ensures s.cmpl < |s.fate| && Good(Complete(s, again))
  {
    hide Inv, InOrder, AllPosted, Labelled, Matched, After, Linked, Calls, Distinct, Complete;
    Counts(s);
    SlotMatches(s.post, s.fate, s.cmpl, s.cmd.cap);
    if s.fate[s.cmpl].Waiting? {
      AnswerGood(s, again);
    } else {
      SkipGood(s, again);
    }
  }

  // --- commands

  lemma PrepareInOrder(post: seq<Posted>, fate: seq<Fate>, lo: nat, cb: nat)
    requires InOrder(post, fate, lo) && AllPosted(post, fate) && lo <= |fate|
    ensures InOrder(post + [Posted(cb, |fate|)], fate + [Waiting(cb)], lo)
    ensures AllPosted(post + [Posted(cb, |fate|)], fate + [Waiting(cb)])
  {
    var q, f := post + [Posted(cb, |fate|)], fate + [Waiting(cb)];
    forall n | 0 <= n < |f| && f[n].Waiting? ensures exists i :: 0 <= i < |q| && q[i].n == n {
      if n == |fate| {
        assert q[|post|].n == n;
      } else {
        var i :| 0 <= i < |post| && post[i].n == n;
        assert q[i].n == n;
      }
    }
  }

  lemma LinkedMove(pend: seq<nat>, post: seq<Posted>, n: nat)
    requires Distinct(pend, post) && pend != []
    ensures Linked(pend[1..], post + [Posted(pend[0], n)]) == Linked(pend, post)
    ensures Distinct(pend[1..], post + [Posted(pend[0], n)])
  {
    var p, q := pend[1..], post + [Posted(pend[0], n)];
    forall x | x in Linked(pend, post) ensures x in Linked(p, q) {
      if k :| 0 <= k < |pend| && pend[k] == x {
        if k == 0 {
          assert q[|post|].cb == x;
        } else {
          assert p[k - 1] == x;
        }
      } else {
        var k :| 0 <= k < |post| && post[k].cb == x;
        assert q[k].cb == x;
      }
    }
  }

  lemma PrepareRest(cmds: seq<Cmd>, rsps: seq<Rsp>, fate: seq<Fate>, cap: nat, cb: nat, body: nat,
                    trace: seq<Note>, lo: nat)
    requires cap > 0 && Labelled(cmds, rsps, fate, cap) && Calls(trace, fate) && Matched(fate, rsps, lo)
    ensures Labelled(cmds + [Cmd(Slot(|cmds|, cap), cb, body)], rsps, fate + [Waiting(cb)], cap)
    ensures Calls(trace, fate + [Waiting(cb)]) && Matched(fate + [Waiting(cb)], rsps, lo)
  {
  }

  lemma PrepareGood(s: Channel, body: nat)
    requires Good(s) && s.pend != [] && |s.cmd.log| < s.cmpl + s.cmd.cap
    ensures Good(Prepare(s, body))
  {
    assert |s.cmd.log| == |s.fate|;
    hide Inv, InOrder, AllPosted, Labelled, Matched, After, Linked, Calls, Distinct;
    var cb := s.pend[0];
    PrepareInOrder(s.post, s.fate, s.cmpl, cb);
    LinkedMove(s.pend, s.post, |s.cmd.log|);
    PrepareRest(s.cmd.log, s.rsp.log, s.fate, s.cmd.cap, cb, body, s.trace, s.cmpl);
    IssueInv(s.cmd, s.cmpl, Cmd(Slot(|s.cmd.log|, s.cmd.cap), cb, body));
  }

  lemma ExecuteRest(cmds: seq<Cmd>, rsps: seq<Rsp>, fate: seq<Fate>, cap: nat, body: nat, lo: nat)
    requires cap > 0 && Labelled(cmds, rsps, fate, cap) && Matched(fate, rsps, lo) && |rsps| < |cmds|
    ensures Labelled(cmds, rsps + [Rsp(cmds[|rsps|].id, body)], fate, cap)
    ensures Matched(fate, rsps + [Rsp(cmds[|rsps|].id, body)], lo)
  {
  }

  /** What the receiver reads is the command of that number. */
  lemma ReadsCommand(s: Channel)
    requires Shape(s) && Chain(s) && Inv(s.cmd, s.cmpl) && |s.rsp.log| < s.cmd.word
    ensures s.cmd.dst[Slot(|s.rsp.log|, s.rsp.cap)] == s.cmd.log[|s.rsp.log|]
  {
  }

  lemma ExecuteGood(s: Channel, body: nat)
    requires Good(s) && |s.rsp.log| < s.cmd.word
    ensures Good(Execute(s, body))
  {
    hide Inv, InOrder, AllPosted, Labelled, Matched, After, Linked, Calls, Distinct;
    var n := |s.rsp.log|;
    ReadsCommand(s);
    ExecuteRest(s.cmd.log, s.rsp.log, s.fate, s.cmd.cap, body, s.cmpl);
    IssueInv(s.rsp, s.cmpl, Rsp(s.cmd.log[n].id, body));
    assert s.cmd.log[..n + 1] == s.cmd.log[..n] + [s.cmd.log[n]];
  }

  // ---------------------------------------------------------------------
  // Every run
  // ---------------------------------------------------------------------

  datatype Event =
    | DoAdd(cb: nat)
    | DoUnlink(cb: nat)
    | DoComplete(again: bool)
    | DoPrepare(body: nat)
    | DoAnnounce
    | DoExecute(body: nat)
    | DoReply
    | LandCmd
    | LandRsp

  ghost function Step(s: Channel, e: Event): (t: Channel)
    requires Shape(s)
    ensures Shape(t)
  {
    match e
    case DoAdd(cb) => Add(s, cb)
    case DoUnlink(cb) => Unlink(s, cb)
    case DoComplete(again) => if s.cmpl < s.rsp.word && s.cmpl < |s.fate| then Complete(s, again) else s
    case DoPrepare(body) => if s.pend != [] && |s.cmd.log| < s.cmpl + s.cmd.cap then Prepare(s, body) else s
    case DoAnnounce => s.(cmd := Announce(s.cmd))
    case DoExecute(body) => if |s.rsp.log| < s.cmd.word then Execute(s, body) else s
    case DoReply => s.(rsp := Announce(s.rsp))
    case LandCmd => s.(cmd := Land(s.cmd))
    case LandRsp => s.(rsp := Land(s.rsp))
  }

  lemma StepGood(s: Channel, e: Event)
    requires Good(s)
    ensures Good(Step(s, e))
  {
    hide Good, Add, Unlink, Complete, Prepare, Execute, Announce, Land;
    match e
    case DoAdd(cb) => AddGood(s, cb);
    case DoUnlink(cb) => UnlinkGood(s, cb);
    case DoComplete(again) => if s.cmpl < s.rsp.word { CompleteGood(s, again); }
    case DoPrepare(body) => if s.pend != [] && |s.cmd.log| < s.cmpl + s.cmd.cap { PrepareGood(s, body); }
    case DoAnnounce => RingGood(s);
    case DoExecute(body) => if |s.rsp.log| < s.cmd.word { ExecuteGood(s, body); }
    case DoReply => RingGood(s);
    case LandCmd => RingGood(s);
    case LandRsp => RingGood(s);
  }

  lemma RingGood(s: Channel)
    requires Good(s)
    ensures Good(s.(cmd := Announce(s.cmd))) && Good(s.(rsp := Announce(s.rsp)))
    ensures Good(s.(cmd := Land(s.cmd))) && Good(s.(rsp := Land(s.rsp)))
  {
    hide InOrder, AllPosted, Labelled, Matched, After, Linked, Calls, Distinct;
    AnnounceInv(s.cmd, s.cmpl);
    AnnounceInv(s.rsp, s.cmpl);
    LandInv(s.cmd, s.cmpl);
    LandInv(s.rsp, s.cmpl);
  }

  ghost function Run(cap: nat, es: seq<Event>): (s: Channel)
    requires Capacity(cap)
    ensures Shape(s)
  {
    if es == [] then Init(cap) else Step(Run(cap, es[..|es| - 1]), es[|es| - 1])
  }

  lemma {:induction false} RunGood(cap: nat, es: seq<Event>)
    requires Capacity(cap)
    ensures Good(Run(cap, es))
  {
    hide Good, Step;
    if es == [] {
      InitGood(cap);
    } else {
      RunGood(cap, es[..|es| - 1]);
      StepGood(Run(cap, es[..|es| - 1]), es[|es| - 1]);
    }
  }

  /**
   Every command is executed exactly once and in the order of posting: what the
   receiver ran is what was posted, up to the responses it has given.  At most a
   ring of commands is outstanding.
   */
  lemma {:induction false} ExecutedOnceInOrder(cap: nat, es: seq<Event>)
    requires Capacity(cap)
    ensures var s := Run(cap, es);
            && s.ran <= s.cmd.log && |s.ran| == |s.rsp.log|
            && |s.cmd.log| - s.cmpl <= s.cmd.cap
            && !s.linkDown
  {
    hide Run;
    RunGood(cap, es);
  }

  /**
   A response goes to the callback that prepared the command of its number, and
   to no other; it is skipped exactly if that callback was unlinked meanwhile.
   */
  lemma {:induction false} ResponseReachesItsCallback(cap: nat, es: seq<Event>, n: nat)
    requires Capacity(cap) && n < Run(cap, es).cmpl
    ensures var s := Run(cap, es);
            && n < |s.fate| && n < |s.cmd.log| && n < |s.rsp.log|
            && (s.fate[n] == Answered(s.cmd.log[n].cb, s.rsp.log[n]) || s.fate[n] == GivenUp(s.cmd.log[n].cb))
            && (s.fate[n].Answered? <==>
                  exists i :: 0 <= i < |s.trace| && s.trace[i] == Called(s.cmd.log[n].cb, n, s.rsp.log[n]))
            && CalledOnce(s.trace)
  {
    hide Run;
    RunGood(cap, es);
    var s := Run(cap, es);
    FateSettled(s, n);
    CallsOnce(s.trace, s.fate);
    hide Calls;
  }

  lemma FateSettled(s: Channel, n: nat)
    requires Good(s) && n < s.cmpl
    ensures n < |s.fate| && n < |s.cmd.log| && n < |s.rsp.log|
    ensures s.fate[n] == Answered(s.cmd.log[n].cb, s.rsp.log[n]) || s.fate[n] == GivenUp(s.cmd.log[n].cb)
    ensures s.fate[n].Answered? <==>
              exists i :: 0 <= i < |s.trace| && s.trace[i] == Called(s.cmd.log[n].cb, n, s.rsp.log[n])
  {
    hide Inv, Linked, After, Distinct, Shape;
    if s.fate[n].Answered? {
      var i :| 0 <= i < |s.trace| && s.trace[i].Called? && s.trace[i].n == n;
      assert s.trace[i] == Called(s.cmd.log[n].cb, n, s.rsp.log[n]);
    }
  }

  /** No two calls are for the same command. */
  ghost predicate CalledOnce(trace: seq<Note>) {
    forall i, j :: 0 <= i < j < |trace| && trace[i].Called? && trace[j].Called? ==> trace[i].n != trace[j].n
  }

  lemma CallsOnce(trace: seq<Note>, fate: seq<Fate>)
    requires Calls(trace, fate)
    ensures CalledOnce(trace)
  {
  }

  /**
   A callback is linked exactly while it is in one of the two lists, in one of
   them only, and it never runs after it was unlinked unless it was added again.
   */
  lemma {:induction false} LinkedExactly(cap: nat, es: seq<Event>, i: nat, j: nat)
    requires Capacity(cap)
    ensures var s := Run(cap, es);
            && After(s.trace) == Life(Linked(s.pend, s.post)) && Distinct(s.pend, s.post)
            && (i < j < |s.trace| && !s.trace[i].Added? && s.trace[j].Called? && s.trace[j].cb == s.trace[i].cb ==>
                  exists k :: i < k < j && s.trace[k] == Added(s.trace[i].cb))
  {
    hide Run;
    RunGood(cap, es);
    var s := Run(cap, es);
    assert After(s.trace) == Life(Linked(s.pend, s.post));
    hide Good, After;
    if i < j < |s.trace| && !s.trace[i].Added? && s.trace[j].Called? && s.trace[j].cb == s.trace[i].cb {
      CalledOnlyIfAdded(s.trace, i, j);
    }
  }

  // ---------------------------------------------------------------------
  // Where commands and responses come from
  // ---------------------------------------------------------------------

  lemma RunLast(cap: nat, es: seq<Event>)
    requires Capacity(cap) && es != []
    ensures var n := |es| - 1; Run(cap, es) == Step(Run(cap, es[..n]), es[n])
  {
    hide Step;
  }

  lemma RunNone(cap: nat)
    requires Capacity(cap)
    ensures Run(cap, []) == Init(cap)
  {
  }

  /** Command n is the one that the first pending callback prepared, with this body, in the slot of its number. */
  ghost predicate PreparedIn(s: Channel, n: nat, c: Cmd, body: nat) {
    && |s.cmd.log| == n < s.cmpl + s.cmd.cap && s.cmd.cap > 0 && s.pend != []
    && c.cb == s.pend[0] && c.body == body && c.id == n % s.cmd.cap
  }

  lemma LogStep(s: Channel, e: Event)
    requires Shape(s)
    ensures var t := Step(s, e);
            && s.cmd.log <= t.cmd.log && |t.cmd.log| <= |s.cmd.log| + 1
            && (|t.cmd.log| > |s.cmd.log| <==>
                  e.DoPrepare? && s.pend != [] && |s.cmd.log| < s.cmpl + s.cmd.cap)
            && (|t.cmd.log| > |s.cmd.log| ==> PreparedIn(s, |s.cmd.log|, t.cmd.log[|s.cmd.log|], e.body))
            && s.rsp.log <= t.rsp.log && |t.rsp.log| <= |s.rsp.log| + 1
            && (|t.rsp.log| > |s.rsp.log| <==> e.DoExecute? && |s.rsp.log| < s.cmd.word)
            && (|t.rsp.log| > |s.rsp.log| ==> t.rsp.log[|s.rsp.log|].body == e.body)
  {
    SlotIsRemainder(|s.cmd.log|, s.cmd.cap);
    hide Linked, Without, FindPend, FindPost, GiveUp, Slot, Land, Announce;
  }

  /** Command n of a run was prepared by one event, which had room, and is what its callback prepared there. */
  lemma {:induction false} PreparedBy(cap: nat, es: seq<Event>, n: nat) returns (k: nat)
    requires Capacity(cap) && n < |Run(cap, es).cmd.log|
    ensures k < |es| && es[k].DoPrepare? && PreparedIn(Run(cap, es[..k]), n, Run(cap, es).cmd.log[n], es[k].body)
  {
    hide Run, Step, Shape, PreparedIn;
    RunNone(cap);
    var m := |es| - 1;
    RunLast(cap, es);
    LogStep(Run(cap, es[..m]), es[m]);
    if n < |Run(cap, es[..m]).cmd.log| {
      k := PreparedBy(cap, es[..m], n);
      assert es[..m][..k] == es[..k];
    } else {
      k := m;
    }
  }

  /** Response n of a run was made by one event, which ran the command of its number, and is what that answered. */
  lemma {:induction false} ExecutedBy(cap: nat, es: seq<Event>, n: nat) returns (k: nat)
    requires Capacity(cap) && n < |Run(cap, es).rsp.log|
    ensures k < |es| && es[k].DoExecute? && |Run(cap, es[..k]).rsp.log| == n
    ensures Run(cap, es).rsp.log[n] == Rsp(n % cap, es[k].body)
  {
    RunGood(cap, es);
    SlotIsRemainder(n, cap);
    RunCap(cap, es);
    assert Run(cap, es).rsp.log[n].id == n % cap;
    hide Run, Step, Shape, Good;
    RunNone(cap);
    var m := |es| - 1;
    RunLast(cap, es);
    LogStep(Run(cap, es[..m]), es[m]);
    if n < |Run(cap, es[..m]).rsp.log| {
      k := ExecutedBy(cap, es[..m], n);
      assert es[..m][..k] == es[..k];
    } else {
      k := m;
    }
  }

  lemma {:induction false} RunCap(cap: nat, es: seq<Event>)
    requires Capacity(cap)
    ensures Run(cap, es).cmd.cap == cap
  {
    if es != [] {
      RunCap(cap, es[..|es| - 1]);
      CapStep(Run(cap, es[..|es| - 1]), es[|es| - 1]);
    }
  }

  lemma CapStep(s: Channel, e: Event)
    requires Shape(s)
    ensures Step(s, e).cmd.cap == s.cmd.cap
  {
  }

  /**
   What handling a response does: if its command still waits, the callback that prepared it
   is called with it, leaves the posted list, and is the last of the pending ones if it adds
   itself; otherwise only the count moves on.
   */
  lemma CompletesExactly(s: Channel, again: bool)
    requires Good(s) && s.cmpl < s.rsp.word
    ensures var n := s.cmpl;
            && n < |s.fate| && n < |s.cmd.log| && n < |s.rsp.log|
            && var t, cb, r := Step(s, DoComplete(again)), s.cmd.log[n].cb, s.rsp.log[n];
            if s.fate[n] == Waiting(cb) then
              && t.trace == s.trace + [Called(cb, n, r)] + (if again then [Added(cb)] else [])
              && t.pend == s.pend + (if again then [cb] else [])
              && s.post == [Posted(cb, n)] + t.post && t.fate == s.fate[n := Answered(cb, r)] && t.cmpl == n + 1
            else t == s.(cmpl := n + 1)
  {
    hide Inv, After, Linked, Calls, Distinct, InOrder, AllPosted, Matched;
    ReadsResponse(s);
    SlotMatches(s.post, s.fate, s.cmpl, s.cmd.cap);
    assert s.cmd.log[s.cmpl].cb == s.fate[s.cmpl].cb && s.rsp.log[s.cmpl].id == Slot(s.cmpl, s.cmd.cap);
    hide Labelled, Slot;
    assert s.post != [] ==> s.post == [s.post[0]] + s.post[1..];
  }

  /** A response that does not carry the number of its slot takes the link down, and nothing else does, in any state. */
  lemma MismatchIsNoticed(s: Channel, e: Event)
    requires Shape(s)
    ensures var at := s.cmpl % s.cmd.cap;
            Step(s, e).linkDown <==>
              || s.linkDown
              || (e.DoComplete? && s.cmpl < s.rsp.word && s.cmpl < |s.fate| && s.rsp.dst[at].id != at)
  {
    SlotIsRemainder(s.cmpl, s.cmd.cap);
    hide Linked, Without, FindPend, FindPost, GiveUp, Slot, Land, Announce;
  }

  /**
   The pending callbacks are a queue: whoever is added, or adds itself, is behind all others,
   the first one prepares its command, and unlinking takes out one and keeps the order.
   */
  lemma PendingIsAQueue(s: Channel, e: Event)
    requires Good(s)
    ensures var t := Step(s, e);
            match e
            case DoAdd(cb) => t.pend == s.pend + if cb in Linked(s.pend, s.post) then [] else [cb]
            case DoUnlink(cb) =>
              && cb !in t.pend && (cb !in s.pend ==> t.pend == s.pend)
              && (cb in s.pend ==> exists i: nat :: Cut(s.pend, i, cb, t.pend))
            case DoPrepare(_) =>
              t.pend == if s.pend != [] && |s.cmd.log| < s.cmpl + s.cmd.cap then s.pend[1..] else s.pend
            case DoComplete(again) =>
              t.pend == s.pend || (again && exists cb :: t.pend == s.pend + [cb] && |t.post| < |s.post|)
            case _ => t.pend == s.pend
  {
    hide Inv, After, Calls, InOrder, AllPosted, Labelled, Matched, Chain;
    if e.DoUnlink? {
      var i := FindPend(s.pend, e.cb);
      if i < |s.pend| {
        assert Cut(s.pend, i, e.cb, Without(s.pend, i));
      } else {
        InPend(s.pend, s.post, e.cb);
      }
    }
  }

  lemma InPend(pend: seq<nat>, post: seq<Posted>, cb: nat)
    ensures cb in pend ==> cb in Linked(pend, post)
  {
  }

  /** The list without its element i, which is cb. */
  ghost predicate Cut(s: seq<nat>, i: nat, cb: nat, t: seq<nat>) {
    i < |s| && s[i] == cb && t == s[..i] + s[i + 1..]
  }

  /** No step but adding and unlinking changes anything. */
  ghost predicate AtRest(s: Channel)
    requires Shape(s)
  {
    && (forall again :: Step(s, DoComplete(again)) == s) && (forall body :: Step(s, DoPrepare(body)) == s)
    && (forall body :: Step(s, DoExecute(body)) == s)
    && Step(s, LandCmd) == s && Step(s, LandRsp) == s && s.cmd.word == |s.cmd.log| && s.rsp.word == |s.rsp.log|
  }

  /** In every run that comes to rest, with all it issued announced, nobody waits: both lists are empty. */
  lemma {:induction false} RestIsDone(cap: nat, es: seq<Event>)
    requires Capacity(cap) && AtRest(Run(cap, es))
    ensures var s := Run(cap, es);
            s.pend == [] && s.post == [] && |s.ran| == |s.cmd.log| == s.cmpl && forall f :: f in s.fate ==> !f.Waiting?
  {
    RunGood(cap, es);
    hide Run, Good, AtRest, Shape;
    var s := Run(cap, es);
    RestAnswered(s);
    RestEmpty(s);
  }

  /** At rest every command was executed, and every response handled. */
  lemma RestAnswered(s: Channel)
    requires Good(s) && AtRest(s)
    ensures |s.ran| == |s.rsp.log| == |s.cmd.log| == s.cmpl
  {
    hide Inv, After, Calls, Matched, Linked, Distinct, InOrder, AllPosted, Labelled, Step;
    LogStep(s, DoExecute(0));
    assert Step(s, DoExecute(0)) == s && Step(s, DoComplete(false)) == s;
    if s.cmpl < s.rsp.word {
      CompletesExactly(s, false);
      assert false;
    }
  }

  lemma RestEmpty(s: Channel)
    requires Good(s) && AtRest(s) && |s.cmd.log| == s.cmpl
    ensures s.pend == [] && s.post == [] && forall f :: f in s.fate ==> !f.Waiting?
  {
    hide Inv, After, Calls, Matched, Linked, Distinct, Step;
    LogStep(s, DoPrepare(0));
    assert Step(s, DoPrepare(0)) == s;
    if s.post != [] {
      FirstPosted(s.post, s.fate, s.cmpl);
      assert false;
    }
  }

  lemma FirstPosted(post: seq<Posted>, fate: seq<Fate>, lo: nat)
    requires InOrder(post, fate, lo) && post != []
    ensures lo < |fate|
  {
    assert lo <= post[0].n < |fate|;
  }

  /** Commands that can be posted, and responses that can be handled, in one run of the sender's work. */
  lemma WorkCovers(s: Channel)
    requires Good(s)
    ensures var cap := s.cmd.cap;
            && Answers(s) == Min(s.rsp.word - s.cmpl, cap - s.cmpl % cap)
            && Room(s) == Min(Min(s.cmpl + cap - |s.cmd.log|, cap - |s.cmd.log| % cap), |s.pend|)
  {
    SlotIsRemainder(s.cmpl, s.cmd.cap);
    SlotIsRemainder(|s.cmd.log|, s.cmd.cap);
    hide Inv, Linked, After, Calls, Distinct, InOrder, AllPosted, Labelled, Matched, Slot;
  }

  // ---------------------------------------------------------------------
  // The sender's code
  // ---------------------------------------------------------------------

  type Sane = s: Channel | Good(s) ghost witness Init(1)

  function Choice(choices: seq<bool>, i: nat): bool {
    i < |choices| && choices[i]
  }

  function Body(bodies: seq<nat>, i: nat): nat {
    if i < |bodies| then bodies[i] else 0
  }

  /** The next k responses; again[i] tells whether the i-th callback adds itself. */
  ghost function CompleteMany(s: Sane, again: seq<bool>, k: nat): (t: Sane)
    requires s.cmpl + k <= s.rsp.word
    ensures t.cmpl == s.cmpl + k && t.rsp == s.rsp && t.cmd == s.cmd
  {
    if k == 0 then s else
    var t := CompleteMany(s, again, k - 1);
    CompleteGood(t, Choice(again, k - 1));
    Complete(t, Choice(again, k - 1))
  }

  /** The next m pending callbacks prepare their commands. */
  ghost function PrepareMany(s: Sane, bodies: seq<nat>, m: nat): (t: Sane)
    requires m <= |s.pend| && |s.cmd.log| + m <= s.cmpl + s.cmd.cap
    ensures |t.cmd.log| == |s.cmd.log| + m && |t.pend| == |s.pend| - m && t.cmpl == s.cmpl && t.cmd.cap == s.cmd.cap
    ensures t.rsp == s.rsp
  {
    if m == 0 then s else
    var t := PrepareMany(s, bodies, m - 1);
    PrepareGood(t, Body(bodies, m - 1));
    Prepare(t, Body(bodies, m - 1))
  }

  class CmdSender {
    const cap: u32
    const cmdBuf: array<Cmd>
    const rspBuf: array<Rsp>    // written by the peer
    var cons: u32               // written by the peer
    var prod: u32
    var cmpl: u32
    var pend: seq<nat>
    var post: seq<nat>
    var cmdId: map<nat, nat>    // the slot of the command of each callback that was posted
    var inList: set<nat>
    var linkDown: bool

    /** The posted list: its callbacks, each with the slot of its command. */
    ghost predicate Lists(p: seq<Posted>)
      requires cap > 0
      reads this
    {
      && |post| == |p|
      && forall i :: 0 <= i < |p| ==> post[i] == p[i].cb && post[i] in cmdId && cmdId[post[i]] == Slot(p[i].n, cap)
    }

    /** All but the two indices, which are stored when a loop is done. */
    ghost predicate Holding(s: Channel)
      reads this, cmdBuf, rspBuf
    {
      && Capacity(cap) && cap == s.cmd.cap && cmdBuf[..] == s.cmd.src && rspBuf[..] == s.rsp.dst
      && cons == Index(s.rsp.word, cap)
      && pend == s.pend && Lists(s.post) && inList == Linked(s.pend, s.post) && linkDown == s.linkDown
    }

    ghost predicate Represents(s: Channel)
      reads this, cmdBuf, rspBuf
    {
      Holding(s) && prod == Index(|s.cmd.log|, cap) && cmpl == Index(s.cmpl, cap)
    }

    method AddCallback(cb: nat, ghost s: Sane)
      requires Represents(s) && cb !in inList
      modifies this`inList, this`pend
      ensures Represents(Add(s, cb))
    {
      hide Linked;
      LinkedAdd(s.pend, s.post, cb);
      inList := inList + {cb};
      pend := pend + [cb];
    }

    /** Returns whether the callback was still linked. */
    method UnlinkCallback(cb: nat, ghost s: Sane) returns (r: bool)
      requires Represents(s)
      modifies this`inList, this`pend, this`post
      ensures Represents(Unlink(s, cb)) && r == (cb in Linked(s.pend, s.post))
      ensures cb !in Linked(Unlink(s, cb).pend, Unlink(s, cb).post)
    {
      hide Linked, Good, Index, Distinct, GiveUp, FindPend, FindPost, FindValue;
      r := cb in inList;
      if r {
        SaneFacts(s);
        LinkedWithout(s.pend, s.post, cb);
        FindSame(post, s.post, cb);
        var i, j := FindPend(pend, cb), FindValue(post, cb);
        pend, post := Without(pend, i), Without(post, j);
        inList := inList - {cb};
      }
    }

    /** One response: call the first posted callback if it has its slot. */
    method CompleteOne(pos: u32, again: bool, ghost s: Sane)
      requires Holding(s) && s.cmpl < s.rsp.word && pos == Slot(s.cmpl, cap)
      modifies this`inList, this`pend, this`post, this`linkDown
      ensures s.cmpl < |s.fate| && Holding(Complete(s, again))
      ensures linkDown <==> old(linkDown) || rspBuf[pos].id != pos
    {
      hide Good, Linked, Index, Distinct, Chain;
      CompleteGood(s, again);
      SaneFacts(s);
      if rspBuf[pos].id != pos {
        linkDown := true;
      }
      if post == [] || cmdId[post[0]] != pos {
        return;
      }
      var cb := post[0];
      LinkedPop(s.pend, s.post);
      LinkedAdd(s.pend, s.post[1..], cb);
      post := post[1..];
      inList := inList - {cb};
      if again {
        inList := inList + {cb};
        pend := pend + [cb];
      }
    }

    /** Handle the responses that have arrived, up to the end of the ring buffer. */
    method CompleteAll(again: seq<bool>, ghost s: Sane) returns (more: bool)
      requires Represents(s)
      modifies this`inList, this`pend, this`post, this`linkDown, this`cmpl
      ensures more == (Answers(s) != 0) && s.cmpl + Answers(s) <= s.rsp.word
      ensures Represents(CompleteMany(s, again, Answers(s)))
    {
      hide Good, Index, Slot, Consume, Update, Answers, Linked, Complete, CompleteMany;
      AnswersRange(s);
      CompleteNone(s, again);
      var r := Consume(cons, cmpl, cap);
      var pos: u32 := r.idx;
      while pos < r.end
        invariant r.idx <= pos <= r.end && Holding(CompleteMany(s, again, pos - r.idx))
        invariant cmpl == old(cmpl) && prod == old(prod)
      {
        ghost var t := CompleteMany(s, again, pos - r.idx);
        CompleteSlot(s, again, pos - r.idx);
        CompleteOne(pos, Choice(again, pos - r.idx), t);
        pos := pos + 1;
      }
      more := pos != r.idx;
      if more {
        cmpl := Update(pos, r.base, cap);
      }
    }

    method PrepareOne(pos: u32, body: nat, ghost s: Sane)
      requires Holding(s) && s.pend != [] && |s.cmd.log| < s.cmpl + cap && pos == Slot(|s.cmd.log|, cap)
      modifies this`pend, this`post, this`cmdId, cmdBuf
      ensures Holding(Prepare(s, body))
    {
      hide Good, Linked, Index, Chain;
      SaneFacts(s);
      LinkedMove(s.pend, s.post, |s.cmd.log|);
      var cb := pend[0];
      cmdId := cmdId[cb := pos];
      pend, post := pend[1..], post + [cb];
      cmdBuf[pos] := Cmd(pos, cb, body);
    }

    /** Post pending commands into the free part of the ring, up to the end of the buffer. */
    method PrepareAll(bodies: seq<nat>, ghost s: Sane) returns (out: seq<Issued>)
      requires Represents(s)
      modifies this`pend, this`post, this`cmdId, this`prod, cmdBuf
      ensures Room(s) <= |s.pend| && |s.cmd.log| + Room(s) <= s.cmpl + s.cmd.cap
      ensures Represents(PrepareMany(s, bodies, Room(s)))
      ensures if Room(s) == 0 then out == [] else Publishes(out, |s.cmd.log|, Room(s), cap)
    {
      hide Good, Index, Slot, Produce, Update, Room, Linked, Prepare, PrepareMany;
      out := [];
      RoomRange(s);
      PrepareNone(s, bodies);
      var r := Produce(prod, cmpl, cap);
      var pos: u32 := r.idx;
      while pos < r.end && pend != []
        invariant r.idx <= pos && pos - r.idx <= Room(s) && Holding(PrepareMany(s, bodies, pos - r.idx))
        invariant cmpl == old(cmpl) && prod == old(prod)
        decreases r.end - pos
      {
        ghost var t := PrepareMany(s, bodies, pos - r.idx);
        PrepareSlot(s, bodies, pos - r.idx);
        PrepareOne(pos, Body(bodies, pos - r.idx), t);
        pos := pos + 1;
      }
      if pos != r.idx {
        prod := Update(pos, r.base, cap);
        out := [Copy(r.idx, pos), SetIndex(prod)];
      }
    }

    /** The sender's work: handle responses, then post commands. */
    method SendWork(again: seq<bool>, bodies: seq<nat>, ghost s: Sane) returns (out: seq<Issued>, more: bool)
      requires Represents(s)
      modifies this, cmdBuf
      ensures s.cmpl + Answers(s) <= s.rsp.word
      ensures var t := CompleteMany(s, again, Answers(s));
              && Room(t) <= |t.pend| && |t.cmd.log| + Room(t) <= t.cmpl + t.cmd.cap
              && Represents(PrepareMany(t, bodies, Room(t)))
              && (if Room(t) == 0 then out == [] else Publishes(out, |t.cmd.log|, Room(t), cap))
              && more == (Answers(s) != 0 || Room(t) != 0)
    {
      hide Good, Index, Slot, Answers, Room, Linked;
      more := CompleteAll(again, s);
      out := PrepareAll(bodies, CompleteMany(s, again, Answers(s)));
      more := more || out != [];
    }
  }

  function FindValue(s: seq<nat>, v: nat): (i: nat)
    ensures i <= |s| && (i < |s| ==> s[i] == v) && forall j :: 0 <= j < i ==> s[j] != v
  {
    if s == [] || s[0] == v then 0 else 1 + FindValue(s[1..], v)
  }

  lemma AnswersRange(s: Sane)
    ensures var c := s.cmd.cap;
            var r := Consume(Index(s.rsp.word, c), Index(s.cmpl, c), c);
            && r.idx == Slot(s.cmpl, c) && r.end == r.idx + Answers(s) <= c && s.cmpl + Answers(s) <= s.rsp.word
            && Update(r.end, r.base, c) == Index(s.cmpl + Answers(s), c)
  {
    RangeTaken(s.rsp.word, s.cmpl, Answers(s), s.cmd.cap);
    ConsumeRefines(s.rsp.word, s.cmpl, s.cmd.cap);
  }

  lemma CompleteNone(s: Sane, again: seq<bool>)
    requires s.cmpl <= s.rsp.word
    ensures CompleteMany(s, again, 0) == s
  {
  }

  lemma CompleteSlot(s: Sane, again: seq<bool>, k: nat)
    requires k < Answers(s) && s.cmpl + Answers(s) <= s.rsp.word
    ensures Slot(s.cmpl + k, s.cmd.cap) == Slot(s.cmpl, s.cmd.cap) + k
    ensures var t := CompleteMany(s, again, k);
            t.cmpl < |t.fate| && CompleteMany(s, again, k + 1) == Complete(t, Choice(again, k))
  {
    hide Good, Complete;
    SaneFacts(s);
    CompleteGood(CompleteMany(s, again, k), Choice(again, k));
    SlotAdd(s.cmpl, k, s.cmd.cap);
  }

  lemma SaneFacts(s: Sane)
    ensures Shape(s) && Chain(s) && Distinct(s.pend, s.post)
  {
  }

  lemma {:induction false} FindSame(cbs: seq<nat>, post: seq<Posted>, cb: nat)
    requires |cbs| == |post| && forall i :: 0 <= i < |post| ==> cbs[i] == post[i].cb
    ensures FindValue(cbs, cb) == FindPost(post, cb)
  {
    if cbs != [] && cbs[0] != cb {
      FindSame(cbs[1..], post[1..], cb);
    }
  }

  lemma RoomRange(s: Sane)
    ensures var c, n := s.cmd.cap, |s.cmd.log|;
            var r := Produce(Index(n, c), Index(s.cmpl, c), c);
            && r.idx == Slot(n, c) && Room(s) <= r.end - r.idx && r.end <= c
            && Room(s) <= |s.pend| && n + Room(s) <= s.cmpl + c && Room(s) <= Contiguous(n, c)
            && (Room(s) == r.end - r.idx || Room(s) == |s.pend|)
            && Update(r.idx + Room(s), r.base, c) == Index(n + Room(s), c)
  {
    hide Good, Distinct, Index;
    SaneFacts(s);
    ProduceRefines(|s.cmd.log|, s.cmpl, s.cmd.cap);
    UpdateRefines(|s.cmd.log|, Room(s), s.cmd.cap);
  }

  lemma PrepareNone(s: Sane, bodies: seq<nat>)
    requires |s.cmd.log| <= s.cmpl + s.cmd.cap
    ensures PrepareMany(s, bodies, 0) == s
  {
  }

  lemma PrepareSlot(s: Sane, bodies: seq<nat>, k: nat)
    requires k < Room(s) <= |s.pend| && |s.cmd.log| + Room(s) <= s.cmpl + s.cmd.cap
    ensures Slot(|s.cmd.log| + k, s.cmd.cap) == Slot(|s.cmd.log|, s.cmd.cap) + k
    ensures var t := PrepareMany(s, bodies, k);
            t.pend != [] && 0 < t.cmd.cap == |t.cmd.src| && PrepareMany(s, bodies, k + 1) == Prepare(t, Body(bodies, k))
  {
    hide Good;
    SaneFacts(PrepareMany(s, bodies, k));
    SlotAdd(|s.cmd.log|, k, s.cmd.cap);
  }
}
