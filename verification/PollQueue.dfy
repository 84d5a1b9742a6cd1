/**
 Polling a completion queue that several queue pairs share (ntrdma_poll_cq in
 ntrdma_ib.c over the poll list of ntrdma_cq.c).

 Each round asks the pollers in the order of the list; the first one that has
 completions becomes the last of the list and gives one batch.
 */
module PollQueue {
  import opened Work
  import opened Polling
  import Cq

  /** A completion that is returned, and the queue pair it belongs to. */
  datatype Entry = Entry(side: nat, cqe: Cqe)

  /** The completions of one queue pair. */
  function Of(wcs: seq<Entry>, i: nat): (cs: seq<Cqe>)
    ensures |cs| <= |wcs|
  {
    if wcs == [] then [] else
    var w := wcs[|wcs| - 1];
    Of(wcs[..|wcs| - 1], i) + if w.side == i then [w.cqe] else []
  }

  function Tagged(i: nat, cs: seq<Cqe>): (r: seq<Entry>)
    ensures |r| == |cs|
  {
    seq(|cs|, k requires 0 <= k < |cs| => Entry(i, cs[k]))
  }

  lemma {:induction false} OfMore(wcs: seq<Entry>, i: nat, cs: seq<Cqe>, j: nat)
    ensures Of(wcs + Tagged(i, cs), j) == Of(wcs, j) + if i == j then cs else []
  {
    if cs == [] {
      assert wcs + Tagged(i, cs) == wcs;
    } else {
      var n := |cs| - 1;
      OfMore(wcs, i, cs[..n], j);
      var all := wcs + Tagged(i, cs);
      assert all[..|all| - 1] == wcs + Tagged(i, cs[..n]);
      assert cs == cs[..n] + [cs[n]];
    }
  }

  lemma {:induction false} ReportedPrefix(a: seq<Polled>, b: seq<Polled>)
    requires a <= b
    ensures Reported(a) <= Reported(b)
  {
    if |b| > |a| {
      ReportedPrefix(a, b[..|b| - 1]);
    } else {
      assert a == b;
    }
  }

  /** Completions that can still be polled. */
  ghost function Left(ts: seq<Sane>): nat {
    if ts == [] then 0 else ValidCap(ts[0]); |ts[0].posted| - |ts[0].out| + Left(ts[1..])
  }

  lemma {:induction false} LeftUpdate(ts: seq<Sane>, i: nat, t: Sane)
    requires i < |ts|
    ensures Left(ts[i := t]) == Left(ts) - (|ts[i].posted| - |ts[i].out|) + (|t.posted| - |t.out|)
  {
    hide Consistent;
    ValidCap(t);
    ValidCap(ts[i]);
    if i > 0 {
      LeftUpdate(ts[1..], i - 1, t);
      assert ts[i := t][1..] == ts[1..][i - 1 := t];
    } else {
      assert ts[i := t][1..] == ts[1..];
    }
  }

  /** What was polled of a queue pair since the start, and what was returned of it. */
  ghost predicate Polled1(s: Sane, t: Sane, ks: seq<nat>, cs: seq<Cqe>) {
    t == Polls(s, ks) && s.out <= t.out && cs == Reported(t.out[|s.out|..])
  }

  /** The same of all of them. */
  ghost predicate PolledAll(ss: seq<Sane>, ts: seq<Sane>, kss: seq<seq<nat>>, wcs: seq<Entry>) {
    |ss| == |ts| == |kss| && forall i :: 0 <= i < |ss| ==> Polled1(ss[i], ts[i], kss[i], Of(wcs, i))
  }

  lemma PolledNone(ss: seq<Sane>)
    ensures PolledAll(ss, ss, seq(|ss|, _ => []), [])
  {
    hide Consistent, Polls, Reported;
    forall i | 0 <= i < |ss| ensures Polled1(ss[i], ss[i], [], Of([], i)) {
      PollsNone(ss[i]);
    }
  }

  /** A round of queue pair i. */
  lemma PolledNext(ss: seq<Sane>, ts: seq<Sane>, kss: seq<seq<nat>>, wcs: seq<Entry>, i: nat, k: nat, cs: seq<Cqe>)
    requires PolledAll(ss, ts, kss, wcs) && i < |ss|
    requires k <= Batch(Begin(ts[i]))
    requires |Begin(ts[i]).out| + k <= |Begin(ts[i]).posted|
    requires |ss[i].out| <= |PollMany(Begin(ts[i]), k).out|
    requires cs == Reported(PollMany(Begin(ts[i]), k).out[|ss[i].out|..])
    ensures var t := Polls(ss[i], kss[i] + [k]);
            && t == PollMany(Begin(ts[i]), k) && Of(wcs, i) <= cs
            && |t.posted| == |ts[i].posted| && |t.out| == |ts[i].out| + k
            && (k == 0 ==> t == Begin(ts[i]) && cs == Of(wcs, i))
            && PolledAll(ss, ts[i := t], kss[i := kss[i] + [k]], wcs + Tagged(i, cs[|Of(wcs, i)|..]))
  {
    hide Consistent, Begin, Polls, PollMany, Reported, Batch, Of;
    PollsNext(ss[i], kss[i], k);
    PollsNext(ss[i], kss[i], 0);
    var t := Polls(ss[i], kss[i] + [k]);
    ReportedPrefix(ts[i].out[|ss[i].out|..], t.out[|ss[i].out|..]);
    var more := cs[|Of(wcs, i)|..];
    forall j | 0 <= j < |ss|
      ensures Polled1(ss[j], ts[i := t][j], kss[i := kss[i] + [k]][j], Of(wcs + Tagged(i, more), j))
    {
      OfMore(wcs, i, more, j);
      assert Polled1(ss[j], ts[j], kss[j], Of(wcs, j));
    }
  }

  lemma Lengths(ss: seq<Sane>, ts: seq<Sane>, kss: seq<seq<nat>>, wcs: seq<Entry>)
    requires PolledAll(ss, ts, kss, wcs)
    ensures |ss| == |ts| == |kss|
  {
    hide Polled1;
  }

  lemma Sizes(ss: seq<Sane>, ts: seq<Sane>, kss: seq<seq<nat>>, wcs: seq<Entry>, i: nat)
    requires PolledAll(ss, ts, kss, wcs) && i < |ss|
    ensures ss[i].out <= ts[i].out && Of(wcs, i) == Reported(ts[i].out[|ss[i].out|..])
  {
    hide Consistent, Polls, Reported, Of;
    assert Polled1(ss[i], ts[i], kss[i], Of(wcs, i));
  }

  /** The list has every number below n once. */
  ghost predicate Each(polls: seq<nat>, n: nat) {
    && (forall k :: 0 <= k < |polls| ==> polls[k] < n)
    && (forall k, l :: 0 <= k < l < |polls| ==> polls[k] != polls[l])
    && (forall i :: 0 <= i < n ==> i in polls)
  }

  lemma EachRotated(polls: seq<nat>, at: nat, n: nat)
    requires at < |polls| && Each(polls, n)
    ensures Each(Cq.Rotated(polls, at), n)
  {
    var r := Cq.Rotated(polls, at);
    var n1 := |polls| - at - 1;
    assert forall k :: 0 <= k < |r| ==> r[k] == polls[if k < n1 then k + at + 1 else k - n1];
    forall i | 0 <= i < n ensures i in r {
      assert i in polls;
      var k :| 0 <= k < |polls| && polls[k] == i;
      assert r[if k <= at then k + n1 else k - at - 1] == i;
    }
  }

  /** The queue pairs at the front of the list that have nothing. */
  ghost predicate Idle(ts: seq<Sane>, polls: seq<nat>, at: nat)
    requires at <= |polls| && Each(polls, |ts|)
  {
    forall k :: 0 <= k < at ==> Batch(ts[polls[k]]) == 0
  }

  lemma IdleNone(ts: seq<Sane>, polls: seq<nat>)
    requires Each(polls, |ts|)
    ensures Idle(ts, polls, 0) && forall k :: 0 <= k < |polls| ==> polls[k] < |ts|
  {
  }

  lemma IdleNext(ts: seq<Sane>, polls: seq<nat>, at: nat, t: Sane)
    requires at < |polls| && Each(polls, |ts|) && Idle(ts, polls, at)
    ensures polls[at] < |ts| && Idle(ts[polls[at] := t], polls, at)
    ensures Batch(t) == 0 ==> Idle(ts[polls[at] := t], polls, at + 1)
  {
    hide Consistent, Batch;
  }

  lemma IdleAll(ts: seq<Sane>, polls: seq<nat>)
    requires Each(polls, |ts|) && Idle(ts, polls, |polls|)
    ensures forall i :: 0 <= i < |ts| ==> Batch(ts[i]) == 0
  {
    hide Consistent, Batch;
    forall i | 0 <= i < |ts| ensures Batch(ts[i]) == 0 {
      assert i in polls;
      var k :| 0 <= k < |polls| && polls[k] == i;
    }
  }

  class CompletionQueue {
    const sides: seq<CompletionSide>
    var polls: seq<nat>

    ghost predicate Valid()
      reads this
    {
      (forall i, j :: 0 <= i < j < |sides| ==> sides[i] != sides[j]) && Each(polls, |sides|)
    }

    ghost predicate Represents(ts: seq<Sane>)
      reads sides, set i | 0 <= i < |sides| :: sides[i].sendWqe, set i | 0 <= i < |sides| :: sides[i].sendCqe
    {
      |sides| == |ts| && forall i :: 0 <= i < |sides| ==> sides[i].Represents(ts[i])
    }

    /** Ask queue pair i for a batch. */
    method Ask(i: nat, howmany: nat, wcs: seq<Entry>, ghost ss: seq<Sane>, ghost ts: seq<Sane>,
               ghost kss: seq<seq<nat>>)
      returns (more: bool, wcs': seq<Entry>, ghost t: Sane, ghost kss': seq<seq<nat>>)
      requires forall a, b :: 0 <= a < b < |sides| ==> sides[a] != sides[b]
      requires Represents(ts) && PolledAll(ss, ts, kss, wcs) && |wcs| < howmany && i < |sides|
      modifies sides
      ensures var ts' := ts[i := t];
              && Represents(ts') && PolledAll(ss, ts', kss', wcs') && |wcs'| <= howmany
              && Left(ts') <= Left(ts) && (more ==> Left(ts') < Left(ts))
              && (!more ==> wcs' == wcs && Batch(t) == 0 && Left(ts') == Left(ts))
    {
      hide Consistent, Begin, Polls, PollMany, Reported, Batch, Of, CompletionSide.Represents, PolledAll, Left;
      Lengths(ss, ts, kss, wcs);
      Sizes(ss, ts, kss, wcs, i);
      var got := Of(wcs, i);
      assert sides[i].Represents(ts[i]);
      var cs;
      ghost var k;
      more, cs, k := sides[i].PollRound(|got| + (howmany - |wcs|), ts[i], |ss[i].out|, got);
      PolledNext(ss, ts, kss, wcs, i, k, cs);
      t, kss' := Polls(ss[i], kss[i] + [k]), kss[i := kss[i] + [k]];
      LeftUpdate(ts, i, t);
      wcs' := wcs + Tagged(i, cs[|got|..]);
      assert !more ==> wcs' == wcs;
    }

    /** One round: the first queue pair of the list that has completions gives a batch. */
    method Round(howmany: nat, wcs: seq<Entry>, ghost ss: seq<Sane>, ghost ts: seq<Sane>, ghost kss: seq<seq<nat>>)
      returns (found: bool, wcs': seq<Entry>, at: nat, ghost ts': seq<Sane>, ghost kss': seq<seq<nat>>)
      requires Valid() && Represents(ts) && PolledAll(ss, ts, kss, wcs) && |wcs| < howmany
      modifies this`polls, sides
      ensures Valid() && Represents(ts') && PolledAll(ss, ts', kss', wcs') && |wcs'| <= howmany
      ensures Left(ts') <= Left(ts) && (found ==> Left(ts') < Left(ts))
      ensures !found ==> wcs' == wcs && polls == old(polls) && forall i :: 0 <= i < |ts'| ==> Batch(ts'[i]) == 0
      ensures found ==> at < |old(polls)| && polls == Cq.Rotated(old(polls), at)
      ensures found ==> Each(old(polls), |ts'|) && Idle(ts', old(polls), at)
    {
      hide Consistent, Batch, Each, Idle, PolledAll, Left, CompletionSide.Represents;
      found, wcs', at, ts', kss' := false, wcs, 0, ts, kss;
      IdleNone(ts, polls);
      while at < |polls|
        invariant at <= |polls| && Valid() && polls == old(polls)
        invariant Represents(ts') && PolledAll(ss, ts', kss', wcs) && wcs' == wcs && !found
        invariant |ts'| == |sides| && Left(ts') == Left(ts) && Idle(ts', polls, at)
        decreases |polls| - at
      {
        var i := polls[at];
        ghost var t;
        found, wcs', t, kss' := Ask(i, howmany, wcs, ss, ts', kss');
        IdleNext(ts', polls, at, t);
        ts' := ts'[i := t];
        if found {
          EachRotated(polls, at, |sides|);
          polls := Cq.Rotated(polls, at);
          return;
        }
        at := at + 1;
      }
      IdleAll(ts', polls);
    }

    /**
     Poll up to `howmany` completions.  What is returned of each queue pair is the
     reported part of what was polled of it, in its order; fewer than asked for are
     returned only if no queue pair has any left, and the list is rotated by c.
     */
    method PollCq(howmany: nat, ghost ss: seq<Sane>)
      returns (wcs: seq<Entry>, ghost c: nat, ghost ts: seq<Sane>, ghost kss: seq<seq<nat>>)
      requires Valid() && Represents(ss)
      modifies this`polls, sides
      ensures Valid() && Represents(ts) && PolledAll(ss, ts, kss, wcs) && |wcs| <= howmany
      ensures |wcs| < howmany ==> forall i :: 0 <= i < |ts| ==> Batch(ts[i]) == 0
      ensures c <= |old(polls)| && polls == old(polls)[c..] + old(polls)[..c]
    {
      hide Consistent, Begin, Polls, PollMany, Reported, Batch, Of, Represents, PolledAll, Left;
      wcs, c, ts, kss := [], 0, ss, seq(|ss|, _ => []);
      PolledNone(ss);
      while |wcs| < howmany
        invariant Valid() && Represents(ts) && PolledAll(ss, ts, kss, wcs) && |wcs| <= howmany
        invariant c <= |old(polls)| && polls == old(polls)[c..] + old(polls)[..c]
        decreases Left(ts)
      {
        var found, at;
        found, wcs, at, ts, kss := Round(howmany, wcs, ss, ts, kss);
        if !found {
          return;
        }
        c := Cq.RotatedTwice(old(polls), c, at);
      }
    }
  }
}
