/**
 A ring buffer mirrored into the peer's memory.

 The issuing side copies entries of its own buffer into an exported buffer of
 the peer and then writes an index word beside them.  Copies are carried out by
 a DMA engine: an issued copy reads its source only when it lands, which may be
 much later.  Writes to one remote buffer land in the order they were issued.
 */
module RemoteRing {
  import opened Ring

  /** A write that was issued: copy entry number n, or set the index word to v. */
  datatype Write = Entry(n: nat) | Word(v: nat)

  datatype RemoteRing<T> = RemoteRing(
    cap: nat,
    src: seq<T>,        // the issuing side's buffer
    dst: seq<T>,        // the exported buffer of the peer
    word: nat,          // the index word beside dst
    queue: seq<Write>,  // issued writes that have not landed, oldest first
    landed: nat,        // number of entries that have landed
    log: seq<T>         // every entry ever issued, by number
  )

  /** The issued writes fill the ring from entry `landed` to entry `issued` without a gap. */
  ghost predicate Ordered(queue: seq<Write>, landed: nat, issued: nat) {
    if queue == [] then
      landed == issued
    else
      match queue[0]
      case Entry(n) => n == landed && Ordered(queue[1..], landed + 1, issued)
      case Word(v) => v == landed && Ordered(queue[1..], landed, issued)
  }

  /** Entries lo, ..., hi-1 of the log are in the buffer. */
  ghost predicate Holds<T>(buf: seq<T>, log: seq<T>, lo: nat, hi: nat)
    requires |buf| > 0 && hi <= |log|
  {
    forall n {:trigger log[n]} :: lo <= n < hi ==> buf[Slot(n, |buf|)] == log[n]
  }

  /**
   Entries below `lo` may be reused by the issuing side; everything from `lo` on
   is intact at the source, and what has landed of it is intact at the peer.
   */
  ghost predicate Inv<T>(m: RemoteRing<T>, lo: nat) {
    && 0 < m.cap == |m.src| == |m.dst|
    && lo <= m.word <= m.landed <= |m.log| <= lo + m.cap
    && Ordered(m.queue, m.landed, |m.log|)
    && Holds(m.src, m.log, lo, |m.log|)
    && Holds(m.dst, m.log, lo, m.landed)
  }

  function EmptyRing<T>(cap: nat, zero: T): RemoteRing<T> {
    RemoteRing(cap, seq(cap, _ => zero), seq(cap, _ => zero), 0, [], 0, [])
  }

  /** The oldest issued write lands. */
  function Land<T>(m: RemoteRing<T>): RemoteRing<T>
    requires 0 < m.cap == |m.src| == |m.dst|
  {
    if m.queue == [] then m else
    match m.queue[0]
    case Entry(n) =>
      var k := Slot(n, m.cap);
      m.(queue := m.queue[1..], landed := m.landed + 1, dst := m.dst[k := m.src[k]])
    case Word(v) =>
      m.(queue := m.queue[1..], word := v)
  }

  /** The entry of number n is written into the issuing side's buffer. */
  function Put<T>(m: RemoteRing<T>, n: nat, e: T): RemoteRing<T>
    requires 0 < m.cap == |m.src|
  {
    m.(src := m.src[Slot(n, m.cap) := e])
  }

  /** The next entry is final in the source buffer and its copy is issued. */
  function Issue<T>(m: RemoteRing<T>, e: T): RemoteRing<T>
    requires 0 < m.cap == |m.src|
  {
    m.(src := m.src[Slot(|m.log|, m.cap) := e],
       log := m.log + [e],
       queue := m.queue + [Entry(|m.log|)])
  }

  /** The index word covering all issued entries is issued. */
  function Announce<T>(m: RemoteRing<T>): RemoteRing<T> {
    m.(queue := m.queue + [Word(|m.log|)])
  }

  function IssueAll<T>(m: RemoteRing<T>, es: seq<T>): (r: RemoteRing<T>)
    requires 0 < m.cap == |m.src|
    ensures r.cap == m.cap && |r.src| == |m.src| && r.log == m.log + es
    ensures r.dst == m.dst && r.word == m.word && r.landed == m.landed
  {
    if es == [] then m else Issue(IssueAll(m, es[..|es| - 1]), es[|es| - 1])
  }

  /** Entries number n, ..., n+k-1 as they stand in a buffer. */
  function Window<T>(buf: seq<T>, n: nat, k: nat): (w: seq<T>)
    requires |buf| > 0
    ensures |w| == k && forall i :: 0 <= i < k ==> w[i] == buf[Slot(n + i, |buf|)]
  {
    seq(k, i requires 0 <= i < k => buf[Slot(n + i, |buf|)])
  }

  /** Entries written to a buffer under the numbers n, n+1, ... */
  function Store<T>(buf: seq<T>, n: nat, es: seq<T>): (r: seq<T>)
    requires |buf| > 0
    ensures |r| == |buf|
  {
    if es == [] then buf
    else Store(buf, n, es[..|es| - 1])[Slot(n + |es| - 1, |buf|) := es[|es| - 1]]
  }

  lemma {:induction false} OrderedAppend(queue: seq<Write>, landed: nat, issued: nat, w: Write)
    requires Ordered(queue, landed, issued)
    requires w == Entry(issued) || w == Word(issued)
    ensures Ordered(queue + [w], landed, if w.Entry? then issued + 1 else issued)
  {
    if queue == [] {
      assert (queue + [w])[1..] == [];
    } else {
      assert (queue + [w])[1..] == queue[1..] + [w];
      match queue[0]
      case Entry(_) => OrderedAppend(queue[1..], landed + 1, issued, w);
      case Word(_) => OrderedAppend(queue[1..], landed, issued, w);
    }
  }

  lemma {:induction false} OrderedBounds(queue: seq<Write>, landed: nat, issued: nat)
    requires Ordered(queue, landed, issued)
    ensures landed <= issued
  {
    if queue != [] {
      OrderedBounds(queue[1..], if queue[0].Entry? then landed + 1 else landed, issued);
    }
  }

  /** Storing entry n leaves every other entry of the same window in place. */
  lemma StoreKeeps<T>(buf: seq<T>, log: seq<T>, lo: nat, hi: nat, n: nat, e: T)
    requires |buf| > 0 && hi <= |log| && Holds(buf, log, lo, hi)
    requires hi <= n < lo + |buf|
    ensures Holds(buf[Slot(n, |buf|) := e], log, lo, hi)
  {
    forall k | lo <= k < hi
      ensures buf[Slot(n, |buf|) := e][Slot(k, |buf|)] == log[k]
    {
      SlotInjective(k, n, |buf|);
    }
  }

  lemma LandInv<T>(m: RemoteRing<T>, lo: nat)
    requires Inv(m, lo)
    ensures Inv(Land(m), lo)
    ensures Land(m).log == m.log && Land(m).cap == m.cap && Land(m).word >= m.word && Land(m).src == m.src
  {
    if m.queue != [] && m.queue[0].Entry? {
      OrderedBounds(m.queue[1..], m.landed + 1, |m.log|);
      StoreKeeps(m.dst, m.log, lo, m.landed, m.landed, m.src[Slot(m.landed, m.cap)]);
      assert m.log[m.landed] == m.src[Slot(m.landed, m.cap)];
    }
  }

  lemma PutInv<T>(m: RemoteRing<T>, lo: nat, n: nat, e: T)
    requires Inv(m, lo) && |m.log| <= n < lo + m.cap
    ensures Inv(Put(m, n, e), lo)
  {
    StoreKeeps(m.src, m.log, lo, |m.log|, n, e);
  }

  lemma IssueInv<T>(m: RemoteRing<T>, lo: nat, e: T)
    requires Inv(m, lo) && |m.log| < lo + m.cap
    ensures Inv(Issue(m, e), lo)
  {
    StoreKeeps(m.src, m.log, lo, |m.log|, |m.log|, e);
    OrderedAppend(m.queue, m.landed, |m.log|, Entry(|m.log|));
    var log := m.log + [e];
    assert forall n {:trigger log[n]} :: 0 <= n < |m.log| ==> log[n] == m.log[n];
  }

  lemma AnnounceInv<T>(m: RemoteRing<T>, lo: nat)
    requires Inv(m, lo)
    ensures Inv(Announce(m), lo)
  {
    OrderedAppend(m.queue, m.landed, |m.log|, Word(|m.log|));
  }

  lemma {:induction false} IssueAllInv<T>(m: RemoteRing<T>, lo: nat, es: seq<T>)
    requires Inv(m, lo) && |m.log| + |es| <= lo + m.cap
    ensures Inv(IssueAll(m, es), lo)
  {
    if es != [] {
      IssueAllInv(m, lo, es[..|es| - 1]);
      IssueInv(IssueAll(m, es[..|es| - 1]), lo, es[|es| - 1]);
    }
  }

  /** Issuing entries that already stand in the buffer does not change it. */
  lemma {:induction false} IssueAllSame<T>(m: RemoteRing<T>, all: seq<T>, k: nat)
    requires 0 < m.cap == |m.src| && m.log <= all && |m.log| + k <= |all|
    requires Holds(m.src, all, |m.log|, |all|)
    ensures IssueAll(m, all[|m.log|..|m.log| + k]).src == m.src
  {
    if k > 0 {
      IssueAllSame(m, all, k - 1);
      var es := all[|m.log|..|m.log| + k];
      assert es[..|es| - 1] == all[|m.log|..|m.log| + k - 1];
      assert all[|m.log| + k - 1] == m.src[Slot(|m.log| + k - 1, m.cap)];
    }
  }

  /** Entries waiting behind the issued ones stay in their slots. */
  lemma {:induction false} IssueAllKeeps<T>(m: RemoteRing<T>, all: seq<T>, es: seq<T>)
    requires 0 < m.cap == |m.src| && |m.log| + |es| <= |all| <= |m.log| + m.cap
    requires Holds(m.src, all, |m.log|, |all|)
    ensures Holds(IssueAll(m, es).src, all, |m.log| + |es|, |all|)
  {
    if es != [] {
      var n := |m.log| + |es| - 1;
      IssueAllKeeps(m, all, es[..|es| - 1]);
      var q := IssueAll(m, es[..|es| - 1]);
      forall k | n < k < |all| ensures IssueAll(m, es).src[Slot(k, m.cap)] == all[k] {
        SlotInjective(n, k, m.cap);
      }
    }
  }

  /** What the peer reads below the index word is what was issued under these numbers. */
  lemma PeerReads<T>(m: RemoteRing<T>, lo: nat, n: nat, k: nat)
    requires Inv(m, lo) && lo <= n && n + k <= m.word
    ensures Window(m.dst, n, k) == m.log[n..n + k]
  {
    forall i | 0 <= i < k ensures Window(m.dst, n, k)[i] == m.log[n + i] {
    }
  }

  /** What the issuing side still has in its buffer is what it issued under these numbers. */
  lemma OwnerReads<T>(m: RemoteRing<T>, lo: nat, n: nat, k: nat)
    requires Inv(m, lo) && lo <= n && n + k <= |m.log|
    ensures Window(m.src, n, k) == m.log[n..n + k]
  {
    forall i | 0 <= i < k ensures Window(m.src, n, k)[i] == m.log[n + i] {
    }
  }

  /** The buffer with the entries from position `at` on replaced by es. */
  function Spliced<T>(buf: seq<T>, at: nat, es: seq<T>): (r: seq<T>)
    requires at + |es| <= |buf|
    ensures |r| == |buf|
  {
    buf[..at] + es + buf[at + |es|..]
  }

  lemma SplicedSnoc<T>(buf: seq<T>, at: nat, es: seq<T>, e: T)
    requires at + |es| < |buf|
    ensures Spliced(buf, at, es)[at + |es|] == buf[at + |es|]
    ensures Spliced(buf, at, es)[at + |es| := e] == Spliced(buf, at, es + [e])
  {
  }

  lemma WindowContiguous<T>(buf: seq<T>, n: nat, k: nat)
    requires |buf| > 0 && k <= Contiguous(n, |buf|)
    ensures Window(buf, n, k) == buf[Slot(n, |buf|)..Slot(n, |buf|) + k]
  {
    forall i | 0 <= i < k ensures Window(buf, n, k)[i] == buf[Slot(n, |buf|) + i] {
      SlotAdd(n, i, |buf|);
    }
  }

  lemma {:induction false} IssueAllContiguous<T>(m: RemoteRing<T>, es: seq<T>)
    requires 0 < m.cap == |m.src| && |es| <= Contiguous(|m.log|, m.cap)
    ensures IssueAll(m, es).src == Spliced(m.src, Slot(|m.log|, m.cap), es)
  {
    hide Slot;
    var at := Slot(|m.log|, m.cap);
    if es == [] {
      assert m.src[..at] + [] + m.src[at..] == m.src;
    } else {
      var k := |es| - 1;
      IssueAllContiguous(m, es[..k]);
      SlotAdd(|m.log|, k, m.cap);
      SplicedSnoc(m.src, Slot(|m.log|, m.cap), es[..k], es[k]);
      assert es == es[..k] + [es[k]];
    }
  }

  /** What a side asks the DMA engine for: copy buffer entries start..end, then set the index word. */
  datatype Issued = Copy(start: u32, end: u32) | SetIndex(v: u32)

  /**
   What the DMA engine answers to the requests of a pass: the copy, the index, and the
   doorbell with its signal (true where none is rung).
   */
  datatype Dma = Dma(copy: bool, index: bool, bell: bool)

  /** Nothing is announced: the peer finds no new index. */
  ghost predicate Unannounced(out: seq<Issued>) {
    forall i :: 0 <= i < |out| ==> out[i].Copy?
  }

  /** The requests that publish k contiguous entries from number n on. */
  ghost predicate Publishes(out: seq<Issued>, n: nat, k: nat, cap: nat)
    requires Capacity(cap)
  {
    && k <= Contiguous(n, cap)
    && out == [Copy(Slot(n, cap), Slot(n, cap) + k), SetIndex(Index(n + k, cap))]
  }
}
