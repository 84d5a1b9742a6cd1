/**
 Coalescing of a DMA-mapped memory list (ntc_umem_sgl in ntc.c, and
 ntc_umem_count in ntc.h): neighbouring entries that are contiguous become one
 range, and the ranges cover the part of the list from an offset on, of a given
 length.
 */
module Umem {

  datatype Seg = Seg(addr: nat, len: nat)

  function Span(a: nat, k: nat): (s: seq<nat>)
    ensures |s| == k && forall i :: 0 <= i < k ==> s[i] == a + i
  {
    seq(k, i requires 0 <= i < k => a + i)
  }

  lemma SpanMore(a: nat, k: nat, n: nat)
    ensures Span(a, k) + Span(a + k, n) == Span(a, k + n)
  {
  }

  /** The addresses of all bytes of a list, in order. */
  function Flat(segs: seq<Seg>): seq<nat> {
    if segs == [] then [] else Flat(segs[..|segs| - 1]) + Span(segs[|segs| - 1].addr, segs[|segs| - 1].len)
  }

  lemma FlatSnoc(segs: seq<Seg>, s: Seg)
    ensures Flat(segs + [s]) == Flat(segs) + Span(s.addr, s.len)
  {
    assert (segs + [s])[..|segs|] == segs;
  }

  lemma FlatNext(segs: seq<Seg>, i: nat)
    requires i < |segs|
    ensures Flat(segs[..i + 1]) == Flat(segs[..i]) + Span(segs[i].addr, segs[i].len)
  {
    assert segs[..i + 1] == segs[..i] + [segs[i]];
    FlatSnoc(segs[..i], segs[i]);
  }

  function Min(a: nat, b: nat): nat {
    if a <= b then a else b
  }

  /** Byte o of entry j is where it belongs among all bytes, and there are no others. */
  lemma {:induction false} FlatAt(segs: seq<Seg>, j: nat, o: nat)
    requires j < |segs| && o < segs[j].len
    ensures |Flat(segs)| == Sum(segs, 0, |segs|) && Sum(segs, 0, j) + o < |Flat(segs)|
    ensures Flat(segs)[Sum(segs, 0, j) + o] == segs[j].addr + o
  {
    FlatSum(segs, |segs|);
    assert segs[..|segs|] == segs;
    FlatSum(segs, j);
    FlatNext(segs, j);
    FlatSum(segs, j + 1);
    FlatPrefix(segs, j + 1);
  }

  /** The bytes from `offset` on, at most `length` of them. */
  function Part(bytes: seq<nat>, offset: nat, length: nat): seq<nat> {
    if offset <= |bytes| then bytes[offset..Min(|bytes|, offset + length)] else []
  }

  /** No range ends where the next one begins. */
  ghost predicate Apart(out: seq<Seg>) {
    forall i :: 0 <= i < |out| - 1 ==> out[i].addr + out[i].len != out[i + 1].addr
  }

  // ---------------------------------------------------------------------
  // Runs
  // ---------------------------------------------------------------------

  /** The bytes of the entries i, ..., e - 1. */
  function Sum(segs: seq<Seg>, i: nat, e: nat): nat
    requires i <= e <= |segs|
  {
    if i == e then 0 else Sum(segs, i, e - 1) + segs[e - 1].len
  }

  /** The end of the run that starts with entry i and goes on at entry e, if that is contiguous. */
  function RunEnd(segs: seq<Seg>, i: nat, e: nat): (r: nat)
    requires i < e <= |segs|
    ensures e <= r <= |segs|
    decreases |segs| - e
  {
    if e < |segs| && segs[e].addr == segs[i].addr + Sum(segs, i, e) then RunEnd(segs, i, e + 1) else e
  }

  /** Entry b goes on where entry a ends, but an empty entry between them lies elsewhere. */
  ghost predicate Detour(segs: seq<Seg>, a: nat, k: nat, b: nat) {
    && a < k < b < |segs| && segs[a].len > 0 && segs[b].len > 0
    && (forall m :: a < m < b ==> segs[m].len == 0)
    && segs[b].addr == segs[a].addr + segs[a].len != segs[k].addr
  }

  /** Contiguous runs e .. r, entry by entry. */
  lemma {:induction false} RunIs(segs: seq<Seg>, i: nat, e: nat, m: nat)
    requires i < e <= |segs| && e <= m
    ensures var r := RunEnd(segs, i, e);
            && (m < r ==> segs[m].addr == segs[i].addr + Sum(segs, i, m))
            && (r < |segs| ==> segs[r].addr != segs[i].addr + Sum(segs, i, r))
    decreases |segs| - e
  {
    if e < |segs| && segs[e].addr == segs[i].addr + Sum(segs, i, e) {
      RunIs(segs, i, e + 1, if e == m then e + 1 else m);
    }
  }

  lemma {:induction false} SumSplit(segs: seq<Seg>, i: nat, m: nat, e: nat)
    requires i <= m <= e <= |segs|
    ensures Sum(segs, i, e) == Sum(segs, i, m) + Sum(segs, m, e)
  {
    if m < e {
      SumSplit(segs, i, m, e - 1);
    }
  }

  lemma {:induction false} SumZero(segs: seq<Seg>, i: nat, e: nat)
    requires i <= e <= |segs|
    ensures Sum(segs, i, e) == 0 <==> forall m :: i <= m < e ==> segs[m].len == 0
  {
    if i < e {
      SumZero(segs, i, e - 1);
    }
  }

  /** The first and the last entry of a run that are not empty. */
  lemma {:induction false} Solid(segs: seq<Seg>, i: nat, e: nat) returns (b0: nat, b1: nat)
    requires i <= e <= |segs| && Sum(segs, i, e) > 0
    ensures i <= b0 <= b1 < e && segs[b0].len > 0 && segs[b1].len > 0
    ensures forall m :: i <= m < b0 || b1 < m < e ==> segs[m].len == 0
  {
    if segs[e - 1].len == 0 {
      b0, b1 := Solid(segs, i, e - 1);
    } else {
      b1 := e - 1;
      if Sum(segs, i, e - 1) == 0 {
        SumZero(segs, i, e - 1);
        b0 := e - 1;
      } else {
        var b: nat;
        b0, b := Solid(segs, i, e - 1);
      }
    }
  }

  /** Within a run no entry makes a detour. */
  lemma NoDetourInside(segs: seq<Seg>, i: nat, a: nat, k: nat, b: nat)
    requires i <= a && Detour(segs, a, k, b)
    ensures i < |segs| && b >= RunEnd(segs, i, i + 1)
  {
    if b < RunEnd(segs, i, i + 1) {
      RunIs(segs, i, i + 1, k);
      if a > i {
        RunIs(segs, i, i + 1, a);
      }
      SumSplit(segs, i, a + 1, k);
      SumZero(segs, a + 1, k);
      assert false;
    }
  }

  /** The run that ends before entry i, and the last entry a before i that is not empty. */
  ghost predicate Behind(segs: seq<Seg>, i: nat, a: nat, e: nat, last: Seg) {
    && a < e <= i <= |segs| && segs[a].len > 0 && (forall m :: a < m < i ==> segs[m].len == 0)
    && last.addr + last.len == segs[a].addr + segs[a].len
    && (e < |segs| ==> segs[e].addr != last.addr + last.len)
  }

  /** A run that begins where the last one ended is reached by a detour. */
  lemma RunDetour(segs: seq<Seg>, i: nat, a: nat, e: nat, last: Seg, b: nat)
    requires Behind(segs, i, a, e, last) && i < |segs| && i <= b < RunEnd(segs, i, i + 1)
    requires segs[b].len > 0 && forall m :: i <= m < b ==> segs[m].len == 0
    ensures segs[i].addr == segs[b].addr
    ensures segs[i].addr == last.addr + last.len ==> Detour(segs, a, e, b)
  {
    hide RunEnd;
    SumZero(segs, i, b);
    if b > i {
      RunIs(segs, i, i + 1, b);
    }
  }

  lemma RunBehind(segs: seq<Seg>, i: nat, b1: nat)
    requires i < |segs| && i <= b1 < RunEnd(segs, i, i + 1) && segs[b1].len > 0
    requires forall m :: b1 < m < RunEnd(segs, i, i + 1) ==> segs[m].len == 0
    ensures var e := RunEnd(segs, i, i + 1); Behind(segs, e, b1, e, Seg(segs[i].addr, Sum(segs, i, e)))
  {
    hide RunEnd;
    var e := RunEnd(segs, i, i + 1);
    RunIs(segs, i, i + 1, e);
    if b1 > i {
      RunIs(segs, i, i + 1, b1);
    }
    SumSplit(segs, i, b1 + 1, e);
    SumZero(segs, b1 + 1, e);
  }

  // ---------------------------------------------------------------------
  // The split
  // ---------------------------------------------------------------------

  lemma RunNext(segs: seq<Seg>, i: nat, e: nat)
    requires i < e <= |segs|
    ensures Sum(segs, i, i + 1) == segs[i].len && Sum(segs, i, e) == Sum(segs, i, e - 1) + segs[e - 1].len
    ensures !(e < |segs| && segs[e].addr == segs[i].addr + Sum(segs, i, e)) ==> RunEnd(segs, i, e) == e
  {
    assert Sum(segs, i, i) == 0;
  }

  lemma RunGoesOn(segs: seq<Seg>, i: nat, e: nat)
    requires i < e < |segs| && segs[e].addr == segs[i].addr + Sum(segs, i, e)
    ensures RunEnd(segs, i, e) == RunEnd(segs, i, e + 1)
  {
  }

  /** The contiguous run that starts with entry i. */
  method RunFrom(segs: seq<Seg>, i: nat) returns (e: nat, run: Seg)
    requires i < |segs|
    ensures e == RunEnd(segs, i, i + 1) && run == Seg(segs[i].addr, Sum(segs, i, e))
    ensures Flat(segs[..e]) == Flat(segs[..i]) + Span(run.addr, run.len)
  {
    hide Flat, Span, RunEnd, Sum;
    e, run := i + 1, segs[i];
    FlatNext(segs, i);
    RunNext(segs, i, e);
    while e < |segs| && segs[e].addr == run.addr + run.len
      invariant i < e <= |segs| && run == Seg(segs[i].addr, Sum(segs, i, e))
      invariant RunEnd(segs, i, i + 1) == RunEnd(segs, i, e)
      invariant Flat(segs[..e]) == Flat(segs[..i]) + Span(run.addr, run.len)
    {
      FlatNext(segs, e);
      SpanMore(run.addr, run.len, segs[e].len);
      RunNext(segs, i, e + 1);
      RunGoesOn(segs, i, e);
      run := run.(len := run.len + segs[e].len);
      e := e + 1;
    }
    RunNext(segs, i, e);
  }

  /** What has been done when the entries before i are handled. */
  ghost predicate Progress(segs: seq<Seg>, i: nat, offset: nat, length: nat, off: nat, total: nat, ranges: seq<Seg>) {
    && i <= |segs| && total == |Flat(ranges)| && (total < length || ranges == [])
    && var p := |Flat(segs[..i])|;
    && (off > 0 ==> ranges == [] && offset == p + off)
    && (off == 0 ==> offset <= p && Flat(ranges) == Flat(segs[..i])[offset..])
  }

  lemma ProgressSkip(segs: seq<Seg>, i: nat, e: nat, run: Seg, offset: nat, length: nat,
                     off: nat, total: nat, ranges: seq<Seg>)
    requires Progress(segs, i, offset, length, off, total, ranges) && e <= |segs| && run.len <= off
    requires Flat(segs[..e]) == Flat(segs[..i]) + Span(run.addr, run.len)
    ensures Progress(segs, e, offset, length, off - run.len, total, ranges)
  {
    hide Flat;
    if off > 0 {
      FlatNone();
    }
  }

  lemma FlatNone()
    ensures Flat([]) == []
  {
  }

  /** The part of a run behind the offset becomes a range. */
  lemma ProgressEmit(segs: seq<Seg>, i: nat, e: nat, run: Seg, offset: nat, length: nat,
                     off: nat, total: nat, ranges: seq<Seg>)
    requires Progress(segs, i, offset, length, off, total, ranges) && e <= |segs| && off < run.len
    requires Flat(segs[..e]) == Flat(segs[..i]) + Span(run.addr, run.len)
    ensures var r := Seg(run.addr + off, run.len - off);
            && offset <= |Flat(segs[..e])| && Flat(ranges + [r]) == Flat(segs[..e])[offset..]
            && |Flat(ranges + [r])| == total + r.len
  {
    var r := Seg(run.addr + off, run.len - off);
    FlatSnoc(ranges, r);
    FlatNone();
    hide Flat;
    assert Span(run.addr, run.len)[off..] == Span(r.addr, r.len);
  }

  /** A range cut to the length ends the split. */
  lemma CutRange(segs: seq<Seg>, e: nat, offset: nat, length: nat, total: nat, ranges: seq<Seg>, r: Seg)
    requires e <= |segs| && offset <= |Flat(segs[..e])| && Flat(ranges + [r]) == Flat(segs[..e])[offset..]
    requires total == |Flat(ranges)| <= length <= total + r.len
    ensures Flat(ranges + [r.(len := length - total)]) == Part(Flat(segs), offset, length)
  {
    FlatSnoc(ranges, r);
    FlatSnoc(ranges, r.(len := length - total));
    PartOfPrefix(segs, e, offset, length);
    hide Flat, Part;
    assert Span(r.addr, length - total) == Span(r.addr, r.len)[..length - total];
    hide Span;
    var bytes := Flat(segs[..e])[offset..];
    assert Flat(ranges + [r.(len := length - total)]) == bytes[..length];
    assert Flat(segs[..e])[offset..offset + length] == bytes[..length];
  }

  lemma ProgressEnd(segs: seq<Seg>, offset: nat, length: nat, off: nat, total: nat, ranges: seq<Seg>)
    requires Progress(segs, |segs|, offset, length, off, total, ranges)
    ensures Flat(ranges) == Part(Flat(segs), offset, length)
  {
    assert segs[..|segs|] == segs;
    FlatNone();
  }

  // ---------------------------------------------------------------------
  // Which ranges are contiguous
  // ---------------------------------------------------------------------

  /** A detour within the part asked for: entry a reaches into it, and entry b begins in it. */
  ghost predicate Inside(segs: seq<Seg>, offset: nat, length: nat, a: nat, k: nat, b: nat) {
    Detour(segs, a, k, b) && Sum(segs, 0, a + 1) > offset && Sum(segs, 0, b) < offset + length
  }

  /** No detour within the part leads to an entry before hi. */
  ghost predicate Straight(segs: seq<Seg>, offset: nat, length: nat, hi: nat) {
    forall a: nat, k: nat, b: nat :: b < hi ==> !Inside(segs, offset, length, a, k, b)
  }

  /** The last range is that of a run before i, whose last entry that is not empty is a. */
  ghost predicate Last(segs: seq<Seg>, i: nat, offset: nat, last: Seg, a: nat, e: nat) {
    Behind(segs, i, a, e, last) && Sum(segs, 0, a + 1) > offset
  }

  ghost predicate HasLast(segs: seq<Seg>, i: nat, offset: nat, last: Seg) {
    exists a, e :: Last(segs, i, offset, last, a, e)
  }

  /** The ranges of the entries before i, and which of them are contiguous. */
  ghost predicate Tracks(segs: seq<Seg>, i: nat, offset: nat, length: nat, ranges: seq<Seg>) {
    && i <= |segs|
    && (if ranges == [] then Sum(segs, 0, i) <= offset
        else HasLast(segs, i, offset, ranges[|ranges| - 1]))
    && (Apart(ranges) <==> Straight(segs, offset, length, i))
  }

  /** The run [i, e) of the given length. */
  ghost predicate RunAt(segs: seq<Seg>, i: nat, e: nat, run: Seg) {
    i < |segs| && e == RunEnd(segs, i, i + 1) && run == Seg(segs[i].addr, Sum(segs, i, e))
  }

  /** Sums up to entries in front of and within the part before i. */
  lemma SumGrows(segs: seq<Seg>, i: nat, j: nat)
    requires i <= j <= |segs|
    ensures Sum(segs, 0, j) == Sum(segs, 0, i) + Sum(segs, i, j) >= Sum(segs, 0, i)
  {
    SumSplit(segs, 0, i, j);
  }

  /** If nothing before i reaches into the part, no detour within it leads into the run that begins with i. */
  lemma NoneInside(segs: seq<Seg>, i: nat, offset: nat, length: nat)
    requires i < |segs| && Sum(segs, 0, i) <= offset && Straight(segs, offset, length, i)
    ensures Straight(segs, offset, length, RunEnd(segs, i, i + 1))
  {
    hide Sum, RunEnd, Detour;
    forall a: nat, k: nat, b: nat | b < RunEnd(segs, i, i + 1) ensures !Inside(segs, offset, length, a, k, b) {
      if Inside(segs, offset, length, a, k, b) {
        DetourOrder(segs, a, k, b);
        if a < i {
          SumGrows(segs, a + 1, i);
        } else {
          NoDetourInside(segs, i, a, k, b);
        }
      }
    }
  }

  lemma DetourOrder(segs: seq<Seg>, a: nat, k: nat, b: nat)
    requires Detour(segs, a, k, b)
    ensures a < k < b < |segs| && segs[b].len > 0
  {
  }

  /** A run that is skipped. */
  lemma TracksSkip(segs: seq<Seg>, i: nat, e: nat, run: Seg, offset: nat, length: nat, off: nat, ranges: seq<Seg>)
    requires Tracks(segs, i, offset, length, ranges) && RunAt(segs, i, e, run) && run.len <= off
    requires if off > 0 then ranges == [] && offset == Sum(segs, 0, i) + off else true
    ensures Tracks(segs, e, offset, length, ranges)
  {
    hide Sum, RunEnd, Inside, Straight;
    SumGrows(segs, i, e);
    if ranges == [] {
      NoneInside(segs, i, offset, length);
      StraightLess(segs, offset, length, i, e);
    } else {
      SumZero(segs, i, e);
      EmptyInside(segs, i, e, offset, length);
      var a, k :| Last(segs, i, offset, ranges[|ranges| - 1], a, k);
      assert Last(segs, e, offset, ranges[|ranges| - 1], a, k);
    }
  }

  lemma StraightLess(segs: seq<Seg>, offset: nat, length: nat, lo: nat, hi: nat)
    requires lo <= hi
    ensures Straight(segs, offset, length, hi) ==> Straight(segs, offset, length, lo)
  {
    hide Inside;
  }

  lemma EmptyInside(segs: seq<Seg>, i: nat, e: nat, offset: nat, length: nat)
    requires i <= e <= |segs| && forall m :: i <= m < e ==> segs[m].len == 0
    ensures Straight(segs, offset, length, i) <==> Straight(segs, offset, length, e)
  {
    hide Sum;
  }

  /** A detour into a run begins with the last entry before the run that is not empty, and the run goes on there. */
  lemma DetourInto(segs: seq<Seg>, i: nat, a: nat, e: nat, last: Seg, x: nat, k: nat, b: nat)
    requires Behind(segs, i, a, e, last) && i < |segs| && i <= b < RunEnd(segs, i, i + 1) && Detour(segs, x, k, b)
    ensures segs[i].addr == last.addr + last.len
  {
    hide RunEnd, Sum;
    if x >= i {
      NoDetourInside(segs, i, x, k, b);
    } else {
      assert x == a;
      RunDetour(segs, i, a, e, last, b);
    }
  }

  /** A range that begins a run is contiguous with the one before exactly if a detour leads into the run. */
  lemma ContiguousExactly(segs: seq<Seg>, i: nat, e: nat, run: Seg, offset: nat, length: nat, ranges: seq<Seg>, r: Seg)
    requires Tracks(segs, i, offset, length, ranges) && RunAt(segs, i, e, run) && run.len > 0 && ranges != []
    requires Sum(segs, 0, i) < offset + length && r.addr == run.addr
    ensures Apart(ranges + [r]) <==> Straight(segs, offset, length, e)
  {
    hide Sum, RunEnd, Inside, Detour;
    var last := ranges[|ranges| - 1];
    var a, k :| Last(segs, i, offset, last, a, k);
    var b0, b1 := Solid(segs, i, e);
    ApartSnoc(ranges, r);
    StraightLess(segs, offset, length, i, e);
    if last.addr + last.len == r.addr {
      RunDetour(segs, i, a, k, last, b0);
      SumGrows(segs, i, b0);
      SumZero(segs, i, b0);
      InsideIs(segs, offset, length, a, k, b0);
    } else {
      forall x: nat, y: nat, b: nat | i <= b < e ensures !Inside(segs, offset, length, x, y, b) {
        if Inside(segs, offset, length, x, y, b) {
          InsideIs(segs, offset, length, x, y, b);
          DetourInto(segs, i, a, k, last, x, y, b);
        }
      }
    }
  }

  lemma InsideIs(segs: seq<Seg>, offset: nat, length: nat, a: nat, k: nat, b: nat)
    ensures Inside(segs, offset, length, a, k, b) ==> Detour(segs, a, k, b)
    ensures Detour(segs, a, k, b) && Sum(segs, 0, a + 1) > offset && Sum(segs, 0, b) < offset + length ==>
              Inside(segs, offset, length, a, k, b)
  {
  }

  lemma ApartSnoc(ranges: seq<Seg>, r: Seg)
    requires ranges != []
    ensures var last := ranges[|ranges| - 1];
            Apart(ranges + [r]) <==> Apart(ranges) && last.addr + last.len != r.addr
  {
    var out := ranges + [r];
    if Apart(out) {
      assert out[|ranges| - 1].addr + out[|ranges| - 1].len != out[|ranges|].addr;
      forall i | 0 <= i < |ranges| - 1 ensures ranges[i].addr + ranges[i].len != ranges[i + 1].addr {
        assert out[i].addr + out[i].len != out[i + 1].addr;
      }
    }
  }

  /** A run that is emitted from its offset on, perhaps cut at its end. */
  lemma TracksEmit(segs: seq<Seg>, i: nat, e: nat, run: Seg, offset: nat, length: nat, off: nat,
                   ranges: seq<Seg>, r: Seg)
    requires Tracks(segs, i, offset, length, ranges) && RunAt(segs, i, e, run)
    requires off < run.len && r.addr == run.addr + off
    requires if off > 0 then ranges == [] && offset == Sum(segs, 0, i) + off
             else ranges == [] || Sum(segs, 0, i) < offset + length
    requires offset < Sum(segs, 0, i) + run.len
    ensures Apart(ranges + [r]) <==> Straight(segs, offset, length, e)
    ensures r.len == run.len - off ==> Tracks(segs, e, offset, length, ranges + [r])
  {
    hide Sum, RunEnd, Inside, Straight, Detour;
    if ranges == [] {
      NoneInside(segs, i, offset, length);
      assert Apart(ranges + [r]);
    } else {
      ContiguousExactly(segs, i, e, run, offset, length, ranges, r);
    }
    if r.len == run.len - off {
      var b0, b1 := Solid(segs, i, e);
      RunBehind(segs, i, b1);
      SumGrows(segs, i, e);
      SumGrows(segs, b1 + 1, e);
      SumZero(segs, b1 + 1, e);
      assert Last(segs, e, offset, r, b1, e);
      assert (ranges + [r])[|ranges + [r]| - 1] == r;
    }
  }

  /** Behind the end of the part no detour is within it. */
  lemma StraightEnd(segs: seq<Seg>, offset: nat, length: nat, e: nat)
    requires e <= |segs| && offset + length <= Sum(segs, 0, e)
    ensures Straight(segs, offset, length, e) <==> Straight(segs, offset, length, |segs|)
  {
    hide Sum;
    forall a: nat, k: nat, b: nat | e <= b < |segs| ensures !Inside(segs, offset, length, a, k, b) {
      SumGrows(segs, e, b);
    }
  }

  lemma {:induction false} FlatSum(segs: seq<Seg>, e: nat)
    requires e <= |segs|
    ensures |Flat(segs[..e])| == Sum(segs, 0, e)
  {
    if e > 0 {
      FlatSum(segs, e - 1);
      FlatNext(segs, e - 1);
    }
  }

  /**
   Split the list into ranges.  All ranges are counted in n; the first `count`
   of them are stored, if each of them can be mapped.  The bytes of the ranges
   are exactly the part asked for, whether they are stored or only counted.
   Ranges are discontiguous exactly if no empty entry makes a detour between
   contiguous ones within the part.
   */
  method UmemSgl(segs: seq<Seg>, offset: nat, length: nat, count: nat, mappable: Seg -> bool)
    returns (n: nat, out: seq<Seg>, ok: bool, ghost ranges: seq<Seg>)
    ensures forall r :: r in out ==> mappable(r)
    ensures ok ==> Flat(ranges) == Part(Flat(segs), offset, length) && n == |ranges| && Stored(out, ranges, count)
    ensures ok ==>
              var all, part := Flat(segs), Flat(ranges);
              && |part| == (if |all| <= offset then 0 else if |all| - offset <= length then |all| - offset else length)
              && (forall k :: 0 <= k < |part| ==> part[k] == all[offset + k])
              && n == |ranges| && out == ranges[..if n <= count then n else count]
    ensures ok ==> (Apart(ranges) <==> Straight(segs, offset, length, |segs|))
    ensures !ok ==> n < count && |ranges| == n + 1 && out == ranges[..n] && !mappable(ranges[n])
    ensures !ok ==> Flat(ranges) <= Part(Flat(segs), offset, length)
    ensures !ok && Straight(segs, offset, length, |segs|) ==> Apart(ranges)
  {
    hide Progress, Flat, Part, Apart, Span, Stored, Tracks, Sum, RunEnd, Straight;
    n, out, ok, ranges := 0, [], true, [];
    var off: nat, total: nat, i: nat := offset, 0, 0;
    NoRanges(segs, offset, length, count);
    while i < |segs|
      invariant i <= |segs| && ok && Progress(segs, i, offset, length, off, total, ranges)
      invariant total == |Flat(ranges)| && (total < length || ranges == [])
      invariant n == |ranges| && Stored(out, ranges, count) && forall r :: r in out ==> mappable(r)
      invariant Tracks(segs, i, offset, length, ranges)
      decreases |segs| - i
    {
      var e, run := RunFrom(segs, i);
      ProgressSums(segs, i, offset, length, off, total, ranges);
      if run.len <= off {
        ProgressSkip(segs, i, e, run, offset, length, off, total, ranges);
        TracksSkip(segs, i, e, run, offset, length, off, ranges);
        off := off - run.len;
      } else {
        ProgressEmit(segs, i, e, run, offset, length, off, total, ranges);
        var r := Seg(run.addr + off, run.len - off);
        var sum := total + r.len;
        var cut := if sum > length then r.(len := length - total) else r;
        TracksEmit(segs, i, e, run, offset, length, off, ranges, cut);
        Emitted(segs, e, offset, length, total, ranges, r);
        StraightLess(segs, offset, length, e, |segs|);
        ghost var was := ranges;
        off := 0;
        StoreMore(out, ranges, count, cut);
        ranges := ranges + [cut];
        if n < count {
          if !mappable(cut) {
            StoredAll(out, was, count);
            ok := false;
            return;
          }
          out := out + [cut];
        }
        n := n + 1;
        total := if sum > length then length else sum;
        if total == length {
          PartEnds(segs, e, offset, length, was, r);
          StraightEnd(segs, offset, length, e);
          PartIs(segs, offset, length, out, ranges, count);
          return;
        }
      }
      i := e;
    }
    ProgressEnd(segs, offset, length, off, total, ranges);
    TracksEnd(segs, offset, length, ranges);
    PartIs(segs, offset, length, out, ranges, count);
  }

  /** The part asked for, byte by byte, and the ranges that are stored. */
  lemma PartIs(segs: seq<Seg>, offset: nat, length: nat, out: seq<Seg>, ranges: seq<Seg>, count: nat)
    requires Flat(ranges) == Part(Flat(segs), offset, length) && Stored(out, ranges, count)
    ensures var all, part := Flat(segs), Flat(ranges);
            && |part| == (if |all| <= offset then 0 else if |all| - offset <= length then |all| - offset else length)
            && (forall k :: 0 <= k < |part| ==> part[k] == all[offset + k])
            && out == ranges[..if |ranges| <= count then |ranges| else count]
  {
    hide Flat;
  }

  /** Progress in terms of sums. */
  lemma ProgressSums(segs: seq<Seg>, i: nat, offset: nat, length: nat, off: nat, total: nat, ranges: seq<Seg>)
    requires Progress(segs, i, offset, length, off, total, ranges)
    ensures if off > 0 then ranges == [] && offset == Sum(segs, 0, i) + off
            else offset <= Sum(segs, 0, i) && (ranges == [] || Sum(segs, 0, i) < offset + length)
  {
    hide Flat;
    FlatSum(segs, i);
  }

  lemma PartEnds(segs: seq<Seg>, e: nat, offset: nat, length: nat, ranges: seq<Seg>, r: Seg)
    requires e <= |segs| && offset <= |Flat(segs[..e])| && Flat(ranges + [r]) == Flat(segs[..e])[offset..]
    requires |Flat(ranges + [r])| >= length
    ensures offset + length <= Sum(segs, 0, e)
  {
    hide Flat;
    FlatSum(segs, e);
  }

  /** The ranges that are stored. */
  ghost predicate Stored(out: seq<Seg>, ranges: seq<Seg>, count: nat) {
    out == ranges[..Min(|ranges|, count)]
  }

  lemma StoreMore(out: seq<Seg>, ranges: seq<Seg>, count: nat, r: Seg)
    requires Stored(out, ranges, count)
    ensures Stored(if |ranges| < count then out + [r] else out, ranges + [r], count)
  {
  }

  lemma NoRanges(segs: seq<Seg>, offset: nat, length: nat, count: nat)
    ensures Flat([]) == [] && Stored([], [], count)
    ensures Progress(segs, 0, offset, length, offset, 0, []) && Tracks(segs, 0, offset, length, [])
  {
    assert segs[..0] == [];
  }

  lemma {:induction false} FlatPrefix(segs: seq<Seg>, e: nat)
    requires e <= |segs|
    ensures Flat(segs[..e]) <= Flat(segs)
  {
    if e == |segs| {
      assert segs[..e] == segs;
    } else {
      FlatPrefix(segs[..|segs| - 1], e);
      assert segs[..|segs| - 1][..e] == segs[..e];
    }
  }

  /** Once the length is reached, later entries do not matter. */
  lemma PartOfPrefix(segs: seq<Seg>, e: nat, offset: nat, length: nat)
    requires e <= |segs| && offset + length <= |Flat(segs[..e])|
    ensures Part(Flat(segs), offset, length) == Flat(segs[..e])[offset..offset + length]
  {
    FlatPrefix(segs, e);
  }

  /** What the next range, cut to the length, does to the ranges. */
  lemma Emitted(segs: seq<Seg>, e: nat, offset: nat, length: nat, total: nat, ranges: seq<Seg>, r: Seg)
    requires e <= |segs| && offset <= |Flat(segs[..e])| && Flat(ranges + [r]) == Flat(segs[..e])[offset..]
    requires total == |Flat(ranges)| && |Flat(ranges + [r])| == total + r.len && total <= length
    ensures var sum := total + r.len;
            var cut := if sum > length then r.(len := length - total) else r;
            && (sum >= length ==> Flat(ranges + [cut]) == Part(Flat(segs), offset, length))
            && (sum < length ==> Progress(segs, e, offset, length, 0, sum, ranges + [r]))
            && Flat(ranges + [cut]) <= Part(Flat(segs), offset, length)
  {
    if total + r.len >= length {
      CutRange(segs, e, offset, length, total, ranges, r);
    } else {
      FlatPrefix(segs, e);
    }
  }

  lemma StoredAll(out: seq<Seg>, ranges: seq<Seg>, count: nat)
    requires Stored(out, ranges, count) && |ranges| < count
    ensures out == ranges
  {
  }

  lemma TracksEnd(segs: seq<Seg>, offset: nat, length: nat, ranges: seq<Seg>)
    requires Tracks(segs, |segs|, offset, length, ranges)
    ensures Apart(ranges) <==> Straight(segs, offset, length, |segs|)
  {
  }

  /**
   Two contiguous entries, and an empty one elsewhere between them: a detour, but
   not within the first three bytes.
   */
  lemma DetourExists()
    ensures var segs := [Seg(100, 5), Seg(300, 0), Seg(105, 5)];
            !Straight(segs, 0, 10, 3) && Straight(segs, 0, 3, 3)
  {
    var segs := [Seg(100, 5), Seg(300, 0), Seg(105, 5)];
    assert Sum(segs, 0, 1) == 5 && Sum(segs, 0, 2) == 5;
    assert Inside(segs, 0, 10, 0, 1, 2);
  }
}
