/**
 The buffer allocator (ntc_mm.h): chunks whose sizes are powers of two, taken
 from a free list per size or cut from the end of the used memory.
 */
module Mm {

  const U32 := 0x1_0000_0000
  const U64 := 0x1_0000_0000_0000_0000
  const ENTRY := 16            // size of a free list entry
  const EINVAL := 22
  const ENOMEM := 12

  // ---------------------------------------------------------------------
  // Chunk sizes
  // ---------------------------------------------------------------------

  function Pow2(k: nat): (p: nat)
    ensures p >= 1
  {
    if k == 0 then 1 else 2 * Pow2(k - 1)
  }

  /** Number of significant bits. */
  function Bits(x: nat): nat {
    if x == 0 then 0 else 1 + Bits(x / 2)
  }

  /** Leading zeros of a 32-bit word. */
  function Clz(x: nat): int {
    32 - Bits(x)
  }

  function Align(x: nat): nat {
    (x + ENTRY - 1) / ENTRY * ENTRY
  }

  /** _ntc_mm_chunk_size, for a size that is not negative. */
  function ChunkSize(size: nat): nat
    requires size < 0x8000_0000
  {
    if size == 0 then 0
    else
      var n := Align(size);
      var clz := Clz(n);
      BitsBounds(n);
      if clz < 2 then 0
      else if n * Pow2(clz + 1) % U32 != 0 then Pow2(32 - clz)
      else Pow2(31 - clz)
  }

  ghost predicate IsPow2(p: nat) {
    exists k: nat :: p == Pow2(k)
  }

  lemma {:induction false} BitsBounds(x: nat)
    requires x > 0
    ensures Bits(x) >= 1 && Pow2(Bits(x) - 1) <= x < Pow2(Bits(x))
  {
    if x > 1 {
      BitsBounds(x / 2);
    } else {
      assert Bits(x / 2) == 0;
    }
  }

  lemma {:induction false} Pow2Add(a: nat, b: nat)
    ensures Pow2(a + b) == Pow2(a) * Pow2(b)
  {
    if a > 0 {
      Pow2Add(a - 1, b);
      assert Pow2(a) * Pow2(b) == 2 * Pow2(a - 1) * Pow2(b);
    }
  }

  lemma {:induction false} Pow2Monotone(a: nat, b: nat)
    requires a <= b
    ensures Pow2(a) <= Pow2(b)
  {
    if a < b {
      Pow2Monotone(a, b - 1);
    }
  }

  lemma Pow2Of32()
    ensures Pow2(32) == U32 && Pow2(30) == 0x4000_0000 && Pow2(4) == 16
  {
    assert Pow2(4) == 16;
    Pow2Add(4, 4);
    Pow2Add(8, 8);
    Pow2Add(16, 16);
    Pow2Add(30, 2);
    assert Pow2(2) == 4;
  }

  lemma AlignIs(size: nat)
    ensures Align(size) % ENTRY == 0 && size <= Align(size) < size + ENTRY
  {
  }

  lemma MulBounds(r: nat, h: nat, m: nat)
    requires r < h && m >= 1
    ensures r * m < h * m && (r * m == 0 <==> r == 0)
  {
    assert (h - r) * m >= 1;
  }

  lemma ModOver(x: nat)
    requires x < U32
    ensures (U32 + x) % U32 == x
  {
  }

  /** The test for further bits below the leading one. */
  lemma LowBits(n: nat, b: nat)
    requires 1 <= b <= 32 && Pow2(b - 1) <= n < Pow2(b)
    ensures n * Pow2(33 - b) % U32 == 0 <==> n == Pow2(b - 1)
  {
    assert Pow2(b) == 2 * Pow2(b - 1);
    assert Pow2(b - 1) * Pow2(33 - b) == U32 by {
      Pow2Add(b - 1, 33 - b);
      Pow2Of32();
    }
    HighBit(n, Pow2(b - 1), Pow2(33 - b));
  }

  lemma HighBit(n: nat, h: nat, m: nat)
    requires h <= n < 2 * h && m >= 1 && h * m == U32
    ensures n * m % U32 == 0 <==> n == h
  {
    var r := n - h;
    MulBounds(r, h, m);
    Distribute(h, r, m);
    ModOver(r * m);
  }

  lemma Distribute(h: nat, r: nat, m: nat)
    ensures (h + r) * m == h * m + r * m
  {
  }

  /** The chunk for n bytes is the least power of two that holds them; sizes of a gigabyte or more have none. */
  ghost predicate Least(p: nat, n: nat) {
    IsPow2(p) && n <= p && forall k: nat :: n <= Pow2(k) ==> p <= Pow2(k)
  }

  lemma LeastAbove(n: nat, b: nat)
    requires b >= 1 && Pow2(b - 1) <= n < Pow2(b)
    ensures Least(if n == Pow2(b - 1) then Pow2(b - 1) else Pow2(b), n)
  {
    forall k: nat | n <= Pow2(k) ensures (if n == Pow2(b - 1) then Pow2(b - 1) else Pow2(b)) <= Pow2(k) {
      if k <= b - 1 {
        Pow2Monotone(k, b - 1);
      } else {
        Pow2Monotone(b, k);
      }
    }
  }

  /** A power of two that holds an entry is a multiple of its size. */
  lemma Pow2Entries(k: nat)
    requires Pow2(k) >= ENTRY
    ensures Pow2(k) % ENTRY == 0
  {
    Pow2Of32();
    if k < 4 {
      Pow2Monotone(k, 3);
    } else {
      Pow2Add(4, k - 4);
    }
  }

  function Max(a: nat, b: nat): nat {
    if a >= b then a else b
  }

  /**
   A chunk is the least power of two that holds the bytes and a free list entry;
   sizes that round up to a gigabyte or more have no chunk.
   */
  lemma ChunkSizeIs(size: nat)
    requires size < 0x8000_0000
    ensures if 0 < size <= 0x4000_0000 - 16
            then Least(ChunkSize(size), Max(size, 16)) && ChunkSize(size) % 16 == 0
            else ChunkSize(size) == 0
  {
    hide Pow2, Bits, Least;
    if size == 0 {
      return;
    }
    var n := Align(size);
    AlignIs(size);
    BitsBounds(n);
    Pow2Of32();
    if size <= 0x4000_0000 - ENTRY {
      if Bits(n) > 30 {
        Pow2Monotone(30, Bits(n) - 1);
      }
      ChunkLeast(size);
      AlignedLeast(size, ChunkSize(size));
    } else if Bits(n) <= 30 {
      Pow2Monotone(Bits(n), 30);
    }
  }

  lemma ChunkLeast(size: nat)
    requires 0 < size < 0x8000_0000 && Bits(Align(size)) <= 30
    ensures Least(ChunkSize(size), Align(size))
  {
    hide Pow2, Bits, Least, Align;
    var n := Align(size);
    AlignIs(size);
    BitsBounds(n);
    LowBits(n, Bits(n));
    LeastAbove(n, Bits(n));
  }

  /** Rounding up to the entry size does not change the least power of two. */
  lemma AlignedLeast(size: nat, p: nat)
    requires Least(p, Align(size)) && size > 0
    ensures Least(p, Max(size, ENTRY)) && p % ENTRY == 0
  {
    AlignIs(size);
    var j: nat :| p == Pow2(j);
    Pow2Entries(j);
    forall k: nat | Max(size, ENTRY) <= Pow2(k) ensures p <= Pow2(k) {
      Pow2Entries(k);
    }
  }

  // ---------------------------------------------------------------------
  // The allocator
  // ---------------------------------------------------------------------

  datatype Chunk = Chunk(addr: nat, size: nat)

  /** The chunks follow each other without a gap from lo to hi, and are not empty and aligned. */
  ghost predicate Tiled(tiles: seq<Chunk>, lo: nat, hi: nat)
    decreases |tiles|
  {
    if tiles == [] then lo == hi
    else
      var t := tiles[|tiles| - 1];
      t.addr + t.size == hi && t.size > 0 && t.addr % ENTRY == 0 && Tiled(tiles[..|tiles| - 1], lo, t.addr)
  }

  lemma TiledSnoc(tiles: seq<Chunk>, lo: nat, t: Chunk)
    requires Tiled(tiles, lo, t.addr) && t.size > 0 && t.addr % ENTRY == 0
    ensures Tiled(tiles + [t], lo, t.addr + t.size)
  {
    assert (tiles + [t])[..|tiles|] == tiles;
  }

  /** Tiles do not overlap, lie within the bounds, are aligned, and cover every address between. */
  lemma {:induction false} TiledMeans(tiles: seq<Chunk>, lo: nat, hi: nat)
    requires Tiled(tiles, lo, hi)
    ensures lo <= hi
    ensures forall i :: 0 <= i < |tiles| ==>
              lo <= tiles[i].addr && tiles[i].addr + tiles[i].size <= hi && tiles[i].addr % ENTRY == 0
    ensures forall i, j :: 0 <= i < j < |tiles| ==>
              tiles[i].addr + tiles[i].size <= tiles[j].addr && tiles[i] != tiles[j]
    ensures forall x :: lo <= x < hi ==> Covered(tiles, x)
  {
    if tiles != [] {
      var n := |tiles| - 1;
      var was, t := tiles[..n], tiles[n];
      assert Tiled(was, lo, t.addr) && t.addr + t.size == hi && t.size > 0 && t.addr % ENTRY == 0;
      hide Tiled;
      TiledMeans(was, lo, t.addr);
      assert forall i :: 0 <= i < n ==> tiles[i] == was[i];
      forall x | lo <= x < hi ensures Covered(tiles, x) {
        CoveredMore(was, t, x);
        assert tiles == was + [t];
      }
      hide Covered;
    }
  }

  lemma CoveredMore(was: seq<Chunk>, t: Chunk, x: nat)
    ensures Covered(was, x) || t.addr <= x < t.addr + t.size ==> Covered(was + [t], x)
  {
    var tiles := was + [t];
    if t.addr <= x < t.addr + t.size {
      assert tiles[|was|] == t;
    } else if Covered(was, x) {
      var i :| 0 <= i < |was| && was[i].addr <= x < was[i].addr + was[i].size;
      assert tiles[i] == was[i];
    }
  }

  ghost predicate Covered(tiles: seq<Chunk>, x: nat) {
    exists i :: 0 <= i < |tiles| && tiles[i].addr <= x < tiles[i].addr + tiles[i].size
  }

  /** The free chunks, as the free lists hold them. */
  ghost predicate Lists(fixed: map<nat, seq<nat>>, free: multiset<Chunk>) {
    forall a: nat, c: nat :: free[Chunk(a, c)] == if c in fixed then multiset(fixed[c])[a] else 0
  }

  /** The outcome of a request: the address, or an error number. */
  datatype Result = Ok(ptr: nat) | Err(e: int)

  lemma ListPush(fixed: map<nat, seq<nat>>, free: multiset<Chunk>, c: nat, a: nat)
    requires Lists(fixed, free) && c in fixed
    ensures Lists(fixed[c := [a] + fixed[c]], free + multiset{Chunk(a, c)})
  {
  }

  lemma ListPop(fixed: map<nat, seq<nat>>, free: multiset<Chunk>, c: nat)
    requires Lists(fixed, free) && c in fixed && fixed[c] != []
    ensures Chunk(fixed[c][0], c) in free
    ensures Lists(fixed[c := fixed[c][1..]], free - multiset{Chunk(fixed[c][0], c)})
  {
    assert fixed[c] == [fixed[c][0]] + fixed[c][1..];
  }

  lemma ListNew(fixed: map<nat, seq<nat>>, free: multiset<Chunk>, c: nat)
    requires Lists(fixed, free) && c !in fixed
    ensures Lists(fixed[c := []], free)
  {
  }

  class Allocator {
    var memory: nat
    var end: nat
    var brk: nat
    var fixed: map<nat, seq<nat>>   // the free list of each chunk size in use
    ghost var tiles: seq<Chunk>     // all chunks ever cut, in address order
    ghost var live: multiset<Chunk>
    ghost var free: multiset<Chunk>

    /** Live and free chunks together are exactly the tiles of the used memory. */
    ghost predicate Valid()
      reads this
    {
      && memory <= brk <= end < U64 && memory % ENTRY == 0 && brk % ENTRY == 0
      && Tiled(tiles, memory, brk)
      && multiset(tiles) == live + free
      && Lists(fixed, free)
      && 0 !in fixed && (forall k :: k in live ==> k.size in fixed)
    }

    /**
     Use the memory from `base` on.  It fails exactly if rounding the start up
     goes beyond its end, or if its end cannot be addressed.
     */
    method Init(base: nat, size: nat) returns (rc: int)
      requires base + ENTRY <= U64 && size < U64
      modifies this
      ensures var m := Align(base);
              && m % 16 == 0 && base <= m < base + 16 && (rc != 0 ==> rc == -22)
              && (rc == 0 <==> size == 0 || m <= base + size < U64)
              && (rc == 0 ==> Valid() && live == multiset{} && free == multiset{} && memory == brk == m
                              && end == if size == 0 then m else base + size)
    {
      AlignIs(base);
      var m := Align(base);
      var sz := if size == 0 then 0 else (size - (m - base)) % U64;
      var e := (m + sz) % U64;
      InitEnd(base, size, m);
      if e < m {
        rc := -EINVAL;
        return;
      }
      memory, brk, end, fixed := m, m, e, map[];
      tiles, live, free := [], multiset{}, multiset{};
      rc := 0;
    }

    /** Cut a chunk from the end of the used memory. */
    method Sbrk(inc: nat) returns (r: Result)
      requires Valid() && inc < U32
      modifies this`brk
      ensures r.Ok? <==> old(brk) + inc <= end
      ensures if r.Ok? then r.ptr == old(brk) && brk == old(brk) + inc else r == Err(-ENOMEM) && brk == old(brk)
    {
      var b := (brk + inc) % U64;
      if b < brk || b > end {
        return Err(-ENOMEM);
      }
      r := Ok(brk);
      brk := b;
    }

    /** Find or make the free list of a chunk size; `memOk` tells whether one can be made. */
    method GetFixed(c: nat, memOk: bool) returns (rc: int)
      requires Valid()
      modifies this`fixed
      ensures Valid() && rc == if c in old(fixed) || (c > 0 && memOk) then 0 else if c == 0 then -22 else -12
      ensures fixed == if rc == 0 && c !in old(fixed) then old(fixed)[c := []] else old(fixed)
    {
      if c in fixed {
        return 0;
      }
      if c == 0 {
        return -EINVAL;
      }
      if !memOk {
        return -ENOMEM;
      }
      ListNew(fixed, free, c);
      fixed := fixed[c := []];
      rc := 0;
    }

    /** The chunk that comes next: the head of the free list, or else the end of the used memory. */
    function Next(c: nat): nat
      reads this
    {
      if c in fixed && fixed[c] != [] then fixed[c][0] else brk
    }

    /** The head of the free list becomes live. */
    method TakeFree(c: nat) returns (p: nat)
      requires Valid() && c in fixed && fixed[c] != []
      modifies this`fixed, this`live, this`free
      ensures Valid() && p == old(Next(c)) && p < brk
      ensures live == old(live) + multiset{Chunk(p, c)} && free == old(free) - multiset{Chunk(p, c)}
    {
      hide Tiled, Lists;
      p := fixed[c][0];
      FreeBelow(tiles, memory, brk, live, free, fixed, c);
      ListPop(fixed, free, c);
      fixed := fixed[c := fixed[c][1..]];
      free := free - multiset{Chunk(p, c)};
      live := live + multiset{Chunk(p, c)};
    }

    /** A chunk cut from the end of the used memory becomes live. */
    method TakeNew(c: nat) returns (r: Result)
      requires Valid() && c in fixed && c % ENTRY == 0 && c < U32
      modifies this`brk, this`tiles, this`live
      ensures Valid() && (r.Ok? <==> old(brk) + c <= end)
      ensures if r.Ok? then r.ptr == old(brk) && tiles == old(tiles) + [Chunk(r.ptr, c)]
                            && live == old(live) + multiset{Chunk(r.ptr, c)}
              else r.e == -12 && live == old(live) && tiles == old(tiles)
    {
      hide Tiled, Lists;
      r := Sbrk(c);
      if r.Ok? {
        TiledSnoc(tiles, memory, Chunk(r.ptr, c));
        TilesMore(tiles, live, free, Chunk(r.ptr, c));
        AlignedSum(r.ptr, c);
        tiles := tiles + [Chunk(r.ptr, c)];
        live := live + multiset{Chunk(r.ptr, c)};
      }
    }

    method Alloc(size: nat, memOk: bool) returns (r: Result)
      requires Valid() && size < 0x8000_0000
      modifies this
      ensures Valid() && memory == old(memory) && end == old(end)
      ensures var c := ChunkSize(size);
              && (r.Ok? <==>
                    && (c in old(fixed) || (c > 0 && memOk))
                    && ((c in old(fixed) && old(fixed)[c] != []) || old(brk) + c <= end))
              && (r.Err? ==> r.e == if c == 0 then -22 else -12)
              && (if r.Ok? then r.ptr == (if c in old(fixed) && old(fixed)[c] != [] then old(fixed)[c][0] else old(brk))
                                && live == old(live) + multiset{Chunk(r.ptr, c)}
                  else live == old(live) && free == old(free) && tiles == old(tiles))
              && (r.Ok? ==> if r.ptr == old(brk) then tiles == old(tiles) + [Chunk(r.ptr, c)] && free == old(free)
                            else tiles == old(tiles) && free == old(free) - multiset{Chunk(r.ptr, c)})
    {
      hide Tiled, Lists, ChunkSize;
      var c := ChunkSize(size);
      ChunkClass(size);
      var rc := GetFixed(c, memOk);
      if rc != 0 {
        return Err(rc);
      }
      if fixed[c] != [] {
        var p := TakeFree(c);
        r := Ok(p);
      } else {
        r := TakeNew(c);
      }
    }

    /** Give back a chunk with the size it was asked for: it becomes the head of the list of its own class. */
    method Free(ptr: nat, size: nat)
      requires Valid() && size < 0x8000_0000 && Chunk(ptr, ChunkSize(size)) in live
      modifies this`fixed, this`live, this`free
      ensures Valid()
      ensures var c := ChunkSize(size);
              && c in old(fixed) && fixed == old(fixed)[c := [ptr] + old(fixed)[c]]
              && live == old(live) - multiset{Chunk(ptr, c)} && free == old(free) + multiset{Chunk(ptr, c)}
              && Next(c) == ptr
    {
      hide Tiled, Lists, ChunkSize;
      var c := ChunkSize(size);
      ListPush(fixed, free, c, ptr);
      fixed := fixed[c := [ptr] + fixed[c]];
      live := live - multiset{Chunk(ptr, c)};
      free := free + multiset{Chunk(ptr, c)};
    }

    /** Cut up to n chunks of one class in advance; returns how many, or an error if there is none. */
    method Preinit(size: nat, n: nat, memOk: bool) returns (rc: int)
      requires Valid() && size < 0x8000_0000
      modifies this
      ensures Valid() && live == old(live) && memory == old(memory) && end == old(end)
      ensures var c := ChunkSize(size);
              rc < 0 <==> !(c in old(fixed) || (c > 0 && memOk)) || (n > 0 && old(brk) + c > end)
      ensures rc >= 0 ==>
                && rc <= n && brk == old(brk) + rc * ChunkSize(size) && |tiles| == |old(tiles)| + rc
                && CutUp(old(tiles), old(free), tiles, free, ChunkSize(size))
      ensures 0 < rc < n ==> brk + ChunkSize(size) > end
      ensures rc < 0 ==> tiles == old(tiles) && free == old(free) && rc == if ChunkSize(size) == 0 then -22 else -12
    {
      hide Tiled, Lists, ChunkSize, CutUp, Valid;
      var c := ChunkSize(size);
      ChunkClass(size);
      CutNone(tiles, free, c);
      rc := GetFixed(c, memOk);
      if rc != 0 {
        return;
      }
      var i := CutMany(c, n);
      rc := if i == 0 && n > 0 then -ENOMEM else i;
    }

    /** Cut up to n chunks of size c, as long as memory is left. */
    method CutMany(c: nat, n: nat) returns (i: nat)
      requires Valid() && c in fixed && c % ENTRY == 0 && c < U32
      modifies this`brk, this`tiles, this`free, this`fixed
      ensures Valid() && i <= n && (i < n ==> brk + c > end) && brk == old(brk) + i * c
      ensures |tiles| == |old(tiles)| + i && CutUp(old(tiles), old(free), tiles, free, c)
      ensures i == 0 ==> tiles == old(tiles) && free == old(free)
      ensures i == 0 <==> n == 0 || old(brk) + c > end
    {
      hide CutUp, Times, Valid;
      i := 0;
      TimesNext(0, c);
      CutNone(tiles, free, c);
      while i < n
        invariant 0 <= i <= n && Valid() && c in fixed
        invariant brk == old(brk) + Times(i, c) && |tiles| == |old(tiles)| + i
        invariant CutUp(old(tiles), old(free), tiles, free, c)
        invariant i == 0 ==> tiles == old(tiles) && free == old(free) && brk == old(brk)
        invariant i > 0 ==> old(brk) + c <= end
      {
        TimesNext(i, c);
        CutMore(old(tiles), old(free), tiles, free, c, Chunk(brk, c));
        var ok := CutFree(c);
        if !ok {
          return;
        }
        i := i + 1;
      }
      TimesNext(n, c);
    }

    /** A chunk cut from the end of the used memory becomes free. */
    method CutFree(c: nat) returns (ok: bool)
      requires Valid() && c in fixed && c % ENTRY == 0 && c < U32
      modifies this`brk, this`tiles, this`free, this`fixed
      ensures Valid() && c in fixed && (ok <==> old(brk) + c <= end)
      ensures if ok then brk == old(brk) + c && tiles == old(tiles) + [Chunk(old(brk), c)]
                         && free == old(free) + multiset{Chunk(old(brk), c)}
              else brk == old(brk) && tiles == old(tiles) && free == old(free)
    {
      hide Tiled, Lists;
      var r := Sbrk(c);
      ok := r.Ok?;
      if ok {
        TiledSnoc(tiles, memory, Chunk(r.ptr, c));
        TilesMore(tiles, live, free, Chunk(r.ptr, c));
        AlignedSum(r.ptr, c);
        ListPush(fixed, free, c, r.ptr);
        tiles, fixed, free :=
          tiles + [Chunk(r.ptr, c)], fixed[c := [r.ptr] + fixed[c]], free + multiset{Chunk(r.ptr, c)};
      }
    }
  }

  /** Chunks of size c were cut, and they are free. */
  ghost predicate CutUp(was: seq<Chunk>, free0: multiset<Chunk>, tiles: seq<Chunk>, free: multiset<Chunk>, c: nat) {
    && was <= tiles && free == free0 + multiset(tiles[|was|..])
    && forall i :: |was| <= i < |tiles| ==> tiles[i].size == c
  }

  lemma CutNone(tiles: seq<Chunk>, free: multiset<Chunk>, c: nat)
    ensures CutUp(tiles, free, tiles, free, c)
  {
    assert tiles[|tiles|..] == [];
  }

  lemma CutMore(was: seq<Chunk>, free0: multiset<Chunk>, tiles: seq<Chunk>, free: multiset<Chunk>, c: nat, k: Chunk)
    requires CutUp(was, free0, tiles, free, c) && k.size == c
    ensures CutUp(was, free0, tiles + [k], free + multiset{k}, c)
  {
    assert (tiles + [k])[|was|..] == tiles[|was|..] + [k];
  }

  lemma TilesMore(tiles: seq<Chunk>, live: multiset<Chunk>, free: multiset<Chunk>, k: Chunk)
    requires multiset(tiles) == live + free
    ensures multiset(tiles + [k]) == (live + multiset{k}) + free == live + (free + multiset{k})
  {
    assert multiset(tiles + [k]) == multiset(tiles) + multiset{k};
  }

  lemma AlignedSum(a: nat, c: nat)
    requires a % ENTRY == 0 && c % ENTRY == 0
    ensures (a + c) % ENTRY == 0
  {
  }

  function Times(i: nat, c: nat): nat {
    i * c
  }

  lemma TimesNext(i: nat, c: nat)
    ensures Times(0, c) == 0 && Times(i + 1, c) == Times(i, c) + c && Times(i, c) == i * c
  {
  }

  lemma ChunkClass(size: nat)
    requires size < 0x8000_0000
    ensures ChunkSize(size) % ENTRY == 0 && ChunkSize(size) <= 0x4000_0000
  {
    ChunkSizeIs(size);
    if 0 < size <= 0x4000_0000 - ENTRY {
      Pow2Of32();
      assert Max(size, ENTRY) <= Pow2(30);
    }
  }

  /** A free chunk lies below the end of the used memory. */
  lemma FreeBelow(tiles: seq<Chunk>, lo: nat, hi: nat, live: multiset<Chunk>, free: multiset<Chunk>,
                  fixed: map<nat, seq<nat>>, c: nat)
    requires Tiled(tiles, lo, hi) && multiset(tiles) == live + free && Lists(fixed, free)
    ensures c in fixed && fixed[c] != [] ==> fixed[c][0] < hi
  {
    if c in fixed && fixed[c] != [] {
      ListPop(fixed, free, c);
      var k := Chunk(fixed[c][0], c);
      assert k in multiset(tiles);
      TiledSizes(tiles, lo, hi);
      TiledMeans(tiles, lo, hi);
      var i :| 0 <= i < |tiles| && tiles[i] == k;
    }
  }

  lemma {:induction false} TiledSizes(tiles: seq<Chunk>, lo: nat, hi: nat)
    requires Tiled(tiles, lo, hi)
    ensures forall i :: 0 <= i < |tiles| ==> tiles[i].size > 0
  {
    if tiles != [] {
      TiledSizes(tiles[..|tiles| - 1], lo, tiles[|tiles| - 1].addr);
    }
  }

  /**
   Two chunks that are live or free are the same or do not overlap, and every
   address of the used memory belongs to one of them.
   */
  lemma Partition(m: Allocator)
    requires m.Valid()
    ensures forall a, b :: a in m.live + m.free && b in m.live + m.free && a != b ==>
              a.addr + a.size <= b.addr || b.addr + b.size <= a.addr
    ensures forall a :: a in m.live + m.free ==>
              (m.live + m.free)[a] == 1 && a.addr % ENTRY == 0 && m.memory <= a.addr && a.addr + a.size <= m.brk
    ensures forall x :: m.memory <= x < m.brk ==> Covered(m.tiles, x)
  {
    TiledMeans(m.tiles, m.memory, m.brk);
    TilesApart(m.tiles, m.memory, m.brk);
    hide Tiled;
    assert multiset(m.tiles) == m.live + m.free;
  }

  lemma TilesApart(tiles: seq<Chunk>, lo: nat, hi: nat)
    requires Tiled(tiles, lo, hi)
    ensures forall a, b :: a in multiset(tiles) && b in multiset(tiles) && a != b ==>
              a.addr + a.size <= b.addr || b.addr + b.size <= a.addr
    ensures forall a :: a in multiset(tiles) ==>
              multiset(tiles)[a] == 1 && a.addr % ENTRY == 0 && lo <= a.addr && a.addr + a.size <= hi
  {
    hide Tiled;
    forall a | a in multiset(tiles)
      ensures multiset(tiles)[a] == 1 && a.addr % ENTRY == 0 && lo <= a.addr && a.addr + a.size <= hi
    {
      TileWithin(tiles, lo, hi, a);
    }
    forall a, b | a in multiset(tiles) && b in multiset(tiles) && a != b
      ensures a.addr + a.size <= b.addr || b.addr + b.size <= a.addr
    {
      TwoApart(tiles, lo, hi, a, b);
    }
  }

  lemma {:induction false} TileWithin(tiles: seq<Chunk>, lo: nat, hi: nat, a: Chunk)
    requires Tiled(tiles, lo, hi)
    ensures a in tiles ==>
              multiset(tiles)[a] == 1 && a.addr % ENTRY == 0 && lo <= a.addr && lo < a.addr + a.size <= hi
    ensures lo <= hi && (a in multiset(tiles) <==> a in tiles)
  {
    if tiles != [] {
      var n := |tiles| - 1;
      TileWithin(tiles[..n], lo, tiles[n].addr, a);
      assert tiles == tiles[..n] + [tiles[n]];
    }
  }

  lemma {:induction false} TwoApart(tiles: seq<Chunk>, lo: nat, hi: nat, a: Chunk, b: Chunk)
    requires Tiled(tiles, lo, hi) && a in tiles && b in tiles && a != b
    ensures a.addr + a.size <= b.addr || b.addr + b.size <= a.addr
  {
    var n := |tiles| - 1;
    var was := tiles[..n];
    assert tiles == was + [tiles[n]];
    TileWithin(was, lo, tiles[n].addr, a);
    TileWithin(was, lo, tiles[n].addr, b);
    if a in was && b in was {
      TwoApart(was, lo, tiles[n].addr, a, b);
    }
  }

  lemma InitEnd(base: nat, size: nat, m: nat)
    requires base <= m < base + ENTRY && m < U64 && size < U64
    ensures var sz := if size == 0 then 0 else (size - (m - base)) % U64;
            var e := (m + sz) % U64;
            && (e >= m <==> size == 0 || m <= base + size < U64)
            && (e >= m ==> e == if size == 0 then m else base + size)
  {
  }
}
