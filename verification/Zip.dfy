/**
 Scatter/gather copying (ntrdma_zip.c): two cursors walk a send list and a
 receive list and issue DMA copies of the longest contiguous pieces.  The copies
 are shown to be a plain copy, byte by byte, from the flattened send list to the
 flattened receive list.
 */
module Zip {

  const U32 := 0x1_0000_0000
  const U64 := 0x1_0000_0000_0000_0000
  const EINVAL := 22
  const RESERVED := 0xFFFF_FFFF  // the key of a buffer that is given directly

  /** A contiguous piece of a registered region, at a bus address. */
  datatype Seg = Seg(base: nat, size: nat)

  datatype Region = Region(addr: nat, segs: seq<Seg>)

  type Table = map<nat, Region>

  /** An entry of a send or receive list; `base` is the address of a buffer given directly. */
  datatype Item = Item(len: nat, key: nat, addr: nat, base: nat)

  // ---------------------------------------------------------------------
  // Flattened lists
  // ---------------------------------------------------------------------

  /** The addresses that can be reached in order, and whether that is all of them. */
  datatype Flat = Flat(locs: seq<nat>, ok: bool)

  function Join(a: Flat, b: Flat): Flat {
    if a.ok then Flat(a.locs + b.locs, b.ok) else a
  }

  function Span(a: nat, k: nat): (s: seq<nat>)
    ensures |s| == k && forall i :: 0 <= i < k ==> s[i] == a + i
  {
    seq(k, i requires 0 <= i < k => a + i)
  }

  /** The bytes off, ..., off+len-1 of a region, up to its end. */
  function SegBytes(segs: seq<Seg>, off: nat, len: nat): Flat {
    if len == 0 then Flat([], true)
    else if segs == [] then Flat([], false)
    else if segs[0].size <= off then SegBytes(segs[1..], off - segs[0].size, len)
    else if len <= segs[0].size - off then Flat(Span(segs[0].base + off, len), true)
    else
      var k := segs[0].size - off;
      Join(Flat(Span(segs[0].base + off, k), true), SegBytes(segs[1..], 0, len - k))
  }

  /** An offset into a region, as 64-bit subtraction yields it. */
  function Offset(addr: nat, base: nat): nat {
    (addr - base) % U64
  }

  /** The bytes of an item but for the first `skip`. */
  function ItemBytes(t: Table, it: Item, skip: nat): Flat
    requires skip <= it.len
  {
    if it.key == RESERVED then Flat(Span(it.base + skip, it.len - skip), true)
    else if it.key !in t then Flat([], false)
    else SegBytes(t[it.key].segs, Offset(it.addr + skip, t[it.key].addr), it.len - skip)
  }

  /** The bytes of a list but for the first `skip`. */
  function Bytes(t: Table, items: seq<Item>, skip: nat): Flat {
    if items == [] then Flat([], true)
    else if items[0].len <= skip then Bytes(t, items[1..], skip - items[0].len)
    else Join(ItemBytes(t, items[0], skip), Bytes(t, items[1..], 0))
  }

  /** Whole pieces before an offset can be passed over. */
  lemma {:induction false} SegForward(segs: seq<Seg>, off: nat, len: nat, k: nat)
    requires segs != [] && off < segs[0].size && 0 < k <= len && k <= segs[0].size - off
    ensures var a, b := SegBytes(segs, off, len), SegBytes(segs, off + k, len - k);
            a.locs == Span(segs[0].base + off, k) + b.locs && a.ok == b.ok
  {
  }

  function Total(segs: seq<Seg>): nat {
    if segs == [] then 0 else segs[0].size + Total(segs[1..])
  }

  /** The bytes of a region are found up to its end. */
  lemma {:induction false} SegBytesCount(segs: seq<Seg>, off: nat, len: nat)
    ensures SegBytes(segs, off, len).ok <==> len == 0 || off + len <= Total(segs)
    ensures SegBytes(segs, off, len).ok ==> |SegBytes(segs, off, len).locs| == len
    ensures |SegBytes(segs, off, len).locs| <= len
  {
    if len != 0 && segs != [] {
      if segs[0].size <= off {
        SegBytesCount(segs[1..], off - segs[0].size, len);
      } else if len > segs[0].size - off {
        SegBytesCount(segs[1..], 0, len - (segs[0].size - off));
      }
    }
  }

  /** An access to a region that does not wrap around is in order exactly if it lies within the region. */
  lemma AccessWithin(r: Region, addr: nat, len: nat)
    requires r.addr + Total(r.segs) <= U64 && addr < U64 && 0 < len
    ensures SegBytes(r.segs, Offset(addr, r.addr), len).ok <==>
            r.addr <= addr && addr + len <= r.addr + Total(r.segs)
  {
    SegBytesCount(r.segs, Offset(addr, r.addr), len);
    if addr < r.addr {
      assert (addr - r.addr) % U64 == addr - r.addr + U64;
    } else {
      assert (addr - r.addr) % U64 == addr - r.addr;
    }
  }

  // ---------------------------------------------------------------------
  // Where a byte is
  // ---------------------------------------------------------------------

  /** Byte number o of the segments is in segment j, at bus address loc. */
  ghost predicate SegAt(segs: seq<Seg>, j: nat, o: nat, loc: nat) {
    j < |segs| && Total(segs[..j]) <= o < Total(segs[..j + 1]) && loc == segs[j].base + o - Total(segs[..j])
  }

  ghost predicate InSegs(segs: seq<Seg>, o: nat, loc: nat) {
    exists j: nat :: SegAt(segs, j, o, loc)
  }

  /**
   Byte i of an item is at bus address loc: i bytes behind the base of a buffer given
   directly, else where its region has the byte at the item's address plus i.
   */
  ghost predicate ItemAt(t: Table, it: Item, i: nat, loc: nat) {
    if it.key == RESERVED then loc == it.base + i
    else it.key in t && InSegs(t[it.key].segs, (it.addr + i - t[it.key].addr) % U64, loc)
  }

  /** The sum of the lengths. */
  function Lens(items: seq<Item>): nat {
    if items == [] then 0 else items[0].len + Lens(items[1..])
  }

  /** Byte k of a list is byte k - m of the item it falls into, where m bytes come before the item. */
  ghost predicate ListAt(t: Table, items: seq<Item>, n: nat, k: nat, loc: nat) {
    && n < |items| && Lens(items[..n]) <= k < Lens(items[..n + 1])
    && ItemAt(t, items[n], k - Lens(items[..n]), loc)
  }

  ghost predicate InList(t: Table, items: seq<Item>, k: nat, loc: nat) {
    exists n: nat :: ListAt(t, items, n, k, loc)
  }

  /** The bytes of the list from byte `from` on are at these addresses. */
  ghost predicate InPlace(t: Table, items: seq<Item>, from: nat, locs: seq<nat>) {
    forall k :: 0 <= k < |locs| ==> InList(t, items, from + k, locs[k])
  }

  /** The sizes of regions are 64-bit words. */
  ghost predicate Sized(t: Table) {
    forall key :: key in t ==> Total(t[key].segs) <= U64
  }

  lemma TotalHead(segs: seq<Seg>, j: nat)
    requires j < |segs|
    ensures Total(segs[..j + 1]) == segs[0].size + Total(segs[1..][..j])
  {
    assert segs[..j + 1][1..] == segs[1..][..j];
  }

  lemma SegAtTail(segs: seq<Seg>, j: nat, o: nat, loc: nat)
    requires segs != [] && SegAt(segs[1..], j, o, loc)
    ensures SegAt(segs, j + 1, segs[0].size + o, loc)
  {
    TotalHead(segs, j);
    TotalHead(segs, j + 1);
  }

  lemma {:induction false} SegBytesAt(segs: seq<Seg>, off: nat, len: nat, i: nat) returns (j: nat)
    requires i < |SegBytes(segs, off, len).locs|
    ensures SegAt(segs, j, off + i, SegBytes(segs, off, len).locs[i])
  {
    hide Total, SegAt;
    var k, loc := segs[0].size - off, SegBytes(segs, off, len).locs[i];
    if segs[0].size <= off {
      j := SegBytesAt(segs[1..], off - segs[0].size, len, i);
      SegAtTail(segs, j, off - segs[0].size + i, loc);
      j := j + 1;
    } else if i < k {
      j := 0;
      SegAtFirst(segs, off + i);
    } else {
      j := SegBytesAt(segs[1..], 0, len - k, i - k);
      SegAtTail(segs, j, i - k, loc);
      j := j + 1;
    }
  }

  lemma SegAtFirst(segs: seq<Seg>, o: nat)
    requires segs != [] && o < segs[0].size
    ensures SegAt(segs, 0, o, segs[0].base + o)
  {
    TotalHead(segs, 0);
  }

  lemma TotalPrefix(segs: seq<Seg>, j: nat)
    requires j <= |segs|
    ensures Total(segs[..j]) <= Total(segs)
  {
    if j > 0 {
      TotalHead(segs, j - 1);
      TotalPrefix(segs[1..], j - 1);
    }
  }

  lemma Shift(a: int, i: nat)
    requires a % U64 + i < U64
    ensures (a + i) % U64 == a % U64 + i
  {
  }

  lemma ItemBytesAt(t: Table, it: Item, skip: nat, i: nat)
    requires Sized(t) && skip <= it.len && i < |ItemBytes(t, it, skip).locs|
    ensures ItemAt(t, it, skip + i, ItemBytes(t, it, skip).locs[i])
  {
    hide SegBytes, Total;
    if it.key != RESERVED {
      var r, o := t[it.key], Offset(it.addr + skip, t[it.key].addr);
      var j := SegBytesAt(r.segs, o, it.len - skip, i);
      TotalPrefix(r.segs, j + 1);
      Shift(it.addr + skip - r.addr, i);
      assert SegAt(r.segs, j, (it.addr + (skip + i) - r.addr) % U64, ItemBytes(t, it, skip).locs[i]);
    }
  }

  /** An access that lies in its region is in order, and byte i is where the region has the byte at address addr + i. */
  lemma AccessAt(t: Table, it: Item, i: nat)
    requires Sized(t) && it.key != RESERVED && it.key in t && i < it.len
    requires t[it.key].addr <= it.addr && it.addr + it.len <= t[it.key].addr + Total(t[it.key].segs)
    ensures var a := ItemBytes(t, it, 0);
            a.ok && |a.locs| == it.len && InSegs(t[it.key].segs, it.addr + i - t[it.key].addr, a.locs[i])
  {
    hide Sized, Total, SegBytes;
    ItemBytesCount(t, it, 0);
    ItemBytesAt(t, it, 0, i);
    assert (it.addr + i - t[it.key].addr) % U64 == it.addr + i - t[it.key].addr by { TotalFits(t, it.key); }
    hide ItemBytes, InSegs;
  }

  lemma TotalFits(t: Table, key: nat)
    requires Sized(t) && key in t
    ensures Total(t[key].segs) <= U64
  {
  }

  lemma ListAtTail(t: Table, items: seq<Item>, n: nat, k: nat, loc: nat)
    requires items != [] && ListAt(t, items[1..], n, k, loc)
    ensures ListAt(t, items, n + 1, items[0].len + k, loc)
  {
    hide ItemAt;
    assert items[..n + 1][1..] == items[1..][..n] && items[..n + 2][1..] == items[1..][..n + 1];
  }

  lemma {:induction false} BytesAt(t: Table, items: seq<Item>, skip: nat, i: nat) returns (n: nat)
    requires Sized(t) && i < |Bytes(t, items, skip).locs|
    ensures ListAt(t, items, n, skip + i, Bytes(t, items, skip).locs[i])
  {
    hide ItemAt, Sized, ItemBytes;
    var it := items[0];
    if it.len <= skip {
      n := BytesAt(t, items[1..], skip - it.len, i);
      ListAtTail(t, items, n, skip - it.len + i, Bytes(t, items, skip).locs[i]);
      n := n + 1;
    } else {
      var a := ItemBytes(t, it, skip);
      ItemBytesCount(t, it, skip);
      if i < |a.locs| {
        n := 0;
        ItemBytesAt(t, it, skip, i);
        assert items[..1] == [it] && Lens([it]) == it.len && items[..0] == [];
      } else {
        n := BytesAt(t, items[1..], 0, i - |a.locs|);
        ListAtTail(t, items, n, i - |a.locs|, Bytes(t, items, skip).locs[i]);
        n := n + 1;
      }
    }
  }

  /** The rest of an item can be reached: it is given directly, or its region is known and holds it. */
  ghost predicate Within(t: Table, it: Item, skip: nat) {
    || it.key == RESERVED
    || (it.key in t && (it.addr + skip - t[it.key].addr) % U64 + it.len - skip <= Total(t[it.key].segs))
  }

  lemma ItemBytesCount(t: Table, it: Item, skip: nat)
    requires skip < it.len
    ensures var a := ItemBytes(t, it, skip);
            && (a.ok <==> Within(t, it, skip)) && |a.locs| <= it.len - skip && (a.ok ==> |a.locs| == it.len - skip)
  {
    if it.key != RESERVED && it.key in t {
      SegBytesCount(t[it.key].segs, Offset(it.addr + skip, t[it.key].addr), it.len - skip);
    }
  }

  /** What of item n is beyond byte `skip` of the list can be reached. */
  ghost predicate PartWithin(t: Table, items: seq<Item>, skip: nat, n: nat)
    requires n < |items|
  {
    var before := Lens(items[..n]);
    skip < before + items[n].len && items[n].len > 0 ==>
      Within(t, items[n], if skip <= before then 0 else skip - before)
  }

  /** All of the list from byte `skip` on can be reached. */
  ghost predicate AllWithin(t: Table, items: seq<Item>, skip: nat) {
    forall n :: 0 <= n < |items| ==> PartWithin(t, items, skip, n)
  }

  lemma PartTail(t: Table, items: seq<Item>, skip: nat, n: nat)
    requires n + 1 < |items|
    ensures var len := items[0].len;
            PartWithin(t, items, skip, n + 1) <==> PartWithin(t, items[1..], if len <= skip then skip - len else 0, n)
  {
    hide Within;
    assert items[..n + 1][1..] == items[1..][..n];
  }

  lemma AllWithinTail(t: Table, items: seq<Item>, skip: nat)
    requires items != []
    ensures var it := items[0];
            AllWithin(t, items, skip) <==>
            && (skip < it.len ==> Within(t, it, skip))
            && AllWithin(t, items[1..], if it.len <= skip then skip - it.len else 0)
  {
    hide Within;
    assert PartWithin(t, items, skip, 0) <==> (skip < items[0].len ==> Within(t, items[0], skip));
    hide PartWithin;
    var len := items[0].len;
    var skip' := if len <= skip then skip - len else 0;
    forall n | 0 <= n < |items| - 1
      ensures PartWithin(t, items, skip, n + 1) <==> PartWithin(t, items[1..], skip', n)
    {
      PartTail(t, items, skip, n);
    }
    if AllWithin(t, items[1..], skip') && PartWithin(t, items, skip, 0) {
      forall n | 0 <= n < |items| ensures PartWithin(t, items, skip, n) {
        assert n > 0 ==> PartWithin(t, items[1..], skip', n - 1);
      }
    }
    if AllWithin(t, items, skip) {
      forall n | 0 <= n < |items[1..]| ensures PartWithin(t, items[1..], skip', n) {
        assert PartWithin(t, items, skip, n + 1);
      }
    }
  }

  /** A list is in order exactly if each of its items can be reached, and then it has all its bytes. */
  lemma {:induction false} BytesCount(t: Table, items: seq<Item>, skip: nat)
    ensures var a := Bytes(t, items, skip);
            && (a.ok <==> AllWithin(t, items, skip))
            && (a.ok ==> |a.locs| == if skip <= Lens(items) then Lens(items) - skip else 0)
  {
    hide Within, ItemBytes;
    if items != [] {
      AllWithinTail(t, items, skip);
      var it := items[0];
      hide AllWithin;
      if it.len <= skip {
        BytesCount(t, items[1..], skip - it.len);
      } else {
        BytesCount(t, items[1..], 0);
        ItemBytesCount(t, it, skip);
      }
    }
  }

  // ---------------------------------------------------------------------
  // Cursors
  // ---------------------------------------------------------------------

  /** What a cursor holds of the current item: a buffer given directly, or the rest of a region. */
  datatype Piece = Direct(base: nat) | In(segs: seq<Seg>)

  function PieceBytes(piece: Piece, off: nat, rem: nat): Flat {
    match piece
    case Direct(base) => Flat(Span(base + off, rem), true)
    case In(segs) => SegBytes(segs, off, rem)
  }

  lemma PieceForward(piece: Piece, off: nat, rem: nat, k: nat)
    requires 0 < k <= rem && (piece.In? ==> piece.segs != [] && k <= piece.segs[0].size - off)
    ensures var at := match piece case Direct(base) => base + off case In(segs) => segs[0].base + off;
            PieceBytes(piece, off, rem) == Join(Flat(Span(at, k), true), PieceBytes(piece, off + k, rem - k))
  {
    if piece.In? {
      SegForward(piece.segs, off, rem, k);
    }
  }

  lemma JoinAssoc(a: Flat, b: Flat, c: Flat)
    ensures Join(Join(a, b), c) == Join(a, Join(b, c))
  {
    assert (a.locs + b.locs) + c.locs == a.locs + (b.locs + c.locs);
  }

  lemma NothingHeld(piece: Piece, off: nat, b: Flat)
    ensures Join(PieceBytes(piece, off, 0), b) == b
  {
    assert [] + b.locs == b.locs;
  }

  /**
   A position in a list.  The three cursors of the source differ in the offset
   they start with and in what running off the list means: the send side is
   finished (0), the receive side out of bounds (-EINVAL).
   */
  class Cursor {
    const table: Table
    const items: seq<Item>
    const atEnd: int
    var pos: nat     // current item
    var rem: nat     // bytes left in it
    var piece: Piece // where they are
    var off: nat     // offset of the next byte there
    var skip: nat    // bytes to pass over before the first one

    constructor (table: Table, items: seq<Item>, skip: nat, atEnd: int)
      ensures Valid() && Rest() == Bytes(table, items, skip)
      ensures this.table == table && this.items == items && this.atEnd == atEnd && rem == 0
    {
      this.table, this.items, this.atEnd := table, items, atEnd;
      pos, rem, piece, off, this.skip := 0, 0, Direct(0), 0, skip;
      new;
      assert items[0..] == items;
    }

    ghost predicate Valid()
      reads this
    {
      pos <= |items| && (rem > 0 ==> pos < |items| && skip == 0 && rem <= items[pos].len)
    }

    /** The bytes ahead. */
    ghost function Rest(): Flat
      requires Valid()
      reads this
    {
      if rem == 0 then Bytes(table, items[pos..], skip)
      else Join(Held(), Bytes(table, items[pos + 1..], 0))
    }

    /** The bytes ahead in the current item. */
    ghost function Held(): Flat
      reads this
    {
      PieceBytes(piece, off, rem)
    }

    /** The next byte is at hand. */
    ghost predicate Ready()
      reads this
    {
      Valid() && rem > 0 && (piece.In? ==> piece.segs != [] && off < piece.segs[0].size)
    }

    function Address(): nat
      requires Ready()
      reads this
    {
      match piece case Direct(base) => base + off case In(segs) => segs[0].base + off
    }

    function NextIoSize(): (k: nat)
      requires Ready()
      reads this
      ensures 0 < k <= rem
    {
      match piece
      case Direct(_) => rem
      case In(segs) => if rem <= segs[0].size - off then rem else segs[0].size - off
    }

    lemma HasNext(len: nat)
      requires Ready() && 0 < len <= NextIoSize()
      ensures Span(Address(), len) <= Rest().locs && Rest().locs != []
    {
      if piece.In? {
        SegForward(piece.segs, off, rem, len);
      }
    }

    /** Pass over pieces of the region that end before the next byte. */
    method FindPiece() returns (found: bool)
      requires Valid() && rem > 0
      modifies this`piece, this`off
      ensures Valid() && Rest() == old(Rest()) && Held() == old(Held())
      ensures if found then Ready() else Held() == Flat([], false)
    {
      found := true;
      if piece.In? {
        while piece.segs != [] && piece.segs[0].size <= off
          invariant piece.In? && Held() == old(Held())
          decreases |piece.segs|
        {
          off := off - piece.segs[0].size;
          piece := In(piece.segs[1..]);
        }
        found := piece.segs != [];
      }
    }

    /** Pass over items that end before the next byte. */
    method FindItem() returns (found: bool)
      requires Valid() && rem == 0
      modifies this`pos, this`skip
      ensures Valid() && Rest() == old(Rest())
      ensures found ==> pos < |items| && skip < items[pos].len
      ensures !found ==> Rest() == Flat([], true)
    {
      while pos < |items| && items[pos].len <= skip
        invariant pos <= |items| && Bytes(table, items[pos..], skip) == old(Rest())
        decreases |items| - pos
      {
        assert items[pos..][1..] == items[pos + 1..];
        skip := skip - items[pos].len;
        pos := pos + 1;
      }
      found := pos < |items|;
    }

    /** Take up the current item. */
    method Enter() returns (found: bool)
      requires Valid() && rem == 0 && pos < |items| && skip < items[pos].len
      modifies this`rem, this`piece, this`off, this`skip
      ensures Valid()
      ensures if found then rem > 0 && Rest() == old(Rest()) else old(Rest()) == Flat([], false)
    {
      var it := items[pos];
      assert items[pos..][1..] == items[pos + 1..];
      found := it.key == RESERVED || it.key in table;
      if found {
        rem := it.len - skip;
        if it.key == RESERVED {
          piece, off := Direct(it.base), skip;
        } else {
          piece, off := In(table[it.key].segs), Offset(it.addr + skip, table[it.key].addr);
        }
        skip := 0;
      }
    }

    /** Make the next byte available. */
    method Update() returns (more: bool, rc: int)
      requires Valid()
      modifies this`pos, this`rem, this`piece, this`off, this`skip
      ensures Valid() && (more ==> Ready() && Rest() == old(Rest()))
      ensures !more ==> old(Rest()).locs == [] && rc == if old(Rest()).ok then atEnd else -EINVAL
    {
      hide Bytes, SegBytes;
      more, rc := true, 0;
      if rem == 0 {
        more := FindItem();
        if !more {
          return false, atEnd;
        }
        more := Enter();
        if !more {
          return false, -EINVAL;
        }
      }
      more := FindPiece();
      if !more {
        rc := -EINVAL;
      }
    }

    /** Move on by len bytes. */
    method Forward(len: nat) returns (more: bool, rc: int)
      requires Ready() && 0 < len <= NextIoSize()
      modifies this`pos, this`rem, this`piece, this`off, this`skip
      ensures Valid() && (more ==> Ready())
      ensures var was := old(Rest());
              && (more ==> was == Join(Flat(Span(old(Address()), len), true), Rest()))
              && (!more ==> was == Flat(Span(old(Address()), len), was.ok))
              && (!more ==> rc == if was.ok then atEnd else -EINVAL)
    {
      MoveOn(len);
      more, rc := Update();
    }

    /** Drop the next len bytes. */
    method MoveOn(len: nat)
      requires Ready() && 0 < len <= NextIoSize()
      modifies this`pos, this`rem, this`off
      ensures Valid()
      ensures old(Rest()) == Join(Flat(Span(old(Address()), len), true), Rest())
    {
      hide PieceBytes, Join, Bytes, Span;
      ghost var ahead := Bytes(table, items[pos + 1..], 0);
      PieceForward(piece, off, rem, len);
      JoinAssoc(Flat(Span(Address(), len), true), PieceBytes(piece, off + len, rem - len), ahead);
      NothingHeld(piece, off + len, ahead);
      rem := rem - len;
      if rem != 0 {
        off := off + len;
      } else {
        pos := pos + 1;
      }
    }
  }

  // ---------------------------------------------------------------------
  // The copy
  // ---------------------------------------------------------------------

  /** A DMA copy that was issued. */
  datatype Copy = Copy(dst: nat, src: nat, len: nat)

  function Sources(cs: seq<Copy>): seq<nat> {
    if cs == [] then [] else Sources(cs[..|cs| - 1]) + Span(cs[|cs| - 1].src, cs[|cs| - 1].len)
  }

  function Targets(cs: seq<Copy>): seq<nat> {
    if cs == [] then [] else Targets(cs[..|cs| - 1]) + Span(cs[|cs| - 1].dst, cs[|cs| - 1].len)
  }

  lemma CopiesSnoc(cs: seq<Copy>, c: Copy)
    ensures Sources(cs + [c]) == Sources(cs) + Span(c.src, c.len)
    ensures Targets(cs + [c]) == Targets(cs) + Span(c.dst, c.len)
  {
    assert (cs + [c])[..|cs|] == cs;
  }

  lemma {:induction false} CopiesBalance(cs: seq<Copy>)
    ensures |Sources(cs)| == |Targets(cs)|
  {
    if cs != [] {
      CopiesBalance(cs[..|cs| - 1]);
    }
  }

  function DmaResult(dma: seq<int>, i: nat): int {
    if i < |dma| then dma[i] else 0
  }

  /** The first n requests succeeded; unless ok, the one after them failed. */
  ghost predicate Requests(dma: seq<int>, n: nat, ok: bool) {
    (forall i: nat :: i < n ==> DmaResult(dma, i) >= 0) && (!ok ==> DmaResult(dma, n) < 0)
  }

  /** 32-bit addition of an unsigned total and a 64-bit length. */
  function Add32(total: nat, len: nat): nat {
    (total + len % U32) % U32
  }

  /** Of the list s, `done` is behind and `rest` ahead. */
  ghost predicate Split(s: Flat, done: seq<nat>, rest: Flat) {
    s == Flat(done + rest.locs, rest.ok)
  }

  lemma SplitMore(s: Flat, done: seq<nat>, rest: Flat, x: seq<nat>, rest': Flat)
    requires Split(s, done, rest) && rest == Join(Flat(x, true), rest')
    ensures Split(s, done + x, rest')
  {
  }

  lemma SplitEnd(s: Flat, done: seq<nat>, rest: Flat, x: seq<nat>)
    requires Split(s, done, rest) && rest.locs == x
    ensures s == Flat(done + x, rest.ok) && done + x <= s.locs && |s.locs| == |done| + |x|
  {
  }

  lemma SplitPrefix(s: Flat, done: seq<nat>, rest: Flat, x: seq<nat>)
    requires Split(s, done, rest) && x <= rest.locs
    ensures done + x <= s.locs && |done| + |x| <= |s.locs|
  {
  }

  /** The bytes the copies moved are the first ones of both lists. */
  ghost predicate Copied(cs: seq<Copy>, snd: Flat, rcv: Flat) {
    Sources(cs) <= snd.locs && Targets(cs) <= rcv.locs
  }

  /** Both cursors move on; the send side ends the copy before the receive side can fail it. */
  method ForwardBoth(sc: Cursor, rcur: Cursor, len: nat,
                     ghost s: Flat, ghost done: seq<nat>, ghost r: Flat, ghost out: seq<nat>)
    returns (more: bool, rc: int)
    requires sc != rcur && sc.Ready() && rcur.Ready() && sc.atEnd == 0 && rcur.atEnd == -EINVAL
    requires 0 < len <= sc.NextIoSize() && len <= rcur.NextIoSize()
    requires Split(s, done, sc.Rest()) && Split(r, out, rcur.Rest())
    modifies sc, rcur
    ensures more ==> sc.Ready() && rcur.Ready()
    ensures var x, y := done + Span(old(sc.Address()), len), out + Span(old(rcur.Address()), len);
            && (more ==> Split(s, x, sc.Rest()) && Split(r, y, rcur.Rest()))
            && (!more ==>
                  if rc == 0 then s == Flat(x, true)
                  else s == Flat(x, false) || (|s.locs| > |x| && r.locs == y))
  {
    hide Bytes, Join, Split, Span, Cursor.Rest, Cursor.NextIoSize, Cursor.Address;
    ghost var ahead, x, y := sc.Rest(), Span(sc.Address(), len), Span(rcur.Address(), len);
    more, rc := sc.Forward(len);
    if !more {
      SplitEnd(s, done, ahead, x);
      return;
    }
    SplitMore(s, done, ahead, x, sc.Rest());
    sc.HasNext(1);
    SplitPrefix(s, done + x, sc.Rest(), Span(sc.Address(), 1));
    ahead := rcur.Rest();
    more, rc := rcur.Forward(len);
    if !more {
      SplitEnd(r, out, ahead, y);
      rc := -EINVAL;
      return;
    }
    SplitMore(r, out, ahead, y, rcur.Rest());
  }

  /** The copy loop. */
  method ZipLoop(sc: Cursor, rcur: Cursor, dma: seq<int>, ghost s: Flat, ghost r: Flat)
    returns (rc: int, total: nat, copies: seq<Copy>, dmaOk: bool)
    requires sc != rcur && sc.Ready() && rcur.Ready() && sc.atEnd == 0 && rcur.atEnd == -EINVAL
    requires forall i :: 0 <= i < |sc.items| ==> sc.items[i].len < U32
    requires sc.Rest() == s && rcur.Rest() == r
    modifies sc, rcur
    ensures Copied(copies, s, r)
    ensures rc == 0 <==> s.ok && |s.locs| <= |r.locs| && |s.locs| < U32 && dmaOk
    ensures rc == 0 ==> Sources(copies) == s.locs && total == |s.locs|
    ensures Requests(dma, |copies|, dmaOk)
  {
    hide Bytes, Join, Split, Span, Sources, Targets, Cursor.Rest, Cursor.NextIoSize, Cursor.Address;
    rc, total, copies, dmaOk := 0, 0, [], true;
    NoCopies(s, r);
    while true
      invariant sc.Ready() && rcur.Ready() && dmaOk && rc == 0 && Requests(dma, |copies|, true)
      invariant Split(s, Sources(copies), sc.Rest()) && Split(r, Targets(copies), rcur.Rest())
      invariant total == |Sources(copies)| == |Targets(copies)| < U32
      decreases |s.locs| - total
    {
      var a, b := sc.NextIoSize(), rcur.NextIoSize();
      var len := if a <= b then a else b;
      ghost var done, out := Sources(copies), Targets(copies);
      sc.HasNext(len);
      rcur.HasNext(len);
      var c := Copy(rcur.Address(), sc.Address(), len);
      SplitPrefix(s, done, sc.Rest(), Span(c.src, len));
      SplitPrefix(r, out, rcur.Rest(), Span(c.dst, len));
      CopiesSnoc(copies, c);
      if DmaResult(dma, |copies|) < 0 {
        rc, dmaOk := DmaResult(dma, |copies|), false;
        break;
      }
      copies := copies + [c];
      SumFits(total, len);
      if total + len != Add32(total, len) {
        rc := -EINVAL;
        break;
      }
      total := total + len;
      var more: bool;
      more, rc := ForwardBoth(sc, rcur, len, s, done, r, out);
      if !more {
        break;
      }
      rc := 0;
    }
  }

  /**
   Copy from the send list to the receive list, from `offset` on.  `dma` are the
   results of the copy requests.  The copies issued pair the first bytes of both
   lists.  The call succeeds exactly if the send list is in order, the receive
   list is long enough, the length fits 32 bits and no request failed; then all
   bytes of the send list were copied.
   */
  method ZipRdma(local: Table, remote: Table, rcv: seq<Item>, snd: seq<Item>, offset: nat, dma: seq<int>)
    returns (rc: int, rdmaLen: nat, copies: seq<Copy>, dmaOk: bool)
    requires forall i :: 0 <= i < |snd| ==> snd[i].len < U32
    ensures var s, r := Bytes(local, snd, 0), Bytes(remote, rcv, offset);
            && Copied(copies, s, r)
            && (rc == 0 <==> s.ok && |s.locs| <= |r.locs| && |s.locs| < U32 && dmaOk)
            && (rc == 0 ==> Sources(copies) == s.locs && rdmaLen == |s.locs|)
    ensures Sized(local) ==> InPlace(local, snd, 0, Sources(copies))
    ensures Sized(remote) ==> InPlace(remote, rcv, offset, Targets(copies))
    ensures rc == 0 ==> AllWithin(local, snd, 0) && rdmaLen == Lens(snd) == |Targets(copies)|
    ensures Requests(dma, |copies|, dmaOk)
  {
    hide Bytes, Join, Split, Span, Sources, Targets, Cursor.Rest, Cursor.NextIoSize, Cursor.Address;
    hide AllWithin, Lens, ListAt;
    rc, rdmaLen, copies, dmaOk := 0, 0, [], true;
    ghost var s, r := Bytes(local, snd, 0), Bytes(remote, rcv, offset);
    NoCopies(s, r);
    BytesCount(local, snd, 0);
    var sc := new Cursor(local, snd, 0, 0);
    var rcur := new Cursor(remote, rcv, offset, -EINVAL);
    var more, code := sc.Update();
    if !more {
      rc := code;
      return;
    }
    sc.HasNext(1);
    more, code := rcur.Update();
    if !more {
      rc := -EINVAL;
      return;
    }
    rc, rdmaLen, copies, dmaOk := ZipLoop(sc, rcur, dma, s, r);
    PrefixInPlace(local, snd, 0, Sources(copies));
    PrefixInPlace(remote, rcv, offset, Targets(copies));
    CopiesBalance(copies);
  }

  /** What is copied first of a list is in its place. */
  lemma PrefixInPlace(t: Table, items: seq<Item>, skip: nat, locs: seq<nat>)
    requires locs <= Bytes(t, items, skip).locs
    ensures Sized(t) ==> InPlace(t, items, skip, locs)
  {
    hide Sized, ListAt, Bytes;
    if Sized(t) {
      forall k | 0 <= k < |locs| ensures InList(t, items, skip + k, locs[k]) {
        var n := BytesAt(t, items, skip, k);
      }
    }
  }

  lemma NoCopies(s: Flat, r: Flat)
    ensures Sources([]) == [] && Targets([]) == [] && Copied([], s, r) && Split(s, [], s) && Split(r, [], r)
  {
  }

  /** The test for overflow of the 32-bit total is exact. */
  lemma SumFits(total: nat, len: nat)
    requires total < U32 && len < U32
    ensures total + len == Add32(total, len) <==> total + len < U32
  {
  }

  /** The first `at` bytes of the data are copied to the front of the receive list r, of which `rest` is ahead. */
  ghost predicate Partly(r: Flat, copies: seq<Copy>, at: nat, size: nat, rest: Flat) {
    && at <= size && Sources(copies) == Span(0, at) && |Targets(copies)| == at && Split(r, Targets(copies), rest)
    && Sources(copies) <= Span(0, size) && Targets(copies) <= r.locs
  }

  lemma PartlyStart(r: Flat, size: nat)
    ensures Sources([]) == Span(0, 0) <= Span(0, size) && Targets([]) <= r.locs && Partly(r, [], 0, size, r)
  {
  }

  /** One more copy, with the cursor not yet moved. */
  lemma PartlyCopy(r: Flat, copies: seq<Copy>, at: nat, size: nat, rest: Flat, c: Copy)
    requires Partly(r, copies, at, size, rest) && at + c.len <= size && c.src == at && Span(c.dst, c.len) <= rest.locs
    ensures var cs := copies + [c];
            && Sources(cs) == Span(0, at + c.len) <= Span(0, size)
            && Targets(cs) <= r.locs && at + c.len <= |r.locs|
            && (rest.locs == Span(c.dst, c.len) ==> |r.locs| == at + c.len)
            && (forall rest' ::
                  rest == Join(Flat(Span(c.dst, c.len), true), rest') ==> Partly(r, cs, at + c.len, size, rest'))
  {
    CopiesSnoc(copies, c);
    hide Sources, Targets;
    assert Span(0, at) + Span(at, c.len) == Span(0, at + c.len) && |Span(c.dst, c.len)| == c.len;
    hide Span;
  }

  /**
   Copy `size` bytes of inline data to the receive list, from `offset` on.  The
   sources of the copies are positions in the data.  The call succeeds exactly if
   there is nothing to copy, or the receive list is long enough and no request
   failed.
   */
  method ZipRdmaImm(remote: Table, rcv: seq<Item>, size: nat, offset: nat, dma: seq<int>)
    returns (rc: int, copies: seq<Copy>, dmaOk: bool)
    ensures var r := Bytes(remote, rcv, offset);
            && Sources(copies) <= Span(0, size) && Targets(copies) <= r.locs
            && (rc == 0 <==> size <= |r.locs| && dmaOk)
            && (rc == 0 ==> Sources(copies) == Span(0, size))
    ensures Sized(remote) ==> InPlace(remote, rcv, offset, Targets(copies))
    ensures Requests(dma, |copies|, dmaOk)
  {
    hide ListAt, Bytes, Join, Partly, Span, Sources, Targets, Cursor.Rest, Cursor.NextIoSize, Cursor.Address;
    rc, copies, dmaOk := 0, [], true;
    ghost var r := Bytes(remote, rcv, offset);
    PartlyStart(r, size);
    PrefixInPlace(remote, rcv, offset, Targets([]));
    if size == 0 {
      return;
    }
    var rcur := new Cursor(remote, rcv, offset, -EINVAL);
    var more, code := rcur.Update();
    if !more {
      rc := -EINVAL;
      return;
    }
    var at, rem := 0, size;
    while true
      invariant fresh(rcur) && rcur.Ready() && dmaOk && rc == 0 && rcur.atEnd == -EINVAL
      invariant at + rem == size && rem > 0 && Partly(r, copies, at, size, rcur.Rest())
      invariant Sources(copies) <= Span(0, size) && Targets(copies) <= r.locs && Requests(dma, |copies|, true)
      decreases rem
    {
      var b := rcur.NextIoSize();
      var len := if rem <= b then rem else b;
      rcur.HasNext(len);
      var c := Copy(rcur.Address(), at, len);
      PartlyCopy(r, copies, at, size, rcur.Rest(), c);
      if DmaResult(dma, |copies|) < 0 {
        rc, dmaOk := DmaResult(dma, |copies|), false;
        break;
      }
      copies := copies + [c];
      at, rem := at + len, rem - len;
      if rem == 0 {
        break;
      }
      more, code := rcur.Forward(len);
      if !more {
        rc := -EINVAL;
        break;
      }
    }
    PrefixInPlace(remote, rcv, offset, Targets(copies));
  }

  // ---------------------------------------------------------------------
  // Copying into a region of the own node
  // ---------------------------------------------------------------------

  /** Where the bytes of a copy into a region end up, which begins each piece at the start of a segment. */
  function Landed(segs: seq<Seg>, off: nat, len: nat): seq<nat> {
    if len == 0 || segs == [] then []
    else if segs[0].size <= off then Landed(segs[1..], off - segs[0].size, len)
    else if len <= segs[0].size - off then Span(segs[0].base, len)
    else Span(segs[0].base, segs[0].size - off) + Landed(segs[1..], 0, len - (segs[0].size - off))
  }

  /** The offset within the segment that holds the first byte. */
  function Residue(segs: seq<Seg>, off: nat): nat {
    if segs == [] then 0 else if segs[0].size <= off then Residue(segs[1..], off - segs[0].size) else off
  }

  /** The bytes land where the region has them exactly if the copy begins at the start of a segment. */
  lemma {:induction false} LandedExactly(segs: seq<Seg>, off: nat, len: nat)
    ensures Landed(segs, off, len) == SegBytes(segs, off, len).locs <==> len == 0 || Residue(segs, off) == 0
  {
    if len > 0 && segs != [] {
      if segs[0].size <= off {
        LandedExactly(segs[1..], off - segs[0].size, len);
      } else if off > 0 {
        assert Landed(segs, off, len)[0] == segs[0].base;
        assert SegBytes(segs, off, len).locs[0] == segs[0].base + off;
      } else if len > segs[0].size {
        LandedExactly(segs[1..], 0, len - segs[0].size);
        assert segs[1..] != [] ==> Residue(segs[1..], 0) == 0 by { ResidueOfZero(segs[1..]); }
      }
    }
  }

  lemma {:induction false} ResidueOfZero(segs: seq<Seg>)
    ensures Residue(segs, 0) == 0
  {
    if segs != [] && segs[0].size == 0 {
      ResidueOfZero(segs[1..]);
    }
  }

  /** A copy to the middle of a segment lands at its start. */
  lemma LandsElsewhere()
    ensures Landed([Seg(100, 16)], 4, 8) == Span(100, 8) && SegBytes([Seg(100, 16)], 4, 8) == Flat(Span(104, 8), true)
    ensures Span(100, 8) != Span(104, 8)
  {
    assert Span(100, 8)[0] != Span(104, 8)[0];
  }

  /**
   Copy `size` bytes to a region of the own node.  It fails exactly if the region is not
   known or ends before; what it copied are the first bytes of the data, in order, and
   they are where the region has them exactly if the copy began at the start of a segment.
   */
  method ZipMemcpy(local: Table, key: nat, addr: nat, size: nat) returns (rc: int, copies: seq<Copy>)
    ensures rc == 0 <==>
              size == 0 || (key in local && SegBytes(local[key].segs, Offset(addr, local[key].addr), size).ok)
    ensures Sources(copies) <= Span(0, size) && (rc == 0 ==> Sources(copies) == Span(0, size))
    ensures key in local ==>
              var segs, off := local[key].segs, Offset(addr, local[key].addr);
              && Targets(copies) == Landed(segs, off, size)
              && (Targets(copies) == SegBytes(segs, off, size).locs <==> size == 0 || Residue(segs, off) == 0)
  {
    hide Span, Sources, Targets, SegBytes, Landed;
    rc, copies := 0, [];
    CopyNone(size);
    if size == 0 {
      if key in local {
        LandedExactly(local[key].segs, Offset(addr, local[key].addr), 0);
        LandedNone(local[key].segs, Offset(addr, local[key].addr));
      }
      return;
    }
    if key !in local {
      return -EINVAL, [];
    }
    ghost var all, off0: nat := local[key].segs, Offset(addr, local[key].addr);
    LandedExactly(all, off0, size);
    var segs, off: nat := local[key].segs, Offset(addr, local[key].addr);
    while segs != [] && segs[0].size <= off
      invariant Landed(segs, off, size) == Landed(all, off0, size)
      invariant SegBytes(segs, off, size).ok == SegBytes(all, off0, size).ok
      decreases |segs|
    {
      PassSegment(segs, off, size);
      off := off - segs[0].size;
      segs := segs[1..];
    }
    var at: nat, rem: nat := 0, size;
    while segs != [] && rem > 0
      invariant at + rem == size && Sources(copies) == Span(0, at) && Span(0, at) <= Span(0, size)
      invariant Targets(copies) + Landed(segs, off, rem) == Landed(all, off0, size)
      invariant SegBytes(segs, off, rem).ok == SegBytes(all, off0, size).ok
      invariant segs != [] ==> off < segs[0].size || off == 0
      decreases |segs|
    {
      var n: nat := if rem <= segs[0].size - off then rem else segs[0].size - off;
      CopySegment(segs, off, rem, n, copies, at, size);
      copies := copies + [Copy(segs[0].base, at, n)];
      at, rem, off, segs := at + n, rem - n, 0, segs[1..];
    }
    CopyEnd(segs, off, rem);
    rc := if rem == 0 then 0 else -EINVAL;
  }

  lemma CopyNone(size: nat)
    ensures Sources([]) == [] == Span(0, 0) && Targets([]) == [] && Span(0, 0) <= Span(0, size)
  {
  }

  lemma LandedNone(segs: seq<Seg>, off: nat)
    ensures Landed(segs, off, 0) == []
  {
  }

  lemma PassSegment(segs: seq<Seg>, off: nat, len: nat)
    requires segs != [] && segs[0].size <= off && len > 0
    ensures Landed(segs, off, len) == Landed(segs[1..], off - segs[0].size, len)
    ensures SegBytes(segs, off, len) == SegBytes(segs[1..], off - segs[0].size, len)
  {
  }

  lemma SegmentLanded(segs: seq<Seg>, off: nat, rem: nat, n: nat)
    requires segs != [] && rem > 0 && (off < segs[0].size || off == 0)
    requires n == if rem <= segs[0].size - off then rem else segs[0].size - off
    ensures Span(segs[0].base, n) + Landed(segs[1..], 0, rem - n) == Landed(segs, off, rem)
    ensures SegBytes(segs[1..], 0, rem - n).ok == SegBytes(segs, off, rem).ok
  {
    if n == rem {
      LandedNone(segs[1..], 0);
    }
  }

  lemma SpanSplit(at: nat, n: nat, size: nat)
    requires at + n <= size
    ensures Span(0, at) + Span(at, n) == Span(0, at + n) <= Span(0, size)
  {
  }

  /** One piece: n bytes to the start of the segment. */
  lemma CopySegment(segs: seq<Seg>, off: nat, rem: nat, n: nat, copies: seq<Copy>, at: nat, size: nat)
    requires segs != [] && rem > 0 && (off < segs[0].size || off == 0) && at + rem == size
    requires n == if rem <= segs[0].size - off then rem else segs[0].size - off
    requires Sources(copies) == Span(0, at)
    ensures n <= rem
    ensures var cs := copies + [Copy(segs[0].base, at, n)];
            && Sources(cs) == Span(0, at + n) <= Span(0, size)
            && Targets(cs) + Landed(segs[1..], 0, rem - n) == Targets(copies) + Landed(segs, off, rem)
            && SegBytes(segs[1..], 0, rem - n).ok == SegBytes(segs, off, rem).ok
  {
    hide Sources, Targets, Landed, Span, SegBytes;
    CopiesSnoc(copies, Copy(segs[0].base, at, n));
    SpanSplit(at, n, size);
    SegmentLanded(segs, off, rem, n);
    var t, x, y := Targets(copies), Span(segs[0].base, n), Landed(segs[1..], 0, rem - n);
    assert (t + x) + y == t + (x + y);
  }

  lemma CopyEnd(segs: seq<Seg>, off: nat, rem: nat)
    requires segs == [] || rem == 0
    ensures Landed(segs, off, rem) == [] && (SegBytes(segs, off, rem).ok <==> rem == 0)
  {
  }
}
