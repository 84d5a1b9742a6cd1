/**
 Addresses across the bridge (ntc.h, set_memory_windows_on_device in
 ntc_ntb_msi.c): a node describes a buffer by an offset, the peer turns the
 description into an address in its window, and the hardware translates that
 address back.
 */
module Address {

  const U61 := 0x2000_0000_0000_0000
  const U63 := 0x8000_0000_0000_0000
  const U64 := 0x1_0000_0000_0000_0000

  type u64 = x: int | 0 <= x < 0x1_0000_0000_0000_0000

  function Wrap(x: int): u64 {
    x % U64
  }

  // ---------------------------------------------------------------------
  // Segments
  // ---------------------------------------------------------------------

  /** ntc_segment_valid */
  predicate SegmentValid(size: u64, offset: u64, len: u64) {
    offset < size && len <= size && Wrap(offset + len) <= size
  }

  ghost predicate Within(size: nat, offset: nat, len: nat) {
    offset < size && offset + len <= size
  }

  lemma NoWrap(x: int)
    requires 0 <= x < U64
    ensures Wrap(x) == x
  {
  }

  lemma OneWrap(x: int)
    requires U64 <= x < 2 * U64
    ensures Wrap(x) == x - U64
  {
  }

  /** The check accepts exactly the segments within a buffer, for the buffers of at most 2^63 bytes and no others. */
  lemma SegmentValidExactly(size: u64)
    ensures (forall offset: u64, len: u64 :: SegmentValid(size, offset, len) <==> Within(size, offset, len))
            <==> size <= U63
  {
    if size <= U63 {
      forall offset: u64, len: u64 ensures SegmentValid(size, offset, len) <==> Within(size, offset, len) {
        if offset < size && len <= size {
          NoWrap(offset + len);
        }
      }
    } else {
      var offset: u64, len: u64 := size - 1, U64 - size + 1;
      assert SegmentValid(size, offset, len) && !Within(size, offset, len);
    }
  }

  // ---------------------------------------------------------------------
  // Windows
  // ---------------------------------------------------------------------

  /** What a window is asked to be, and what the hardware demands; an alignment is zero or a power of two. */
  datatype Request = Request(base: u64, len: u64, mmLen: u64, addrAlign: u64, sizeMax: u64)

  /** The window as the hardware translates it, and the dead zone before the base asked for. */
  datatype Window = Window(base: nat, len: nat, dead: nat)

  datatype Programmed = Failed | Programmed(w: Window)

  function Misalignment(r: Request): nat {
    if r.addrAlign == 0 then 0 else r.base % r.addrAlign
  }

  /** set_memory_windows_on_device, for a node whose own base and size are already set up */
  function Program(r: Request, ownBase: u64, ownSize: u64): Programmed {
    var size := if ownSize == 0 then r.sizeMax else ownSize;
    var mis := Misalignment(r);
    var base := r.base - mis;
    var len0 := Wrap(r.len + mis);
    var len := if base == 0 && len0 < r.addrAlign then r.addrAlign else len0;
    if size == 0 || len < r.len || (mis != 0 && r.mmLen != 0) || r.len > r.sizeMax then Failed
    else if mis != 0 then Programmed(Window(base, len, mis))
    else Programmed(Window(ownBase, size, 0))
  }

  /**
   When a window can be programmed, and what it holds.  It begins a dead zone before the
   base asked for and holds all that was asked for; with an aligned base it is the node's
   own memory.  The exception is a base below the alignment of a length so large that the
   sum wraps around.
   */
  lemma ProgramExactly(r: Request, ownBase: u64, ownSize: u64)
    ensures var p := Program(r, ownBase, ownSize);
            var dead := if r.addrAlign == 0 then 0 else r.base % r.addrAlign;
            && (p.Failed? <==>
                  || (ownSize == 0 && r.sizeMax == 0) || r.len > r.sizeMax || (dead != 0 && r.mmLen != 0)
                  || (r.len + dead >= U64 && !Swallowed(r, dead)))
            && (p.Programmed? && dead == 0 ==> p.w == Window(ownBase, if ownSize == 0 then r.sizeMax else ownSize, 0))
            && (p.Programmed? && dead != 0 ==>
                  && p.w.base + dead == r.base && p.w.dead == dead
                  && (r.len + dead < U64 ==>
                        p.w.len == if r.base == dead && r.len + dead < r.addrAlign then r.addrAlign else r.len + dead))
  {
    var dead := Misalignment(r);
    assert dead < U64;
    hide Wrap;
    if r.len + dead < U64 {
      NoWrap(r.len + dead);
    } else {
      OneWrap(r.len + dead);
    }
  }

  /** The window begins at address zero and the alignment makes up for the sum that wrapped around. */
  ghost predicate Swallowed(r: Request, dead: nat) {
    r.base == dead && r.len + dead - U64 < r.addrAlign && r.len <= r.addrAlign
  }

  // ---------------------------------------------------------------------
  // Descriptors
  // ---------------------------------------------------------------------

  /** A buffer that the peer may write to: its bus address, and whether addresses are used as they are. */
  datatype Buffer = Buffer(addr: u64, size: u64, flat: bool, mw: nat)

  /** What is sent to the peer; the offset has 61 bits. */
  datatype Desc = NoDesc | Desc(offset: nat, flat: bool, mw: nat, size: u64)

  function Truncate(x: int): nat {
    x % U61
  }

  function MakeDesc(b: Buffer, ownBase: u64): Desc {
    if b.addr == 0 then NoDesc
    else Desc(Truncate(if b.flat then b.addr else Wrap(b.addr - ownBase)), b.flat, b.mw, b.size)
  }

  /** The peer's view of the window: where it is in its own address space, its size, and what it was told. */
  datatype PeerWindow = PeerWindow(base: nat, size: nat, dead: nat, transLen: nat)

  datatype Located = Nowhere | At(addr: nat)

  /** ntc_peer_addr */
  function PeerAddr(d: Desc, w: PeerWindow): Located
    requires d.Desc?
  {
    var off := if d.flat then d.offset else Wrap(d.offset + w.dead);
    if !d.flat && off >= w.size then Nowhere
    else if off >= w.transLen then Nowhere
    else At(w.base + off)
  }

  /** Where an access of the peer ends: outside the window, or at an address of the exporting node. */
  datatype Reach = Outside | Reached(addr: nat)

  /** The peer's window has p.size bytes, of which the hardware translates the first w.len. */
  function Through(x: nat, p: PeerWindow, w: Window): Reach {
    if p.base <= x < p.base + p.size && x - p.base < w.len then Reached(w.base + (x - p.base)) else Outside
  }

  /** The peer was told about the window that is programmed. */
  ghost predicate Told(p: PeerWindow, w: Window) {
    p.dead == w.dead && p.transLen == w.len
  }

  /** The mode chosen when buffers are exported: flat exactly if the window begins at address zero. */
  predicate Flat(ownBase: u64, w: Window) {
    ownBase == w.dead
  }

  /** How the own base was set up: as asked for, or on its own and then aligned. */
  ghost predicate Consistent(r: Request, ownBase: u64) {
    Misalignment(r) == 0 || ownBase == r.base
  }

  /** Where a buffer begins in the window. */
  ghost function Offset(b: Buffer, ownBase: u64, w: Window): int {
    if b.flat then b.addr else b.addr - ownBase + w.dead
  }

  /** A buffer of the exporting node whose address fits a descriptor; regions are never flat, whatever the window. */
  ghost predicate Exportable(b: Buffer, ownBase: u64, w: Window) {
    && b.addr != 0 && w.dead < U61
    && (if b.flat then Flat(ownBase, w) && b.addr < U61 else 0 <= b.addr - ownBase < U61)
  }

  /**
   The way to the buffer and back.  The peer locates a buffer exactly if its first
   byte is within the window; byte i of a located buffer is reached at byte i of the
   buffer as far as the window goes, and nothing is reached beyond.
   */
  lemma RoundTrip(r: Request, ownBase: u64, ownSize: u64, p: PeerWindow, b: Buffer, i: nat)
    requires Program(r, ownBase, ownSize).Programmed? && Consistent(r, ownBase)
    requires Told(p, Program(r, ownBase, ownSize).w) && Exportable(b, ownBase, Program(r, ownBase, ownSize).w)
    ensures var w := Program(r, ownBase, ownSize).w;
            var off, l := Offset(b, ownBase, w), PeerAddr(MakeDesc(b, ownBase), p);
            && (l.At? <==> off < w.len && (b.flat || off < p.size))
            && (l.At? ==> Through(l.addr + i, p, w) ==
                            if off + i < w.len && off + i < p.size then Reached(b.addr + i) else Outside)
  {
    hide Program, Misalignment, Wrap, Consistent;
    WindowIs(r, ownBase, ownSize);
    if !b.flat {
      NoWrap(b.addr - ownBase);
      NoWrap(b.addr - ownBase + p.dead);
    }
  }

  /** Byte i of the buffer is reached where it is. */
  ghost predicate ByteReached(b: Buffer, at: nat, i: nat, p: PeerWindow, w: Window) {
    Through(at + i, p, w) == Reached(b.addr + i)
  }

  ghost predicate AllReached(b: Buffer, at: nat, p: PeerWindow, w: Window) {
    forall i: nat :: i < b.size ==> ByteReached(b, at, i, p, w)
  }

  /**
   Locating a buffer tests its first byte only.  All of a located buffer is reached
   exactly if it ends within the window.
   */
  lemma WholeBuffer(r: Request, ownBase: u64, ownSize: u64, p: PeerWindow, b: Buffer)
    requires Program(r, ownBase, ownSize).Programmed? && Consistent(r, ownBase)
    requires Told(p, Program(r, ownBase, ownSize).w) && Exportable(b, ownBase, Program(r, ownBase, ownSize).w)
    requires PeerAddr(MakeDesc(b, ownBase), p).At?
    ensures var w := Program(r, ownBase, ownSize).w;
            var end := Offset(b, ownBase, w) + b.size;
            AllReached(b, PeerAddr(MakeDesc(b, ownBase), p).addr, p, w)
            <==> b.size == 0 || (end <= w.len && end <= p.size)
  {
    hide Program, Consistent, PeerAddr, Through;
    var w := Program(r, ownBase, ownSize).w;
    var at := PeerAddr(MakeDesc(b, ownBase), p).addr;
    forall i: nat | i < b.size
      ensures ByteReached(b, at, i, p, w) <==> Offset(b, ownBase, w) + i < w.len && Offset(b, ownBase, w) + i < p.size
    {
      RoundTrip(r, ownBase, ownSize, p, b, i);
    }
    if b.size > 0 && AllReached(b, at, p, w) {
      assert ByteReached(b, at, b.size - 1, p, w);
    }
  }

  /** A buffer that begins at the last byte of the window is located, and its second byte is not reached. */
  lemma StraddlingBuffer()
    ensures var r, p, b := Request(0x1000, 0x1000, 0, 0, 0x1_0000), PeerWindow(0x5_0000, 0x1000, 0, 0x1000),
                           Buffer(0x1FFF, 0x100, false, 0);
            && Program(r, 0x1000, 0x1000).Programmed? && Consistent(r, 0x1000)
            && Told(p, Program(r, 0x1000, 0x1000).w) && Exportable(b, 0x1000, Program(r, 0x1000, 0x1000).w)
            && PeerAddr(MakeDesc(b, 0x1000), p).At?
            && !AllReached(b, PeerAddr(MakeDesc(b, 0x1000), p).addr, p, Program(r, 0x1000, 0x1000).w)
  {
    var r, p, b := Request(0x1000, 0x1000, 0, 0, 0x1_0000), PeerWindow(0x5_0000, 0x1000, 0, 0x1000),
                   Buffer(0x1FFF, 0x100, false, 0);
    WholeBuffer(r, 0x1000, 0x1000, p, b);
  }

  /**
   A buffer that lies within the own window, which the driver tests when it maps memory
   for the peer, is located and reached byte by byte, if the peer's window holds the
   node's and an aligned-down window was asked for with the own size.
   */
  lemma MappedIsReached(r: Request, ownBase: u64, ownSize: u64, p: PeerWindow, b: Buffer)
    requires Program(r, ownBase, ownSize).Programmed? && Consistent(r, ownBase)
    requires Told(p, Program(r, ownBase, ownSize).w) && Exportable(b, ownBase, Program(r, ownBase, ownSize).w)
    requires 0 < ownSize <= U63 && SegmentValid(ownSize, Wrap(b.addr - ownBase), b.size)
    requires ownBase <= b.addr && ownSize + p.dead <= p.size
    requires Misalignment(r) == 0 || (ownSize <= r.len && r.addrAlign <= U63)
    ensures var l := PeerAddr(MakeDesc(b, ownBase), p);
            l.At? && AllReached(b, l.addr, p, Program(r, ownBase, ownSize).w)
  {
    NoWrap(b.addr - ownBase);
    SegmentValidExactly(ownSize);
    assert Within(ownSize, b.addr - ownBase, b.size);
    WindowHolds(r, ownBase, ownSize);
    hide Program, Consistent, MakeDesc, PeerAddr, Through, SegmentValid, Misalignment;
    RoundTrip(r, ownBase, ownSize, p, b, 0);
    WholeBuffer(r, ownBase, ownSize, p, b);
  }

  lemma WindowHolds(r: Request, ownBase: u64, ownSize: u64)
    requires Program(r, ownBase, ownSize).Programmed? && Consistent(r, ownBase)
    requires 0 < ownSize && (Misalignment(r) == 0 || (ownSize <= r.len && r.addrAlign <= U63))
    ensures var w := Program(r, ownBase, ownSize).w; ownSize + w.dead <= w.len
  {
    var mis := Misalignment(r);
    assert mis < U64 && (mis != 0 ==> mis < r.addrAlign);
    hide Misalignment, Wrap;
    if r.len + mis >= U64 {
      OneWrap(r.len + mis);
    } else {
      NoWrap(r.len + mis);
    }
  }

  /** The window begins a dead zone before the base asked for, or at the own base. */
  lemma WindowIs(r: Request, ownBase: u64, ownSize: u64)
    requires Program(r, ownBase, ownSize).Programmed?
    ensures var w := Program(r, ownBase, ownSize).w;
            w.base + w.dead == ownBase <==> Consistent(r, ownBase)
  {
    hide Wrap;
    var mis := Misalignment(r);
    hide Misalignment;
  }

  /**
   The condition on the own base is exact: without it a buffer that the peer can
   locate is reached at another address.
   */
  lemma RoundTripNeedsConsistency(r: Request, ownBase: u64, ownSize: u64, p: PeerWindow, b: Buffer)
    requires Program(r, ownBase, ownSize).Programmed?
    requires Told(p, Program(r, ownBase, ownSize).w) && Exportable(b, ownBase, Program(r, ownBase, ownSize).w)
    requires PeerAddr(MakeDesc(b, ownBase), p).At? && Offset(b, ownBase, Program(r, ownBase, ownSize).w) < p.size
    ensures Through(PeerAddr(MakeDesc(b, ownBase), p).addr, p, Program(r, ownBase, ownSize).w) == Reached(b.addr)
            <==> Consistent(r, ownBase)
  {
    hide Program, Consistent, Wrap;
    WindowIs(r, ownBase, ownSize);
    if !b.flat {
      NoWrap(b.addr - ownBase);
      NoWrap(b.addr - ownBase + p.dead);
    }
  }

  // ---------------------------------------------------------------------
  // Parts of buffers
  // ---------------------------------------------------------------------

  /** ntc_remote_buf_desc_clip */
  function Clip(d: Desc, offset: u64, len: u64): Desc
    requires d.Desc?
  {
    if SegmentValid(d.size, offset, len) then d.(offset := Truncate(d.offset + offset), size := len) else NoDesc
  }

  /** ntc_export_buf_make_partial_desc */
  function MakePartial(b: Buffer, ownBase: u64, offset: u64, len: u64): Desc {
    if b.addr == 0 || !SegmentValid(b.size, offset, len) then NoDesc
    else
      var d := MakeDesc(b, ownBase);
      d.(offset := Truncate(d.offset + offset), size := len)
  }

  datatype Part = BadPart | Part(offset: u64, len: u64)

  /** ntc_export_buf_get_part_params */
  function GetPart(b: Buffer, ownBase: u64, d: Desc): Part
    requires d.Desc?
  {
    var x := Wrap(d.offset - (if d.flat then b.addr else Wrap(b.addr - ownBase)));
    if b.addr == 0 || x >= U63 || !SegmentValid(b.size, x, d.size) || b.mw != d.mw || b.flat != d.flat then BadPart
    else Part(x, d.size)
  }

  ghost function Start(b: Buffer, ownBase: u64): nat {
    if b.flat then b.addr else Wrap(b.addr - ownBase)
  }

  /** A part of a buffer is decoded to what it was made from, exactly if its offset fits; otherwise it is refused. */
  lemma PartRoundTrip(b: Buffer, ownBase: u64, offset: u64, len: u64)
    requires MakePartial(b, ownBase, offset, len).Desc? && Start(b, ownBase) < U61 && offset < U61
    ensures var g := GetPart(b, ownBase, MakePartial(b, ownBase, offset, len));
            g == if Start(b, ownBase) + offset < U61 then Part(offset, len) else BadPart
  {
    hide SegmentValid, Wrap, Truncate;
    var s := Start(b, ownBase);
    TruncateSmall(s);
    if s + offset < U61 {
      TruncateSmall(s + offset);
      NoWrap(offset);
    } else {
      TruncateOver(s + offset);
      UnderWrap(offset - U61);
    }
  }

  lemma TruncateSmall(x: nat)
    requires x < U61
    ensures Truncate(x) == x
  {
  }

  lemma TruncateOver(x: nat)
    requires U61 <= x < 2 * U61
    ensures Truncate(x) == x - U61
  {
  }

  lemma UnderWrap(x: int)
    requires -U64 <= x < 0
    ensures Wrap(x) == x + U64
  {
  }

  /** A descriptor that is accepted as a part is the one made for that part. */
  lemma AcceptedIsMade(b: Buffer, ownBase: u64, d: Desc)
    requires d.Desc? && GetPart(b, ownBase, d).Part? && d.offset < U61 && Start(b, ownBase) < U61
    ensures var g := GetPart(b, ownBase, d); d == MakePartial(b, ownBase, g.offset, g.len)
  {
    var s, x := Start(b, ownBase), GetPart(b, ownBase, d).offset;
    if d.offset >= s {
      NoWrap(d.offset - s);
    }
    assert Truncate(s) == s && Truncate(d.offset) == d.offset;
  }

  /** Clipping a whole buffer's descriptor makes the descriptor of the part; clipping twice adds up. */
  lemma ClipComposes(b: Buffer, ownBase: u64, o1: u64, l1: u64, o2: u64, l2: u64)
    requires b.addr != 0 && b.size <= U63 && SegmentValid(b.size, o1, l1) && SegmentValid(l1, o2, l2)
    ensures Clip(MakeDesc(b, ownBase), o1, l1) == MakePartial(b, ownBase, o1, l1)
    ensures Clip(Clip(MakeDesc(b, ownBase), o1, l1), o2, l2) == MakePartial(b, ownBase, o1 + o2, l2)
  {
    NoWrap(o1 + l1);
    NoWrap(o2 + l2);
    NoWrap(o1 + o2 + l2);
    var d := MakeDesc(b, ownBase);
    TruncateAdd(d.offset + o1, o2);
  }

  lemma TruncateAdd(x: nat, y: nat)
    ensures Truncate(Truncate(x) + y) == Truncate(x + y)
  {
    var q := x / U61;
    assert x == U61 * q + x % U61;
    ModAdd(x % U61 + y, q);
  }

  lemma ModAdd(z: nat, q: nat)
    ensures (U61 * q + z) % U61 == z % U61
  {
  }
}
