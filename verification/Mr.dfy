/**
 Replication of a memory region to the peer in chunks (ntrdma_mr_enable_cb,
 ntrdma_mr_enable_prep and ntrdma_mr_enable_cmpl in ntrdma_mr.c,
 ntrdma_cmd_recv_mr_create and ntrdma_cmd_recv_mr_append in ntrdma_cmd.c).

 A create command carries the first descriptors of the region, append commands
 the following ones; each response makes the callback send the next chunk.
 */
module Mr {

  const LIMIT_BYTES := 0x8_0000_0000  // the largest region
  const LIMIT := LIMIT_BYTES / 0x1000  // its segments
  const ALIGN := 16
  const MAX_ACCESS := 0x80

  /** How many descriptors fit into a create and into an append command. */
  datatype Caps = Caps(create: nat, append: nat)

  /** A descriptor; a blank one stands for memory the peer must not write, `ok` tells whether the peer can map it. */
  datatype Desc = Desc(addr: nat, size: nat, blank: bool, ok: bool)

  datatype Slot = Empty | Mapped(d: Desc)

  /** What a region is: length, address and access flags, as 32-bit and 64-bit words. */
  datatype Region = Region(len: nat, addr: nat, access: nat)

  /** What the peer demands of a region that it is told of. */
  predicate Acceptable(g: Region) {
    g.len <= LIMIT_BYTES && g.addr % ALIGN == 0 && g.access <= MAX_ACCESS
  }

  /** What registration demands of a region: its length, and that its address is canonical. */
  predicate Registrable(g: Region) {
    g.len <= LIMIT_BYTES && (g.addr < 0x8000_0000_0000 || g.addr >= 0xFFFF_8000_0000_0000)
  }

  /** Whether the peer can get memory for a region, and put it into its table of regions. */
  datatype Memory = Memory(region: bool, table: bool)

  datatype Cmd = Create(g: Region, cap: nat, segs: seq<Desc>) | Append(pos: nat, segs: seq<Desc>)

  /** A blank descriptor leaves its slot empty. */
  function MapOne(d: Desc): Slot {
    if d.blank then Empty else Mapped(d)
  }

  predicate Mappable(d: Desc) {
    d.blank || d.ok
  }

  function MapAll(segs: seq<Desc>): (m: seq<Slot>)
    ensures |m| == |segs| && forall i :: 0 <= i < |segs| ==> m[i] == MapOne(segs[i])
  {
    seq(|segs|, i requires 0 <= i < |segs| => MapOne(segs[i]))
  }

  function Empties(n: nat): (m: seq<Slot>)
    ensures |m| == n && forall i :: 0 <= i < n ==> m[i] == Empty
  {
    seq(n, _ => Empty)
  }

  ghost predicate AllOk(segs: seq<Desc>) {
    forall d :: d in segs ==> Mappable(d)
  }

  /** The first k descriptors are mapped, the other slots are empty. */
  ghost predicate Holds(slots: seq<Slot>, list: seq<Desc>, k: nat) {
    && k <= |list| == |slots|
    && (forall i :: 0 <= i < k ==> slots[i] == MapOne(list[i]))
    && (forall i :: k <= i < |slots| ==> slots[i] == Empty)
  }

  /** The slots with n of the descriptors mapped from pos on. */
  function Patched(was: seq<Slot>, pos: nat, segs: seq<Desc>, n: nat): (r: seq<Slot>)
    requires n <= |segs| && pos + n <= |was|
    ensures |r| == |was|
  {
    was[..pos] + MapAll(segs[..n]) + was[pos + n..]
  }

  lemma PatchedStep(was: seq<Slot>, pos: nat, segs: seq<Desc>, n: nat)
    requires n < |segs| && pos + n < |was|
    ensures Patched(was, pos, segs, n)[pos + n] == was[pos + n]
    ensures Patched(was, pos, segs, n)[pos + n := MapOne(segs[n])] == Patched(was, pos, segs, n + 1)
    ensures was[pos + n] == Empty ==> Patched(was, pos, segs, n + 1)[pos + n := Empty] == Patched(was, pos, segs, n)
  {
  }

  lemma PatchedEnds(was: seq<Slot>, pos: nat, segs: seq<Desc>)
    requires pos + |segs| <= |was|
    ensures Patched(was, pos, segs, 0) == was
    ensures Patched(was, pos, segs, |segs|) == was[..pos] + MapAll(segs) + was[pos + |segs|..]
  {
    assert segs[..|segs|] == segs;
  }

  /** The slots from pos on are free and the first n descriptors can be mapped there. */
  ghost predicate Fits(was: seq<Slot>, pos: nat, segs: seq<Desc>, n: nat)
    requires n <= |segs| && pos + n <= |was|
  {
    (forall k :: 0 <= k < n ==> Mappable(segs[k])) && (forall i :: pos <= i < pos + n ==> was[i] == Empty)
  }

  lemma FitsStep(was: seq<Slot>, pos: nat, segs: seq<Desc>, n: nat)
    requires n < |segs| && pos + |segs| <= |was|
    ensures Fits(was, pos, segs, 0)
    ensures Fits(was, pos, segs, n + 1) <==> Fits(was, pos, segs, n) && Mappable(segs[n]) && was[pos + n] == Empty
    ensures Fits(was, pos, segs, |segs|) ==> Fits(was, pos, segs, n + 1)
  {
  }

  /** The peer's side of a region. */
  class Peer {
    var known: bool
    var region: Region
    var slots: array<Slot>

    constructor ()
      ensures !known
    {
      known, region := false, Region(0, 0, 0);
      slots := new Slot[0];
    }

    /** Unmap what the call has mapped so far. */
    method Undo(a: array<Slot>, pos: nat, segs: seq<Desc>, n: nat, ghost was: seq<Slot>)
      requires n <= |segs| && pos + |segs| <= a.Length == |was|
      requires a[..] == Patched(was, pos, segs, n) && Fits(was, pos, segs, n)
      modifies a
      ensures a[..] == was
    {
      hide Patched;
      var i := n;
      while i > 0
        invariant 0 <= i <= n && a[..] == Patched(was, pos, segs, i)
      {
        i := i - 1;
        PatchedStep(was, pos, segs, i);
        a[pos + i] := Empty;
      }
      PatchedEnds(was, pos, segs);
    }

    /** Map segs to the slots from pos on; if one fails, those of this call are unmapped again. */
    method MapFrom(a: array<Slot>, pos: nat, segs: seq<Desc>) returns (ok: bool)
      requires pos + |segs| <= a.Length
      modifies a
      ensures ok <==> Fits(old(a[..]), pos, segs, |segs|)
      ensures a[..] == if ok then Patched(old(a[..]), pos, segs, |segs|) else old(a[..])
    {
      hide Patched, Mappable, MapOne;
      ghost var was := a[..];
      var i := 0;
      PatchedEnds(was, pos, segs);
      while i < |segs|
        invariant 0 <= i <= |segs| && a[..] == Patched(was, pos, segs, i) && Fits(was, pos, segs, i)
      {
        PatchedStep(was, pos, segs, i);
        FitsStep(was, pos, segs, i);
        assert a[..][pos + i] == was[pos + i];
        if a[pos + i] != Empty || !Mappable(segs[i]) {
          Undo(a, pos, segs, i, was);
          return false;
        }
        a[pos + i] := MapOne(segs[i]);
        i := i + 1;
      }
      ok := true;
    }

    /** A create; a region that was known under the key is replaced. */
    method RecvCreate(caps: Caps, g: Region, cap: nat, segs: seq<Desc>, mem: Memory) returns (status: int)
      modifies this
      ensures status == 0 <==>
                && cap <= LIMIT && |segs| <= caps.create && |segs| <= cap && Acceptable(g)
                && mem.region && AllOk(segs) && mem.table
      ensures status == 0 ==>
                known && region == g && fresh(slots) && slots[..] == Patched(Empties(cap), 0, segs, |segs|)
      ensures status != 0 ==> known == old(known) && region == old(region) && slots == old(slots)
    {
      if cap > LIMIT || |segs| > caps.create || |segs| > cap {
        return -1;
      }
      if g.len > LIMIT_BYTES || g.addr % ALIGN != 0 || g.access > MAX_ACCESS {
        return -1;
      }
      if !mem.region {
        return -1;
      }
      var a := new Slot[cap](_ => Empty);
      assert a[..] == Empties(cap);
      var ok := MapFrom(a, 0, segs);
      if !ok || !mem.table {
        return -1;
      }
      known, region, slots := true, g, a;
      status := 0;
    }

    method RecvAppend(caps: Caps, pos: nat, segs: seq<Desc>) returns (status: int)
      modifies slots
      ensures status == 0 <==>
                && known && pos <= LIMIT && |segs| <= caps.append && pos + |segs| <= slots.Length
                && Fits(old(slots[..]), pos, segs, |segs|)
      ensures slots[..] == if status == 0 then Patched(old(slots[..]), pos, segs, |segs|) else old(slots[..])
    {
      if !known || pos > LIMIT || |segs| > caps.append || pos + |segs| > slots.Length {
        return -1;
      }
      var ok := MapFrom(slots, pos, segs);
      status := if ok then 0 else -1;
    }
  }

  /** The callback that sends the chunks. */
  class Callback {
    const caps: Caps
    const region: Region
    const list: seq<Desc>
    var pos: nat
    var count: nat

    constructor (caps: Caps, region: Region, list: seq<Desc>)
      requires caps.create > 0 && caps.append > 0
      ensures Valid() && this.region == region && this.list == list && this.caps == caps && pos == 0
    {
      this.caps, this.region, this.list := caps, region, list;
      pos := 0;
      count := if |list| <= caps.create then |list| else caps.create;
    }

    /** The chunk that is due. */
    ghost predicate Valid()
      reads this
    {
      && caps.create > 0 && caps.append > 0 && pos + count <= |list|
      && (if pos == 0 then count == (if |list| <= caps.create then |list| else caps.create)
          else pos < |list| && count == (if |list| - pos <= caps.append then |list| - pos else caps.append))
    }

    method Prep() returns (cmd: Cmd)
      requires Valid()
      ensures cmd == if pos == 0 then Create(region, |list|, list[..count]) else Append(pos, list[pos..pos + count])
    {
      if pos == 0 {
        cmd := Create(region, |list|, list[..count]);
      } else {
        cmd := Append(pos, list[pos..pos + count]);
      }
    }

    /** A response; `again` tells that the callback is added again for the next chunk. */
    method Cmpl(status: int) returns (again: bool)
      requires Valid()
      modifies this
      ensures again <==> status == 0 && old(pos + count) < |list|
      ensures again ==> Valid() && pos == old(pos + count)
      ensures !again ==> pos == old(pos) && count == old(count)
    {
      if status != 0 {
        return false;
      }
      var end := pos + count;
      again := end != |list|;
      if again {
        var n := |list| - end;
        pos := end;
        count := if n > caps.append then caps.append else n;
      }
    }
  }

  /** What one command leaves behind, and when it succeeds. */
  lemma ChunkHolds(slots: seq<Slot>, list: seq<Desc>, k: nat, n: nat)
    requires Holds(slots, list, k) && k + n <= |list|
    ensures |slots| == |list| && (Fits(slots, k, list[k..k + n], n) <==> AllOk(list[k..k + n]))
    ensures Holds(Patched(slots, k, list[k..k + n], n), list, k + n)
  {
    var chunk := list[k..k + n];
    assert chunk[..n] == chunk;
    if AllOk(chunk) {
      forall i | 0 <= i < n ensures Mappable(chunk[i]) && slots[k + i] == Empty {
        assert chunk[i] in chunk;
      }
    }
  }

  lemma AllOkSplit(list: seq<Desc>, k: nat, n: nat)
    requires k + n <= |list|
    ensures AllOk(list[..k + n]) <==> AllOk(list[..k]) && AllOk(list[k..k + n])
    ensures AllOk(list) ==> AllOk(list[k..k + n])
  {
    assert list[..k] + list[k..k + n] == list[..k + n];
  }

  /**
   The whole chain, whatever the peer knew under the key before.  It ends; it
   succeeds exactly if the peer accepts the region, has memory for it, and can map
   every descriptor, and then the peer knows the region as it is and every slot
   holds the descriptor of its index.  No command ever finds a slot in use.
   */
  method Replicate(cb: Callback, peer: Peer, mem: Memory) returns (status: int)
    requires cb.Valid() && cb.pos == 0
    modifies cb, peer
    ensures status == 0 <==>
              && cb.region.len <= 0x8_0000_0000 && cb.region.addr % 16 == 0 && cb.region.access <= 0x80
              && |cb.list| <= 0x80_0000 && mem.region && mem.table && forall d :: d in cb.list ==> d.blank || d.ok
    ensures status == 0 ==> peer.known && peer.region == cb.region && Replicated(peer.slots[..], cb.list, |cb.list|)
    ensures status != 0 && cb.pos == 0 ==>
              peer.known == old(peer.known) && peer.region == old(peer.region) && peer.slots == old(peer.slots)
    ensures status != 0 && cb.pos > 0 ==>
              && peer.known && peer.region == cb.region && Replicated(peer.slots[..], cb.list, cb.pos)
              && exists d :: d in cb.list[cb.pos..] && !d.blank && !d.ok
  {
    hide Patched, AllOk, Holds, Acceptable, Replicated;
    AcceptableIs(cb.region, cb.list);
    var list := cb.list;
    var cmd := cb.Prep();
    ghost var n := cb.count;
    assert list[..0 + n] == list[0..0 + n];
    FirstChunk(list);
    ChunkHolds(Empties(|list|), list, 0, n);
    AllOkSplit(list, 0, n);
    status := peer.RecvCreate(cb.caps, cmd.g, cmd.cap, cmd.segs, mem);
    if status != 0 {
      return;
    }
    var again := cb.Cmpl(status);
    if again {
      status := AppendAll(cb, peer);
    } else {
      assert list[..|list|] == list;
    }
    HoldsIs(peer.slots[..], list, if status == 0 then |list| else cb.pos);
    if status != 0 {
      BadDesc(list, cb.pos, cb.count);
    }
  }

  /** The append commands that follow a create. */
  method AppendAll(cb: Callback, peer: Peer) returns (status: int)
    requires cb.Valid() && 0 < cb.pos < |cb.list| <= LIMIT
    requires peer.known && Holds(peer.slots[..], cb.list, cb.pos) && AllOk(cb.list[..cb.pos])
    modifies cb, peer.slots
    ensures status == 0 <==> AllOk(cb.list)
    ensures status == 0 ==> Holds(peer.slots[..], cb.list, |cb.list|)
    ensures status != 0 ==>
              && Holds(peer.slots[..], cb.list, cb.pos) && 0 < cb.pos && cb.pos + cb.count <= |cb.list|
              && !AllOk(cb.list[cb.pos..cb.pos + cb.count])
  {
    hide Patched, AllOk, Holds;
    var list := cb.list;
    var again := true;
    while again
      invariant again ==> cb.Valid() && 0 < cb.pos < |list|
      invariant peer.known && AllOk(list[..if again then cb.pos else |list|])
      invariant Holds(peer.slots[..], list, if again then cb.pos else |list|)
      decreases |list| - cb.pos, again
    {
      ghost var k, n := cb.pos, cb.count;
      var cmd := cb.Prep();
      ChunkHolds(peer.slots[..], list, k, n);
      AllOkSplit(list, k, n);
      status := peer.RecvAppend(cb.caps, cmd.pos, cmd.segs);
      if status != 0 {
        return;
      }
      again := cb.Cmpl(status);
    }
    status := 0;
    assert list[..|list|] == list;
  }

  /** The first k descriptors are where they belong: slot i has descriptor i, or nothing for a blank one. */
  ghost predicate Replicated(slots: seq<Slot>, list: seq<Desc>, k: nat) {
    && k <= |list| == |slots|
    && (forall i :: 0 <= i < k ==> if list[i].blank then slots[i] == Empty else slots[i] == Mapped(list[i]))
    && (forall i :: k <= i < |list| ==> slots[i] == Empty)
  }

  lemma HoldsIs(slots: seq<Slot>, list: seq<Desc>, k: nat)
    ensures Holds(slots, list, k) ==> Replicated(slots, list, k)
  {
  }

  lemma AcceptableIs(g: Region, list: seq<Desc>)
    ensures Acceptable(g) <==> g.len <= 0x8_0000_0000 && g.addr % 16 == 0 && g.access <= 0x80
    ensures LIMIT == 0x80_0000 && (AllOk(list) <==> forall d :: d in list ==> d.blank || d.ok)
  {
  }

  lemma BadDesc(list: seq<Desc>, k: nat, n: nat)
    requires k + n <= |list| && !AllOk(list[k..k + n])
    ensures exists d :: d in list[k..] && !d.blank && !d.ok
  {
    var d :| d in list[k..k + n] && !Mappable(d);
    assert list[k..k + n] == list[k..][..n];
    assert d in list[k..];
  }

  const UNALIGNED := Region(0x1000, 0x1008, 7)

  /** A region that can be registered and is never replicated, whatever the peer has and the region consists of. */
  method ReplicateUnaligned(caps: Caps, list: seq<Desc>, peer: Peer, mem: Memory) returns (status: int)
    requires caps.create > 0 && caps.append > 0
    modifies peer
    ensures Registrable(UNALIGNED) && status != 0
  {
    var cb := new Callback(caps, UNALIGNED, list);
    status := Replicate(cb, peer, mem);
  }

  lemma FirstChunk(list: seq<Desc>)
    ensures Holds(Empties(|list|), list, 0) && AllOk(list[..0])
  {
  }
}
