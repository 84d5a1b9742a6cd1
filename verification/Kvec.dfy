/**
 The key table (ntrdma_kvec in ntrdma_util.c and ntrdma_util.h, ntrdma_res_look
 in ntrdma_res.c): keys are reserved and looked up in a table that is never
 changed once it is published; every change publishes a changed copy, and readers
 keep the table they started with.
 */
module Kvec {

  const MAX_CAP := 0x80_0000
  const ENOMEM := 12
  const EINVAL := 22
  const NULL := 0

  /** A published table: which keys are in use, and the element of each key. */
  class Table {
    const cap: nat
    const reserved: nat
    var next: nat
    const keys: array<bool>
    const look: array<nat>

    constructor (cap: nat, reserved: nat, next: nat)
      ensures this.cap == cap && this.reserved == reserved && this.next == next
      ensures fresh(keys) && fresh(look) && keys.Length == cap == look.Length
      ensures forall k :: 0 <= k < cap ==> !keys[k] && look[k] == NULL
    {
      this.cap, this.reserved, this.next := cap, reserved, next;
      keys := new bool[cap](_ => false);
      look := new nat[cap](_ => NULL);
    }

    ghost predicate Valid()
      reads this, keys, look
    {
      && keys.Length == cap == look.Length && 0 < cap < MAX_CAP
      && reserved <= next < cap
      && forall k :: 0 <= k < reserved ==> keys[k]
    }

    /** The keys handed out and not yet disposed of. */
    ghost function Held(): set<nat>
      requires keys.Length == cap
      reads this, keys
    {
      set k: nat | reserved <= k < cap && keys[k]
    }

    ghost function Element(k: nat): nat
      requires look.Length == cap
      reads this, look
    {
      if k < cap then look[k] else NULL
    }

    /** What a reader of this table can see. */
    ghost function View(): (nat, nat, nat, seq<bool>, seq<nat>)
      reads this, keys, look
    {
      (cap, reserved, next, keys[..], look[..])
    }
  }

  class Kvec {
    var table: Table

    constructor (cap: nat, reserved: nat)
      requires reserved < cap < MAX_CAP
      ensures table.Valid() && table.Held() == {} && table.cap == cap && table.reserved == reserved
      ensures fresh(table) && table.next == reserved && forall k :: table.Element(k) == NULL
    {
      var t := new Table(cap, reserved, reserved);
      var i := 0;
      while i < reserved
        invariant 0 <= i <= reserved
        invariant forall k :: 0 <= k < i ==> t.keys[k]
        invariant forall k :: i <= k < cap ==> !t.keys[k]
        modifies t.keys
      {
        t.keys[i] := true;
        i := i + 1;
      }
      table := t;
    }

    /** Make a table; a size of zero or not above the preallocated keys is invalid, a large one too much. */
    static method Create(cap: nat, reserved: nat, memOk: bool) returns (rc: int, v: Kvec?)
      ensures rc == if cap <= reserved then -22 else if cap >= 0x80_0000 || !memOk then -12 else 0
      ensures rc != 0 ==> v == null
      ensures rc == 0 ==>
                && v != null && fresh(v) && v.table.Valid() && v.table.cap == cap && v.table.reserved == reserved
                && v.table.Held() == {} && v.table.next == reserved && forall k :: v.table.Element(k) == NULL
    {
      v := null;
      if cap == 0 || cap <= reserved {
        return -EINVAL, v;
      }
      if cap >= MAX_CAP || !memOk {
        return -ENOMEM, v;
      }
      v := new Kvec(cap, reserved);
      rc := 0;
    }

    /** A copy of the published table with at least its capacity; `memOk` tells whether memory can be had. */
    method NewCopy(cap: nat, memOk: bool) returns (ok: bool, t: Table)
      requires table.Valid() && table.cap <= cap
      ensures ok <==> memOk && cap < MAX_CAP
      ensures ok ==> fresh(t) && fresh(t.keys) && fresh(t.look) && t.cap == cap && t.reserved == table.reserved
      ensures ok ==> t.next == table.next && t.keys.Length == cap == t.look.Length
      ensures ok ==> forall k :: 0 <= k < cap ==> t.keys[k] == (k < table.cap && table.keys[k])
      ensures ok ==> forall k :: 0 <= k < cap ==> t.look[k] == if k < table.cap then table.look[k] else NULL
    {
      t := table;
      if cap >= MAX_CAP || !memOk {
        return false, t;
      }
      t := new Table(cap, table.reserved, table.next);
      var i := 0;
      while i < table.cap
        invariant 0 <= i <= table.cap
        invariant forall k :: 0 <= k < cap ==> t.keys[k] == (k < i && table.keys[k])
        invariant forall k :: 0 <= k < cap ==> t.look[k] == if k < i then table.look[k] else NULL
        modifies t.keys, t.look
      {
        t.keys[i], t.look[i] := table.keys[i], table.look[i];
        i := i + 1;
      }
      ok := true;
    }

    /** The least free key from `next` on, or the capacity. */
    method FindFree() returns (key: nat)
      requires table.Valid()
      ensures table.next <= key <= table.cap && (key < table.cap ==> !table.keys[key])
      ensures forall k :: table.next <= k < key ==> table.keys[k]
    {
      key := table.next;
      while key < table.cap && table.keys[key]
        invariant table.next <= key <= table.cap && forall k :: table.next <= k < key ==> table.keys[k]
      {
        key := key + 1;
      }
    }

    /**
     Hand out a key that is not held and not preallocated.  If there is none up
     to the end of the table, the table doubles and all it held stays in place.
     */
    method ReserveKey(memOk: bool) returns (r: int)
      requires table.Valid()
      modifies this
      ensures table.Valid() && table.reserved == old(table.reserved) && old(table).View() == old(table.View())
      ensures r < 0 ==> table == old(table) && r == -12
      ensures r >= 0 ==>
                && fresh(table) && r >= table.reserved && r !in old(table.Held())
                && table.Held() == old(table.Held()) + {r}
                && (forall k :: table.Element(k) == old(table.Element(k)))
                && table.cap == (if r == old(table.cap) then 2 * old(table.cap) else old(table.cap))
                && old(table.next) <= r && (forall k :: old(table.next) <= k < r ==> old(table.keys[k]))
                && table.next == if r + 1 == table.cap then table.reserved else r + 1
      ensures r < 0 <==>
                || !memOk
                || (old(2 * table.cap) >= 0x80_0000 && old(forall k :: table.next <= k < table.cap ==> table.keys[k]))
    {
      var key := FindFree();
      var cap := if key >= table.cap then 2 * key else table.cap;
      var ok, t := NewCopy(cap, memOk);
      if !ok {
        return -ENOMEM;
      }
      t.keys[key] := true;
      t.next := if key + 1 == t.cap then t.reserved else key + 1;
      table := t;
      r := key;
    }

    /** A key is free again; preallocated ones stay, and so do all if memory cannot be had. */
    method DisposeKey(key: nat, memOk: bool)
      requires table.Valid() && key < table.cap
      modifies this
      ensures table.Valid() && table.cap == old(table.cap) && table.reserved == old(table.reserved)
      ensures old(table).View() == old(table.View())
      ensures table.Held() == (if memOk then old(table.Held()) - {key} else old(table.Held()))
      ensures table.next == old(table.next)
      ensures forall k :: table.Element(k) == old(table.Element(k))
    {
      if key < table.reserved {
        return;
      }
      var ok, t := NewCopy(table.cap, memOk);
      if !ok {
        return;
      }
      t.keys[key] := false;
      table := t;
    }

    /** A key gets an element, unless memory cannot be had. */
    method SetKey(key: nat, value: nat, memOk: bool)
      requires table.Valid() && key < table.cap
      modifies this
      ensures table.Valid() && table.cap == old(table.cap) && table.Held() == old(table.Held())
      ensures old(table).View() == old(table.View())
      ensures forall k :: table.Element(k) == if memOk && k == key then value else old(table.Element(k))
      ensures table.next == old(table.next) && table.reserved == old(table.reserved)
    {
      var ok, t := NewCopy(table.cap, memOk);
      if !ok {
        return;
      }
      t.look[key] := value;
      table := t;
    }

    method Look(key: nat) returns (value: nat)
      requires table.Valid()
      ensures value == table.Element(key)
    {
      value := if key < table.cap then table.look[key] else NULL;
    }
  }
}
