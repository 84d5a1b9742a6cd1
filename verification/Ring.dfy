/**
 Index arithmetic of the rings shared by two peers (ntrdma_ring.h).

 A ring of capacity `cap` is addressed by two 32-bit indices that live in
 [0, 2 * cap).  The functions below are the source's, with every 32-bit
 operation that can wrap written out; the lemmas relate them to unbounded
 counters of the entries ever produced and consumed.
 */
module Ring {

  const U32: int := 0x1_0000_0000

  type u32 = x: int | 0 <= x < 0x1_0000_0000

  /** Reduction to an unsigned 32-bit word. */
  function Wrap(x: int): u32 {
    if 0 <= x < U32 then x else x % U32
  }

  /** Reinterpretation of a reduced word as a signed 32-bit integer. */
  function Signed(x: int): int {
    if Wrap(x) < 0x8000_0000 then Wrap(x) else Wrap(x) - U32
  }

  /** Entries idx, ..., end-1 of the ring buffer, in the half that starts at base. */
  datatype Range = Range(idx: u32, end: u32, base: u32)

  function Produce(prod: u32, cons: u32, cap: u32): Range {
    if prod < cap then
      Range(prod, if cons < cap then cap else cons - cap, 0)
    else
      Range(prod - cap, if cons < cap then cons else cap, cap)
  }

  function Consume(prod: u32, cons: u32, cap: u32): Range {
    if cons < cap then
      Range(cons, if prod < cap then prod else cap, 0)
    else
      Range(cons - cap, if prod < cap then cap else prod - cap, cap)
  }

  function Update(idx: u32, base: u32, cap: u32): u32 {
    if idx == cap then Wrap(cap - base) else Wrap(base + idx)
  }

  function Count(prod: u32, cons: u32, cap: u32): u32 {
    Wrap((if prod < cons then Wrap(prod + Wrap(2 * cap)) else prod) - cons)
  }

  function Space(prod: u32, cons: u32, cap: u32): u32 {
    Wrap(Wrap(cap + cons) - (if prod < cons then Wrap(prod + Wrap(2 * cap)) else prod))
  }

  predicate Valid(prod: u32, cons: u32, cap: u32) {
    Wrap(2 * cap) > prod && Wrap(2 * cap) > cons && Count(prod, cons, cap) <= cap
  }

  /** The two WARN conditions of ntrdma_ring_produce, taken together. */
  predicate Warns(prod: u32, cons: u32, cap: u32) {
    || prod >= Wrap(2 * cap)
    || cons >= Wrap(2 * cap)
    || Signed(prod - cons) > Signed(cap)
    || (Signed(prod - cons) < 0 && Signed(cons - prod) < Signed(cap))
  }

  // ---------------------------------------------------------------------
  // Unbounded counters
  // ---------------------------------------------------------------------

  /** A capacity the driver can use: both halves of the index space fit in 32 bits. */
  ghost predicate Capacity(cap: int) {
    0 < cap && 2 * cap < U32
  }

  /** The ring index that stands for the unbounded counter n: its remainder modulo 2 * cap. */
  function Index(n: nat, cap: nat): (r: nat)
    requires cap > 0
    ensures r < 2 * cap
  {
    if n < 2 * cap then n else Index(n - 2 * cap, cap)
  }

  /** The buffer entry that holds element number n: its remainder modulo cap. */
  function Slot(n: nat, cap: nat): (r: nat)
    requires cap > 0
    ensures r < cap
  {
    if n < cap then n else Slot(n - cap, cap)
  }

  function Base(n: nat, cap: nat): nat
    requires cap > 0
  {
    if Index(n, cap) < cap then 0 else cap
  }

  function Min(a: int, b: int): int {
    if a <= b then a else b
  }

  /** Entries that can be handled from counter n on without wrapping in the buffer. */
  function Contiguous(n: nat, cap: nat): nat
    requires cap > 0
  {
    cap - Slot(n, cap)
  }

  lemma MulPositive(m: int, k: int)
    requires m > 0 && k >= 1
    ensures m * k >= m
  {
  }

  /** Quotient and remainder are unique. */
  lemma DivModUnique(m: int, q: int, r: int, q': int, r': int)
    requires 0 <= r < m && 0 <= r' < m && m * q + r == m * q' + r'
    ensures q == q' && r == r'
  {
    assert m * (q - q') == m * q - m * q';
    assert m * (q' - q) == m * q' - m * q;
    if q > q' {
      MulPositive(m, q - q');
    } else if q < q' {
      MulPositive(m, q' - q);
    }
  }

  lemma ModIs(x: int, m: int, q: int, r: int)
    requires 0 <= r < m && x == m * q + r
    ensures x % m == r && x / m == q
  {
    DivModUnique(m, q, r, x / m, x % m);
  }

  lemma ModStep(x: nat, m: nat)
    requires 0 < m <= x
    ensures x % m == (x - m) % m
  {
    var y := x - m;
    assert m * (y / m + 1) == m * (y / m) + m;
    ModIs(x, m, y / m + 1, y % m);
  }

  lemma {:induction false} IndexIsRemainder(n: nat, cap: nat)
    requires cap > 0
    ensures Index(n, cap) == n % (2 * cap)
  {
    if n < 2 * cap {
      ModIs(n, 2 * cap, 0, n);
    } else {
      IndexIsRemainder(n - 2 * cap, cap);
      ModStep(n, 2 * cap);
    }
  }

  lemma {:induction false} SlotIsRemainder(n: nat, cap: nat)
    requires cap > 0
    ensures Slot(n, cap) == n % cap
  {
    if n < cap {
      ModIs(n, cap, 0, n);
    } else {
      SlotIsRemainder(n - cap, cap);
      ModStep(n, cap);
    }
  }

  lemma {:induction false} IndexSplit(n: nat, cap: nat)
    requires cap > 0
    ensures Index(n, cap) == Slot(n, cap) + Base(n, cap)
  {
    if n >= 2 * cap {
      IndexSplit(n - 2 * cap, cap);
      assert Slot(n, cap) == Slot(n - cap, cap) == Slot(n - 2 * cap, cap);
    }
  }

  /** Moving a counter by less than a full index space moves its index by the same, modulo 2 * cap. */
  lemma {:induction false} IndexAdd(n: nat, k: nat, cap: nat)
    requires cap > 0 && k < 2 * cap
    ensures Index(n + k, cap) ==
            if Index(n, cap) + k < 2 * cap then Index(n, cap) + k else Index(n, cap) + k - 2 * cap
  {
    if n >= 2 * cap {
      IndexAdd(n - 2 * cap, k, cap);
    }
  }

  /** Within one buffer length, distinct numbers live in distinct slots. */
  lemma {:induction false} SlotInjective(a: nat, b: nat, cap: nat)
    requires cap > 0 && a <= b < a + cap
    ensures Slot(a, cap) == Slot(b, cap) ==> a == b
  {
    if a >= cap {
      SlotInjective(a - cap, b - cap, cap);
    } else if b >= cap {
      assert Slot(b - cap, cap) == b - cap;
    }
  }

  /** Entries handled contiguously occupy consecutive slots. */
  lemma {:induction false} SlotAdd(n: nat, k: nat, cap: nat)
    requires cap > 0 && k < Contiguous(n, cap)
    ensures Slot(n + k, cap) == Slot(n, cap) + k
  {
    if n >= cap {
      SlotAdd(n - cap, k, cap);
    }
  }

  // ---------------------------------------------------------------------
  // Refinement of the counters
  // ---------------------------------------------------------------------

  /** The range holds the k entries from number n on. */
  ghost predicate Covers(r: Range, n: nat, k: nat, cap: nat)
    requires cap > 0
  {
    && r.idx == Slot(n, cap) && r.base == Base(n, cap)
    && r.end == r.idx + k && k <= Contiguous(n, cap)
  }

  /** Slot and half of an index. */
  ghost predicate At(i: int, slot: int, base: int, cap: int) {
    0 <= slot < cap && i == slot + base && (base == 0 || base == cap)
  }

  /** The index i moved by d <= cap entries. */
  ghost predicate Ahead(j: int, i: int, d: int, cap: int) {
    0 <= d <= cap && j == if i + d < 2 * cap then i + d else i + d - 2 * cap
  }

  lemma ConsumeIs(pi: u32, ci: u32, d: nat, slot: nat, base: nat, cap: u32)
    requires Capacity(cap) && At(ci, slot, base, cap) && Ahead(pi, ci, d, cap)
    ensures var r := Consume(pi, ci, cap);
            r.idx == slot && r.base == base && r.end - r.idx == Min(d, cap - slot) && r.end <= cap
  {
  }

  lemma ProduceIs(pi: u32, ci: u32, d: nat, slot: nat, base: nat, cap: u32)
    requires Capacity(cap) && At(pi, slot, base, cap) && 0 <= ci < 2 * cap && Ahead(pi, ci, d, cap)
    ensures var r := Produce(pi, ci, cap);
            r.idx == slot && r.base == base && r.end - r.idx == Min(cap - d, cap - slot) && r.end <= cap
  {
  }

  lemma ConsumeRefines(p: nat, c: nat, cap: nat)
    requires Capacity(cap) && c <= p <= c + cap
    ensures Covers(Consume(Index(p, cap), Index(c, cap), cap), c, Min(p - c, Contiguous(c, cap)), cap)
  {
    hide Index, Slot, Consume;
    var pi, ci := Index(p, cap), Index(c, cap);
    assert At(ci, Slot(c, cap), Base(c, cap), cap) by { IndexSplit(c, cap); }
    assert Ahead(pi, ci, p - c, cap) by { IndexAdd(c, p - c, cap); }
    ConsumeIs(pi, ci, p - c, Slot(c, cap), Base(c, cap), cap);
  }

  lemma ProduceRefines(p: nat, c: nat, cap: nat)
    requires Capacity(cap) && c <= p <= c + cap
    ensures Covers(Produce(Index(p, cap), Index(c, cap), cap), p, Min(c + cap - p, Contiguous(p, cap)), cap)
  {
    hide Index, Slot, Produce;
    var pi, ci := Index(p, cap), Index(c, cap);
    assert At(pi, Slot(p, cap), Base(p, cap), cap) by { IndexSplit(p, cap); }
    assert Ahead(pi, ci, p - c, cap) by { IndexAdd(c, p - c, cap); }
    ProduceIs(pi, ci, p - c, Slot(p, cap), Base(p, cap), cap);
  }

  lemma UpdateRefines(n: nat, k: nat, cap: nat)
    requires Capacity(cap) && k <= Contiguous(n, cap)
    ensures Slot(n, cap) + k <= cap
    ensures Update(Slot(n, cap) + k, Base(n, cap), cap) == Index(n + k, cap)
  {
    IndexSplit(n, cap);
    IndexAdd(n, k, cap);
  }

  /** The range is what a consumer gets that has taken c of p entries. */
  ghost predicate Cursor(r: Range, c: nat, p: nat, cap: nat) {
    && Capacity(cap) && c <= p <= c + cap
    && r.idx == Slot(c, cap) && r.base == Base(c, cap) && r.end == r.idx + Min(p - c, Contiguous(c, cap))
  }

  lemma CursorGet(p: nat, c: nat, cap: nat)
    requires Capacity(cap) && c <= p <= c + cap
    ensures Cursor(Consume(Index(p, cap), Index(c, cap), cap), c, p, cap)
  {
    ConsumeRefines(p, c, cap);
  }

  lemma CursorIndex(r: Range, c: nat, p: nat, cap: nat)
    requires Cursor(r, c, p, cap)
    ensures r.idx == Slot(c, cap) <= r.end <= cap && c <= p
    ensures r.idx == r.end <==> c == p
    ensures Update(r.idx, r.base, cap) == Index(c, cap) == r.idx + r.base
  {
    UpdateRefines(c, 0, cap);
    IndexSplit(c, cap);
  }

  /** The consumer takes one entry of its range. */
  lemma CursorNext(r: Range, c: nat, p: nat, cap: nat)
    requires Cursor(r, c, p, cap) && c < p
    ensures r.idx < r.end <= cap && Update(r.idx + 1, r.base, cap) == Index(c + 1, cap)
    ensures r.idx + 1 < r.end ==> Cursor(r.(idx := r.idx + 1), c + 1, p, cap)
  {
    UpdateRefines(c, 1, cap);
    if r.idx + 1 < r.end {
      SlotAdd(c, 1, cap);
      IndexSplit(c, cap);
      IndexSplit(c + 1, cap);
    }
  }

  /** Take one entry; at the end of the range store the index and fetch the next range. */
  function Advance(r: Range, prod: u32, cap: u32): Range
    requires r.idx < r.end
  {
    if r.idx + 1 < r.end then r.(idx := r.idx + 1) else Consume(prod, Update(r.idx + 1, r.base, cap), cap)
  }

  /** The index of the range stands for d; unless the consumer gave up it still holds a range. */
  ghost predicate CursorAfter(r: Range, d: nat, p: nat, cap: nat, held: bool) {
    && Capacity(cap) && r.idx <= cap && Update(r.idx, r.base, cap) == Index(d, cap)
    && (held ==> Cursor(r, d, p, cap))
  }

  lemma CursorAdvance(r: Range, c: nat, p: nat, cap: nat)
    requires Cursor(r, c, p, cap) && c < p
    ensures r.idx < r.end <= cap && Update(r.idx + 1, r.base, cap) == Index(c + 1, cap)
    ensures Cursor(Advance(r, Index(p, cap), cap), c + 1, p, cap)
  {
    CursorNext(r, c, p, cap);
    CursorGet(p, c + 1, cap);
  }

  /** Storing the index and fetching the range again yields the range from there on. */
  lemma CursorRefetch(r: Range, d: nat, p: nat, cap: nat)
    requires CursorAfter(r, d, p, cap, false) && d <= p <= d + cap
    ensures var g := Consume(Index(p, cap), Update(r.idx, r.base, cap), cap);
            Cursor(g, d, p, cap) && CursorAfter(g, d, p, cap, true)
  {
    CursorGet(p, d, cap);
    CursorIndex(Consume(Index(p, cap), Index(d, cap), cap), d, p, cap);
  }

  /** A producer that fetched range r at number n has come to position pos, that is to number post. */
  ghost predicate Producing(r: Range, n: nat, post: nat, cmpl: nat, cap: nat, pos: nat) {
    && Capacity(cap) && n <= post && n <= cmpl + cap
    && Covers(r, n, Min(cmpl + cap - n, Contiguous(n, cap)), cap)
    && pos == r.idx + (post - n) <= r.end
  }

  lemma ProducingStart(post: nat, cmpl: nat, cap: nat)
    requires Capacity(cap) && cmpl <= post <= cmpl + cap
    ensures var r := Produce(Index(post, cap), Index(cmpl, cap), cap);
            Producing(r, post, post, cmpl, cap, r.idx) && (r.idx == r.end <==> post == cmpl + cap)
  {
    ProduceRefines(post, cmpl, cap);
  }

  lemma ProducingStep(r: Range, n: nat, post: nat, cmpl: nat, cap: nat, pos: nat)
    requires Producing(r, n, post, cmpl, cap, pos) && pos < r.end
    ensures post < cmpl + cap && pos == Slot(post, cap) && Producing(r, n, post + 1, cmpl, cap, pos + 1)
  {
    SlotAdd(n, post - n, cap);
  }

  lemma ProducingEnd(r: Range, n: nat, post: nat, cmpl: nat, cap: nat, pos: nat)
    requires Producing(r, n, post, cmpl, cap, pos)
    ensures pos <= cap && Update(pos, r.base, cap) == Index(post, cap)
  {
    UpdateRefines(n, pos - r.idx, cap);
  }

  lemma WrapAdd(x: int, y: int)
    ensures Wrap(Wrap(x) + y) == Wrap(x + y)
  {
    var q := x / U32;
    assert x == U32 * q + x % U32;
    var z := x % U32 + y;
    assert x + y == U32 * (q + z / U32) + z % U32;
    ModIs(x + y, U32, q + z / U32, z % U32);
  }

  lemma WrapNeg(x: int, y: int)
    ensures Wrap(y - Wrap(x)) == Wrap(y - x)
  {
    var q := x / U32;
    assert x == U32 * q + x % U32;
    var z := y - x % U32;
    assert y - x == U32 * (z / U32 - q) + z % U32;
    ModIs(y - x, U32, z / U32 - q, z % U32);
  }

  lemma WrapSmall(x: int)
    requires 0 <= x < U32
    ensures Wrap(x) == x
  {
    ModIs(x, U32, 0, x);
  }

  lemma CountIs(pi: u32, ci: u32, d: nat, cap: u32)
    requires Capacity(cap) && ci < 2 * cap && d <= cap
    requires pi == if ci + d < 2 * cap then ci + d else ci + d - 2 * cap
    ensures Count(pi, ci, cap) == d && Valid(pi, ci, cap)
  {
    hide Wrap;
    WrapSmall(2 * cap);
    WrapSmall(d);
    if pi < ci {
      WrapAdd(pi + 2 * cap, 0 - ci);
    }
  }

  lemma SpaceIs(pi: u32, ci: u32, d: nat, cap: u32)
    requires Capacity(cap) && ci < 2 * cap && d <= cap
    requires pi == if ci + d < 2 * cap then ci + d else ci + d - 2 * cap
    ensures Space(pi, ci, cap) == cap - d
  {
    hide Wrap;
    WrapSmall(2 * cap);
    WrapSmall(cap - d);
    if pi < ci {
      WrapNeg(pi + 2 * cap, Wrap(cap + ci));
      WrapAdd(cap + ci, 0 - (pi + 2 * cap));
    } else {
      WrapAdd(cap + ci, 0 - pi);
    }
  }

  lemma CountRefines(p: nat, c: nat, cap: nat)
    requires Capacity(cap) && c <= p <= c + cap
    ensures Count(Index(p, cap), Index(c, cap), cap) == p - c
    ensures Space(Index(p, cap), Index(c, cap), cap) == c + cap - p
    ensures Valid(Index(p, cap), Index(c, cap), cap)
  {
    IndexAdd(c, p - c, cap);
    CountIs(Index(p, cap), Index(c, cap), p - c, cap);
    SpaceIs(Index(p, cap), Index(c, cap), p - c, cap);
  }

  /** The entry after the last one of the buffer is the first one. */
  lemma {:induction false} ContiguousEnd(c: nat, cap: nat)
    requires cap > 0
    ensures Slot(c + Contiguous(c, cap), cap) == 0 && Contiguous(c + Contiguous(c, cap), cap) == cap
  {
    if c >= cap {
      ContiguousEnd(c - cap, cap);
    }
  }

  /** A consumer that takes its whole range twice has taken everything. */
  lemma TwoRoundsDrain(p: nat, c: nat, cap: nat)
    requires Capacity(cap) && c <= p <= c + cap
    ensures var r := Consume(Index(p, cap), Index(c, cap), cap);
            var r1 := Consume(Index(p, cap), Update(r.end, r.base, cap), cap);
            && (r.end - r.idx) + (r1.end - r1.idx) == p - c
            && Update(r1.end, r1.base, cap) == Index(p, cap)
  {
    hide Index, Consume, Update, Contiguous;
    var k := Min(p - c, Contiguous(c, cap));
    var d := c + k;
    assert d <= p && p - d == Min(p - d, Contiguous(d, cap)) by { SecondRound(p, c, k, cap); }
    var pi, ci, di := Index(p, cap), Index(c, cap), Index(d, cap);
    var r := Consume(pi, ci, cap);
    assert r.end - r.idx == k && Update(r.end, r.base, cap) == di by { RangeTaken(p, c, k, cap); }
    var r1 := Consume(pi, di, cap);
    assert r1.end - r1.idx == p - d && Update(r1.end, r1.base, cap) == pi by { RangeTaken(p, d, p - d, cap); }
  }

  lemma RangeTaken(p: nat, c: nat, k: nat, cap: nat)
    requires Capacity(cap) && c <= p <= c + cap && k == Min(p - c, Contiguous(c, cap))
    ensures var r := Consume(Index(p, cap), Index(c, cap), cap);
            r.end - r.idx == k && Update(r.end, r.base, cap) == Index(c + k, cap)
  {
    ConsumeRefines(p, c, cap);
    UpdateRefines(c, k, cap);
  }

  lemma SecondRound(p: nat, c: nat, k: nat, cap: nat)
    requires cap > 0 && c <= p <= c + cap && k == Min(p - c, Contiguous(c, cap))
    ensures c + k <= p && p - (c + k) <= Contiguous(c + k, cap)
  {
    ContiguousEnd(c, cap);
  }

  /** Every valid pair of indices stands for a pair of counters. */
  lemma ValidIsOutstanding(prod: u32, cons: u32, cap: u32)
    requires Capacity(cap)
    ensures Valid(prod, cons, cap) <==>
            exists p: nat, c: nat {:trigger Index(p, cap), Index(c, cap)} ::
              c <= p <= c + cap && prod == Index(p, cap) && cons == Index(c, cap)
  {
    if Valid(prod, cons, cap) {
      var d := Count(prod, cons, cap);
      IndexAdd(cons, d, cap);
      assert Index(cons + d, cap) == prod && Index(cons, cap) == cons;
    }
    forall p: nat, c: nat | c <= p <= c + cap && prod == Index(p, cap) && cons == Index(c, cap)
      ensures Valid(prod, cons, cap)
    {
      CountRefines(p, c, cap);
    }
  }

  /**
   The run-time checks agree with ntrdma_ring_valid on every pair of indices
   exactly for the capacities whose index space fits a signed 32-bit integer.
   */
  lemma WarnsExactly(cap: u32)
    requires Capacity(cap)
    ensures (forall prod: u32, cons: u32 {:trigger Warns(prod, cons, cap)} ::
               Warns(prod, cons, cap) <==> !Valid(prod, cons, cap))
            <==> cap <= 0x4000_0000
  {
    if cap <= 0x4000_0000 {
      forall prod: u32, cons: u32 ensures Warns(prod, cons, cap) <==> !Valid(prod, cons, cap) {
        assert Wrap(2 * cap) == 2 * cap;
      }
    } else {
      assert !Warns(0x8000_0001, 0, cap) && !Valid(0x8000_0001, 0, cap);
    }
  }
}
