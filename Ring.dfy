/**
  Cursor arithmetic of the jitter buffer's circular byte store: a cursor
  that moves past the end comes back to the start, and the copy loops move it
  with the power-of-two mask `& (total - 1)`.
 */
module Ring {
  import opened Bits

  function Min(a: nat, b: nat): (m: nat)
    ensures m <= a && m <= b && (m == a || m == b)
  {
    if a <= b then a else b
  }

  /**
    The slot of position `x` of a store of `total` slots, for `x < 2 * total`:
    one turn round the store at most.
   */
  function Wrap(x: nat, total: nat): nat
  {
    if x < total then x else x - total
  }

  /**
    The slot holding the byte `i` places after the cursor `head`: the `i`-th
    queued byte when `head` is the read cursor.
   */
  function Slot(head: nat, i: nat, total: nat): nat
  {
    Wrap(head + i, total)
  }

  /** Counting `d` slots from `head` and then `i` more is counting `d + i` slots. */
  lemma SlotAdvance(head: nat, d: nat, i: nat, total: nat)
    requires head + d + i < 2 * total
    ensures Slot(Slot(head, d, total), i, total) == Slot(head, d + i, total)
  {
  }

  /**
    A run of `n` slots written from the write cursor, not past the end of the
    store and not more than the free space, misses every occupied slot.
   */
  lemma RunMissesQueued(sub: nat, unsub: nat, n: nat, i: nat, total: nat)
    requires sub < total && i < unsub && unsub + n <= total
    requires Slot(sub, unsub, total) + n <= total
    ensures !(Slot(sub, unsub, total) <= Slot(sub, i, total) < Slot(sub, unsub, total) + n)
  {
  }

  /** The slots from the read cursor `sub` on hold the queued bytes `s`, oldest first. */
  ghost predicate Holds(store: array<byte>, sub: nat, total: nat, s: seq<byte>)
    reads store
  {
    store.Length == total && sub < total && |s| <= total &&
    forall i :: 0 <= i < |s| ==> store[Slot(sub, i, total)] == s[i]
  }

  /**
    The store holds the queued bytes `queued` and, in the slots after them,
    the first `count` bytes of `src`.
   */
  ghost predicate HoldsAppended(store: array<byte>, sub: nat, total: nat, queued: seq<byte>, src: seq<byte>, count: nat)
    reads store
  {
    Holds(store, sub, total, queued) && |queued| + count <= total && count <= |src| &&
    forall i :: |queued| <= i < |queued| + count ==> store[Slot(sub, i, total)] == src[i - |queued|]
  }

  /** Bytes written into the slots after the queued ones extend what the store holds. */
  lemma HoldsAppend(store: array<byte>, sub: nat, total: nat, queued: seq<byte>, src: seq<byte>, n: nat)
    requires HoldsAppended(store, sub, total, queued, src, n)
    ensures Holds(store, sub, total, queued + src[..n])
  {
  }

  /** Moving the read cursor past the `d` oldest bytes leaves the rest held. */
  lemma HoldsDrop(store: array<byte>, sub: nat, total: nat, queued: seq<byte>, d: nat)
    requires Holds(store, sub, total, queued)
    requires d <= |queued|
    ensures Holds(store, Slot(sub, d, total), total, queued[d..])
  {
    forall i | 0 <= i < |queued| - d
      ensures store[Slot(Slot(sub, d, total), i, total)] == queued[d..][i]
    {
      SlotAdvance(sub, d, i, total);
    }
  }

  /** Every byte of the store is zero (a store fresh from `calloc`). */
  ghost predicate AllZero(store: array<byte>)
    reads store
  {
    forall i :: 0 <= i < store.Length ==> store[i] == 0
  }

  /** `n` copies of the byte `v` (what `memset` writes). */
  function Fill(v: byte, n: nat): (r: seq<byte>)
    ensures |r| == n && forall i :: 0 <= i < n ==> r[i] == v
  {
    seq(n, _ => v)
  }

  /**
    The cursor update `(head + count) & (total - 1)` of the copy loops: for a
    power-of-two store it is the advanced position taken modulo `total`, which
    for a copy that stops at the end of the store is the single subtraction of `Wrap`.
   */
  lemma MaskedAdvance(head: nat, count: nat, total: nat)
    requires IsPowerOfTwo(total)
    requires head + count <= total
    ensures BitAnd(head + count, total - 1) == (head + count) % total
    ensures BitAnd(head + count, total - 1) == Wrap(head + count, total)
    ensures BitAnd(head + count, total - 1) < total
  {
    MaskIsModulo(head + count, total);
    if head + count == total {
      ModUnique(head + count, total, 1, 0);
    } else {
      ModUnique(head + count, total, 0, head + count);
    }
  }

  /** On the cursor range the copy loops reach, `Wrap` is reduction modulo `total`. */
  lemma WrapIsModulo(x: nat, total: nat)
    requires 0 < total && x < 2 * total
    ensures Wrap(x, total) == x % total
    ensures Wrap(x, total) < total
  {
    if x < total {
      ModUnique(x, total, 0, x);
    } else {
      ModUnique(x, total, 1, x - total);
    }
  }
}
