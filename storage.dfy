/**
 * What the three bounded item stores have in common, stated on values: a
 * store holds the items it accepted, in the order it accepted them, and
 * accepts an item exactly when it holds fewer than its capacity.
 */
module Storage {

  function Min(a: nat, b: nat): nat {
    if a < b then a else b
  }

  /** The contents after offering `x` to a store holding `contents`. */
  function Offer<T>(contents: seq<T>, capacity: nat, x: T): seq<T> {
    if |contents| < capacity then contents + [x] else contents
  }

  /** The contents after offering each of `xs`, in order. */
  function OfferAll<T>(contents: seq<T>, capacity: nat, xs: seq<T>): seq<T>
    decreases |xs|
  {
    if xs == [] then contents
    else OfferAll(Offer(contents, capacity, xs[0]), capacity, xs[1..])
  }

  /**
   * A store that respects its capacity keeps the earliest offers and drops the
   * rest: its contents are a prefix of everything offered, cut at the capacity.
   */
  lemma {:induction false} OfferAllKeepsEarliest<T>(contents: seq<T>, capacity: nat, xs: seq<T>)
    requires |contents| <= capacity
    ensures OfferAll(contents, capacity, xs) == (contents + xs)[..Min(|contents| + |xs|, capacity)]
    decreases |xs|
  {
    if xs == [] {
      assert contents + xs == contents;
    } else {
      var next := Offer(contents, capacity, xs[0]);
      OfferAllKeepsEarliest(next, capacity, xs[1..]);
      if |contents| < capacity {
        assert next + xs[1..] == contents + xs;
      } else {
        assert (contents + xs[1..])[..capacity] == contents == (contents + xs)[..capacity];
      }
    }
  }

  /**
   * Starting empty, a store of capacity `c` holds the first `c` offers in
   * order, and is full exactly when at least `c` items were offered.
   */
  lemma FillsAfterExactlyCapacity<T>(capacity: nat, xs: seq<T>)
    ensures OfferAll([], capacity, xs) == xs[..Min(|xs|, capacity)]
    ensures |OfferAll([], capacity, xs)| == capacity <==> |xs| >= capacity
  {
    OfferAllKeepsEarliest([], capacity, xs);
    assert [] + xs == xs;
  }

  /**
   * `System.arraycopy(src, 0, dst, 0, n)` into a new array of length `n`: the
   * caller gets a fresh array, so later changes to either side do not show in the other.
   */
  method CopyPrefix<T(0)>(src: array<T>, n: nat) returns (dst: array<T>)
    requires n <= src.Length
    ensures fresh(dst)
    ensures dst[..] == src[..n]
  {
    dst := new T[n];
    var i := 0;
    while i < n
      invariant 0 <= i <= n
      invariant forall k :: 0 <= k < i ==> dst[k] == src[k]
    {
      dst[i] := src[i];
      i := i + 1;
    }
  }
}
