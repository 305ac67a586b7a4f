/**
 * The type-erased growable buffer `BlobVec` (ecs/store/blob.rs). Element bytes are
 * abstracted to values of `T`; the layout is kept as its byte size.
 */
module Blob {
  import Seqs
  import opened Wrappers

  const USIZE_MAX: nat := 0xFFFF_FFFF_FFFF_FFFF
  const ISIZE_MAX: nat := 0x7FFF_FFFF_FFFF_FFFF

  type Usize = n: nat | n <= USIZE_MAX

  function Max(a: nat, b: nat): nat { if a >= b then a else b }

  /** `layout_repeat`: `n` elements of `size` bytes form a layout iff the byte count fits in isize. */
  predicate RepeatFits(size: nat, n: nat) {
    size * n <= ISIZE_MAX
  }

  lemma RepeatFitsBelow(size: nat, a: nat, b: nat)
    requires a <= b && RepeatFits(size, b)
    ensures RepeatFits(size, a)
  {
    assert size * a <= size * b;
  }

  /** Capacity after `reallocate(newCap)`, or `None` where it panics. */
  function Reallocated(size: nat, newCap: nat): Option<nat> {
    if newCap > ISIZE_MAX then None
    else if !RepeatFits(size, newCap) then None
    else Some(newCap)
  }

  /** Capacity after `grow_by(additional)`: a checked add, then a reallocation only if it grew. */
  function Grown(size: nat, cap: nat, additional: nat): Option<nat> {
    var newCap := cap + additional;
    if newCap > USIZE_MAX then None
    else if newCap > cap then Reallocated(size, newCap)
    else Some(cap)
  }

  /**
   * Capacity after `reserve(additional)` with `len` elements stored, or `None` where it
   * panics. On success there is room for `additional` more elements, and a buffer that
   * already had room keeps its capacity.
   */
  function Reserved(size: nat, len: nat, cap: nat, additional: nat): (r: Option<nat>)
    requires len <= cap
    ensures r.Some? ==> r.value >= cap && r.value - len >= additional
    ensures additional <= cap - len ==> r == Some(cap)
  {
    var free := cap - len;
    if additional > free then Grown(size, cap, Max(cap, additional - free)) else Some(cap)
  }

  /** `new(layout, drop, n)` on a sized layout ends with capacity exactly `n`, unless it panics. */
  lemma NewCapacity(size: nat, n: nat)
    requires size > 0
    ensures Reserved(size, 0, 0, n) == if size * n <= ISIZE_MAX then Some(n) else None
  {
    if n > 0 && size * n <= ISIZE_MAX {
      assert n <= size * n;
    }
  }

  /** A zero-sized layout starts at capacity `usize::MAX`; `reserve` then fails only on overflow. */
  lemma ZeroSizedReserve(len: nat, additional: nat)
    requires len <= USIZE_MAX
    ensures Reserved(0, len, USIZE_MAX, additional) ==
      if len + additional <= USIZE_MAX then Some(USIZE_MAX) else None
  {
  }

  /** When `reserve` has to grow the buffer, it at least doubles the capacity. */
  lemma ReserveGrowsGeometrically(size: nat, len: nat, cap: nat, additional: nat)
    requires len <= cap && additional > cap - len
    requires Reserved(size, len, cap, additional).Some?
    ensures Reserved(size, len, cap, additional).value >= 2 * cap
    ensures Reserved(size, len, cap, additional).value >= len + additional
  {
  }

  class BlobVec<T> {
    /** `layout.size()`: byte size of one element, 0 for zero-sized types. */
    const size: nat
    /** Whether the layout has a drop function (`drop: Option<DropFn>`). */
    const hasDrop: bool
    /** The initialised elements `0..len`, in slot order. */
    var items: seq<T>
    var capacity: nat
    /** Elements passed to the drop function so far, in call order. */
    var dropped: seq<T>

    ghost predicate Valid()
      reads this
    {
      |items| <= capacity <= USIZE_MAX
      && (size == 0 ==> capacity == USIZE_MAX)
      && (size > 0 ==> capacity <= ISIZE_MAX && RepeatFits(size, capacity))
    }

    /** The struct built by `new` before it reserves: dangling data, no elements. */
    constructor Dangling(size: nat, hasDrop: bool)
      ensures Valid() && this.size == size && this.hasDrop == hasDrop
      ensures items == [] && dropped == []
      ensures capacity == if size == 0 then USIZE_MAX else 0
    {
      this.size := size;
      this.hasDrop := hasDrop;
      items := [];
      dropped := [];
      capacity := if size == 0 then USIZE_MAX else 0;
    }

    /** `new(layout, drop, capacity)`: an empty buffer that has reserved `capacity` slots. */
    static method New(size: nat, hasDrop: bool, capacity: Usize) returns (r: Option<BlobVec<T>>)
      ensures r.Some? <==> Reserved(size, 0, if size == 0 then USIZE_MAX else 0, capacity).Some?
      ensures r.Some? ==> fresh(r.value) && r.value.Valid()
      ensures r.Some? ==> r.value.size == size && r.value.hasDrop == hasDrop
      ensures r.Some? ==> r.value.items == [] && r.value.dropped == []
      ensures r.Some? ==> r.value.capacity == Reserved(size, 0, if size == 0 then USIZE_MAX else 0, capacity).value
    {
      var blob := new BlobVec<T>.Dangling(size, hasDrop);
      var ok := blob.Reserve(capacity);
      r := if ok then Some(blob) else None;
    }

    /** `reallocate`: callers never use it on zero-sized types, nor to drop live elements. */
    method Reallocate(newCap: nat) returns (ok: bool)
      requires Valid() && size != 0 && newCap > 0 && |items| <= newCap
      modifies this`capacity
      ensures Valid()
      ensures ok == Reallocated(size, newCap).Some?
      ensures capacity == if ok then newCap else old(capacity)
    {
      if newCap > ISIZE_MAX {
        return false;
      }
      if !RepeatFits(size, newCap) {
        return false;
      }
      capacity := newCap;
      return true;
    }

    method GrowBy(additional: nat) returns (ok: bool)
      requires Valid()
      modifies this`capacity
      ensures Valid()
      ensures ok == Grown(size, old(capacity), additional).Some?
      ensures capacity == if ok then Grown(size, old(capacity), additional).value else old(capacity)
    {
      var newCap := capacity + additional;
      if newCap > USIZE_MAX {
        return false;
      }
      if newCap > capacity {
        ok := Reallocate(newCap);
      } else {
        ok := true;
      }
    }

    method Reserve(additional: Usize) returns (ok: bool)
      requires Valid()
      modifies this`capacity
      ensures Valid()
      ensures ok == Reserved(size, |items|, old(capacity), additional).Some?
      ensures capacity == if ok then Reserved(size, |items|, old(capacity), additional).value else old(capacity)
    {
      var free := capacity - |items|;
      if additional > free {
        ok := GrowBy(Max(capacity, additional - free));
      } else {
        ok := true;
      }
    }

    /** `push`: reserves one slot and writes `v` at index `len`. */
    method Push(v: T) returns (ok: bool)
      requires Valid()
      modifies this`capacity, this`items
      ensures Valid()
      ensures ok == Reserved(size, |old(items)|, old(capacity), 1).Some?
      ensures items == if ok then old(items) + [v] else old(items)
      ensures capacity == if ok then Reserved(size, |old(items)|, old(capacity), 1).value else old(capacity)
    {
      ok := Reserve(1);
      if ok {
        items := items + [v];
      }
    }

    /** `set`: drops the element at `i` and writes `v` in its place. */
    method Set(v: T, i: nat)
      requires Valid() && i < |items|
      modifies this`items, this`dropped
      ensures Valid()
      ensures items == old(items)[i := v]
      ensures dropped == old(dropped) + if hasDrop then [old(items)[i]] else []
    {
      if hasDrop {
        dropped := dropped + [items[i]];
      }
      items := items[i := v];
    }

    /** `remove` (`swap_remove_raw`): hands back element `i`; the last element moves into its slot. */
    method Remove(i: nat) returns (v: T)
      requires Valid() && i < |items|
      modifies this`items
      ensures Valid()
      ensures v == old(items)[i]
      ensures items == Seqs.SwapRemove(old(items), i)
    {
      var last := |items| - 1;
      if i != last {
        items := items[i := items[last]][last := items[i]];
      }
      v := items[last];
      items := items[..last];
    }

    /** `clear_range(start, end)`: only a suffix can be cleared; each element goes to drop. */
    method ClearRange(start: nat, end: nat)
      requires Valid() && start < end == |items|
      modifies this`items, this`dropped
      ensures Valid()
      ensures items == old(items)[..start]
      ensures dropped == old(dropped) + if hasDrop then old(items)[start..] else []
    {
      if hasDrop {
        var i := start;
        while i < end
          invariant start <= i <= end && items == old(items)
          invariant dropped == old(dropped) + items[start..i]
        {
          dropped := dropped + [items[i]];
          i := i + 1;
        }
      }
      items := items[..start];
    }

    /** `deallocate`: only a non-empty allocation is released; elements must be gone already. */
    method Deallocate()
      requires Valid() && items == []
      modifies this`capacity
      ensures Valid()
      ensures capacity == if size * old(capacity) != 0 then 0 else old(capacity)
    {
      if size * capacity != 0 {
        capacity := 0;
      }
    }

    /** `shrink_to_fit_raw(c)`: truncates to `c` elements when needed and reallocates to `c`. */
    method ShrinkToFitRaw(c: nat)
      requires Valid()
      modifies this`capacity, this`items, this`dropped
      ensures Valid()
      ensures size == 0 || c >= old(capacity) ==>
        items == old(items) && capacity == old(capacity) && dropped == old(dropped)
      ensures size != 0 && c < old(capacity) ==>
        capacity == c
        && (c < |old(items)| ==>
              items == old(items)[..c]
              && dropped == old(dropped) + (if hasDrop then old(items)[c..] else []))
        && (c >= |old(items)| ==> items == old(items) && dropped == old(dropped))
    {
      if size == 0 || c >= capacity {
        return;
      }
      if c < |items| {
        ClearRange(c, |items|);
      }
      if c == 0 {
        Deallocate();
      } else {
        RepeatFitsBelow(size, c, capacity);
        var _ := Reallocate(c);
      }
    }

    /** `shrink_to(c)`: never below `len`, never grows, keeps every element. */
    method ShrinkTo(c: nat)
      requires Valid()
      modifies this`capacity, this`items, this`dropped
      ensures Valid() && items == old(items) && dropped == old(dropped)
      ensures capacity == if size != 0 && Max(|items|, c) < old(capacity) then Max(|items|, c) else old(capacity)
    {
      var target := Max(|items|, c);
      if target < capacity {
        ShrinkToFitRaw(target);
      }
    }

    /** `shrink_to_fit`: capacity becomes `len` on a sized layout. */
    method ShrinkToFit()
      requires Valid()
      modifies this`capacity, this`items, this`dropped
      ensures Valid() && items == old(items) && dropped == old(dropped)
      ensures capacity == if size != 0 then |items| else old(capacity)
    {
      ShrinkTo(0);
    }

    /** `clear`: drops every element and keeps the capacity. */
    method Clear()
      requires Valid()
      modifies this`items, this`dropped
      ensures Valid() && items == []
      ensures dropped == old(dropped) + if hasDrop then old(items) else []
    {
      if |items| == 0 {
        return;
      }
      ClearRange(0, |items|);
    }

    /**
     * `append(other)`: moves all of `other`'s elements to the end of this buffer without
     * dropping them; `other` is left empty. Fails where the reservation panics.
     */
    method Append(other: BlobVec<T>) returns (ok: bool)
      requires Valid() && other.Valid() && other != this && other.size == size
      modifies this`capacity, this`items, other`items
      ensures Valid() && other.Valid()
      ensures old(other.items) == [] ==> ok && items == old(items) && other.items == [] && capacity == old(capacity)
      ensures old(other.items) != [] ==>
        ok == Reserved(size, |old(items)|, old(capacity), |old(other.items)|).Some?
      ensures ok ==> items == old(items) + old(other.items) && other.items == []
      ensures !ok ==> items == old(items) && other.items == old(other.items) && capacity == old(capacity)
    {
      var otherLen := |other.items|;
      if otherLen == 0 {
        return true;
      }
      ok := Reserve(otherLen);
      if !ok {
        return;
      }
      items := items + other.items;
      other.items := [];
    }
  }
}
