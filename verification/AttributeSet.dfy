/**
 * The byte-packed bit array behind every capability and state bitmap, least significant bit
 * first, and its iterators.
 */
module AttributeSet {
  import opened Events
  import opened Sequences
  import opened Wrappers

  // The byte with only bit `i` set, least significant bit first.
  function Mask(i: nat): bv8
    requires i < 8
  {
    if i == 0 then 0x01 else if i == 1 then 0x02 else if i == 2 then 0x04 else if i == 3 then 0x08
    else if i == 4 then 0x10 else if i == 5 then 0x20 else if i == 6 then 0x40 else 0x80
  }

  function BitOf(b: bv8, i: nat): bool
    requires i < 8
  {
    b & Mask(i) != 0
  }

  function WithBit(b: bv8, i: nat, on: bool): bv8
    requires i < 8
  {
    if on then b | Mask(i) else b & !Mask(i)
  }

  // The bits of a byte buffer in index order.
  function Bits(bytes: seq<bv8>): seq<bool> {
    seq(8 * |bytes|, k requires 0 <= k < 8 * |bytes| => BitOf(bytes[k / 8], k % 8))
  }

  function Members(bits: seq<bool>): set<nat> {
    set i: nat | i < |bits| && bits[i]
  }

  // Indices of the set bits in [lo, hi), rising.
  function Ones(bits: seq<bool>, lo: nat, hi: nat): (r: seq<nat>)
    requires hi <= |bits|
    decreases hi - lo
  {
    if lo >= hi then [] else (if bits[lo] then [lo] else []) + Ones(bits, lo + 1, hi)
  }

  // The i-th binary digit of a number, the units first.
  predicate Digit(x: nat, i: nat) {
    if i == 0 then x % 2 == 1 else Digit(x / 2, i - 1)
  }

  lemma Halves(b: bv8)
    ensures (b >> 1) as int == b as int / 2
    ensures b & 0x01 != 0 <==> b as int % 2 == 1
  {
  }

  lemma BitMovesDown(b: bv8, i: nat)
    requires 0 < i < 8
    ensures BitOf(b, i) <==> BitOf(b >> 1, i - 1)
  {
  }

  lemma {:induction false} BitIsDigit(b: bv8, i: nat)
    requires i < 8
    ensures BitOf(b, i) <==> Digit(b as int, i)
    decreases i
  {
    hide BitOf;
    if i == 0 {
      UnitsBit(b);
    } else {
      Halves(b);
      BitMovesDown(b, i);
      BitIsDigit(b >> 1, i - 1);
    }
  }

  lemma UnitsBit(b: bv8)
    ensures BitOf(b, 0) <==> b as int % 2 == 1
  {
    Halves(b);
  }

  /** Least significant bit first: bit k of the array is binary digit k % 8 of byte k / 8. */
  lemma BitsAreDigits(bytes: seq<bv8>, k: nat)
    requires k < 8 * |bytes|
    ensures k in Members(Bits(bytes)) <==> Digit(bytes[k / 8] as int, k % 8)
  {
    BitIsDigit(bytes[k / 8], k % 8);
  }

  lemma MasksDisjoint(i: nat, j: nat)
    requires i < 8 && j < 8
    ensures Mask(i) & Mask(j) == if i == j then Mask(i) else 0
    ensures Mask(i) != 0
  {
  }

  lemma MaskedWrite(b: bv8, m: bv8, n: bv8)
    ensures (b | m) & m == m && (b & !m) & m == 0
    ensures m & n == 0 ==> (b | m) & n == b & n && (b & !m) & n == b & n
  {
  }

  lemma BitOfWithBit(b: bv8, i: nat, on: bool, j: nat)
    requires i < 8 && j < 8
    ensures BitOf(WithBit(b, i, on), j) == if i == j then on else BitOf(b, j)
  {
    MasksDisjoint(i, j);
    MaskedWrite(b, Mask(i), Mask(j));
  }

  /** Writing one bit of its byte writes one bit of the whole array. */
  lemma BitsUpdate(bytes: seq<bv8>, k: nat, on: bool)
    requires k < 8 * |bytes|
    ensures Bits(bytes[k / 8 := WithBit(bytes[k / 8], k % 8, on)]) == Bits(bytes)[k := on]
  {
    var after := bytes[k / 8 := WithBit(bytes[k / 8], k % 8, on)];
    forall j: nat | j < 8 * |bytes| ensures Bits(after)[j] == Bits(bytes)[k := on][j] {
      if j / 8 == k / 8 { BitOfWithBit(bytes[k / 8], k % 8, on, j % 8); }
    }
  }

  lemma MembersUpdate(bits: seq<bool>, k: nat, on: bool)
    requires k < |bits|
    ensures Members(bits[k := on]) == if on then Members(bits) + {k} else Members(bits) - {k}
  {
  }

  /** The enumeration is strictly increasing and lists exactly the members of the range. */
  lemma {:induction false} OnesExact(bits: seq<bool>, lo: nat, hi: nat)
    requires hi <= |bits|
    ensures forall i, j | 0 <= i < j < |Ones(bits, lo, hi)| :: Ones(bits, lo, hi)[i] < Ones(bits, lo, hi)[j]
    ensures forall k: nat :: k in Ones(bits, lo, hi) <==> lo <= k < hi && k in Members(bits)
    decreases hi - lo
  {
    if lo >= hi {
    } else {
      OnesExact(bits, lo + 1, hi);
      var rest := Ones(bits, lo + 1, hi);
      assert forall i | 0 <= i < |rest| :: rest[i] in rest;
    }
  }

  lemma {:induction false} OnesSplit(bits: seq<bool>, lo: nat, mid: nat, hi: nat)
    requires lo <= mid <= hi <= |bits|
    ensures Ones(bits, lo, hi) == Ones(bits, lo, mid) + Ones(bits, mid, hi)
    decreases mid - lo
  {
    if lo == mid {
    } else {
      OnesSplit(bits, lo + 1, mid, hi);
      Associative(if bits[lo] then [lo] else [], Ones(bits, lo + 1, mid), Ones(bits, mid, hi));
    }
  }

  lemma OnesLast(bits: seq<bool>, lo: nat, hi: nat)
    requires lo < hi <= |bits|
    ensures !bits[hi - 1] ==> Ones(bits, lo, hi) == Ones(bits, lo, hi - 1)
    ensures bits[hi - 1] ==>
      var ones := Ones(bits, lo, hi);
      ones != [] && ones[|ones| - 1] == hi - 1 && ones[..|ones| - 1] == Ones(bits, lo, hi - 1)
  {
    OnesSplit(bits, lo, hi - 1, hi);
  }

  lemma OnesEmpty(bits: seq<bool>, at: nat)
    requires at <= |bits|
    ensures Ones(bits, at, at) == []
  {
  }

  // `from_index` applied to every index of a slice that starts at `offset`.
  function Shift(s: seq<nat>, offset: nat): seq<nat> {
    seq(|s|, i requires 0 <= i < |s| => s[i] + offset)
  }

  lemma ShiftFirst(first: nat, rest: seq<nat>, offset: nat)
    ensures Shift([first] + rest, offset) == [first + offset] + Shift(rest, offset)
  {
  }

  lemma OnesFirst(bits: seq<bool>, lo: nat, hi: nat)
    requires lo < hi <= |bits|
    ensures Ones(bits, lo, hi) == if bits[lo] then [lo] + Ones(bits, lo + 1, hi) else Ones(bits, lo + 1, hi)
  {
  }

  lemma NothingToShift(bits: seq<bool>, at: nat, offset: nat)
    requires at <= |bits|
    ensures Ones(bits, at, at) == Shift([], offset) == []
  {
  }

  /** A slice's own indices, shifted by where it starts, are the members from there on. */
  lemma {:induction false} SliceOnes(bits: seq<bool>, start: nat, lo: nat)
    requires start <= |bits| && lo <= |bits| - start
    ensures Shift(Ones(bits[start..], lo, |bits| - start), start) == Ones(bits, start + lo, |bits|)
    decreases |bits| - start - lo
  {
    hide Ones, Shift;
    if lo == |bits| - start {
      NothingToShift(bits, |bits|, start);
      NothingToShift(bits[start..], lo, start);
    } else {
      SliceOnes(bits, start, lo + 1);
      OnesFirst(bits, start + lo, |bits|);
      OnesFirst(bits[start..], lo, |bits| - start);
      ShiftFirst(lo, Ones(bits[start..], lo + 1, |bits| - start), start);
    }
  }

  /**
   * `next_back` hands out slice indices without the shift, so walking a slice backwards lists
   * the right codes exactly when the slice starts at 0 or has no member left.
   */
  lemma ReverseRightIff(bits: seq<bool>, start: nat)
    requires start <= |bits|
    ensures Ones(bits[start..], 0, |bits| - start) == Ones(bits, start, |bits|)
      <==> start == 0 || forall k | k in Members(bits) :: k < start
  {
    var inner := Ones(bits[start..], 0, |bits| - start);
    var right := Ones(bits, start, |bits|);
    SliceOnes(bits, start, 0);
    OnesExact(bits, start, |bits|);
    if inner == [] {
      assert right == [];
      assert forall k | k in Members(bits) && k >= start :: k in right;
    } else {
      assert right[0] == inner[0] + start;
      assert right[0] in right;
    }
    assert bits[0..] == bits;
  }

  class AttributeSet {
    const container: array<bv8>

    function BitSlice(): (bits: seq<bool>)
      reads container
    {
      Bits(container[..])
    }

    ghost function Elements(): set<nat>
      reads container
    {
      Members(BitSlice())
    }

    // The array of `count` bits, rounded up to whole bytes, all zero.
    constructor (count: nat)
      ensures fresh(container) && container.Length == (count + 7) / 8
      ensures Elements() == {}
    {
      container := new bv8[(count + 7) / 8](_ => 0);
    }

    method Contains(attr: u16) returns (r: bool)
      ensures r <==> attr in Elements()
    {
      if attr < 8 * container.Length {
        r := BitOf(container[attr / 8], attr % 8);
      } else {
        r := false;
      }
    }

    // Setting a bit outside the array panics, hence the precondition.
    method Set(attr: u16, on: bool)
      requires attr < 8 * container.Length
      modifies container
      ensures BitSlice() == old(BitSlice())[attr := on]
      ensures Elements() == if on then old(Elements()) + {attr as nat} else old(Elements()) - {attr as nat}
    {
      ghost var before := container[..];
      BitsUpdate(before, attr, on);
      MembersUpdate(Bits(before), attr, on);
      container[attr / 8] := WithBit(container[attr / 8], attr % 8, on);
      assert container[..] == before[attr / 8 := WithBit(before[attr / 8], attr % 8, on)];
    }

    method Insert(attr: u16)
      requires attr < 8 * container.Length
      modifies container
      ensures Elements() == old(Elements()) + {attr as nat}
    {
      Set(attr, true);
    }

    method Remove(attr: u16)
      requires attr < 8 * container.Length
      modifies container
      ensures Elements() == old(Elements()) - {attr as nat}
    {
      Set(attr, false);
    }

    static method FromIter(count: nat, els: seq<u16>) returns (s: AttributeSet)
      requires forall i | 0 <= i < |els| :: els[i] < 8 * ((count + 7) / 8)
      ensures fresh(s) && fresh(s.container)
      ensures s.Elements() == set i | 0 <= i < |els| :: els[i] as nat
    {
      s := new AttributeSet(count);
      for n := 0 to |els|
        invariant fresh(s.container) && s.container.Length == (count + 7) / 8
        invariant s.Elements() == set i | 0 <= i < n :: els[i] as nat
      {
        s.Insert(els[n]);
      }
    }

    method Iter() returns (it: AttributeSetRefIter)
      requires 8 * container.Length <= 0x1_0000
      ensures fresh(it) && it.Valid() && it.offset == 0
      ensures it.Codes() == Ones(BitSlice(), 0, 8 * container.Length)
    {
      it := new AttributeSetRefIter(Bits(container[..]), 0);
    }

    method SliceIter(start: u16) returns (it: AttributeSetRefIter)
      requires start <= 8 * container.Length <= 0x1_0000
      ensures fresh(it) && it.Valid() && it.offset == start
      ensures it.Codes() == Ones(BitSlice(), start, 8 * container.Length)
    {
      it := new AttributeSetRefIter(Bits(container[..]), start);
    }
  }

  /** An iterator over the set bits of a slice that starts at `offset` of the whole array. */
  class AttributeSetRefIter {
    const bits: seq<bool>
    const offset: nat
    var front: nat
    var back: nat

    predicate Valid()
      reads this
    {
      front <= back <= |bits| && offset + |bits| <= 0x1_0000
    }

    // Slice indices still to come.
    ghost function Remaining(): seq<nat>
      requires Valid()
      reads this
    {
      Ones(bits, front, back)
    }

    // The codes they stand for.
    ghost function Codes(): seq<nat>
      requires Valid()
      reads this
    {
      Shift(Remaining(), offset)
    }

    constructor (whole: seq<bool>, start: nat)
      requires start <= |whole| <= 0x1_0000
      ensures Valid() && bits == whole[start..] && offset == start && front == 0 && back == |bits|
      ensures Codes() == Ones(whole, start, |whole|)
    {
      bits := whole[start..];
      offset := start;
      front := 0;
      back := |whole| - start;
      new;
      SliceOnes(whole, start, 0);
    }

    method Next() returns (r: Option<u16>)
      requires Valid()
      modifies this`front
      ensures Valid()
      ensures old(Codes()) == [] ==> r.None? && Codes() == []
      ensures old(Codes()) != [] ==> r.Some? && r.value as nat == old(Codes())[0] && Codes() == old(Codes())[1..]
      ensures old(front) <= front
      ensures r.Some? ==> offset + old(front) <= r.value < offset + |bits| && front == r.value - offset + 1
      ensures r.Some? ==> bits[r.value - offset] && forall k | old(front) <= k < r.value - offset :: !bits[k]
      ensures r.None? ==> forall k | old(front) <= k < back :: !bits[k]
    {
      var i := front;
      while i < back && !bits[i]
        invariant front <= i <= back
        invariant forall k | front <= k < i :: !bits[k]
        invariant Ones(bits, i, back) == old(Remaining())
      {
        i := i + 1;
      }
      if i < back {
        r := Some(offset + i);
        front := i + 1;
        assert old(Remaining()) == [i] + Ones(bits, i + 1, back);
      } else {
        r := None;
        front := back;
      }
    }

    // Unlike `Next`, the index comes back without the offset.
    method NextBack() returns (r: Option<u16>)
      requires Valid()
      modifies this`back
      ensures Valid()
      ensures old(Remaining()) == [] ==> r.None? && Remaining() == []
      ensures old(Remaining()) != [] ==>
        var n := |old(Remaining())| - 1;
        r.Some? && r.value as nat == old(Remaining())[n] && Remaining() == old(Remaining())[..n]
    {
      hide Ones;
      var i := back;
      while i > front && !bits[i - 1]
        invariant front <= i <= back
        invariant Ones(bits, front, i) == old(Remaining())
      {
        OnesLast(bits, front, i);
        i := i - 1;
      }
      if i > front {
        r := Some(i - 1);
        OnesLast(bits, front, i);
        back := i - 1;
      } else {
        r := None;
        back := front;
        OnesEmpty(bits, front);
      }
    }

    // `len` counts exactly the items still to come.
    method Len() returns (n: nat)
      requires Valid()
      ensures n == |Codes()|
    {
      n := 0;
      for i := front to back
        invariant n + |Ones(bits, i, back)| == |Remaining()|
      {
        if bits[i] { n := n + 1; }
      }
    }
  }
}
