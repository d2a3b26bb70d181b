/**
 The packed chunk bitmap (`bitmap.rs`): bit `i` is chunk `i`, most significant bit first,
 with a count of set bits kept beside it. Its abstract value is a sequence of booleans.
 */
module Bitmap {
  import opened Octets
  import opened Rle

  const MAX_CHUNK_COUNT := U32_LIMIT

  // --- Bits of a byte ---

  /** The mask 0x80 shifted right by `j`. */
  function Mask(j: nat): bv8
    requires j < 8
  {
    if j == 0 then 0x80 else if j == 1 then 0x40 else if j == 2 then 0x20 else if j == 3 then 0x10
    else if j == 4 then 0x08 else if j == 5 then 0x04 else if j == 6 then 0x02 else 0x01
  }

  predicate TestBit(b: bv8, j: nat)
    requires j < 8
  {
    b & Mask(j) != 0
  }

  /** A byte is the sum of its bits, bit 0 counting most. */
  lemma MostSignificantFirst(b: bv8)
    ensures b == (if TestBit(b, 0) then 128 else 0) + (if TestBit(b, 1) then 64 else 0) +
                 (if TestBit(b, 2) then 32 else 0) + (if TestBit(b, 3) then 16 else 0) +
                 (if TestBit(b, 4) then 8 else 0) + (if TestBit(b, 5) then 4 else 0) +
                 (if TestBit(b, 6) then 2 else 0) + (if TestBit(b, 7) then 1 else 0)
  {
    assert b & 0x80 == 0 || b & 0x80 == 0x80;
  }

  /** Setting one bit sets that bit and no other. */
  lemma SetBitTests(b: bv8, j: nat, k: nat)
    requires j < 8 && k < 8
    ensures TestBit(b | Mask(j), k) <==> k == j || TestBit(b, k)
  {
  }

  /** The bits from position `used` on, `0xff` shifted right by `used`. */
  function TrailingMask(used: nat): bv8
    requires 0 < used < 8
  {
    if used == 1 then 0x7f else if used == 2 then 0x3f else if used == 3 then 0x1f else if used == 4 then 0x0f
    else if used == 5 then 0x07 else if used == 6 then 0x03 else 0x01
  }

  ghost predicate ClearFrom(b: bv8, used: nat) {
    forall j: nat :: used <= j < 8 ==> !TestBit(b, j)
  }

  lemma TrailingTests(b: bv8, used: nat)
    requires 0 < used < 8
    ensures b & TrailingMask(used) == 0 <==> ClearFrom(b, used)
  {
    if ClearFrom(b, used) {
      assert !TestBit(b, 7);
      assert used <= 6 ==> !TestBit(b, 6);
      assert used <= 5 ==> !TestBit(b, 5);
      assert used <= 4 ==> !TestBit(b, 4);
      assert used <= 3 ==> !TestBit(b, 3);
      assert used <= 2 ==> !TestBit(b, 2);
      assert used <= 1 ==> !TestBit(b, 1);
    }
  }

  function One(on: bool): nat {
    if on then 1 else 0
  }

  function ByteBits(b: bv8): seq<bool> {
    [TestBit(b, 0), TestBit(b, 1), TestBit(b, 2), TestBit(b, 3), TestBit(b, 4), TestBit(b, 5), TestBit(b, 6),
     TestBit(b, 7)]
  }

  function CountOnes(b: bv8): nat {
    Count(ByteBits(b))
  }

  function SumOnes(bytes: seq<bv8>): nat {
    if bytes == [] then 0 else SumOnes(bytes[..|bytes| - 1]) + CountOnes(bytes[|bytes| - 1])
  }

  // --- Bits of a byte string ---

  function BitAt(bytes: seq<bv8>, i: nat): bool
    requires i < 8 * |bytes|
  {
    TestBit(bytes[i / 8], i % 8)
  }

  function BitsOf(bytes: seq<bv8>, n: nat): (s: seq<bool>)
    requires n <= 8 * |bytes|
    ensures |s| == n
  {
    seq(n, (i: nat) requires i < n => BitAt(bytes, i))
  }

  function Count(bits: seq<bool>): nat {
    if bits == [] then 0 else Count(bits[..|bits| - 1]) + One(bits[|bits| - 1])
  }

  lemma {:induction false} CountConcat(a: seq<bool>, b: seq<bool>)
    ensures Count(a + b) == Count(a) + Count(b)
    decreases |b|
  {
    if b == [] {
      assert a + b == a;
    } else {
      CountConcat(a, b[..|b| - 1]);
      assert (a + b)[..|a + b| - 1] == a + b[..|b| - 1];
    }
  }

  /** Turning a clear bit on adds one. */
  lemma CountSet(bits: seq<bool>, i: nat)
    requires i < |bits| && !bits[i]
    ensures Count(bits[i := true]) == Count(bits) + 1
  {
    assert bits == bits[..i] + [bits[i]] + bits[i + 1..];
    assert bits[i := true] == bits[..i] + [true] + bits[i + 1..];
    CountConcat(bits[..i], [bits[i]]);
    CountConcat(bits[..i], [true]);
    CountConcat(bits[..i] + [bits[i]], bits[i + 1..]);
    CountConcat(bits[..i] + [true], bits[i + 1..]);
  }

  lemma {:induction false} CountBounds(bits: seq<bool>)
    ensures Count(bits) <= |bits|
    ensures Count(bits) == |bits| <==> forall i :: 0 <= i < |bits| ==> bits[i]
    ensures Count(bits) == 0 <==> forall i :: 0 <= i < |bits| ==> !bits[i]
    decreases |bits|
  {
    if bits != [] {
      var front := bits[..|bits| - 1];
      CountBounds(front);
      assert forall i :: 0 <= i < |front| ==> bits[i] == front[i];
    }
  }

  function AllBits(bytes: seq<bv8>): (s: seq<bool>)
    ensures |s| == 8 * |bytes|
  {
    if bytes == [] then [] else AllBits(bytes[..|bytes| - 1]) + ByteBits(bytes[|bytes| - 1])
  }

  lemma {:induction false} AllBitsAt(bytes: seq<bv8>, i: nat)
    requires i < 8 * |bytes|
    ensures AllBits(bytes)[i] == BitAt(bytes, i)
    decreases |bytes|
  {
    hide TestBit;
    var m := |bytes| - 1;
    if i < 8 * m {
      AllBitsAt(bytes[..m], i);
    } else {
      var j := i - 8 * m;
      assert i / 8 == m && i % 8 == j;
      assert ByteBits(bytes[m])[j] == TestBit(bytes[m], j);
    }
  }

  lemma {:induction false} CountBytes(bytes: seq<bv8>)
    ensures Count(AllBits(bytes)) == SumOnes(bytes)
    decreases |bytes|
  {
    hide ByteBits, Count;
    if bytes != [] {
      var m := |bytes| - 1;
      CountBytes(bytes[..m]);
      CountConcat(AllBits(bytes[..m]), ByteBits(bytes[m]));
    } else {
      CountBounds([]);
    }
  }

  /** Bits past the end of the bitmap are clear. */
  ghost predicate TailClear(bytes: seq<bv8>, n: nat)
    requires n <= 8 * |bytes|
  {
    forall i :: n <= i < 8 * |bytes| ==> !BitAt(bytes, i)
  }

  /** With a clear tail, the ones of all bytes are the set bits of the bitmap. */
  lemma CountInRange(bytes: seq<bv8>, n: nat)
    requires n <= 8 * |bytes| && TailClear(bytes, n)
    ensures Count(BitsOf(bytes, n)) == SumOnes(bytes)
  {
    hide BitAt, AllBits, Count, SumOnes;
    var all := AllBits(bytes);
    forall i: nat | i < 8 * |bytes| ensures all[i] == BitAt(bytes, i) {
      AllBitsAt(bytes, i);
    }
    CountBytes(bytes);
    assert all[..n] == BitsOf(bytes, n);
    assert all == all[..n] + all[n..];
    CountConcat(all[..n], all[n..]);
    CountBounds(all[n..]);
  }

  function ByteLen(n: nat): nat {
    (n + 7) / 8
  }

  lemma ByteLenBounds(n: nat)
    ensures n <= 8 * ByteLen(n) < n + 8
    ensures forall i: nat :: i < n ==> i / 8 < ByteLen(n)
  {
  }

  // --- The bitmap ---

  class ChunkBitmap {
    const chunkCount: nat
    var bytes: seq<bv8>
    var setCount: nat

    /** The count beside the bits is always the number of set bits in range. */
    ghost predicate Valid()
      reads this
    {
      && chunkCount <= MAX_CHUNK_COUNT
      && |bytes| == ByteLen(chunkCount)
      && TailClear(bytes, chunkCount)
      && setCount == Count(Bits())
    }

    ghost function Bits(): (s: seq<bool>)
      requires chunkCount <= 8 * |bytes|
      reads this
      ensures |s| == chunkCount
    {
      BitsOf(bytes, chunkCount)
    }

    constructor (chunkCount: nat)
      requires chunkCount <= MAX_CHUNK_COUNT
      ensures Valid() && this.chunkCount == chunkCount
      ensures Bits() == seq(chunkCount, _ => false)
    {
      this.chunkCount := chunkCount;
      bytes := seq(ByteLen(chunkCount), _ => 0);
      setCount := 0;
      new;
      CountBounds(Bits());
      assert Bits() == seq(chunkCount, _ => false);
    }

    method Get(index: nat) returns (r: Result<bool, BitmapError>)
      requires Valid()
      ensures r == if index < chunkCount then Ok(Bits()[index]) else Err(IndexOutOfRange)
    {
      if index >= chunkCount {
        return Err(IndexOutOfRange);
      }
      return Ok(BitAt(bytes, index));
    }

    /** Sets a bit and says whether that changed it. */
    method Set(index: nat) returns (r: Result<bool, BitmapError>)
      requires Valid()
      modifies this
      ensures Valid()
      ensures index >= chunkCount ==> r == Err(IndexOutOfRange) && Bits() == old(Bits())
      ensures index < chunkCount ==> r == Ok(!old(Bits())[index]) && Bits() == old(Bits())[index := true]
    {
      if index >= chunkCount {
        return Err(IndexOutOfRange);
      }
      hide BitAt, WithBit, BitsOf, TailClear, Count, ByteLen;
      ByteLenBounds(chunkCount);
      BitsOfAt(bytes, chunkCount, index);
      if BitAt(bytes, index) {
        assert Bits()[index := true] == Bits();
        return Ok(false);
      }
      SetInBytes(bytes, chunkCount, index);
      CountSet(Bits(), index);
      bytes := WithBit(bytes, index);
      setCount := setCount + 1;
      return Ok(true);
    }

    method IsComplete() returns (complete: bool)
      requires Valid()
      ensures complete <==> forall i :: 0 <= i < chunkCount ==> Bits()[i]
    {
      CountBounds(Bits());
      complete := setCount == chunkCount;
    }

    /** `missing_ranges`: the first gaps, at most as many as asked for. */
    method MissingRanges(maxRanges: nat) returns (ranges: seq<(nat, nat)>)
      requires Valid()
      ensures ranges == First(Gaps(Bits(), 0), maxRanges)
    {
      hide Mask, BitAt, BitsOf, Count;
      ranges := [];
      var index: nat := 0;
      ghost var bits := Bits();
      ghost var all := Gaps(bits, 0);
      while index < chunkCount && |ranges| < maxRanges
        invariant index <= chunkCount && |ranges| <= maxRanges
        invariant all == ranges + Gaps(bits, index)
        decreases chunkCount - index, maxRanges - |ranges|
      {
        ghost var entered := index;
        while index < chunkCount && Has(index)
          invariant entered <= index <= chunkCount
          invariant Gaps(bits, entered) == Gaps(bits, index)
        {
          index := index + 1;
        }
        if index >= chunkCount {
          break;
        }
        var start := index;
        while index < chunkCount && !Has(index)
          invariant start <= index <= chunkCount
          invariant RunEnd(bits, start, false) == RunEnd(bits, index, false)
        {
          index := index + 1;
        }
        assert RunEnd(bits, index, false) == index;
        assert all == ranges + ([(start, index)] + Gaps(bits, index));
        ranges := ranges + [(start, index)];
      }
      assert index == chunkCount ==> all == ranges;
    }

    /** A bit in range, as the loops read it. */
    function Has(index: nat): (b: bool)
      requires Valid() && index < chunkCount
      reads this
      ensures b == Bits()[index]
    {
      BitAt(bytes, index)
    }

    /** `encode_rle`: the branch that flips polarity consumes no index, and the loop still ends. */
    method EncodeRle() returns (out: seq<Byte>)
      requires Valid()
      ensures out == Encode(Bits())
    {
      hide Mask, BitAt, BitsOf, Count, Leb;
      out := [];
      var index: nat := 0;
      var expectSet := false;
      ghost var bits := Bits();
      while index < chunkCount
        invariant index <= chunkCount
        invariant out + LebAll(Runs(bits, index, expectSet)) == Encode(bits)
        decreases chunkCount - index, if index < chunkCount && bits[index] == expectSet then 0 else 1
      {
        ghost var before := out;
        ghost var first := index;
        var value := Has(index);
        if value != expectSet {
          out := WriteLeb128(out, 0);
          NextRun(before, out, bits, first, index, expectSet);
          expectSet := !expectSet;
          continue;
        }
        var start := index;
        while index < chunkCount && Has(index) == value
          invariant start <= index <= chunkCount
          invariant RunEnd(bits, start, value) == RunEnd(bits, index, value)
          invariant index == start ==> bits[start] == value
        {
          index := index + 1;
        }
        out := WriteLeb128(out, index - start);
        NextRun(before, out, bits, first, index, expectSet);
        expectSet := !expectSet;
      }
      assert out + [] == out;
    }
  }

  /** Writing one run moves the encoder one run forward. */
  lemma NextRun(before: seq<Byte>, out: seq<Byte>, bits: seq<bool>, i: nat, e: nat, polarity: bool)
    requires i < |bits| && e == RunEnd(bits, i, polarity)
    requires out == before + Leb(e - i)
    ensures before + LebAll(Runs(bits, i, polarity)) == out + LebAll(Runs(bits, e, !polarity))
  {
    hide Leb;
    var rest := Runs(bits, e, !polarity);
    assert ([e - i] + rest)[1..] == rest;
    assert before + (Leb(e - i) + LebAll(rest)) == before + Leb(e - i) + LebAll(rest);
  }

  function First<T>(s: seq<T>, n: nat): seq<T> {
    if |s| <= n then s else s[..n]
  }

  lemma BitsOfAt(bytes: seq<bv8>, n: nat, i: nat)
    requires i < n <= 8 * |bytes|
    ensures BitsOf(bytes, n)[i] == BitAt(bytes, i)
  {
  }

  /** The bytes with one more bit set. */
  function WithBit(bytes: seq<bv8>, index: nat): (after: seq<bv8>)
    requires index < 8 * |bytes|
    ensures |after| == |bytes|
  {
    bytes[index / 8 := bytes[index / 8] | Mask(index % 8)]
  }

  /** Setting a bit of the packed bytes sets that bit of the bitmap and keeps the tail clear. */
  lemma SetInBytes(bytes: seq<bv8>, n: nat, index: nat)
    requires index < n <= 8 * |bytes|
    ensures BitsOf(WithBit(bytes, index), n) == BitsOf(bytes, n)[index := true]
    ensures TailClear(bytes, n) ==> TailClear(WithBit(bytes, index), n)
  {
    hide BitAt, WithBit;
    var after := WithBit(bytes, index);
    forall i: nat | i < 8 * |bytes| ensures BitAt(after, i) == (i == index || BitAt(bytes, i)) {
      BitAtWithBit(bytes, index, i);
    }
  }

  lemma BitAtWithBit(bytes: seq<bv8>, index: nat, i: nat)
    requires index < 8 * |bytes| && i < 8 * |bytes|
    ensures BitAt(WithBit(bytes, index), i) == (i == index || BitAt(bytes, i))
  {
    hide Mask, TestBit;
    SetBitTests(bytes[index / 8], index % 8, i % 8);
    assert index == 8 * (index / 8) + index % 8;
    assert i == 8 * (i / 8) + i % 8;
  }

  /** `from_bytes`: refused for a wrong length or a set bit past the end, and nothing else. */
  method FromBytes(chunkCount: nat, raw: seq<bv8>) returns (r: Result<ChunkBitmap, BitmapError>)
    ensures r.Ok? <==> chunkCount <= MAX_CHUNK_COUNT && |raw| == ByteLen(chunkCount) && TailClear(raw, chunkCount)
    ensures r.Err? ==>
              r.error == if chunkCount > MAX_CHUNK_COUNT then TooLarge
                         else if |raw| != ByteLen(chunkCount) then WrongLength
                         else TrailingBitsSet
    ensures r.Ok? ==> fresh(r.value) && r.value.Valid() && r.value.chunkCount == chunkCount && r.value.bytes == raw
  {
    hide SumOnes, Count, BitsOf, TestBit;
    if chunkCount > MAX_CHUNK_COUNT {
      return Err(TooLarge);
    }
    if |raw| != ByteLen(chunkCount) {
      return Err(WrongLength);
    }
    var used := chunkCount % 8;
    if used != 0 {
      var last := raw[|raw| - 1];
      TailIsLast(raw, chunkCount);
      TrailingTests(last, used);
      if last & TrailingMask(used) != 0 {
        return Err(TrailingBitsSet);
      }
    }
    CountInRange(raw, chunkCount);
    var count := TotalOnes(raw);
    var b := new ChunkBitmap(chunkCount);
    b.bytes := raw;
    b.setCount := count;
    return Ok(b);
  }

  method TotalOnes(raw: seq<bv8>) returns (count: nat)
    ensures count == SumOnes(raw)
  {
    hide CountOnes;
    count := 0;
    for i := 0 to |raw|
      invariant count == SumOnes(raw[..i])
    {
      assert raw[..i + 1][..i] == raw[..i];
      count := count + CountOnes(raw[i]);
    }
    assert raw[..|raw|] == raw;
  }

  lemma TailIsLast(raw: seq<bv8>, n: nat)
    requires |raw| == ByteLen(n) && n % 8 != 0
    ensures TailClear(raw, n) <==> ClearFrom(raw[|raw| - 1], n % 8)
  {
    hide TestBit;
    var m := |raw| - 1;
    assert n == 8 * m + n % 8;
    if TailClear(raw, n) {
      forall j: nat | n % 8 <= j < 8 ensures !TestBit(raw[m], j) {
        assert !BitAt(raw, 8 * m + j);
      }
    }
    if ClearFrom(raw[m], n % 8) {
      forall i | n <= i < 8 * |raw| ensures !BitAt(raw, i) {
        assert i / 8 == m;
      }
    }
  }

  /** Sets a run of bits, one by one. */
  method SetRun(b: ChunkBitmap, start: nat, run: nat)
    requires b.Valid() && start + run <= b.chunkCount
    modifies b
    ensures b.Valid()
    ensures b.Bits() == old(b.Bits())[..start] + seq(run, _ => true) + old(b.Bits())[start + run..]
  {
    hide BitsOf, Count, TailClear, ByteLen;
    ByteLenBounds(b.chunkCount);
    ghost var before := b.Bits();
    for i := start to start + run
      invariant b.Valid()
      invariant b.Bits() == before[..start] + seq(i - start, _ => true) + before[i..]
    {
      SetOneMore(before, start, i);
      var _ := b.Set(i);
    }
  }

  lemma SetOneMore(bits: seq<bool>, start: nat, i: nat)
    requires start <= i < |bits|
    ensures (bits[..start] + seq(i - start, _ => true) + bits[i..])[i := true] ==
            bits[..start] + seq(i + 1 - start, _ => true) + bits[i + 1..]
  {
  }

  lemma RunIsSet(before: seq<bool>, after: seq<bool>, index: nat, run: nat, isSet: bool)
    requires index + run <= |before| && forall i :: index <= i < |before| ==> !before[i]
    requires after == if isSet then before[..index] + seq(run, _ => true) + before[index + run..] else before
    ensures |after| == |before| && after[..index + run] == before[..index] + seq(run, _ => isSet)
    ensures forall i :: index + run <= i < |after| ==> !after[i]
  {
  }

  /** One run of the stream, on a bitmap that is clear from there on. */
  method Extend(b: ChunkBitmap, index: nat, run: nat, isSet: bool)
    requires b.Valid() && index + run <= b.chunkCount
    requires forall i :: index <= i < b.chunkCount ==> !b.Bits()[i]
    modifies b
    ensures b.Valid() && b.Bits()[..index + run] == old(b.Bits())[..index] + seq(run, _ => isSet)
    ensures forall i :: index + run <= i < b.chunkCount ==> !b.Bits()[i]
  {
    hide BitsOf, Count, TailClear, ByteLen;
    ByteLenBounds(b.chunkCount);
    if isSet {
      SetRun(b, index, run);
    }
    RunIsSet(old(b.Bits()), b.Bits(), index, run, isSet);
  }

  /** `decode_rle` onto a fresh bitmap. */
  method DecodeRle(chunkCount: nat, encoded: seq<Byte>) returns (r: Result<ChunkBitmap, BitmapError>)
    ensures chunkCount > MAX_CHUNK_COUNT ==> r == Err(TooLarge)
    ensures chunkCount <= MAX_CHUNK_COUNT ==>
              match Decode(chunkCount, encoded)
              case Ok(bits) => r.Ok? && r.value.Valid() && r.value.chunkCount == chunkCount && r.value.Bits() == bits
              case Err(e) => r == Err(e)
    ensures r.Ok? ==> fresh(r.value)
  {
    if chunkCount > MAX_CHUNK_COUNT {
      return Err(TooLarge);
    }
    hide BitsOf, Count, ReadLeb, TailClear, ByteLen;
    ByteLenBounds(chunkCount);
    var b := new ChunkBitmap(chunkCount);
    var pos: nat, index: nat := 0, 0;
    var isSet := false;
    assert encoded[0..] == encoded;
    while pos < |encoded|
      invariant pos <= |encoded| && index <= chunkCount
      invariant b.Valid() && fresh(b) && b.chunkCount == chunkCount
      invariant forall i :: index <= i < chunkCount ==> !b.Bits()[i]
      invariant Decode(chunkCount, encoded) == DecodeFrom(chunkCount, encoded[pos..], isSet, b.Bits()[..index])
      decreases |encoded| - pos
    {
      var run, next := ReadLeb128(encoded, pos);
      if run.Err? {
        return Err(run.error);
      }
      if run.value > chunkCount - index {
        return Err(RunOverflow);
      }
      Extend(b, index, run.value, isSet);
      pos := next;
      index := index + run.value;
      isSet := !isSet;
    }
    assert encoded[pos..] == [];
    if index != chunkCount {
      return Err(RunOverflow);
    }
    assert b.Bits()[..index] == b.Bits();
    return Ok(b);
  }
}
