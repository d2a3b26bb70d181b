/**
 Run-length coding of chunk bitmaps (`bitmap.rs`), on the bits themselves: LEB128 integers,
 alternating runs that start clear, and the gaps a bitmap still has.
 */
module Rle {
  import opened Octets
  import opened PowersOfTwo

  datatype BitmapError = IndexOutOfRange | TrailingBitsSet | WrongLength | RunOverflow | Truncated | TooLarge

  // --- LEB128 ---

  /** Seven bits at a time, least significant first; the high bit says that more follow. */
  function Leb(v: nat): seq<Byte> {
    if v < 128 then [v] else [128 + v % 128] + Leb(v / 128)
  }

  method WriteLeb128(out: seq<Byte>, v: U64) returns (r: seq<Byte>)
    ensures r == out + Leb(v)
  {
    r := out;
    var value: nat := v;
    while value >= 128
      invariant r + Leb(value) == out + Leb(v)
      decreases value
    {
      assert r + Leb(value) == r + [128 + value % 128] + Leb(value / 128);
      r := r + [128 + value % 128];
      value := value / 128;
    }
    r := r + [value];
  }

  /** A seven-bit group shifted left in a 64-bit word: bits past the top are lost. */
  function Shl(group: nat, shift: nat): nat
    requires shift < 64
  {
    if shift <= 57 then group * Pow2(shift) else group % Pow2(64 - shift) * Pow2(shift)
  }

  /** One integer off the front: what it is and what is left. A tenth byte loses its high bits. */
  function ReadLeb(input: seq<Byte>, shift: nat, acc: nat): (r: Result<(nat, seq<Byte>), BitmapError>)
    requires shift < 64 ==> acc < Pow2(shift)
    ensures r.Ok? ==> |r.value.1| < |input| && r.value.0 < U64_LIMIT
    decreases |input|
  {
    if input == [] then Err(BitmapError.Truncated)
    else if shift >= 64 then Err(RunOverflow)
    else
      var byte := input[0];
      ShlFits(byte % 128, shift, acc);
      var sum := acc + Shl(byte % 128, shift);
      if byte < 128 then
        if byte == 0 && shift != 0 then Err(RunOverflow) else Ok((sum, input[1..]))
      else ReadLeb(input[1..], shift + 7, sum)
  }

  lemma ShlFits(group: nat, shift: nat, acc: nat)
    requires group < 128 && shift < 64 && acc < Pow2(shift)
    ensures acc + Shl(group, shift) < U64_LIMIT
    ensures shift + 7 < 64 ==> acc + Shl(group, shift) < Pow2(shift + 7)
  {
    hide Pow2;
    var p := Pow2(shift);
    if shift <= 57 {
      Pow2Shift7(shift);
      Below(group, 127, p);
      Pow2Below64(shift + 7);
    } else {
      var q := Pow2(64 - shift);
      Below(group % q, q - 1, p);
      assert (q - 1) * p == q * p - p;
      Pow2Adds(64 - shift, shift);
      Pow2Below64(64);
    }
  }

  lemma Below(a: nat, b: nat, p: nat)
    requires a <= b
    ensures a * p <= b * p
  {
  }

  lemma Pow2Shift7(d: nat)
    ensures Pow2(d + 7) == 128 * Pow2(d)
  {
    assert Pow2(d + 4) == 4 * Pow2(d + 2) == 16 * Pow2(d);
    assert Pow2(d + 6) == 4 * Pow2(d + 4);
    assert Pow2(d + 7) == 2 * Pow2(d + 6);
  }

  lemma Pow2Below64(shift: nat)
    ensures shift <= 64 <==> Pow2(shift) <= U64_LIMIT
    ensures shift == 64 <==> Pow2(shift) == U64_LIMIT
  {
    assert Pow2(64) == U64_LIMIT by { Pow2Of63(); }
    hide Pow2;
    if shift < 64 {
      Pow2Increases(shift, 64);
    } else if shift > 64 {
      Pow2Increases(64, shift);
    }
  }

  /** Every 64-bit integer reads back from its encoding, whatever follows. */
  lemma {:induction false} LebReads(v: nat, tail: seq<Byte>, shift: nat, acc: nat)
    requires shift < 64 && acc < Pow2(shift)
    requires acc + v * Pow2(shift) < U64_LIMIT
    requires shift > 0 ==> v > 0
    ensures ReadLeb(Leb(v) + tail, shift, acc) == Ok((acc + v * Pow2(shift), tail))
    decreases v
  {
    hide Pow2, Shl;
    var input := Leb(v) + tail;
    GroupFits(v, shift);
    ShlFits(v % 128, shift, acc);
    if v < 128 {
      assert input[1..] == tail;
    } else {
      assert input[1..] == Leb(v / 128) + tail;
      assert input[0] % 128 == v % 128;
      ShiftFits(v, shift);
      LebReads(v / 128, tail, shift + 7, acc + Shl(v % 128, shift));
    }
  }

  /** A group that is part of a 64-bit value loses nothing when it is shifted into place. */
  lemma GroupFits(v: nat, shift: nat)
    requires shift < 64 && v * Pow2(shift) < U64_LIMIT
    ensures Shl(v % 128, shift) == v % 128 * Pow2(shift)
  {
    hide Pow2;
    if shift > 57 {
      TopGroup(v, shift);
      SmallRemainder(v, Pow2(64 - shift));
      SmallRemainder(v, 128);
    }
  }

  lemma SmallRemainder(v: nat, q: nat)
    requires v < q
    ensures v % q == v
  {
  }

  /** Near the top of the word only a few bits are left, and the value has no more. */
  lemma TopGroup(v: nat, shift: nat)
    requires 57 < shift < 64 && v * Pow2(shift) < U64_LIMIT
    ensures v < Pow2(64 - shift) <= 128
  {
    hide Pow2;
    var p, q := Pow2(shift), Pow2(64 - shift);
    Pow2Adds(64 - shift, shift);
    Pow2Below64(64);
    if v >= q {
      Below(q, v, p);
    }
    Pow2Shift7(0);
    Pow2Zero();
    Pow2Increases(64 - shift, 7);
  }

  lemma Pow2Zero()
    ensures Pow2(0) == 1
  {
  }

  lemma ShiftFits(v: nat, shift: nat)
    requires v >= 128 && v * Pow2(shift) < U64_LIMIT
    ensures shift + 7 < 64
    ensures v % 128 * Pow2(shift) + v / 128 * Pow2(shift + 7) == v * Pow2(shift)
  {
    hide Pow2;
    var p := Pow2(shift);
    Pow2Shift7(shift);
    Below(128, v, p);
    Pow2Below64(shift + 7);
    var low, high := v % 128, v / 128;
    assert v == low + high * 128;
    calc {
      v * p;
      (low + high * 128) * p;
      low * p + high * 128 * p;
      low * p + high * (128 * p);
    }
  }

  /** `read_leb128`: the loop over a position. */
  method ReadLeb128(input: seq<Byte>, start: nat) returns (r: Result<U64, BitmapError>, pos: nat)
    requires start <= |input|
    ensures start <= pos <= |input|
    ensures match ReadLeb(input[start..], 0, 0)
            case Ok((v, rest)) => r == Ok(v) && start < pos && input[pos..] == rest
            case Err(e) => r == Err(e)
  {
    pos := start;
    var result: nat, shift: nat := 0, 0;
    while true
      invariant start <= pos <= |input|
      invariant shift < 64 ==> result < Pow2(shift)
      invariant ReadLeb(input[start..], 0, 0) == ReadLeb(input[pos..], shift, result)
      invariant pos == start || shift > 0
      decreases |input| - pos
    {
      if pos >= |input| {
        return Err(BitmapError.Truncated), pos;
      }
      var byte := input[pos];
      ghost var before := input[pos..];
      pos := pos + 1;
      assert before[1..] == input[pos..];
      if shift >= 64 {
        return Err(RunOverflow), pos;
      }
      ShlFits(byte % 128, shift, result);
      result := result + Shl(byte % 128, shift);
      if byte < 128 {
        if byte == 0 && shift != 0 {
          return Err(RunOverflow), pos;
        }
        return Ok(result), pos;
      }
      shift := shift + 7;
    }
  }

  // --- Runs ---

  /** Where the run of `v` that starts at `i` ends. */
  function RunEnd(bits: seq<bool>, i: nat, v: bool): (e: nat)
    requires i <= |bits|
    ensures i <= e <= |bits|
    ensures forall j :: i <= j < e ==> bits[j] == v
    ensures e < |bits| ==> bits[e] != v
    decreases |bits| - i
  {
    if i < |bits| && bits[i] == v then RunEnd(bits, i + 1, v) else i
  }

  /** Alternating run lengths from position `i`; a first run of the wrong polarity has length zero. */
  function Runs(bits: seq<bool>, i: nat, polarity: bool): seq<nat>
    requires i <= |bits|
    decreases |bits| - i, if i < |bits| && bits[i] == polarity then 0 else 1
  {
    if i == |bits| then []
    else
      var e := RunEnd(bits, i, polarity);
      [e - i] + Runs(bits, e, !polarity)
  }

  function Expand(runs: seq<nat>, polarity: bool): seq<bool> {
    if runs == [] then [] else seq(runs[0], _ => polarity) + Expand(runs[1..], !polarity)
  }

  function Sum(runs: seq<nat>): nat {
    if runs == [] then 0 else runs[0] + Sum(runs[1..])
  }

  function LebAll(runs: seq<nat>): seq<Byte> {
    if runs == [] then [] else Leb(runs[0]) + LebAll(runs[1..])
  }

  /** The encoding of a bitmap: its runs, clear first, each as one integer. */
  function Encode(bits: seq<bool>): seq<Byte> {
    LebAll(Runs(bits, 0, false))
  }

  /** The number that groups of seven bits spell, the least significant first. */
  function Spelled(bytes: seq<Byte>): nat {
    if bytes == [] then 0 else bytes[0] % 128 + 128 * Spelled(bytes[1..])
  }

  /** An integer is spelled in groups of seven bits, as few as can be, each but the last marked. */
  lemma {:induction false} LebSpells(v: nat)
    ensures var b := Leb(v);
            && b != [] && Spelled(b) == v && b[|b| - 1] < 128 && (|b| > 1 ==> b[|b| - 1] > 0)
            && forall i :: 0 <= i < |b| - 1 ==> b[i] >= 128
  {
    if v >= 128 {
      LebSpells(v / 128);
      var rest := Leb(v / 128);
      assert ([128 + v % 128] + rest)[1..] == rest;
      assert v / 128 < 128 ==> rest == [v / 128];
    } else {
      assert [v][1..] == [];
    }
  }

  /** Clear chunks are counted first: so many clear ones, then so many set ones. */
  lemma ClearFirst(clear: nat, set': nat)
    requires set' > 0
    ensures Encode(seq(clear, _ => false) + seq(set', _ => true)) == Leb(clear) + Leb(set')
  {
    hide Leb;
    var bits := seq(clear, _ => false) + seq(set', _ => true);
    EndIs(bits, 0, false, clear);
    EndIs(bits, clear, true, clear + set');
    assert Runs(bits, clear + set', false) == [];
    assert Runs(bits, clear, true) == [set'] + [];
    assert Runs(bits, 0, false) == [clear] + [set'];
    assert LebAll([set']) == Leb(set') + LebAll([]);
  }

  function ParseRuns(bytes: seq<Byte>): Result<seq<nat>, BitmapError>
    decreases |bytes|
  {
    if bytes == [] then Ok([])
    else
      Pow2Zero();
      var (run, rest) :- ReadLeb(bytes, 0, 0);
      var runs :- ParseRuns(rest);
      Ok([run] + runs)
  }

  /** The decoder's loop from a partly filled bitmap. */
  function DecodeFrom(n: nat, bytes: seq<Byte>, polarity: bool, done: seq<bool>): Result<seq<bool>, BitmapError>
    requires |done| <= n
    decreases |bytes|
  {
    if bytes == [] then
      if |done| == n then Ok(done) else Err(RunOverflow)
    else
      Pow2Zero();
      var (run, rest) :- ReadLeb(bytes, 0, 0);
      if run > n - |done| then Err(RunOverflow)
      else DecodeFrom(n, rest, !polarity, done + seq(run, _ => polarity))
  }

  function Decode(n: nat, bytes: seq<Byte>): Result<seq<bool>, BitmapError> {
    DecodeFrom(n, bytes, false, [])
  }

  lemma {:induction false} ExpandLength(runs: seq<nat>, polarity: bool)
    ensures |Expand(runs, polarity)| == Sum(runs)
    decreases |runs|
  {
    if runs != [] {
      ExpandLength(runs[1..], !polarity);
    }
  }

  lemma {:induction false} DecodeFromIs(n: nat, bytes: seq<Byte>, polarity: bool, done: seq<bool>)
    requires |done| <= n
    ensures DecodeFrom(n, bytes, polarity, done).Ok? <==>
            ParseRuns(bytes).Ok? && |done| + Sum(ParseRuns(bytes).value) == n
    ensures DecodeFrom(n, bytes, polarity, done).Ok? ==>
              DecodeFrom(n, bytes, polarity, done).value == done + Expand(ParseRuns(bytes).value, polarity)
    decreases |bytes|
  {
    hide ReadLeb;
    if bytes == [] {
      assert done + Expand([], polarity) == done;
    } else {
      Pow2Zero();
      var first := ReadLeb(bytes, 0, 0);
      if first.Ok? {
        var (run, rest) := first.value;
        if ParseRuns(rest).Ok? {
          var runs := ParseRuns(rest).value;
          assert ([run] + runs)[1..] == runs;
        }
        if run <= n - |done| {
          var more := done + seq(run, _ => polarity);
          DecodeFromIs(n, rest, !polarity, more);
          if ParseRuns(rest).Ok? {
            var runs := ParseRuns(rest).value;
            assert more + Expand(runs, !polarity) == done + Expand([run] + runs, polarity);
          }
        }
      }
    }
  }

  /** A stream is accepted exactly when it parses into runs that add up to the chunk count; the bits are those runs. */
  lemma DecodeIsExact(n: nat, bytes: seq<Byte>)
    ensures Decode(n, bytes).Ok? <==> ParseRuns(bytes).Ok? && Sum(ParseRuns(bytes).value) == n
    ensures Decode(n, bytes).Ok? ==>
            Decode(n, bytes).value == Expand(ParseRuns(bytes).value, false) && |Decode(n, bytes).value| == n
  {
    DecodeFromIs(n, bytes, false, []);
    if Decode(n, bytes).Ok? {
      ExpandLength(ParseRuns(bytes).value, false);
      assert [] + Expand(ParseRuns(bytes).value, false) == Expand(ParseRuns(bytes).value, false);
    }
  }

  lemma {:induction false} RunsParse(runs: seq<nat>)
    requires forall i :: 0 <= i < |runs| ==> runs[i] < U64_LIMIT
    ensures ParseRuns(LebAll(runs)) == Ok(runs)
    decreases |runs|
  {
    hide ReadLeb, Leb;
    if runs != [] {
      Pow2Zero();
      LebReads(runs[0], LebAll(runs[1..]), 0, 0);
      LebNotEmpty(runs[0]);
      RunsParse(runs[1..]);
      assert runs == [runs[0]] + runs[1..];
    }
  }

  lemma LebNotEmpty(v: nat)
    ensures Leb(v) != []
  {
  }

  lemma {:induction false} RunsExpand(bits: seq<bool>, i: nat, polarity: bool)
    requires i <= |bits|
    ensures Expand(Runs(bits, i, polarity), polarity) == bits[i..]
    ensures forall k :: 0 <= k < |Runs(bits, i, polarity)| ==> Runs(bits, i, polarity)[k] <= |bits|
    decreases |bits| - i, if i < |bits| && bits[i] == polarity then 0 else 1
  {
    if i < |bits| {
      var e := RunEnd(bits, i, polarity);
      var rest := Runs(bits, e, !polarity);
      RunsExpand(bits, e, !polarity);
      assert ([e - i] + rest)[1..] == rest;
      assert bits[i..] == bits[i..e] + bits[e..];
      assert bits[i..e] == seq(e - i, _ => polarity);
    }
  }

  /** Every bitmap reads back from its encoding. */
  lemma RoundTrip(bits: seq<bool>)
    requires |bits| < U64_LIMIT
    ensures Decode(|bits|, Encode(bits)) == Ok(bits)
  {
    var runs := Runs(bits, 0, false);
    RunsExpand(bits, 0, false);
    assert bits[0..] == bits;
    RunsParse(runs);
    ExpandLength(runs, false);
    DecodeIsExact(|bits|, Encode(bits));
  }

  /** The code is not canonical: a zero-length run in the middle is accepted and merges its neighbours. */
  lemma ZeroRunMerges(a: nat, b: nat)
    requires a + b < U64_LIMIT
    ensures Decode(a + b, LebAll([a, 0, b])) == Ok(seq(a + b, _ => false))
    ensures Decode(a + b, LebAll([a + b])) == Ok(seq(a + b, _ => false))
  {
    hide LebAll, ParseRuns;
    var split, whole := [a, 0, b], [a + b];
    RunsParse(split);
    RunsParse(whole);
    DecodeIsExact(a + b, LebAll(split));
    DecodeIsExact(a + b, LebAll(whole));
    assert split[1..] == [0, b] && [0, b][1..] == [b] && [b][1..] == [] && whole[1..] == [];
    assert Sum([b]) == b && Sum(split) == a + b;
    assert Expand([b], false) == seq(b, _ => false);
    assert Expand([0, b], true) == seq(b, _ => false);
    assert Expand(split, false) == seq(a, _ => false) + seq(b, _ => false) == seq(a + b, _ => false);
    assert Expand(whole, false) == seq(a + b, _ => false);
  }

  // --- Which streams are canonical ---

  /** The integer at the front takes ten bytes, of which the last holds bits that do not fit a word. */
  predicate LosesBits(bytes: seq<Byte>, rest: seq<Byte>) {
    |bytes| - |rest| == 10 && |bytes| >= 10 && bytes[9] > 1
  }

  /** An encoding takes at most ten bytes, and a tenth holds one bit. */
  lemma {:induction false} LebTenth(v: nat, d: nat)
    requires d <= 9 && v * Pow2(7 * d) < U64_LIMIT
    ensures |Leb(v)| <= 10 - d && (|Leb(v)| == 10 - d ==> Leb(v)[|Leb(v)| - 1] <= 1)
    decreases 9 - d
  {
    hide Pow2;
    if d == 9 {
      TopGroup(v, 63);
      Pow2One();
    } else if v >= 128 {
      ShiftFits(v, 7 * d);
      Below(v / 128 * Pow2(7 * d + 7), v * Pow2(7 * d), 1);
      LebTenth(v / 128, d + 1);
    }
  }

  lemma Pow2One()
    ensures Pow2(1) == 2
  {
  }

  /** What was read without loss is what would be written. */
  lemma {:induction false} LebBack(input: seq<Byte>, d: nat, acc: nat) returns (x: nat)
    requires d <= 9 && acc < Pow2(7 * d) && ReadLeb(input, 7 * d, acc).Ok?
    requires var k := |input| - |ReadLeb(input, 7 * d, acc).value.1|; d + k == 10 ==> input[k - 1] <= 1
    ensures var (v, rest) := ReadLeb(input, 7 * d, acc).value;
            v == acc + x * Pow2(7 * d) && input == Leb(x) + rest && (d > 0 ==> x > 0)
    decreases |input|
  {
    hide Pow2;
    var byte := input[0];
    var sum := acc + Shl(byte % 128, 7 * d);
    ShlFits(byte % 128, 7 * d, acc);
    Pow2One();
    assert input == [byte] + input[1..];
    if byte < 128 {
      x := byte;
    } else {
      var rest := LebBack(input[1..], d + 1, sum);
      x := byte - 128 + 128 * rest;
      GroupsJoin(byte - 128, rest, d);
      assert Leb(x) == [byte] + Leb(rest);
    }
  }

  lemma GroupsJoin(low: nat, high: nat, d: nat)
    requires low < 128
    ensures low * Pow2(7 * d) + high * Pow2(7 * d + 7) == (low + 128 * high) * Pow2(7 * d)
    ensures (low + 128 * high) % 128 == low && (low + 128 * high) / 128 == high
  {
    hide Pow2;
    Pow2Shift7(7 * d);
    var p := Pow2(7 * d);
    assert high * (128 * p) == 128 * high * p;
  }

  /** An integer that was read has its one encoding exactly when no bit was lost. */
  lemma LebCanonical(bytes: seq<Byte>)
    requires ReadLeb(bytes, 0, 0).Ok?
    ensures var (v, rest) := ReadLeb(bytes, 0, 0).value; bytes == Leb(v) + rest <==> !LosesBits(bytes, rest)
  {
    hide ReadLeb, Leb;
    Pow2Zero();
    var (v, rest) := ReadLeb(bytes, 0, 0).value;
    if bytes == Leb(v) + rest {
      LebTenth(v, 0);
    }
    if !LosesBits(bytes, rest) {
      var x := LebBack(bytes, 0, 0);
    }
  }

  /** No integer of the stream loses bits. */
  predicate NoLostBits(bytes: seq<Byte>)
    decreases |bytes|
  {
    if bytes == [] then true
    else
      Pow2Zero();
      match ReadLeb(bytes, 0, 0)
      case Ok((_, rest)) => !LosesBits(bytes, rest) && NoLostBits(rest)
      case Err(_) => true
  }

  lemma {:induction false} RunsCanonical(bytes: seq<Byte>)
    requires ParseRuns(bytes).Ok?
    ensures bytes == LebAll(ParseRuns(bytes).value) <==> NoLostBits(bytes)
    decreases |bytes|
  {
    hide ReadLeb, Leb, LosesBits;
    if bytes != [] {
      Pow2Zero();
      var (v, rest) := ReadLeb(bytes, 0, 0).value;
      var runs := ParseRuns(rest).value;
      assert ([v] + runs)[1..] == runs;
      LebCanonical(bytes);
      RunsCanonical(rest);
      LebReads(v, LebAll(runs), 0, 0);
    }
  }

  /** Runs as an encoder writes them: none is empty but the first, and that one not alone. */
  predicate Alternates(runs: seq<nat>) {
    !(|runs| == 1 && runs[0] == 0) && forall k :: 1 <= k < |runs| ==> runs[k] > 0
  }

  lemma {:induction false} RunsAlternate(bits: seq<bool>, i: nat, polarity: bool)
    requires i <= |bits|
    ensures Alternates(Runs(bits, i, polarity))
    ensures i < |bits| && bits[i] == polarity ==> Runs(bits, i, polarity)[0] > 0
    decreases |bits| - i, if i < |bits| && bits[i] == polarity then 0 else 1
  {
    if i < |bits| {
      var e := RunEnd(bits, i, polarity);
      RunsAlternate(bits, e, !polarity);
    }
  }

  /** The first of alternating runs ends where it says, and the others spell what is left. */
  lemma FirstRun(bits: seq<bool>, i: nat, polarity: bool, runs: seq<nat>)
    requires i <= |bits| && bits[i..] == Expand(runs, polarity) && Alternates(runs) && runs != []
    ensures i < |bits| && i + runs[0] <= |bits| && RunEnd(bits, i, polarity) == i + runs[0]
    ensures bits[i + runs[0]..] == Expand(runs[1..], !polarity)
  {
    hide RunEnd;
    var e := i + runs[0];
    var first, rest := seq(runs[0], _ => polarity), Expand(runs[1..], !polarity);
    assert bits[i..] == first + rest;
    assert |runs| > 1 ==> runs[1..][0] > 0 && rest[0] == !polarity;
    assert bits[e..] == bits[i..][runs[0]..] == rest;
    forall j | i <= j < e ensures bits[j] == polarity {
      assert bits[j] == bits[i..][j - i];
    }
    EndIs(bits, i, polarity, e);
  }

  /** Bits spelled by alternating runs have just those runs. */
  lemma {:induction false} RunsBack(bits: seq<bool>, i: nat, polarity: bool, runs: seq<nat>)
    requires i <= |bits| && bits[i..] == Expand(runs, polarity) && Alternates(runs)
    ensures Runs(bits, i, polarity) == runs
    decreases |runs|
  {
    hide RunEnd, Expand;
    if runs == [] {
      NothingSpelled(polarity);
    } else {
      FirstRun(bits, i, polarity, runs);
      RunsBack(bits, i + runs[0], !polarity, runs[1..]);
      assert runs == [runs[0]] + runs[1..];
    }
  }

  lemma NothingSpelled(polarity: bool)
    ensures Expand([], polarity) == []
  {
  }

  lemma EndIs(bits: seq<bool>, i: nat, v: bool, e: nat)
    requires i <= e <= |bits| && (forall j :: i <= j < e ==> bits[j] == v) && (e < |bits| ==> bits[e] != v)
    ensures RunEnd(bits, i, v) == e
  {
  }

  /** Bits are lost in practice: ten bytes that end in 2 are read as zero. */
  lemma TenBytesReadAsZero()
    ensures Decode(0, seq(9, _ => 128) + [2]) == Ok([]) && Encode([]) == []
  {
    hide ReadLeb;
    var bytes: seq<Byte> := seq(9, _ => 128) + [2];
    Pow2Zero();
    ZerosRead(bytes, 0);
    DecodeIsExact(0, bytes);
    var none: seq<nat> := [];
    assert ParseRuns([]) == Ok(none) && [0] + none == [0];
    assert [0][1..] == none;
  }

  lemma {:induction false} ZerosRead(bytes: seq<Byte>, d: nat)
    requires d <= 9 && bytes == seq(9 - d, _ => 128) + [2]
    ensures Pow2(7 * d) > 0 && ReadLeb(bytes, 7 * d, 0) == Ok((0, []))
    decreases 9 - d
  {
    hide Pow2, Shl;
    ShlNothing(7 * d);
    if d < 9 {
      assert bytes[0] == 128 && bytes[1..] == seq(9 - (d + 1), _ => 128) + [2];
      ZerosRead(bytes[1..], d + 1);
    } else {
      assert bytes == [2] && bytes[1..] == [];
    }
  }

  lemma ShlNothing(shift: nat)
    requires shift < 64
    ensures Shl(0, shift) == 0 && (shift == 63 ==> Shl(2, shift) == 0)
  {
    hide Pow2;
    Pow2One();
  }

  /**
   An accepted stream is the one the encoder writes for its bits exactly when its runs
   alternate and none of its integers lost bits.
   */
  lemma CanonicalIff(n: U64, bytes: seq<Byte>)
    requires Decode(n, bytes).Ok?
    ensures ParseRuns(bytes).Ok?
    ensures Encode(Decode(n, bytes).value) == bytes <==> Alternates(ParseRuns(bytes).value) && NoLostBits(bytes)
  {
    hide ReadLeb, Leb, LebAll, Decode, NoLostBits, Alternates;
    DecodeIsExact(n, bytes);
    var bits, runs := Decode(n, bytes).value, ParseRuns(bytes).value;
    RunsCanonical(bytes);
    RunsExpand(bits, 0, false);
    RunsAlternate(bits, 0, false);
    assert bits[0..] == bits;
    if Encode(bits) == bytes {
      RunsParse(Runs(bits, 0, false));
    }
    if Alternates(runs) {
      RunsBack(bits, 0, false, runs);
    }
  }

  // --- Gaps ---

  /** The maximal clear runs from position `i` on, as half-open ranges. */
  function Gaps(bits: seq<bool>, i: nat): seq<(nat, nat)>
    requires i <= |bits|
    decreases |bits| - i
  {
    if i == |bits| then []
    else if bits[i] then Gaps(bits, i + 1)
    else
      var e := RunEnd(bits, i, false);
      assert e > i;
      [(i, e)] + Gaps(bits, e)
  }

  /** Non-empty ranges inside [from, limit), each past the end of the one before. */
  ghost predicate Apart(ranges: seq<(nat, nat)>, from: nat, limit: nat) {
    && (forall k :: 0 <= k < |ranges| ==> from <= ranges[k].0 < ranges[k].1 <= limit)
    && (forall k, l :: 0 <= k < l < |ranges| ==> ranges[k].1 < ranges[l].0)
  }

  ghost predicate Covered(ranges: seq<(nat, nat)>, j: nat) {
    exists k :: 0 <= k < |ranges| && ranges[k].0 <= j < ranges[k].1
  }

  /** The gaps are apart, and they cover exactly the clear bits. */
  lemma {:induction false} GapsAre(bits: seq<bool>, i: nat)
    requires i <= |bits|
    ensures Apart(Gaps(bits, i), i, |bits|)
    ensures i < |bits| && bits[i] ==> Apart(Gaps(bits, i), i + 1, |bits|)
    ensures forall j :: i <= j < |bits| ==> (Covered(Gaps(bits, i), j) <==> !bits[j])
    decreases |bits| - i
  {
    if i < |bits| {
      if bits[i] {
        GapsAre(bits, i + 1);
      } else {
        var e := RunEnd(bits, i, false);
        GapsAre(bits, e);
        var rest := Gaps(bits, e);
        assert Apart(rest, e, |bits|) && (e < |bits| ==> Apart(rest, e + 1, |bits|));
        assert e == |bits| ==> rest == [];
        forall j | i <= j < |bits| ensures Covered([(i, e)] + rest, j) <==> !bits[j] {
          ConsCovered((i, e), rest, j);
        }
      }
    }
  }

  lemma ConsCovered(r: (nat, nat), rest: seq<(nat, nat)>, j: nat)
    ensures Covered([r] + rest, j) <==> r.0 <= j < r.1 || Covered(rest, j)
  {
    var all := [r] + rest;
    if r.0 <= j < r.1 {
      assert all[0] == r;
    }
    if Covered(rest, j) {
      var k :| 0 <= k < |rest| && rest[k].0 <= j < rest[k].1;
      assert all[k + 1] == rest[k];
    }
    if Covered(all, j) && !(r.0 <= j < r.1) {
      var k :| 0 <= k < |all| && all[k].0 <= j < all[k].1;
      assert rest[k - 1] == all[k];
    }
  }
}
