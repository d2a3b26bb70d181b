/**
 The range scheduler (`scheduler.rs`): what to ask for next, given the chunks held. Ranges
 are half-open intervals of chunk indices; what is held is a sequence of booleans, the
 abstract value of a bitmap.
 */
module Scheduler {
  import opened Octets
  import opened Rle
  import opened Bitmap
  import opened PowersOfTwo

  const MAX_RANGES_PER_REQUEST := 1024

  type Range = (nat, nat)

  datatype SchedulerError = Encoding | TooManyRanges | UnsortedOrOverlapping | EmptyRange | OutOfRange

  datatype Priority = CriticalMetadata | FirstRender | UserVisibleNext | Sequential | Background | Repair {
    function Code(): U64 {
      if CriticalMetadata? then 0 else if FirstRender? then 1 else if UserVisibleNext? then 2
      else if Sequential? then 3 else if Background? then 4 else 5
    }
  }

  datatype ChunkOrder = InOrder | Scattered {
    function Code(): U64 { if InOrder? then 0 else 1 }
  }

  datatype RangeRequest = RangeRequest(transferId: Bytes, objectId: Bytes, priority: U64, ranges: seq<Range>,
                                       maxBytes: U64, order: U64, generation: U64)

  // --- Validation ---

  /** What a request may name: at most 1024 non-empty ranges, in order, apart, inside the object. */
  ghost predicate ValidRanges(ranges: seq<Range>, chunkCount: nat) {
    |ranges| <= MAX_RANGES_PER_REQUEST && Apart(ranges, 0, chunkCount)
  }

  /** What is wrong with one range, given the ones before it. */
  function FaultAt(ranges: seq<Range>, i: nat, chunkCount: nat): Option<SchedulerError>
    requires i < |ranges|
  {
    if ranges[i].1 <= ranges[i].0 then Some(EmptyRange)
    else if ranges[i].1 > chunkCount then Some(OutOfRange)
    else if i > 0 && ranges[i].0 <= ranges[i - 1].1 then Some(UnsortedOrOverlapping)
    else None
  }

  /** The first fault from a position on. */
  function Judged(ranges: seq<Range>, i: nat, chunkCount: nat): Result<(), SchedulerError>
    requires i <= |ranges|
    decreases |ranges| - i
  {
    if i == |ranges| then Ok(())
    else
      match FaultAt(ranges, i, chunkCount)
      case Some(e) => Err(e)
      case None => Judged(ranges, i + 1, chunkCount)
  }

  function Verdict(ranges: seq<Range>, chunkCount: nat): Result<(), SchedulerError> {
    if |ranges| > MAX_RANGES_PER_REQUEST then Err(TooManyRanges) else Judged(ranges, 0, chunkCount)
  }

  lemma {:induction false} JudgedIs(ranges: seq<Range>, i: nat, chunkCount: nat)
    requires i <= |ranges| && Apart(ranges[..i], 0, chunkCount)
    ensures Judged(ranges, i, chunkCount).Ok? <==> Apart(ranges, 0, chunkCount)
    decreases |ranges| - i
  {
    if i == |ranges| {
      assert ranges[..i] == ranges;
    } else if FaultAt(ranges, i, chunkCount).None? {
      ApartOneMore(ranges, i, chunkCount);
      JudgedIs(ranges, i + 1, chunkCount);
    }
  }

  /** No fault is found exactly in the lists a request may name. */
  lemma VerdictIs(ranges: seq<Range>, chunkCount: nat)
    ensures Verdict(ranges, chunkCount).Ok? <==> ValidRanges(ranges, chunkCount)
  {
    JudgedIs(ranges, 0, chunkCount);
  }

  /** `RangeRequest::validate`: each range against the end of the one before, the first fault reported. */
  method Validate(ranges: seq<Range>, chunkCount: nat) returns (r: Result<(), SchedulerError>)
    ensures r == Verdict(ranges, chunkCount)
    ensures r.Ok? <==> ValidRanges(ranges, chunkCount)
  {
    hide Apart;
    VerdictIs(ranges, chunkCount);
    if |ranges| > MAX_RANGES_PER_REQUEST {
      return Err(TooManyRanges);
    }
    var previousEnd := 0;
    for i := 0 to |ranges|
      invariant Judged(ranges, 0, chunkCount) == Judged(ranges, i, chunkCount)
      invariant i > 0 ==> previousEnd == ranges[i - 1].1
    {
      var (start, end) := ranges[i];
      if end <= start {
        return Err(EmptyRange);
      }
      if end > chunkCount {
        return Err(OutOfRange);
      }
      if i > 0 && start <= previousEnd {
        return Err(UnsortedOrOverlapping);
      }
      previousEnd := end;
    }
    return Ok(());
  }

  /** Past the end of its predecessor, a range is past the end of every earlier one. */
  lemma ApartOneMore(ranges: seq<Range>, i: nat, limit: nat)
    requires i < |ranges| && Apart(ranges[..i], 0, limit)
    requires ranges[i].0 < ranges[i].1 <= limit
    requires i > 0 ==> ranges[i - 1].1 < ranges[i].0
    ensures Apart(ranges[..i + 1], 0, limit)
  {
    var more := ranges[..i + 1];
    assert forall k :: 0 <= k < i ==> more[k] == ranges[..i][k];
    if i > 0 {
      assert more[i - 1] == ranges[i - 1];
    }
  }

  function Total(ranges: seq<Range>): nat {
    if ranges == [] then 0 else Span(ranges[0]) + Total(ranges[1..])
  }

  function Span(r: Range): nat {
    if r.0 < r.1 then r.1 - r.0 else 0
  }

  // --- Choosing ranges ---

  /** The part of a range list inside a window. */
  function Intersect(ranges: seq<Range>, window: Range): seq<Range> {
    if ranges == [] then []
    else
      var s := if ranges[0].0 < window.0 then window.0 else ranges[0].0;
      var e := if window.1 < ranges[0].1 then window.1 else ranges[0].1;
      (if s < e then [(s, e)] else []) + Intersect(ranges[1..], window)
  }

  /** Chunks from the front, in order, until the budget is spent. */
  function Take(ranges: seq<Range>, budget: nat): seq<Range> {
    if ranges == [] || budget == 0 then []
    else if Span(ranges[0]) <= budget then [ranges[0]] + Take(ranges[1..], budget - Span(ranges[0]))
    else [(ranges[0].0, ranges[0].0 + budget)]
  }

  /** A slice off the front of each range, until the budget is spent. */
  function Scatter(ranges: seq<Range>, perRange: nat, budget: nat): seq<Range> {
    if ranges == [] || budget == 0 then []
    else
      var span := Min(Span(ranges[0]), Min(perRange, budget));
      [(ranges[0].0, ranges[0].0 + span)] + Scatter(ranges[1..], perRange, budget - span)
  }

  function Min(a: nat, b: nat): nat {
    if a < b then a else b
  }

  function Max(a: nat, b: nat): nat {
    if a < b then b else a
  }

  /** `take_chunks` as a loop. */
  method TakeChunks(ranges: seq<Range>, maxChunks: nat) returns (out: seq<Range>)
    requires Apart(ranges, 0, U64_LIMIT)
    ensures out == Take(ranges, maxChunks)
  {
    out := [];
    var budget := maxChunks;
    for i := 0 to |ranges|
      invariant out + Take(ranges[i..], budget) == Take(ranges, maxChunks)
    {
      if budget == 0 {
        break;
      }
      var (start, end) := ranges[i];
      var span := end - start;
      TakeStep(out, ranges, i, budget);
      if span <= budget {
        out := out + [(start, end)];
        budget := budget - span;
      } else {
        out := out + [(start, start + budget)];
        budget := 0;
      }
    }
    assert out + [] == out;
  }

  lemma TakeStep(out: seq<Range>, ranges: seq<Range>, i: nat, budget: nat)
    requires i < |ranges| && budget > 0
    ensures out + Take(ranges[i..], budget) ==
            if Span(ranges[i]) <= budget then out + [ranges[i]] + Take(ranges[i + 1..], budget - Span(ranges[i]))
            else out + [(ranges[i].0, ranges[i].0 + budget)] + Take(ranges[i + 1..], 0)
  {
    assert ranges[i..][1..] == ranges[i + 1..];
  }

  /** `take_scattered` as a loop. */
  method TakeScattered(ranges: seq<Range>, maxChunks: nat) returns (out: seq<Range>)
    requires Apart(ranges, 0, U64_LIMIT)
    ensures out == ScatterAll(ranges, maxChunks)
  {
    if ranges == [] || maxChunks == 0 {
      return [];
    }
    var perRange := Max(maxChunks / |ranges|, 1);
    out := ScatterLoop(ranges, perRange, maxChunks);
  }

  method ScatterLoop(ranges: seq<Range>, perRange: nat, maxChunks: nat) returns (out: seq<Range>)
    requires Apart(ranges, 0, U64_LIMIT)
    ensures out == Scatter(ranges, perRange, maxChunks)
  {
    out := [];
    var budget := maxChunks;
    for i := 0 to |ranges|
      invariant out + Scatter(ranges[i..], perRange, budget) == Scatter(ranges, perRange, maxChunks)
    {
      if budget == 0 {
        break;
      }
      var (start, end) := ranges[i];
      var span := Min(end - start, Min(perRange, budget));
      ScatterStep(out, ranges, i, perRange, budget, span);
      out := out + [(start, start + span)];
      budget := budget - span;
    }
    assert out + [] == out;
  }

  lemma ScatterStep(out: seq<Range>, ranges: seq<Range>, i: nat, perRange: nat, budget: nat, span: nat)
    requires i < |ranges| && budget > 0 && span == Min(Span(ranges[i]), Min(perRange, budget))
    ensures out + Scatter(ranges[i..], perRange, budget) ==
            out + [(ranges[i].0, ranges[i].0 + span)] + Scatter(ranges[i + 1..], perRange, budget - span)
  {
    assert ranges[i..][1..] == ranges[i + 1..];
  }

  function ScatterAll(ranges: seq<Range>, maxChunks: nat): seq<Range> {
    if ranges == [] || maxChunks == 0 then []
    else Scatter(ranges, Max(maxChunks / |ranges|, 1), maxChunks)
  }

  // --- Requests ---

  datatype NetworkQuality = NetworkQuality(rtt: nat, rttVariance: nat, lossPermille: nat, storageBound: bool,
                                           thermal: bool)

  function HalfUp(n: nat): nat {
    (n + 1) / 2
  }

  /** The concurrency table and its reductions; variance doubles in a 32-bit word. */
  function RecommendedStreams(q: NetworkQuality): (n: nat)
    ensures 1 <= n <= 8
  {
    var base := if q.lossPermille >= 20 || q.rtt >= 400 then 1 else if q.rtt >= 150 then 2 else if q.rtt >= 40 then 4
        else 8;
    var a := if q.rttVariance * 2 % U32_LIMIT >= Max(q.rtt, 1) then HalfUp(base) else base;
    var b := if q.thermal then HalfUp(a) else a;
    var c := if q.storageBound then HalfUp(b) else b;
    Max(c, 1)
  }

  datatype Interest = Interest(priority: Priority, range: Range)

  datatype Plan = Plan(transferId: Bytes, objectId: Bytes, chunkCount: nat, chunkCiphertextSize: U64,
                       interests: seq<Interest>, order: ChunkOrder, generation: U64)

  function Missing(have: seq<bool>): seq<Range> {
    First(Gaps(have, 0), MAX_RANGES_PER_REQUEST)
  }

  /** The first interest that still has gaps among those seen, else everything seen. */
  function Choose(interests: seq<Interest>, missing: seq<Range>): (Priority, seq<Range>) {
    if interests == [] then (Sequential, missing)
    else
      var clipped := Intersect(missing, interests[0].range);
      if clipped != [] then (interests[0].priority, clipped) else Choose(interests[1..], missing)
  }

  function MaxBytes(p: Plan, q: NetworkQuality): U64 {
    Max(p.chunkCiphertextSize * 8 * RecommendedStreams(q) % U64_LIMIT, p.chunkCiphertextSize)
  }

  function NextRequest(p: Plan, have: seq<bool>, q: NetworkQuality): Option<RangeRequest> {
    var missing := Missing(have);
    if missing == [] then None
    else
      var (priority, candidate) := Choose(p.interests, missing);
      var maxBytes := MaxBytes(p, q);
      var maxChunks := Max(maxBytes / Max(p.chunkCiphertextSize, 1), 1);
      var ranges := if p.order == InOrder then Take(candidate, maxChunks) else ScatterAll(candidate, maxChunks);
      if ranges == [] then None
      else Some(RangeRequest(p.transferId, p.objectId, priority.Code(), ranges, maxBytes, p.order.Code(), p.generation))
  }

  /** Everything missing in one request; the byte total saturates. */
  function FullRequest(p: Plan, have: seq<bool>): RangeRequest {
    var ranges := Missing(have);
    var bytes := Total(ranges) * p.chunkCiphertextSize;
    RangeRequest(p.transferId, p.objectId, Sequential.Code(), ranges, Min(bytes, U64_LIMIT - 1), p.order.Code(),
                 p.generation)
  }

  // --- What a choice keeps ---

  /** Each range of `out` is a non-empty prefix of the range of `ranges` in the same place. */
  ghost predicate Trims(out: seq<Range>, ranges: seq<Range>) {
    && |out| <= |ranges|
    && forall k :: 0 <= k < |out| ==> out[k].0 == ranges[k].0 && out[k].0 < out[k].1 <= ranges[k].1
  }

  lemma TrimsKeeps(out: seq<Range>, ranges: seq<Range>, from: nat, limit: nat)
    requires Apart(ranges, from, limit) && Trims(out, ranges)
    ensures Apart(out, from, limit)
    ensures forall j: nat :: Covered(out, j) ==> Covered(ranges, j)
  {
  }

  lemma ApartTail(ranges: seq<Range>, from: nat, limit: nat)
    requires Apart(ranges, from, limit) && ranges != []
    ensures Apart(ranges[1..], ranges[0].1 + 1, limit)
    ensures ranges[0].0 < ranges[0].1
  {
  }

  lemma ConsTrims(piece: Range, rest: seq<Range>, ranges: seq<Range>)
    requires ranges != [] && Trims(rest, ranges[1..])
    requires piece.0 == ranges[0].0 && piece.0 < piece.1 <= ranges[0].1
    ensures Trims([piece] + rest, ranges)
    ensures Total([piece] + rest) == Span(piece) + Total(rest)
  {
    var out := [piece] + rest;
    assert out[1..] == rest;
    forall k | 0 <= k < |out| ensures out[k].0 == ranges[k].0 && out[k].0 < out[k].1 <= ranges[k].1 {
      if k > 0 {
        assert out[k] == rest[k - 1] && ranges[k] == ranges[1..][k - 1];
      }
    }
  }

  /** The front of the ranges: exactly the budget, or all there is, and whole ranges except perhaps the last. */
  ghost predicate Front(out: seq<Range>, ranges: seq<Range>, budget: nat) {
    && Trims(out, ranges) && Total(out) == Min(budget, Total(ranges))
    && forall k :: 0 <= k < |out| - 1 ==> out[k] == ranges[k]
  }

  lemma ConsFront(rest: seq<Range>, ranges: seq<Range>, budget: nat)
    requires ranges != [] && ranges[0].0 < ranges[0].1 && Span(ranges[0]) <= budget
    requires Front(rest, ranges[1..], budget - Span(ranges[0]))
    ensures Front([ranges[0]] + rest, ranges, budget)
  {
    hide Trims, Total;
    var out := [ranges[0]] + rest;
    ConsTrims(ranges[0], rest, ranges);
    TotalIs(ranges);
    TrimsShorter(out, ranges);
    forall k | 0 <= k < |out| - 1 ensures out[k] == ranges[k] {
      if k > 0 {
        assert out[k] == rest[k - 1] && ranges[k] == ranges[1..][k - 1];
      }
    }
  }

  lemma CutFront(ranges: seq<Range>, budget: nat)
    requires ranges != [] && 0 < budget < Span(ranges[0])
    ensures Front([(ranges[0].0, ranges[0].0 + budget)], ranges, budget)
  {
    hide Trims, Total;
    var piece := (ranges[0].0, ranges[0].0 + budget);
    TrimsNone(ranges[1..]);
    ConsTrims(piece, [], ranges);
    assert [piece] + [] == [piece];
    TotalIs(ranges);
    TrimsShorter([piece], ranges);
  }

  lemma TrimsShorter(out: seq<Range>, ranges: seq<Range>)
    requires Trims(out, ranges)
    ensures |out| <= |ranges|
  {
  }

  lemma {:induction false} TakeTrims(ranges: seq<Range>, from: nat, limit: nat, budget: nat)
    requires Apart(ranges, from, limit)
    ensures Front(Take(ranges, budget), ranges, budget)
    ensures ranges != [] && budget > 0 ==> Take(ranges, budget) != []
    decreases |ranges|
  {
    hide Front, Apart;
    if ranges == [] || budget == 0 {
      EmptyFront(ranges, budget);
    } else {
      ApartTail(ranges, from, limit);
      if Span(ranges[0]) <= budget {
        TakeTrims(ranges[1..], ranges[0].1 + 1, limit, budget - Span(ranges[0]));
        ConsFront(Take(ranges[1..], budget - Span(ranges[0])), ranges, budget);
      } else {
        CutFront(ranges, budget);
      }
    }
  }

  lemma EmptyFront(ranges: seq<Range>, budget: nat)
    requires ranges == [] || budget == 0
    ensures Front([], ranges, budget)
  {
  }

  lemma TotalIs(ranges: seq<Range>)
    ensures Total(ranges) == if ranges == [] then 0 else Span(ranges[0]) + Total(ranges[1..])
  {
  }

  lemma TrimsNone(ranges: seq<Range>)
    ensures Trims([], ranges) && Total([]) == 0
  {
  }

  lemma {:induction false} ScatterTrims(ranges: seq<Range>, from: nat, limit: nat, perRange: nat, budget: nat)
    requires Apart(ranges, from, limit) && perRange > 0
    ensures Trims(Scatter(ranges, perRange, budget), ranges)
    ensures Total(Scatter(ranges, perRange, budget)) <= budget
    ensures ranges != [] && budget > 0 ==> Scatter(ranges, perRange, budget) != []
    decreases |ranges|
  {
    hide Trims, Apart, Total;
    TrimsNone(ranges);
    if ranges != [] && budget > 0 {
      ApartTail(ranges, from, limit);
      var span := Min(Span(ranges[0]), Min(perRange, budget));
      ScatterTrims(ranges[1..], ranges[0].1 + 1, limit, perRange, budget - span);
      ConsTrims((ranges[0].0, ranges[0].0 + span), Scatter(ranges[1..], perRange, budget - span), ranges);
    }
  }

  /** The first `n` ranges, each cut to at most `per` chunks. */
  function Slices(ranges: seq<Range>, n: nat, per: nat): (out: seq<Range>)
    requires n <= |ranges|
    ensures |out| == n
  {
    seq(n, k requires 0 <= k < n => (ranges[k].0, ranges[k].0 + Min(Span(ranges[k]), per)))
  }

  /** While the budget allows a slice for each range, every range gets one. */
  lemma {:induction false} ScatterSlices(ranges: seq<Range>, from: nat, limit: nat, per: nat, budget: nat)
    requires Apart(ranges, from, limit) && per > 0 && |ranges| * per <= budget
    ensures Scatter(ranges, per, budget) == Slices(ranges, |ranges|, per)
    decreases |ranges|
  {
    hide Apart;
    if ranges != [] {
      ApartTail(ranges, from, limit);
      var span := Min(Span(ranges[0]), per);
      assert |ranges| * per == per + (|ranges| - 1) * per;
      Nonnegative(|ranges| - 1, per);
      ScatterSlices(ranges[1..], ranges[0].1 + 1, limit, per, budget - span);
      SlicesFrom(ranges, |ranges|, per);
    }
  }

  lemma Nonnegative(a: nat, b: nat)
    ensures a * b >= 0
  {
  }

  lemma SlicesFrom(ranges: seq<Range>, n: nat, per: nat)
    requires 0 < n <= |ranges|
    ensures Slices(ranges, n, per) ==
            [(ranges[0].0, ranges[0].0 + Min(Span(ranges[0]), per))] + Slices(ranges[1..], n - 1, per)
  {
  }

  /** With more ranges than chunks to take, the first ranges give one chunk each. */
  lemma {:induction false} ScatterOnes(ranges: seq<Range>, from: nat, limit: nat, budget: nat)
    requires Apart(ranges, from, limit) && budget <= |ranges|
    ensures Scatter(ranges, 1, budget) == Slices(ranges, budget, 1)
    decreases |ranges|
  {
    hide Apart;
    if budget > 0 {
      ApartTail(ranges, from, limit);
      ScatterOnes(ranges[1..], ranges[0].1 + 1, limit, budget - 1);
      SlicesFrom(ranges, budget, 1);
    }
  }

  /**
   A scattered choice is spread evenly: every range gives a slice of the same size, or all of
   itself; with more ranges than chunks to take, the first give one chunk each.
   */
  lemma ScatterSpreads(ranges: seq<Range>, limit: nat, maxChunks: nat)
    requires Apart(ranges, 0, limit)
    ensures ranges != [] && |ranges| <= maxChunks ==>
              ScatterAll(ranges, maxChunks) == Slices(ranges, |ranges|, maxChunks / |ranges|)
    ensures maxChunks < |ranges| ==> ScatterAll(ranges, maxChunks) == Slices(ranges, maxChunks, 1)
  {
    hide Apart, Scatter;
    if ranges != [] && |ranges| <= maxChunks {
      var per := maxChunks / |ranges|;
      assert |ranges| * per <= maxChunks && per >= 1;
      ScatterSlices(ranges, 0, limit, per, maxChunks);
    } else if maxChunks < |ranges| {
      assert maxChunks / |ranges| == 0;
      ScatterOnes(ranges, 0, limit, maxChunks);
    }
  }

  lemma {:induction false} IntersectApart(ranges: seq<Range>, from: nat, limit: nat, window: Range)
    requires Apart(ranges, from, limit)
    ensures Apart(Intersect(ranges, window), from, limit)
    ensures |Intersect(ranges, window)| <= |ranges|
    decreases |ranges|
  {
    if ranges != [] {
      ApartTail(ranges, from, limit);
      IntersectApart(ranges[1..], ranges[0].1 + 1, limit, window);
    }
  }

  /** A clipped list covers what the list and the window both cover. */
  lemma {:induction false} IntersectCovers(ranges: seq<Range>, window: Range, j: nat)
    ensures Covered(Intersect(ranges, window), j) <==> Covered(ranges, j) && window.0 <= j < window.1
    decreases |ranges|
  {
    hide Covered;
    if ranges == [] {
      NoneCovered(j);
    } else {
      IntersectCovers(ranges[1..], window, j);
      var s := if ranges[0].0 < window.0 then window.0 else ranges[0].0;
      var e := if window.1 < ranges[0].1 then window.1 else ranges[0].1;
      ConsCovered(ranges[0], ranges[1..], j);
      assert [ranges[0]] + ranges[1..] == ranges;
      ConsCovered((s, e), Intersect(ranges[1..], window), j);
      assert [] + Intersect(ranges[1..], window) == Intersect(ranges[1..], window);
    }
  }

  lemma NoneCovered(j: nat)
    ensures !Covered([], j)
  {
  }

  lemma {:induction false} ChooseIs(interests: seq<Interest>, missing: seq<Range>, limit: nat)
    requires Apart(missing, 0, limit) && missing != []
    ensures var chosen := Choose(interests, missing).1;
            chosen != [] && |chosen| <= |missing| && Apart(chosen, 0, limit) && forall j: nat :: Covered(chosen, j) ==>
                Covered(missing, j)
    decreases |interests|
  {
    if interests != [] {
      IntersectApart(missing, 0, limit, interests[0].range);
      forall j: nat ensures Covered(Intersect(missing, interests[0].range), j) ==> Covered(missing, j) {
        IntersectCovers(missing, interests[0].range, j);
      }
      ChooseIs(interests[1..], missing, limit);
    }
  }

  // --- Every request is sound ---

  ghost predicate NamesOnlyMissing(ranges: seq<Range>, have: seq<bool>) {
    forall j: nat :: Covered(ranges, j) ==> j < |have| && !have[j]
  }

  lemma MissingIs(have: seq<bool>)
    ensures ValidRanges(Missing(have), |have|)
    ensures NamesOnlyMissing(Missing(have), have)
    ensures Missing(have) == [] <==> forall j :: 0 <= j < |have| ==> have[j]
  {
    GapsAre(have, 0);
    var gaps, missing := Gaps(have, 0), Missing(have);
    forall j: nat | Covered(missing, j) ensures j < |have| && !have[j] {
      var k :| 0 <= k < |missing| && missing[k].0 <= j < missing[k].1;
      assert gaps[k] == missing[k];
      assert Covered(gaps, j);
    }
    if missing == [] {
      forall j | 0 <= j < |have| ensures have[j] {
        assert !Covered(gaps, j);
      }
    } else {
      assert Covered(gaps, gaps[0].0);
    }
  }

  /**
   `next_request` answers exactly when something is missing, and its answer is valid, names
   only missing chunks and at least one of them, and fits the byte limit it carries.
   */
  lemma NextRequestIsSound(p: Plan, have: seq<bool>, q: NetworkQuality)
    ensures NextRequest(p, have, q).None? <==> forall j :: 0 <= j < |have| ==> have[j]
    ensures NextRequest(p, have, q).Some? ==>
              var r := NextRequest(p, have, q).value;
              && ValidRanges(r.ranges, |have|)
              && r.ranges != []
              && NamesOnlyMissing(r.ranges, have)
              && Total(r.ranges) * p.chunkCiphertextSize <= r.maxBytes
  {
    hide Gaps, Apart, Covered, Choose, Intersect, RecommendedStreams, Take, Scatter;
    MissingIs(have);
    var missing := Missing(have);
    if missing != [] {
      ChooseIs(p.interests, missing, |have|);
      var candidate := Choose(p.interests, missing).1;
      var maxChunks := Max(MaxBytes(p, q) / Max(p.chunkCiphertextSize, 1), 1);
      var ranges := if p.order == InOrder then Take(candidate, maxChunks) else ScatterAll(candidate, maxChunks);
      ChosenRanges(p, candidate, |have|, maxChunks);
      TrimsKeeps(ranges, candidate, 0, |have|);
      BudgetFits(p.chunkCiphertextSize, RecommendedStreams(q), Total(ranges));
    }
  }

  lemma ChosenRanges(p: Plan, candidate: seq<Range>, limit: nat, maxChunks: nat)
    requires candidate != [] && Apart(candidate, 0, limit) && maxChunks > 0
    ensures var ranges := if p.order == InOrder then Take(candidate, maxChunks) else ScatterAll(candidate, maxChunks);
            ranges != [] && Trims(ranges, candidate) && Total(ranges) <= maxChunks
  {
    hide Take, Scatter, Trims, Apart, Total;
    TakeTrims(candidate, 0, limit, maxChunks);
    ScatterTrims(candidate, 0, limit, Max(maxChunks / |candidate|, 1), maxChunks);
  }

  lemma BudgetFits(size: U64, streams: nat, total: nat)
    requires total <= Max(Max(size * 8 * streams % U64_LIMIT, size) / Max(size, 1), 1)
    ensures total * size <= Max(size * 8 * streams % U64_LIMIT, size)
  {
    var bytes := Max(size * 8 * streams % U64_LIMIT, size);
    if size > 0 {
      QuotientFits(bytes, size, total);
    }
  }

  lemma QuotientFits(bytes: nat, size: nat, total: nat)
    requires 0 < size <= bytes && total <= Max(bytes / size, 1)
    ensures total * size <= bytes
  {
    var chunks := bytes / size;
    assert chunks * size <= bytes;
    assert chunks >= 1;
    assert total * size <= chunks * size;
  }

  /**
   The stream count: eight, halved for each round-trip threshold passed and each pressure, down
   to one; and one outright on a lossy link.
   */
  lemma StreamsAre(q: NetworkQuality)
    ensures var halvings := One(q.rtt >= 40) + One(q.rtt >= 150) + One(q.rtt >= 400) +
                            One(q.rttVariance * 2 % U32_LIMIT >= Max(q.rtt, 1)) + One(q.thermal) + One(q.storageBound);
            RecommendedStreams(q) == if q.lossPermille >= 20 then 1 else Max(8 / Pow2(halvings), 1)
  {
    assert Pow2(1) == 2 && Pow2(2) == 4;
    assert Pow2(3) == 4 * Pow2(1) && Pow2(4) == 4 * Pow2(2);
    assert Pow2(5) == 4 * Pow2(3) && Pow2(6) == 4 * Pow2(4);
  }

  /** A request is for the plan's object, with its order and generation. */
  ghost predicate ForPlan(r: RangeRequest, p: Plan) {
    && r.transferId == p.transferId && r.objectId == p.objectId && r.generation == p.generation
    && r.order == if p.order == InOrder then 0 else 1
  }

  /**
   What a request asks for: eight chunks for each stream. In order they come from the front of
   the gaps chosen, whole ranges first; scattered they are spread over them.
   */
  lemma NextRequestTakes(p: Plan, have: seq<bool>, q: NetworkQuality)
    requires NextRequest(p, have, q).Some?
    requires 0 < p.chunkCiphertextSize && p.chunkCiphertextSize * 64 < U64_LIMIT
    ensures var r := NextRequest(p, have, q).value;
            var chosen, chunks := Choose(p.interests, Missing(have)).1, 8 * RecommendedStreams(q);
            && ForPlan(r, p) && r.maxBytes == chunks * p.chunkCiphertextSize
            && (p.order == InOrder ==> Front(r.ranges, chosen, chunks))
            && (p.order == Scattered ==>
                  r.ranges == if |chosen| <= chunks then Slices(chosen, |chosen|, chunks / Max(|chosen|, 1))
                              else Slices(chosen, chunks, 1))
  {
    hide Gaps, Apart, Choose, RecommendedStreams, Take, ScatterAll, Front;
    var chosen, chunks := Choose(p.interests, Missing(have)).1, 8 * RecommendedStreams(q);
    MissingIs(have);
    ChooseIs(p.interests, Missing(have), |have|);
    WholeChunks(p.chunkCiphertextSize, RecommendedStreams(q));
    TakeTrims(chosen, 0, |have|, chunks);
    ScatterSpreads(chosen, |have|, chunks);
  }

  lemma WholeChunks(size: nat, streams: nat)
    requires 0 < size && 1 <= streams <= 8 && size * 64 < U64_LIMIT
    ensures var bytes := Max(size * 8 * streams % U64_LIMIT, size);
            bytes == 8 * streams * size && bytes / size == 8 * streams
  {
    var chunks := 8 * streams;
    assert size <= chunks * size <= size * 64;
    assert size * 8 * streams == chunks * size;
    assert (chunks * size) / size == chunks by { ExactQuotient(chunks, size); }
  }

  lemma ExactQuotient(a: nat, b: nat)
    requires b > 0
    ensures (a * b) / b == a
  {
    var n := a * b;
    OneQuotient(a, n / b, b, n % b);
  }

  lemma OneQuotient(a: nat, q: nat, b: nat, r: nat)
    requires r < b && a * b == q * b + r
    ensures a == q
  {
    assert (a - q) * b == a * b - q * b && (q - a) * b == q * b - a * b;
    if q < a {
      Times(a - q, b);
    } else if a < q {
      Times(q - a, b);
    }
  }

  lemma Times(a: nat, b: nat)
    requires a > 0
    ensures a * b >= b
  {
  }

  /**
   `full_request` names the first 1024 gaps in full, and nothing that is held; its byte limit
   is that of the chunks it names, as far as 64 bits go. One such request is enough exactly
   when there are at most 1024 gaps.
   */
  lemma FullRequestIsSound(p: Plan, have: seq<bool>)
    ensures var r := FullRequest(p, have);
            && ValidRanges(r.ranges, |have|) && NamesOnlyMissing(r.ranges, have)
            && (r.ranges == [] <==> forall j :: 0 <= j < |have| ==> have[j])
            && ForPlan(r, p) && r.priority == 3
            && (Complete(Deliver(have, r.ranges)) <==> |Gaps(have, 0)| <= MAX_RANGES_PER_REQUEST)
            && Count(have) <= Count(Deliver(have, r.ranges))
            && var bytes := (Count(Deliver(have, r.ranges)) - Count(have)) * p.chunkCiphertextSize;
               r.maxBytes == if bytes < U64_LIMIT then bytes else U64_LIMIT - 1
  {
    hide Gaps, Apart, Deliver;
    MissingIs(have);
    FullDelivery(have);
    GapsTell(Deliver(have, Missing(have)));
    DeliveredCount(have, Missing(have), 0);
  }

  lemma GapsTell(have: seq<bool>)
    ensures Gaps(have, 0) == [] <==> Complete(have)
  {
    GapsAre(have, 0);
    if Gaps(have, 0) == [] {
      forall j | 0 <= j < |have| ensures have[j] {
        assert !Covered([], j);
      }
    } else {
      assert Covered(Gaps(have, 0), Gaps(have, 0)[0].0);
    }
  }

  /** Setting a run of clear bits raises the count by its length. */
  lemma CountRun(bits: seq<bool>, start: nat, end: nat)
    requires start <= end <= |bits| && forall j :: start <= j < end ==> !bits[j]
    ensures Count(bits[..start] + seq(end - start, _ => true) + bits[end..]) == Count(bits) + end - start
  {
    hide Count;
    var run, set' := bits[start..end], seq(end - start, _ => true);
    assert bits == bits[..start] + run + bits[end..];
    CountConcat(bits[..start], run);
    CountConcat(bits[..start] + run, bits[end..]);
    CountConcat(bits[..start], set');
    CountConcat(bits[..start] + set', bits[end..]);
    CountBounds(run);
    CountBounds(set');
  }

  /** Ranges are delivered one at a time: the first sets a run, and the others still name only missing chunks. */
  lemma DeliveredFirst(have: seq<bool>, ranges: seq<Range>, from: nat) returns (first: seq<bool>)
    requires ranges != [] && Apart(ranges, from, |have|) && NamesOnlyMissing(ranges, have)
    ensures var (start, end) := ranges[0];
            && start <= end <= |have| && (forall j :: start <= j < end ==> !have[j])
            && first == have[..start] + seq(end - start, _ => true) + have[end..]
            && Apart(ranges[1..], end + 1, |have|)
    ensures |first| == |have| && NamesOnlyMissing(ranges[1..], first)
    ensures Deliver(first, ranges[1..]) == Deliver(have, ranges)
  {
    hide Covered;
    var (start, end) := ranges[0];
    ApartTail(ranges, from, |have|);
    first := have[..start] + seq(end - start, _ => true) + have[end..];
    assert ranges == [ranges[0]] + ranges[1..];
    forall j: nat ensures Covered(ranges, j) <==> start <= j < end || Covered(ranges[1..], j) {
      ConsCovered(ranges[0], ranges[1..], j);
    }
    forall j: nat | Covered(ranges[1..], j) ensures j < |first| && !first[j] {
      assert Covered(ranges, j);
      BeyondFirst(ranges, from, |have|, j);
    }
    assert Deliver(first, ranges[1..]) == Deliver(have, ranges);
  }

  lemma BeyondFirst(ranges: seq<Range>, from: nat, n: nat, j: nat)
    requires ranges != [] && Apart(ranges, from, n) && Covered(ranges[1..], j)
    ensures j > ranges[0].1
  {
    ApartTail(ranges, from, n);
  }

  /** Delivering ranges of missing chunks adds exactly the chunks they name. */
  lemma {:induction false} DeliveredCount(have: seq<bool>, ranges: seq<Range>, from: nat)
    requires Apart(ranges, from, |have|) && NamesOnlyMissing(ranges, have)
    ensures Count(Deliver(have, ranges)) == Count(have) + Total(ranges)
    decreases |ranges|
  {
    hide Count, Apart, NamesOnlyMissing;
    if ranges == [] {
      assert Deliver(have, ranges) == have;
    } else {
      var first := DeliveredFirst(have, ranges, from);
      CountRun(have, ranges[0].0, ranges[0].1);
      DeliveredCount(first, ranges[1..], ranges[0].1 + 1);
    }
  }

  // --- Delivering requests completes the object ---

  /** What is held once everything a request names has arrived. */
  ghost function Deliver(have: seq<bool>, ranges: seq<Range>): (after: seq<bool>)
    ensures |after| == |have|
    ensures forall j :: 0 <= j < |have| ==> after[j] == (have[j] || Covered(ranges, j))
  {
    seq(|have|, j requires 0 <= j < |have| => have[j] || Covered(ranges, j))
  }

  ghost predicate Complete(have: seq<bool>) {
    forall j :: 0 <= j < |have| ==> have[j]
  }

  /** A request that names something missing leaves less missing. */
  lemma DeliveryProgresses(have: seq<bool>, ranges: seq<Range>)
    requires NamesOnlyMissing(ranges, have) && ranges != [] && ranges[0].0 < ranges[0].1
    ensures Count(have) < Count(Deliver(have, ranges)) <= |have|
  {
    var after := Deliver(have, ranges);
    var j := ranges[0].0;
    assert Covered(ranges, j);
    CountGrows(have, after, j);
    CountBounds(after);
  }

  lemma {:induction false} CountGrows(a: seq<bool>, b: seq<bool>, j: nat)
    requires |a| == |b| && forall i :: 0 <= i < |a| ==> a[i] ==> b[i]
    ensures Count(a) <= Count(b)
    ensures j < |a| && !a[j] && b[j] ==> Count(a) < Count(b)
    decreases |a|
  {
    if a != [] {
      CountGrows(a[..|a| - 1], b[..|b| - 1], j);
    }
  }

  /** Asking and delivering, round after round, with any link quality in each round. */
  ghost function AskUntilDone(p: Plan, have: seq<bool>, quality: nat -> NetworkQuality, round: nat): (rounds: nat)
    decreases |have| - Count(have)
  {
    NextRequestIsSound(p, have, quality(round));
    CountBounds(have);
    var r := NextRequest(p, have, quality(round));
    if r.None? then 0
    else
      DeliveryProgresses(have, r.value.ranges);
      1 + AskUntilDone(p, Deliver(have, r.value.ranges), quality, round + 1)
  }

  ghost function HaveAfter(p: Plan, have: seq<bool>, quality: nat -> NetworkQuality, round: nat, rounds: nat): seq<bool>
    decreases rounds
  {
    if rounds == 0 then have
    else
      var r := NextRequest(p, have, quality(round));
      HaveAfter(p, if r.None? then have else Deliver(have, r.value.ranges), quality, round + 1, rounds - 1)
  }

  /** Delivering `next_request` in full always completes the object, in at most one round per missing chunk. */
  lemma {:induction false} RequestsComplete(p: Plan, have: seq<bool>, quality: nat -> NetworkQuality, round: nat)
    ensures Complete(HaveAfter(p, have, quality, round, AskUntilDone(p, have, quality, round)))
    ensures AskUntilDone(p, have, quality, round) <= |have| - Count(have)
    decreases |have| - Count(have)
  {
    hide NextRequest, Deliver, Covered, Apart;
    NextRequestIsSound(p, have, quality(round));
    CountBounds(have);
    var r := NextRequest(p, have, quality(round));
    if r.Some? {
      FirstRange(r.value.ranges, |have|);
      DeliveryProgresses(have, r.value.ranges);
      RequestsComplete(p, Deliver(have, r.value.ranges), quality, round + 1);
    }
  }

  lemma FirstRange(ranges: seq<Range>, n: nat)
    requires ranges != [] && ValidRanges(ranges, n)
    ensures ranges[0].0 < ranges[0].1
  {
  }

  /** Rounds of `full_request` until nothing is missing. */
  ghost function FullRounds(have: seq<bool>): nat
    decreases |have| - Count(have)
  {
    MissingIs(have);
    CountBounds(have);
    if Missing(have) == [] then 0
    else
      DeliveryProgresses(have, Missing(have));
      1 + FullRounds(Deliver(have, Missing(have)))
  }

  lemma {:induction false} GapsSkip(bits: seq<bool>, i: nat, p: nat)
    requires i <= p <= |bits| && forall j :: i <= j < p ==> bits[j]
    ensures Gaps(bits, i) == Gaps(bits, p)
    decreases p - i
  {
    if i < p {
      GapsSkip(bits, i + 1, p);
    }
  }

  lemma {:induction false} RunEndSuffix(a: seq<bool>, b: seq<bool>, i: nat)
    requires |a| == |b| && i <= |a| && a[i..] == b[i..]
    ensures RunEnd(a, i, false) == RunEnd(b, i, false)
    decreases |a| - i
  {
    if i < |a| {
      assert a[i] == a[i..][0] == b[i..][0] == b[i];
      assert a[i + 1..] == a[i..][1..] && b[i + 1..] == b[i..][1..];
      RunEndSuffix(a, b, i + 1);
    }
  }

  lemma {:induction false} GapsSuffix(a: seq<bool>, b: seq<bool>, i: nat)
    requires |a| == |b| && i <= |a| && a[i..] == b[i..]
    ensures Gaps(a, i) == Gaps(b, i)
    decreases |a| - i
  {
    if i < |a| {
      assert a[i] == a[i..][0] == b[i..][0] == b[i];
      RunEndSuffix(a, b, i);
      var next := if a[i] then i + 1 else RunEnd(a, i, false);
      assert a[next..] == a[i..][next - i..] && b[next..] == b[i..][next - i..];
      GapsSuffix(a, b, next);
    }
  }

  /** Dropping the first `m` gaps leaves the gaps from where gap `m` starts. */
  lemma {:induction false} GapsDrop(bits: seq<bool>, i: nat, m: nat)
    requires i <= |bits| && m < |Gaps(bits, i)|
    ensures i <= Gaps(bits, i)[m].0 <= |bits|
    ensures Gaps(bits, i)[m..] == Gaps(bits, Gaps(bits, i)[m].0)
    decreases |bits| - i
  {
    if bits[i] {
      GapsDrop(bits, i + 1, m);
    } else if m > 0 {
      var e := RunEnd(bits, i, false);
      GapsDrop(bits, e, m - 1);
      assert Gaps(bits, i)[m] == Gaps(bits, e)[m - 1];
      assert Gaps(bits, i)[m..] == Gaps(bits, e)[m - 1..];
    }
  }

  /** Delivering a full request removes exactly the gaps it named. */
  lemma FullDelivery(have: seq<bool>)
    ensures Gaps(Deliver(have, Missing(have)), 0) == Gaps(have, 0)[|Missing(have)|..]
  {
    var gaps, m := Gaps(have, 0), |Missing(have)|;
    var after := Deliver(have, Missing(have));
    GapsAre(have, 0);
    if m == |gaps| {
      forall j | 0 <= j < |have| ensures after[j] {
        assert Covered(gaps, j) <==> !have[j];
      }
      GapsSkip(after, 0, |have|);
      assert gaps[m..] == [];
    } else {
      var p := gaps[m].0;
      GapsDrop(have, 0, m);
      forall j | 0 <= j < |have| ensures after[j] == (j < p || have[j]) {
        PrefixCovers(have, gaps, m, j);
      }
      assert after[p..] == have[p..];
      GapsSuffix(after, have, p);
      GapsSkip(after, 0, p);
    }
  }

  lemma PrefixCovers(have: seq<bool>, gaps: seq<Range>, m: nat, j: nat)
    requires j < |have| && m < |gaps| && Apart(gaps, 0, |have|)
    requires Covered(gaps, j) <==> !have[j]
    ensures have[j] || Covered(gaps[..m], j) <==> j < gaps[m].0 || have[j]
  {
    if Covered(gaps, j) {
      var k :| 0 <= k < |gaps| && gaps[k].0 <= j < gaps[k].1;
      if k < m {
        assert gaps[..m][k] == gaps[k];
      }
    }
    if Covered(gaps[..m], j) {
      var k :| 0 <= k < m && gaps[..m][k].0 <= j < gaps[..m][k].1;
      assert gaps[k].1 < gaps[m].0;
    }
  }

  /** A transfer by full requests takes exactly one round for each 1024 gaps, rounded up. */
  lemma {:induction false} FullRoundsAre(have: seq<bool>)
    ensures FullRounds(have) == (|Gaps(have, 0)| + MAX_RANGES_PER_REQUEST - 1) / MAX_RANGES_PER_REQUEST
    decreases |have| - Count(have)
  {
    hide Gaps, Deliver;
    MissingIs(have);
    CountBounds(have);
    if Missing(have) != [] {
      FirstRange(Missing(have), |have|);
      DeliveryProgresses(have, Missing(have));
      FullDelivery(have);
      FullRoundsAre(Deliver(have, Missing(have)));
    }
  }
}
