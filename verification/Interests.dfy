/**
 Which chunks are asked for first (`scheduler.rs`): regions of interest are kept by priority
 and position, and a request serves the first of them that still lacks chunks, as far as the
 scheduler can see them.
 */
module Interests {
  import opened Octets
  import opened Rle
  import opened Scheduler

  /** The order interests are kept in: priority class, then position. */
  predicate NotAfter(a: Interest, b: Interest) {
    a.priority.Code() < b.priority.Code() || (a.priority == b.priority && a.range.0 <= b.range.0)
  }

  ghost predicate Ordered(s: seq<Interest>) {
    forall i, j :: 0 <= i < j < |s| ==> NotAfter(s[i], s[j])
  }

  /** Behind every interest that does not come after it. */
  function Insert(s: seq<Interest>, x: Interest): (r: seq<Interest>)
    ensures |r| == |s| + 1
  {
    if s == [] then [x]
    else if NotAfter(s[|s| - 1], x) then s + [x]
    else Insert(s[..|s| - 1], x) + [s[|s| - 1]]
  }

  lemma OrderIsTotal(a: Interest, b: Interest, c: Interest)
    ensures NotAfter(a, b) || NotAfter(b, a)
    ensures NotAfter(a, b) && NotAfter(b, c) ==> NotAfter(a, c)
  {
  }

  /** It lands behind all that do not come after it and before all that do; nothing else moves. */
  lemma {:induction false} InsertPlaces(s: seq<Interest>, x: Interest) returns (k: nat)
    requires Ordered(s)
    ensures k <= |s| && Insert(s, x) == s[..k] + [x] + s[k..]
    ensures forall i :: 0 <= i < |s| ==> (NotAfter(s[i], x) <==> i < k)
  {
    hide NotAfter;
    if s == [] {
      k := 0;
    } else if NotAfter(s[|s| - 1], x) {
      k := |s|;
      forall i | 0 <= i < |s| ensures NotAfter(s[i], x) {
        OrderIsTotal(s[i], s[|s| - 1], x);
      }
    } else {
      var front, last := s[..|s| - 1], s[|s| - 1];
      k := InsertPlaces(front, x);
      assert s == front + [last] && s[..k] == front[..k] && s[k..] == front[k..] + [last];
      assert forall i :: 0 <= i < |front| ==> s[i] == front[i];
    }
  }

  lemma InsertOrdered(s: seq<Interest>, x: Interest)
    requires Ordered(s)
    ensures Ordered(Insert(s, x)) && multiset(Insert(s, x)) == multiset(s) + multiset{x}
  {
    hide NotAfter, Insert;
    var k := InsertPlaces(s, x);
    assert s == s[..k] + s[k..];
    forall i | 0 <= i < |s| ensures NotAfter(s[i], x) || NotAfter(x, s[i]) {
      OrderIsTotal(s[i], x, x);
    }
  }

  class InterestList {
    var interests: seq<Interest>

    ghost predicate Valid()
      reads this
    {
      Ordered(interests)
    }

    constructor ()
      ensures Valid() && interests == []
    {
      interests := [];
    }

    /** `add_interest`: an empty region is ignored, any other is put in its place. */
    method Add(priority: Priority, range: Range)
      requires Valid()
      modifies this
      ensures Valid()
      ensures interests == if range.0 < range.1 then Insert(old(interests), Interest(priority, range))
              else old(interests)
    {
      if range.1 > range.0 {
        InsertOrdered(interests, Interest(priority, range));
        interests := Insert(interests, Interest(priority, range));
      }
    }
  }

  // --- The choice ---

  /** The interest covers a missing chunk among the gaps seen. */
  ghost predicate Unsatisfied(i: Interest, missing: seq<Range>) {
    exists j: nat :: i.range.0 <= j < i.range.1 && Covered(missing, j)
  }

  lemma UnsatisfiedIs(i: Interest, missing: seq<Range>)
    requires forall k :: 0 <= k < |missing| ==> missing[k].0 < missing[k].1
    ensures Unsatisfied(i, missing) <==> Intersect(missing, i.range) != []
  {
    var clipped := Intersect(missing, i.range);
    if clipped != [] {
      IntersectInside(missing, i.range);
      var j := clipped[0].0;
      assert Covered(clipped, j);
      IntersectCovers(missing, i.range, j);
    }
    if Unsatisfied(i, missing) {
      var j: nat :| i.range.0 <= j < i.range.1 && Covered(missing, j);
      IntersectCovers(missing, i.range, j);
    }
  }

  lemma {:induction false} IntersectInside(ranges: seq<Range>, window: Range)
    ensures forall k :: 0 <= k < |Intersect(ranges, window)| ==>
              var r := Intersect(ranges, window)[k]; window.0 <= r.0 < r.1 <= window.1
  {
    if ranges != [] {
      IntersectInside(ranges[1..], window);
    }
  }

  /** The choice is the first interest with something left, or everything when there is none. */
  lemma {:induction false} ChooseIsFirst(interests: seq<Interest>, missing: seq<Range>) returns (k: nat)
    ensures k <= |interests|
    ensures forall i :: 0 <= i < k ==> Intersect(missing, interests[i].range) == []
    ensures k < |interests| ==>
              Intersect(missing, interests[k].range) != [] &&
              Choose(interests, missing) == (interests[k].priority, Intersect(missing, interests[k].range))
    ensures k == |interests| ==> Choose(interests, missing) == (Sequential, missing)
  {
    hide Intersect;
    k := 0;
    if interests != [] && Intersect(missing, interests[0].range) == [] {
      var rest := ChooseIsFirst(interests[1..], missing);
      k := rest + 1;
      assert forall i :: 0 < i < k ==> interests[i] == interests[1..][i - 1];
    }
  }

  /**
   A request serves one interest: one that still lacks a chunk the scheduler sees, with none
   that lacks such a chunk before it in the order. With no such interest it is sequential.
   */
  lemma BestInterestFirst(p: Plan, have: seq<bool>, q: NetworkQuality) returns (chosen: Option<Interest>)
    requires Ordered(p.interests) && NextRequest(p, have, q).Some?
    ensures var r := NextRequest(p, have, q).value;
            match chosen
            case Some(c) =>
              && c in p.interests && Unsatisfied(c, Missing(have)) && r.priority == c.priority.Code()
              && (forall j: nat :: Covered(r.ranges, j) ==> c.range.0 <= j < c.range.1)
              && (forall i :: i in p.interests && Unsatisfied(i, Missing(have)) ==> NotAfter(c, i))
            case None =>
              && r.priority == Sequential.Code()
              && (forall i :: i in p.interests ==> !Unsatisfied(i, Missing(have)))
  {
    hide Intersect, Covered, Gaps, Choose, RecommendedStreams, Take, Scatter, NotAfter, Unsatisfied, Trims, Missing,
         MaxBytes;
    var missing := Missing(have);
    var k := ChooseIsFirst(p.interests, missing);
    MissingProper(have);
    forall i | i in p.interests ensures Unsatisfied(i, missing) <==> Intersect(missing, i.range) != [] {
      UnsatisfiedIs(i, missing);
    }
    if k < |p.interests| {
      chosen := Some(p.interests[k]);
      ServesWindow(p, have, q, p.interests[k].range);
      forall i | i in p.interests && Unsatisfied(i, missing) ensures NotAfter(p.interests[k], i) {
        var n :| 0 <= n < |p.interests| && p.interests[n] == i;
        OrderIsTotal(i, i, i);
      }
    } else {
      chosen := None;
    }
  }

  lemma MissingProper(have: seq<bool>)
    ensures forall k :: 0 <= k < |Missing(have)| ==> Missing(have)[k].0 < Missing(have)[k].1
  {
    hide Missing, NamesOnlyMissing;
    MissingIs(have);
  }

  /** What is asked for lies within the window the candidate was clipped to. */
  lemma ServesWindow(p: Plan, have: seq<bool>, q: NetworkQuality, window: Range)
    requires NextRequest(p, have, q).Some? && Choose(p.interests, Missing(have)).1 == Intersect(Missing(have), window)
    ensures forall j: nat :: Covered(NextRequest(p, have, q).value.ranges, j) ==> window.0 <= j < window.1
  {
    hide Gaps, Intersect, Choose, RecommendedStreams, Take, Scatter, MaxBytes, Missing, NamesOnlyMissing, Total;
    var candidate := Choose(p.interests, Missing(have)).1;
    var maxChunks := Max(MaxBytes(p, q) / Max(p.chunkCiphertextSize, 1), 1);
    MissingIs(have);
    ChooseIs(p.interests, Missing(have), |have|);
    ChosenRanges(p, candidate, |have|, maxChunks);
    IntersectInside(Missing(have), window);
  }
}
