/**
 The event queue between transfers and a polling application (`events.rs`): bounded,
 coalescing repeated progress, losing droppable events before terminal ones, and reporting
 every loss.
 */
module Events {
  import opened Octets

  const MAX_EVENTS := 1024

  datatype ProgressRole = Receiving | Sending

  datatype Event =
    | TransferStarted(transferId: Bytes, objects: U64, totalBytes: U64)
    | TransferProgress(transferId: Bytes, role: ProgressRole, bytes: U64, totalBytes: U64, chunks: U64,
                       totalChunks: U64)
    | ObjectCompleted(transferId: Bytes, objectId: Bytes, plaintextDigest: Bytes)
    | TransferCompleted(transferId: Bytes, objects: U64)
    | TransferFailed(transferId: Bytes, code: U64)
    | TransferCancelled(transferId: Bytes)
    | EventsDropped(lost: U64)
    | TransferRoute(transferId: Bytes, route: U64, addressClass: Option<U64>)
  {
    predicate Terminal() {
      ObjectCompleted? || TransferCompleted? || TransferFailed? || TransferCancelled?
    }

    function ProgressKey(): Option<(Bytes, ProgressRole)> {
      if TransferProgress? then Some((transferId, role)) else None
    }
  }

  // --- The queue as a value ---

  datatype Inner = Inner(queue: seq<Event>, drops: U64)

  /** The first droppable event, or the front when there is none. */
  function Victim(queue: seq<Event>): (v: nat)
    requires queue != []
    ensures v < |queue|
    ensures queue[v].Terminal() ==> v == 0 && forall k :: 0 <= k < |queue| ==> queue[k].Terminal()
    ensures forall k :: 0 <= k < v ==> queue[k].Terminal()
  {
    if !queue[0].Terminal() then 0
    else if |queue| == 1 then 0
    else
      var rest := Victim(queue[1..]);
      if queue[1..][rest].Terminal() then 0 else rest + 1
  }

  function Without<T>(s: seq<T>, i: nat): (r: seq<T>)
    requires i < |s|
    ensures |r| == |s| - 1
  {
    s[..i] + s[i + 1..]
  }

  predicate Repeats(queue: seq<Event>, e: Event) {
    queue != [] && e.ProgressKey().Some? && queue[|queue| - 1].ProgressKey() == e.ProgressKey()
  }

  function Coalesced(queue: seq<Event>, e: Event): seq<Event> {
    if Repeats(queue, e) then queue[..|queue| - 1] else queue
  }

  function Pushed(s: Inner, e: Event): Inner {
    var queue := Coalesced(s.queue, e);
    if |queue| >= MAX_EVENTS
    then Inner(Without(queue, Victim(queue)) + [e], if s.drops + 1 < U64_LIMIT then s.drops + 1 else s.drops)
    else Inner(queue + [e], s.drops)
  }

  /** Losses are reported before anything that followed them. */
  function Polled(s: Inner): (Option<Event>, Inner) {
    if s.drops > 0 then (Some(EventsDropped(s.drops)), s.(drops := 0))
    else if s.queue != [] then (Some(s.queue[0]), s.(queue := s.queue[1..]))
    else (None, s)
  }

  datatype Op = PushOp(e: Event) | PollOp

  function Applied(s: Inner, ops: seq<Op>): Inner
    decreases |ops|
  {
    if ops == [] then s
    else
      var last := ops[|ops| - 1];
      var before := Applied(s, ops[..|ops| - 1]);
      if last.PushOp? then Pushed(before, last.e) else Polled(before).1
  }

  /** A poll that waits: `wakes` is what the other threads do before each wake-up, up to the deadline. */
  function Waited(s: Inner, wakes: seq<seq<Op>>): (Option<Event>, Inner)
    decreases |wakes|
  {
    if Polled(s).0.Some? || wakes == [] then Polled(s) else Waited(Applied(s, wakes[0]), wakes[1..])
  }

  // --- The object ---

  class EventQueue {
    var queue: seq<Event>
    var unreportedDrops: U64

    function State(): Inner
      reads this
    {
      Inner(queue, unreportedDrops)
    }

    constructor ()
      ensures State() == Inner([], 0)
    {
      queue := [];
      unreportedDrops := 0;
    }

    /** `evict_one`: makes room by losing a droppable event if there is one. */
    method EvictOne()
      requires queue != []
      modifies this
      ensures queue == Without(old(queue), Victim(old(queue)))
      ensures unreportedDrops == if old(unreportedDrops) + 1 < U64_LIMIT then old(unreportedDrops) + 1
              else old(unreportedDrops)
    {
      var i: nat := 0;
      while i < |queue| && queue[i].Terminal()
        invariant i <= |queue| && queue == old(queue) && unreportedDrops == old(unreportedDrops)
        invariant forall k :: 0 <= k < i ==> queue[k].Terminal()
      {
        i := i + 1;
      }
      if i < |queue| {
        VictimIs(queue, i);
        queue := queue[..i] + queue[i + 1..];
      } else {
        queue := queue[1..];
      }
      if unreportedDrops + 1 < U64_LIMIT {
        unreportedDrops := unreportedDrops + 1;
      }
    }

    method Push(e: Event)
      modifies this
      ensures State() == Pushed(old(State()), e)
    {
      if e.ProgressKey().Some? && queue != [] && queue[|queue| - 1].ProgressKey() == e.ProgressKey() {
        queue := queue[..|queue| - 1];
      }
      if |queue| >= MAX_EVENTS {
        EvictOne();
      }
      queue := queue + [e];
    }

    /** One look at the queue. */
    method Look() returns (r: Option<Event>)
      modifies this
      ensures (r, State()) == Polled(old(State()))
    {
      if unreportedDrops > 0 {
        var lost := unreportedDrops;
        unreportedDrops := 0;
        return Some(EventsDropped(lost));
      }
      if queue != [] {
        r := Some(queue[0]);
        queue := queue[1..];
        return;
      }
      return None;
    }

    /** What other threads do while the lock is given up. */
    method Others(ops: seq<Op>)
      modifies this
      ensures State() == Applied(old(State()), ops)
    {
      for i := 0 to |ops|
        invariant State() == Applied(old(State()), ops[..i])
      {
        assert ops[..i + 1][..i] == ops[..i];
        if ops[i].PushOp? {
          Push(ops[i].e);
        } else {
          var _ := Look();
        }
      }
      assert ops[..|ops|] == ops;
    }

    /** `poll`: looks, and looks again after each wake-up until something is there or time is up. */
    method Poll(wakes: seq<seq<Op>>) returns (r: Option<Event>)
      modifies this
      ensures (r, State()) == Waited(old(State()), wakes)
    {
      r := Look();
      var i := 0;
      while r.None? && i < |wakes|
        invariant i <= |wakes|
        invariant if r.Some? then (r, State()) == Waited(old(State()), wakes)
                  else Polled(State()) == (None, State()) && Waited(State(), wakes[i..]) == Waited(old(State()), wakes)
      {
        Others(wakes[i]);
        i := i + 1;
        r := Look();
      }
    }
  }

  /** Everything the others did before the first `n` wake-ups. */
  function Flat(wakes: seq<seq<Op>>): seq<Op> {
    if wakes == [] then [] else wakes[0] + Flat(wakes[1..])
  }

  lemma {:induction false} AppliedTwice(s: Inner, a: seq<Op>, b: seq<Op>)
    ensures Applied(s, a + b) == Applied(Applied(s, a), b)
    decreases |b|
  {
    if b == [] {
      assert a + b == a;
    } else {
      assert (a + b)[..|a + b| - 1] == a + b[..|b| - 1];
      AppliedTwice(s, a, b[..|b| - 1]);
    }
  }

  /**
   A waiting poll returns what the first look that finds anything finds, and nothing only when
   every look up to the deadline finds the queue empty and no loss to report.
   */
  lemma {:induction false} WaitsForTheFirst(s: Inner, wakes: seq<seq<Op>>) returns (n: nat)
    ensures n <= |wakes| && Waited(s, wakes) == Polled(Applied(s, Flat(wakes[..n])))
    ensures forall m :: 0 <= m < n ==> var t := Applied(s, Flat(wakes[..m])); t.queue == [] && t.drops == 0
    ensures Waited(s, wakes).0.None? <==>
              n == |wakes| && var t := Applied(s, Flat(wakes)); t.queue == [] && t.drops == 0
    decreases |wakes|
  {
    hide Applied;
    assert Applied(s, []) == s by { NothingApplied(s); }
    if Polled(s).0.Some? || wakes == [] {
      n := 0;
      assert wakes[..0] == [];
      assert wakes == [] ==> Flat(wakes) == [];
    } else {
      var next := Applied(s, wakes[0]);
      var rest := WaitsForTheFirst(next, wakes[1..]);
      n := rest + 1;
      forall m | 0 < m <= |wakes| ensures Applied(s, Flat(wakes[..m])) == Applied(next, Flat(wakes[1..][..m - 1])) {
        assert wakes[..m][1..] == wakes[1..][..m - 1];
        AppliedTwice(s, wakes[0], Flat(wakes[1..][..m - 1]));
      }
      assert wakes[..|wakes|] == wakes && wakes[1..][..|wakes| - 1] == wakes[1..];
      assert Flat(wakes[..0]) == [];
    }
  }

  lemma NothingApplied(s: Inner)
    ensures Applied(s, []) == s
  {
  }

  lemma {:induction false} VictimIs(queue: seq<Event>, i: nat)
    requires i < |queue| && !queue[i].Terminal() && forall k :: 0 <= k < i ==> queue[k].Terminal()
    ensures Victim(queue) == i
  {
  }

  // --- Whole runs ---

  /** What a poll handed to the application; `report` tells a report of losses from a queued event. */
  datatype Handed = Handed(event: Event, report: bool)

  /**
   The queue with its history: `sent` are the pushes, `handed` what polls returned, `at` the
   push each delivered and then each queued event came from. `lost` are the pushes that were
   evicted, and `superseded` maps a push that was coalesced to the one that took its place.
   */
  datatype History = History(inner: Inner, sent: seq<Event>, handed: seq<Handed>, at: seq<nat>, lost: set<nat>,
                             superseded: map<nat, nat>)

  function Fresh(): History {
    History(Inner([], 0), [], [], [], {}, map[])
  }

  /** The queued events that were handed over, without the reports. */
  function Delivered(handed: seq<Handed>): seq<Event> {
    if handed == [] then []
    else
      var last := handed[|handed| - 1];
      Delivered(handed[..|handed| - 1]) + if last.report then [] else [last.event]
  }

  /** The losses that the reports handed over speak of. */
  function Reported(handed: seq<Handed>): nat {
    if handed == [] then 0
    else
      var last := handed[|handed| - 1];
      Reported(handed[..|handed| - 1]) + if last.report && last.event.EventsDropped? then last.event.lost else 0
  }

  lemma HandedMore(handed: seq<Handed>, g: Handed)
    ensures Delivered(handed + [g]) == Delivered(handed) + if g.report then [] else [g.event]
    ensures Reported(handed + [g]) == Reported(handed) + if g.report && g.event.EventsDropped? then g.event.lost else 0
  {
    assert (handed + [g])[..|handed|] == handed;
  }

  function Remaining(h: History, e: Event): seq<nat>
    requires |h.inner.queue| <= |h.at|
  {
    if Repeats(h.inner.queue, e) then h.at[..|h.at| - 1] else h.at
  }

  /** Where in the pushes the event comes from that must go, if one must. */
  function Evicted(h: History, e: Event): (i: Option<nat>)
    requires |h.inner.queue| <= |h.at|
    ensures i.Some? ==> i.value < |Remaining(h, e)|
  {
    var queue := Coalesced(h.inner.queue, e);
    if |queue| >= MAX_EVENTS then Some(|h.at| - |h.inner.queue| + Victim(queue)) else None
  }

  function Kept(h: History, e: Event): seq<nat>
    requires |h.inner.queue| <= |h.at|
  {
    var i := Evicted(h, e);
    if i.Some? then Without(Remaining(h, e), i.value) else Remaining(h, e)
  }

  function Step(h: History, op: Op): History
    requires |h.inner.queue| <= |h.at|
  {
    match op
    case PushOp(e) =>
      var at, i := Remaining(h, e), Evicted(h, e);
      History(Pushed(h.inner, e), h.sent + [e], h.handed,
              Kept(h, e) + [|h.sent|],
              if i.Some? then h.lost + {at[i.value]} else h.lost,
              if Repeats(h.inner.queue, e) then h.superseded[h.at[|h.at| - 1] := |h.sent|] else h.superseded)
    case PollOp =>
      var (r, inner) := Polled(h.inner);
      h.(inner := inner, handed := if r.Some? then h.handed + [Handed(r.value, h.inner.drops > 0)] else h.handed)
  }

  ghost predicate Increasing(s: seq<nat>) {
    forall i, j :: 0 <= i < j < |s| ==> s[i] < s[j]
  }

  /** No two neighbours report progress of the same transfer and role. */
  ghost predicate NoRepeats(queue: seq<Event>) {
    forall k :: 0 <= k < |queue| - 1 && queue[k].ProgressKey().Some? ==>
        queue[k].ProgressKey() != queue[k + 1].ProgressKey()
  }

  /** These events are an in-order selection of what was sent. */
  ghost predicate Selects(sent: seq<Event>, events: seq<Event>, at: seq<nat>) {
    && |at| == |events| && Increasing(at)
    && forall k :: 0 <= k < |at| ==> at[k] < |sent| && sent[at[k]] == events[k]
  }

  /** Delivered, then queued: an in-order selection of what was pushed. */
  ghost predicate InOrder(h: History) {
    Selects(h.sent, Delivered(h.handed) + h.inner.queue, h.at)
  }

  /** Progress of one transfer in one role, told twice. */
  ghost predicate SameProgress(a: Event, b: Event) {
    a.TransferProgress? && b.TransferProgress? && a.transferId == b.transferId && a.role == b.role
  }

  /** Every push has one fate: delivered or queued, lost, or superseded by a later one on the same progress. */
  ghost predicate Fated(h: History) {
    && (forall i: nat :: i < |h.sent| <==> i in h.at || i in h.lost || i in h.superseded)
    && (forall i :: i in h.at ==> i !in h.lost && i !in h.superseded)
    && (forall i :: i in h.lost ==> i !in h.superseded)
    && (forall i :: i in h.superseded ==>
          i < h.superseded[i] < |h.sent| && SameProgress(h.sent[i], h.sent[h.superseded[i]]))
  }

  /** The losses told in reports, and those still to be told, are the losses there were, up to saturation. */
  ghost predicate Accounted(h: History) {
    && (forall g :: g in h.handed && g.report ==> g.event.EventsDropped? && g.event.lost > 0)
    && |h.sent| == |Delivered(h.handed)| + |h.inner.queue| + |h.superseded| + |h.lost|
    && Reported(h.handed) + h.inner.drops <= |h.lost|
    && (|h.lost| < U64_LIMIT ==> Reported(h.handed) + h.inner.drops == |h.lost|)
  }

  ghost predicate Invariant(h: History) {
    && InOrder(h) && Fated(h) && Accounted(h) && NoRepeats(h.inner.queue) && |h.inner.queue| <= MAX_EVENTS
  }

  lemma SelectsWithout(sent: seq<Event>, events: seq<Event>, at: seq<nat>, i: nat)
    requires Selects(sent, events, at) && i < |at|
    ensures Selects(sent, Without(events, i), Without(at, i))
  {
    var fewer := Without(at, i);
    assert forall k :: 0 <= k < |fewer| ==> fewer[k] == at[if k < i then k else k + 1];
  }

  lemma SelectsMore(sent: seq<Event>, events: seq<Event>, at: seq<nat>, e: Event)
    requires Selects(sent, events, at)
    ensures Selects(sent + [e], events + [e], at + [|sent|])
  {
  }

  lemma WithoutBehind(a: seq<Event>, b: seq<Event>, i: nat)
    requires i < |b|
    ensures a + Without(b, i) == Without(a + b, |a| + i)
  {
  }

  /** Removing the victim never makes two neighbours alike: what precedes it is terminal. */
  lemma VictimKeepsApart(queue: seq<Event>)
    requires queue != [] && NoRepeats(queue)
    ensures NoRepeats(Without(queue, Victim(queue)))
  {
    var v := Victim(queue);
    var rest := Without(queue, v);
    forall k | 0 <= k < |rest| - 1 && rest[k].ProgressKey().Some?
      ensures rest[k].ProgressKey() != rest[k + 1].ProgressKey()
    {
      assert k >= v && rest[k] == queue[k + 1] && rest[k + 1] == queue[k + 2];
    }
  }

  lemma SelectsFront(sent: seq<Event>, events: seq<Event>, at: seq<nat>, n: nat)
    requires Selects(sent, events, at) && n <= |at|
    ensures Selects(sent, events[..n], at[..n])
  {
  }

  lemma FrontApart(queue: seq<Event>, e: Event)
    requires NoRepeats(queue) && Repeats(queue, e)
    ensures NoRepeats(queue[..|queue| - 1]) && !Repeats(queue[..|queue| - 1], e)
  {
    var n := |queue|;
    assert n >= 2 && queue[n - 2].ProgressKey().Some? ==> queue[n - 2].ProgressKey() != queue[n - 1].ProgressKey();
  }

  /** What coalescing leaves: still in order, apart, and with a different last key. */
  lemma CoalescingKeeps(h: History, e: Event)
    requires InOrder(h) && NoRepeats(h.inner.queue)
    ensures |h.inner.queue| <= |h.at|
    ensures var queue := Coalesced(h.inner.queue, e);
            Selects(h.sent, Delivered(h.handed) + queue, Remaining(h, e)) && NoRepeats(queue) && !Repeats(queue, e)
  {
    SelectsLength(h);
    hide Selects, NoRepeats, Event.ProgressKey;
    var q, got := h.inner.queue, Delivered(h.handed);
    if Repeats(q, e) {
      FrontApart(q, e);
      SelectsFront(h.sent, got + q, h.at, |h.at| - 1);
      assert got + q[..|q| - 1] == (got + q)[..|h.at| - 1];
    }
  }

  lemma {:induction false} LastApart(queue: seq<Event>, e: Event)
    requires NoRepeats(queue) && !Repeats(queue, e)
    ensures NoRepeats(queue + [e])
  {
    var longer := queue + [e];
    forall k | 0 <= k < |longer| - 1 && longer[k].ProgressKey().Some?
      ensures longer[k].ProgressKey() != longer[k + 1].ProgressKey()
    {
      if k < |queue| - 1 {
        assert queue[k].ProgressKey() != queue[k + 1].ProgressKey();
      }
    }
  }

  /** After an eviction the last event is the same one, or terminal. */
  lemma EvictionKeepsLast(queue: seq<Event>, e: Event)
    requires queue != [] && !Repeats(queue, e)
    ensures !Repeats(Without(queue, Victim(queue)), e)
  {
    var v := Victim(queue);
    var rest := Without(queue, v);
    if |queue| >= 2 {
      assert rest[|rest| - 1] == if v == |queue| - 1 then queue[|queue| - 2] else queue[|queue| - 1];
    }
  }

  lemma PushInOrder(h: History, e: Event)
    requires InOrder(h) && NoRepeats(h.inner.queue) && |h.inner.queue| <= MAX_EVENTS
    ensures |h.inner.queue| <= |h.at|
    ensures var v := Step(h, PushOp(e));
            InOrder(v) && NoRepeats(v.inner.queue) && |v.inner.queue| <= MAX_EVENTS
  {
    hide Victim, NoRepeats, Selects, Without, Event.ProgressKey, Delivered;
    SelectsLength(h);
    CoalescingKeeps(h, e);
    var got := Delivered(h.handed);
    var queue := Coalesced(h.inner.queue, e);
    if |queue| >= MAX_EVENTS {
      var v := Victim(queue);
      SelectsWithout(h.sent, got + queue, Remaining(h, e), |got| + v);
      WithoutBehind(got, queue, v);
      VictimKeepsApart(queue);
      EvictionKeepsLast(queue, e);
      queue := Without(queue, v);
    }
    SelectsMore(h.sent, got + queue, Kept(h, e), e);
    LastApart(queue, e);
    assert (got + queue) + [e] == got + (queue + [e]);
  }

  /** Removing one of several different numbers. */
  lemma WithoutOne(at: seq<nat>, i: nat)
    requires Increasing(at) && i < |at|
    ensures forall x :: x in Without(at, i) <==> x in at && x != at[i]
  {
    var fewer := Without(at, i);
    forall x | x in at && x != at[i] ensures x in fewer {
      var k :| 0 <= k < |at| && at[k] == x;
      assert fewer[if k < i then k else k - 1] == x;
    }
    assert forall k :: 0 <= k < |fewer| ==> fewer[k] == at[if k < i then k else k + 1];
  }

  lemma SupersededFates(h: History, e: Event)
    requires InOrder(h) && Fated(h) && Repeats(h.inner.queue, e)
    ensures |h.inner.queue| <= |h.at| && Increasing(Remaining(h, e))
    ensures var x := h.at[|h.at| - 1];
            && x < |h.sent| && SameProgress(h.sent[x], e)
            && forall i :: i in h.at <==> i in Remaining(h, e) || i == x
    ensures h.at[|h.at| - 1] !in Remaining(h, e)
  {
    hide Delivered;
    SelectsLength(h);
    var n := |h.at| - 1;
    assert (Delivered(h.handed) + h.inner.queue)[n] == h.inner.queue[|h.inner.queue| - 1];
    assert h.at == h.at[..n] + [h.at[n]];
  }

  lemma PushFates(h: History, e: Event)
    requires Invariant(h)
    ensures |h.inner.queue| <= |h.at|
    ensures Fated(Step(h, PushOp(e))) && Accounted(Step(h, PushOp(e)))
  {
    hide NoRepeats, Delivered, Event.ProgressKey, Selects, SameProgress, Accounted, Step;
    SelectsLength(h);
    SelectsIncreasing(h);
    if Repeats(h.inner.queue, e) {
      SupersededFates(h, e);
    }
    hide Fated;
    PushFated(h, e);
    PushAccounted(h, e);
  }

  lemma PushAccounted(h: History, e: Event)
    requires Fated(h) && Accounted(h) && |h.inner.queue| <= |h.at|
    requires Repeats(h.inner.queue, e) ==>
               h.at[|h.at| - 1] in h.at && forall i :: i in Remaining(h, e) ==> i in h.at
    ensures Accounted(Step(h, PushOp(e)))
  {
    hide Victim, Delivered, Reported, Without, Event.ProgressKey, SameProgress;
    var at: seq<nat>, i := Remaining(h, e), Evicted(h, e);
    if i.Some? {
      assert at[i.value] in at;
    }
  }

  lemma SelectsIncreasing(h: History)
    requires InOrder(h)
    ensures Increasing(h.at)
  {
  }

  lemma FrontIncreasing(at: seq<nat>)
    requires Increasing(at)
    ensures |at| > 0 ==> Increasing(at[..|at| - 1])
  {
  }

  lemma PushFated(h: History, e: Event)
    requires Fated(h) && |h.inner.queue| <= |h.at| && Increasing(h.at)
    requires Repeats(h.inner.queue, e) ==>
               var x := h.at[|h.at| - 1];
               && x < |h.sent| && SameProgress(h.sent[x], e) && x !in Remaining(h, e)
               && forall i :: i in h.at <==> i in Remaining(h, e) || i == x
    ensures Fated(Step(h, PushOp(e)))
  {
    hide Without, Coalesced, Victim, Repeats, Pushed, SameProgress, Evicted, Increasing;
    assert Increasing(Remaining(h, e)) by { FrontIncreasing(h.at); }
    if Evicted(h, e).Some? {
      WithoutOne(Remaining(h, e), Evicted(h, e).value);
    }
    assert forall x :: x in Kept(h, e) + [|h.sent|] <==> x in Kept(h, e) || x == |h.sent|;
  }

  lemma PushKeeps(h: History, e: Event)
    requires Invariant(h)
    ensures |h.inner.queue| <= |h.at| && Invariant(Step(h, PushOp(e)))
  {
    hide InOrder, NoRepeats, Fated, Accounted, Step;
    PushInOrder(h, e);
    PushFates(h, e);
  }

  lemma SelectsLength(h: History)
    requires InOrder(h)
    ensures |h.at| == |Delivered(h.handed)| + |h.inner.queue|
  {
  }

  lemma TailApart(queue: seq<Event>)
    requires queue != [] && NoRepeats(queue)
    ensures NoRepeats(queue[1..])
  {
    forall k | 0 <= k < |queue| - 2 && queue[1..][k].ProgressKey().Some?
      ensures queue[1..][k].ProgressKey() != queue[1..][k + 1].ProgressKey()
    {
      assert queue[k + 1].ProgressKey() != queue[k + 2].ProgressKey();
    }
  }

  lemma PollAccounted(h: History)
    requires Accounted(h) && |h.inner.queue| <= |h.at|
    ensures Accounted(Step(h, PollOp))
    ensures var got, v := Delivered(h.handed), Step(h, PollOp);
            Delivered(v.handed) + v.inner.queue == got + h.inner.queue
  {
    hide Delivered, Reported;
    var r := Polled(h.inner).0;
    if r.Some? {
      HandedMore(h.handed, Handed(r.value, h.inner.drops > 0));
    }
    var got, q := Delivered(h.handed), h.inner.queue;
    assert q != [] ==> got + q == (got + [q[0]]) + q[1..];
    assert got + [] == got;
  }

  lemma PollKeeps(h: History)
    requires Invariant(h)
    ensures |h.inner.queue| <= |h.at| && Invariant(Step(h, PollOp))
  {
    SelectsLength(h);
    hide NoRepeats, Delivered, Accounted, Selects, SameProgress;
    PollAccounted(h);
    if h.inner.queue != [] {
      TailApart(h.inner.queue);
    }
  }

  ghost function Run(h: History, ops: seq<Op>): (r: History)
    requires Invariant(h)
    ensures Invariant(r)
    decreases |ops|
  {
    if ops == [] then h
    else
      StepKeeps(h, ops[0]);
      Run(Step(h, ops[0]), ops[1..])
  }

  lemma StepKeeps(h: History, op: Op)
    requires Invariant(h)
    ensures |h.inner.queue| <= |h.at| && Invariant(Step(h, op))
  {
    hide Invariant, Step;
    match op {
      case PushOp(e) => PushKeeps(h, e);
      case PollOp => PollKeeps(h);
    }
  }

  /**
   Over every run of pushes and polls: the queue stays within its bound; what was delivered
   and what is queued are pushes, in order; every push is delivered, queued, superseded by a
   later progress event of its transfer and role, or lost; and the losses that reports told the
   application, with those not yet told, are the losses there were, exactly until 2^64 of them
   and never overstated.
   */
  lemma RunKeepsInvariant(ops: seq<Op>)
    ensures Invariant(Fresh())
    ensures var h := Run(Fresh(), ops);
            && |h.inner.queue| <= MAX_EVENTS && InOrder(h) && NoRepeats(h.inner.queue) && Fated(h)
            && (forall g :: g in h.handed && g.report ==> g.event.EventsDropped? && g.event.lost > 0)
            && |h.sent| == |Delivered(h.handed)| + |h.inner.queue| + |h.superseded| + |h.lost|
            && Reported(h.handed) + h.inner.drops <= |h.lost|
            && (|h.lost| < U64_LIMIT ==> Reported(h.handed) + h.inner.drops == |h.lost|)
  {
    hide Step, InOrder, NoRepeats, Fated;
    assert Invariant(Fresh()) by { FreshIsSound(); }
  }

  lemma FreshIsSound()
    ensures Invariant(Fresh())
  {
  }

  // --- Terminal events ---

  /** How a transfer or an object ended. */
  ghost predicate TellsAnEnd(e: Event) {
    e.ObjectCompleted? || e.TransferCompleted? || e.TransferFailed? || e.TransferCancelled?
  }

  /** An eviction takes a terminal event only when nothing else is queued, and then the oldest. */
  lemma TerminalsGoLast(s: Inner, e: Event)
    requires |s.queue| <= MAX_EVENTS
    requires var queue := Coalesced(s.queue, e); |queue| >= MAX_EVENTS && TellsAnEnd(queue[Victim(queue)])
    ensures |s.queue| == MAX_EVENTS && forall k :: 0 <= k < |s.queue| ==> TellsAnEnd(s.queue[k])
    ensures Victim(Coalesced(s.queue, e)) == 0 && Pushed(s, e).queue == s.queue[1..] + [e]
  {
    assert Coalesced(s.queue, e) == s.queue;
  }

  function Ends(sent: seq<Event>): nat {
    if sent == [] then 0
    else Ends(sent[..|sent| - 1]) + if sent[|sent| - 1].Terminal() then 1 else 0
  }

  lemma EndIsTerminal(e: Event)
    ensures TellsAnEnd(e) <==> e.Terminal()
  {
  }

  /** A selection of terminal events only is no longer than the number of terminal pushes. */
  lemma {:induction false} EndsBound(sent: seq<Event>, at: seq<nat>)
    requires Increasing(at) && forall k :: 0 <= k < |at| ==> at[k] < |sent| && TellsAnEnd(sent[at[k]])
    ensures |at| <= Ends(sent)
    decreases |sent|
  {
    hide TellsAnEnd, Event.Terminal;
    if at != [] {
      var last := at[|at| - 1];
      var n := |sent| - 1;
      var rest: seq<nat> := if last == n then at[..|at| - 1] else at;
      assert Increasing(rest) by { FrontIncreasing(at); }
      forall k | 0 <= k < |rest| ensures rest[k] < n && TellsAnEnd(sent[..n][rest[k]]) {
        assert rest[k] == at[k] && at[k] <= last;
      }
      EndsBound(sent[..n], rest);
      EndIsTerminal(sent[last]);
    }
  }

  ghost predicate EndsKept(h: History) {
    forall i :: i in h.lost ==> i < |h.sent| && !TellsAnEnd(h.sent[i])
  }

  lemma EndsKeptStep(h: History, op: Op)
    requires Invariant(h) && EndsKept(h) && Ends(h.sent) < MAX_EVENTS
    ensures |h.inner.queue| <= |h.at| && EndsKept(Step(h, op))
  {
    hide NoRepeats, Delivered, Reported, Accounted, Fated, Ends, Pushed, Polled, Victim, Event.ProgressKey;
    SelectsLength(h);
    if op.PushOp? && Evicted(h, op.e).Some? {
      var e, q := op.e, h.inner.queue;
      CoalescingKeeps(h, e);
      var queue, at, i := Coalesced(q, e), Remaining(h, e), Evicted(h, e).value;
      assert h.sent[at[i]] == (Delivered(h.handed) + queue)[i] == queue[Victim(queue)];
      if TellsAnEnd(queue[Victim(queue)]) {
        TerminalsGoLast(h.inner, e);
        var off := |h.at| - |q|;
        assert forall k :: 0 <= k < |q| ==> (Delivered(h.handed) + q)[off + k] == q[k];
        EndsBound(h.sent, h.at[off..]);
      }
    }
  }

  lemma {:induction false} EndsGrow(h: History, ops: seq<Op>)
    requires Invariant(h)
    ensures Ends(h.sent) <= Ends(Run(h, ops).sent)
    decreases |ops|
  {
    hide Invariant;
    if ops != [] {
      StepKeeps(h, ops[0]);
      EndsGrow(Step(h, ops[0]), ops[1..]);
      if ops[0].PushOp? {
        assert (h.sent + [ops[0].e])[..|h.sent|] == h.sent;
      }
    }
  }

  lemma {:induction false} EndsKeptRun(h: History, ops: seq<Op>)
    requires Invariant(h) && EndsKept(h) && Ends(Run(h, ops).sent) < MAX_EVENTS
    ensures EndsKept(Run(h, ops))
    decreases |ops|
  {
    hide Invariant, Step, EndsKept;
    if ops != [] {
      StepKeeps(h, ops[0]);
      EndsGrow(h, ops);
      EndsKeptStep(h, ops[0]);
      EndsKeptRun(Step(h, ops[0]), ops[1..]);
    }
  }

  /** In every run with fewer than 1024 terminal pushes, however many others there are, no terminal event is lost. */
  lemma TerminalsSurvive(ops: seq<Op>)
    requires Invariant(Fresh()) && Ends(Run(Fresh(), ops).sent) < MAX_EVENTS
    ensures var h := Run(Fresh(), ops);
            forall i :: i in h.lost ==> i < |h.sent| && !TellsAnEnd(h.sent[i])
  {
    hide Run, Invariant, Ends;
    EndsKeptRun(Fresh(), ops);
  }
}
