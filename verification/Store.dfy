/**
 The store of resumption secrets (`store.rs`): a small list rewritten as a whole by an atomic
 rename, from which a secret is removed before it is handed out. The directory sync after the
 rename is best effort, and until one succeeds a crash can bring an earlier list back.
 */
module Store {
  import opened Octets

  const MAX_LIFETIME := 24 * 60 * 60
  const MAX_ENTRIES := 64

  datatype Entry = Entry(id: Bytes, peer: Bytes, secret: Bytes, suite: U64, major: U64, createdAt: U64, expiresAt: U64)
  {
    predicate Sized() {
      |id| == 16 && |peer| == 32 && |secret| == 48
    }
  }

  /**
   An entry with the number of the call that stored it. The number is not written; it only tells
   stored secrets apart.
   */
  datatype Stored = Stored(entry: Entry, serial: nat)

  datatype StoreError = Unreadable | WriteFailed

  /** How a rewrite goes: it fails and leaves the file, or renames and then syncs the directory or not. */
  datatype Rewrite = Failed | Renamed(synced: bool)

  /** The file, and every list a crash may leave in its place. */
  datatype StoreDisk = StoreDisk(file: seq<Stored>, candidates: set<seq<Stored>>) {
    function Replace(list: seq<Stored>, synced: bool): StoreDisk {
      StoreDisk(list, if synced then {list} else candidates + {list})
    }
  }

  function SaturatingAdd(a: U64, b: U64): U64 {
    if a + b < U64_LIMIT then a + b else U64_LIMIT - 1
  }

  /** No secret outlives a day. */
  function Clamped(e: Entry): (c: Entry)
    ensures c.expiresAt == if e.expiresAt <= e.createdAt + MAX_LIFETIME then e.expiresAt else e.createdAt + MAX_LIFETIME
    ensures c == e.(expiresAt := c.expiresAt)
  {
    var limit := SaturatingAdd(e.createdAt, MAX_LIFETIME);
    e.(expiresAt := if limit < e.expiresAt then limit else e.expiresAt)
  }

  // --- Lists ---

  ghost predicate DistinctIds(s: seq<Stored>) {
    forall i, j :: 0 <= i < j < |s| ==> s[i].entry.id != s[j].entry.id
  }

  ghost predicate Sorted(s: seq<Stored>) {
    forall i, j :: 0 <= i < j < |s| ==> s[i].entry.createdAt <= s[j].entry.createdAt
  }

  /** Everything but expired entries and entries with this id. */
  function Retained(s: seq<Stored>, id: Bytes, now: U64): (r: seq<Stored>)
    ensures |r| <= |s| && multiset(r) <= multiset(s)
    ensures forall x :: x in r <==> x in s && x.entry.id != id && x.entry.expiresAt > now
  {
    if s == [] then []
    else
      var rest := Retained(s[1..], id, now);
      assert s == [s[0]] + s[1..];
      if s[0].entry.id != id && s[0].entry.expiresAt > now then [s[0]] + rest else rest
  }

  function Live(s: seq<Stored>, now: U64): (r: seq<Stored>)
    ensures |r| <= |s| && multiset(r) <= multiset(s)
    ensures forall x :: x in r <==> x in s && x.entry.expiresAt > now
  {
    if s == [] then []
    else
      var rest := Live(s[1..], now);
      assert s == [s[0]] + s[1..];
      if s[0].entry.expiresAt > now then [s[0]] + rest else rest
  }

  /** Places an entry after all that are not newer. */
  function Insert(s: seq<Stored>, x: Stored): (r: seq<Stored>)
    ensures |r| == |s| + 1
  {
    if s == [] then [x]
    else
      var last := s[|s| - 1];
      if last.entry.createdAt <= x.entry.createdAt then s + [x]
      else Insert(s[..|s| - 1], x) + [last]
  }

  /** The stable sort by creation time. */
  function Sort(s: seq<Stored>): (r: seq<Stored>)
    ensures |r| == |s|
  {
    if s == [] then []
    else Insert(Sort(s[..|s| - 1]), s[|s| - 1])
  }

  function Newest(s: seq<Stored>): (r: seq<Stored>)
    ensures |r| <= MAX_ENTRIES
  {
    if |s| > MAX_ENTRIES then s[|s| - MAX_ENTRIES..] else s
  }

  function Position(s: seq<Stored>, id: Bytes): (p: nat)
    ensures p <= |s| && (p < |s| ==> s[p].entry.id == id)
    ensures forall k :: 0 <= k < p ==> s[k].entry.id != id
  {
    if s == [] || s[0].entry.id == id then 0 else Position(s[1..], id) + 1
  }

  // --- What the two operations write and return ---

  function AfterStore(s: seq<Stored>, e: Entry, serial: nat, now: U64): seq<Stored> {
    Newest(Sort(Retained(s, e.id, now) + [Stored(Clamped(e), serial)]))
  }

  function AfterTake(s: seq<Stored>, id: Bytes, now: U64): seq<Stored> {
    var p := Position(s, id);
    if p < |s| then Live(s[..p] + s[p + 1..], now) else s
  }

  predicate Fits(e: Entry, peer: Bytes, suite: U64, major: U64, now: U64) {
    now < e.expiresAt && e.peer == peer && e.suite == suite && e.major == major
  }

  function Taken(s: seq<Stored>, id: Bytes, peer: Bytes, suite: U64, major: U64, now: U64): Option<Stored> {
    var p := Position(s, id);
    if p < |s| && Fits(s[p].entry, peer, suite, major, now) then Some(s[p]) else None
  }

  // --- The object ---

  class DeviceStore {
    var disk: StoreDisk
    var calls: nat

    constructor ()
      ensures disk == StoreDisk([], {[]}) && calls == 0
    {
      disk := StoreDisk([], {[]});
      calls := 0;
    }

    /** `store_resumption`. */
    method StoreResumption(e: Entry, now: U64, readable: bool, rewrite: Rewrite) returns (r: Result<(), StoreError>)
      modifies this
      ensures calls == old(calls) + 1
      ensures r.Ok? <==> readable && rewrite.Renamed?
      ensures disk == if r.Ok? then old(disk).Replace(AfterStore(old(disk).file, e, old(calls), now), rewrite.synced)
                      else old(disk)
    {
      var serial := calls;
      calls := calls + 1;
      if !readable {
        return Err(Unreadable);
      }
      var entries := Sort(Retained(disk.file, e.id, now) + [Stored(Clamped(e), serial)]);
      ghost var sorted := entries;
      while |entries| > MAX_ENTRIES
        invariant |entries| <= |sorted| && entries == sorted[|sorted| - |entries|..]
        invariant |sorted| > MAX_ENTRIES ==> |entries| >= MAX_ENTRIES
        invariant |sorted| <= MAX_ENTRIES ==> entries == sorted
      {
        entries := entries[1..];
      }
      if rewrite.Failed? {
        return Err(WriteFailed);
      }
      disk := disk.Replace(entries, rewrite.synced);
      return Ok(());
    }

    /** `take_resumption`: the entry is gone from the file before the checks on it. */
    method TakeResumption(id: Bytes, peer: Bytes, suite: U64, major: U64, now: U64, readable: bool, rewrite: Rewrite)
      returns (r: Result<Option<Stored>, StoreError>)
      modifies this
      ensures calls == old(calls)
      ensures r.Ok? <==> readable && (rewrite.Renamed? || Position(old(disk).file, id) == |old(disk).file|)
      ensures r.Ok? ==> r.value == Taken(old(disk).file, id, peer, suite, major, now)
      ensures disk == if r.Ok? && Position(old(disk).file, id) < |old(disk).file|
                      then old(disk).Replace(AfterTake(old(disk).file, id, now), rewrite.synced)
                      else old(disk)
    {
      hide Live, Position;
      if !readable {
        return Err(Unreadable);
      }
      var p := Position(disk.file, id);
      if p == |disk.file| {
        return Ok(None);
      }
      var candidate := disk.file[p];
      var entries := Live(disk.file[..p] + disk.file[p + 1..], now);
      if rewrite.Failed? {
        return Err(WriteFailed);
      }
      disk := disk.Replace(entries, rewrite.synced);
      if now >= candidate.entry.expiresAt || candidate.entry.peer != peer || candidate.entry.suite != suite ||
          candidate.entry.major != major {
        return Ok(None);
      }
      return Ok(Some(candidate));
    }
  }

  // --- Order and uniqueness ---

  /** No entry twice, and no two with one id or one serial number. */
  ghost predicate Unique(s: seq<Stored>) {
    && (forall x :: multiset(s)[x] <= 1)
    && (forall x, y :: x in s && y in s && x.entry.id == y.entry.id ==> x == y)
    && (forall x, y :: x in s && y in s && x.serial == y.serial ==> x == y)
  }

  lemma PlacesDiffer(s: seq<Stored>, i: nat, j: nat)
    requires i < j < |s| && multiset(s)[s[i]] <= 1
    ensures s[i] != s[j]
  {
    assert s == s[..j] + s[j..];
    assert s[i] in multiset(s[..j]) && s[j] in multiset(s[j..]);
  }

  lemma UniqueIds(s: seq<Stored>)
    requires Unique(s)
    ensures DistinctIds(s)
  {
    forall i, j | 0 <= i < j < |s| ensures s[i].entry.id != s[j].entry.id {
      PlacesDiffer(s, i, j);
    }
  }

  lemma FewerUnique(s: seq<Stored>, r: seq<Stored>)
    requires Unique(s) && multiset(r) <= multiset(s)
    ensures Unique(r)
  {
    forall x | x in r ensures x in s {
      assert x in multiset(r);
    }
    forall x ensures multiset(r)[x] <= 1 {
      assert multiset(r)[x] <= multiset(s)[x];
    }
  }

  lemma OneMoreUnique(s: seq<Stored>, x: Stored)
    requires Unique(s) && forall y :: y in s ==> y.entry.id != x.entry.id && y.serial != x.serial
    ensures Unique(s + [x])
  {
    assert x !in s && x !in multiset(s);
  }

  lemma {:induction false} InsertSorted(s: seq<Stored>, x: Stored)
    requires Sorted(s)
    ensures Sorted(Insert(s, x))
    ensures forall y :: y in Insert(s, x) ==> y in s || y == x
  {
    if s != [] && s[|s| - 1].entry.createdAt > x.entry.createdAt {
      var front, last := s[..|s| - 1], s[|s| - 1];
      InsertSorted(front, x);
      OneMoreSorted(Insert(front, x), last);
    }
  }

  lemma {:induction false} InsertSame(s: seq<Stored>, x: Stored)
    ensures multiset(Insert(s, x)) == multiset(s) + multiset{x}
  {
    if s != [] && s[|s| - 1].entry.createdAt > x.entry.createdAt {
      InsertSame(s[..|s| - 1], x);
      assert s == s[..|s| - 1] + [s[|s| - 1]];
    }
  }

  lemma {:induction false} SortSame(s: seq<Stored>)
    ensures multiset(Sort(s)) == multiset(s)
  {
    if s != [] {
      SortSame(s[..|s| - 1]);
      InsertSame(Sort(s[..|s| - 1]), s[|s| - 1]);
      assert s == s[..|s| - 1] + [s[|s| - 1]];
    }
  }

  lemma OneMoreSorted(s: seq<Stored>, x: Stored)
    requires Sorted(s) && forall y :: y in s ==> y.entry.createdAt <= x.entry.createdAt
    ensures Sorted(s + [x])
  {
  }

  lemma {:induction false} SortSorted(s: seq<Stored>)
    ensures Sorted(Sort(s))
  {
    if s != [] {
      SortSorted(s[..|s| - 1]);
      InsertSorted(Sort(s[..|s| - 1]), s[|s| - 1]);
    }
  }

  lemma {:induction false} LiveSorted(s: seq<Stored>, now: U64)
    requires Sorted(s)
    ensures Sorted(Live(s, now))
  {
    if s != [] {
      LiveSorted(s[1..], now);
      assert forall x :: x in s[1..] ==> s[0].entry.createdAt <= x.entry.createdAt;
    }
  }

  // --- Whole runs ---

  /**
   One call, or a crash that leaves one of the lists it may leave. `answered` tells whether the
   caller of a take got the answer before a crash.
   */
  datatype Op =
    | StoreOp(e: Entry, now: U64, rewrite: Rewrite)
    | TakeOp(id: Bytes, peer: Bytes, suite: U64, major: U64, now: U64, rewrite: Rewrite, answered: bool)
    | Crash(left: seq<Stored>)

  /** A secret that was handed out, and to what request. */
  datatype Handed = Handed(stored: Stored, id: Bytes, peer: Bytes, suite: U64, major: U64, now: U64)

  datatype History = History(disk: StoreDisk, stores: seq<Entry>, handed: seq<Handed>)

  function Fresh(): History {
    History(StoreDisk([], {[]}), [], [])
  }

  /** The call replaces the file. A take that finds nothing does not. */
  predicate Rewrites(h: History, op: Op) {
    match op
    case StoreOp(_, _, rewrite) => rewrite.Renamed?
    case TakeOp(id, _, _, _, _, rewrite, _) => rewrite.Renamed? && Position(h.disk.file, id) < |h.disk.file|
    case Crash(_) => false
  }

  /** What the call hands out. */
  function Hands(h: History, op: Op): Option<Handed> {
    if op.TakeOp? && op.answered && Rewrites(h, op) then
      var t := Taken(h.disk.file, op.id, op.peer, op.suite, op.major, op.now);
      if t.Some? then Some(Handed(t.value, op.id, op.peer, op.suite, op.major, op.now)) else None
    else None
  }

  function DiskAfter(h: History, op: Op): StoreDisk {
    match op
    case StoreOp(e, now, rewrite) =>
      if Rewrites(h, op) then h.disk.Replace(AfterStore(h.disk.file, e, |h.stores|, now), rewrite.synced) else h.disk
    case TakeOp(id, _, _, _, now, rewrite, _) =>
      if Rewrites(h, op) then h.disk.Replace(AfterTake(h.disk.file, id, now), rewrite.synced) else h.disk
    case Crash(left) => StoreDisk(left, {left})
  }

  function Step(h: History, op: Op): History {
    History(DiskAfter(h, op),
            if op.StoreOp? then h.stores + [op.e] else h.stores,
            if Hands(h, op).Some? then h.handed + [Hands(h, op).value] else h.handed)
  }

  function Run(h: History, ops: seq<Op>): History
    decreases |ops|
  {
    if ops == [] then h else Run(Step(h, ops[0]), ops[1..])
  }

  /** Each crash leaves a list that it may leave. */
  predicate Possible(h: History, ops: seq<Op>)
    decreases |ops|
  {
    ops == [] || ((ops[0].Crash? ==> ops[0].left in h.disk.candidates) && Possible(Step(h, ops[0]), ops[1..]))
  }

  // --- What every run keeps ---

  /** An entry is what some call stored, its lifetime clamped. */
  ghost predicate Genuine(x: Stored, stores: seq<Entry>) {
    x.serial < |stores| && x.entry == Clamped(stores[x.serial])
  }

  ghost predicate SoundList(s: seq<Stored>, stores: seq<Entry>) {
    && |s| <= MAX_ENTRIES && Unique(s) && Sorted(s)
    && forall x :: x in s ==> Genuine(x, stores)
  }

  /** Handed out to a request it fits. */
  ghost predicate Fitting(g: Handed, stores: seq<Entry>) {
    && Genuine(g.stored, stores) && g.stored.entry.id == g.id
    && Fits(g.stored.entry, g.peer, g.suite, g.major, g.now)
  }

  ghost predicate Sound(h: History) {
    && h.disk.file in h.disk.candidates
    && (forall c :: c in h.disk.candidates ==> SoundList(c, h.stores))
    && (forall g :: g in h.handed ==> Fitting(g, h.stores))
  }

  lemma AfterStoreIs(s: seq<Stored>, e: Entry, serial: nat, now: U64)
    requires Unique(s) && Sorted(s) && forall x :: x in s ==> x.serial < serial
    ensures var r := AfterStore(s, e, serial, now);
            && Unique(r) && Sorted(r)
            && forall x :: x in r ==> x in s || x == Stored(Clamped(e), serial)
  {
    var kept := Retained(s, e.id, now);
    var x := Stored(Clamped(e), serial);
    FewerUnique(s, kept);
    OneMoreUnique(kept, x);
    SortSorted(kept + [x]);
    SortSame(kept + [x]);
    var all := Sort(kept + [x]);
    SuffixOf(all);
    FewerUnique(kept + [x], Newest(all));
    forall y | y in Newest(all) ensures y in s || y == x {
      assert y in multiset(Newest(all));
      assert y in kept + [x];
    }
  }

  lemma SuffixOf(s: seq<Stored>)
    ensures multiset(Newest(s)) <= multiset(s) && (Sorted(s) ==> Sorted(Newest(s)))
  {
    if |s| > MAX_ENTRIES {
      assert s == s[..|s| - MAX_ENTRIES] + Newest(s);
    }
  }

  lemma AfterTakeIs(s: seq<Stored>, id: Bytes, now: U64)
    requires Unique(s) && Sorted(s)
    ensures var r := AfterTake(s, id, now);
            && Unique(r) && Sorted(r) && |r| <= |s|
            && (forall x :: x in r ==> x in s && x.entry.id != id)
  {
    hide Unique, Sorted;
    var p := Position(s, id);
    if p < |s| {
      var rest := s[..p] + s[p + 1..];
      RestIs(s, p);
      FewerUnique(rest, Live(rest, now));
      LiveSorted(rest, now);
    }
  }

  lemma RestIs(s: seq<Stored>, p: nat)
    requires Unique(s) && Sorted(s) && p < |s|
    ensures var rest := s[..p] + s[p + 1..];
            Unique(rest) && Sorted(rest) && forall x :: x in rest ==> x in s && x.entry.id != s[p].entry.id
  {
    hide Unique, Sorted;
    var rest := s[..p] + s[p + 1..];
    RestFewer(s, p);
    FewerUnique(s, rest);
    UniqueIds(s);
    RestSorted(s, p);
    forall x | x in rest ensures x in s && x.entry.id != s[p].entry.id {
      var k :| 0 <= k < |rest| && rest[k] == x;
      assert x == s[if k < p then k else k + 1];
    }
  }

  lemma RestFewer(s: seq<Stored>, p: nat)
    requires p < |s|
    ensures multiset(s[..p] + s[p + 1..]) <= multiset(s)
  {
    assert s == s[..p] + [s[p]] + s[p + 1..];
  }

  lemma RestSorted(s: seq<Stored>, p: nat)
    requires Sorted(s) && p < |s|
    ensures Sorted(s[..p] + s[p + 1..])
  {
  }

  lemma StoredIsSound(s: seq<Stored>, stores: seq<Entry>, e: Entry, now: U64)
    requires SoundList(s, stores)
    ensures SoundList(AfterStore(s, e, |stores|, now), stores + [e])
  {
    hide Unique, Sorted, AfterStore;
    AfterStoreIs(s, e, |stores|, now);
    StoreBounded(s, e, |stores|, now);
  }

  lemma StoreBounded(s: seq<Stored>, e: Entry, serial: nat, now: U64)
    ensures |AfterStore(s, e, serial, now)| <= MAX_ENTRIES
  {
  }

  lemma StillSound(s: seq<Stored>, stores: seq<Entry>, e: Entry)
    requires SoundList(s, stores)
    ensures SoundList(s, stores + [e])
  {
    hide Unique, Sorted;
  }

  lemma StoreKeeps(h: History, op: Op)
    requires Sound(h) && op.StoreOp?
    ensures Sound(Step(h, op))
  {
    hide SoundList, AfterStore, Position;
    StoredIsSound(h.disk.file, h.stores, op.e, op.now);
    forall c | c in h.disk.candidates ensures SoundList(c, h.stores + [op.e]) {
      StillSound(c, h.stores, op.e);
    }
  }

  /** What a take returns was in the file and fits; no entry with its id or its number is left. */
  lemma TakenGone(s: seq<Stored>, op: Op)
    requires op.TakeOp? && Unique(s) && Sorted(s)
    ensures forall x :: x in AfterTake(s, op.id, op.now) ==> x.entry.id != op.id
    ensures var t := Taken(s, op.id, op.peer, op.suite, op.major, op.now);
            t.Some? ==>
              && t.value in s && t.value.entry.id == op.id && Fits(t.value.entry, op.peer, op.suite, op.major, op.now)
              && forall x :: x in AfterTake(s, op.id, op.now) ==> x.serial != t.value.serial
  {
    hide Sorted, AfterTake;
    AfterTakeIs(s, op.id, op.now);
  }

  lemma TakeKeeps(h: History, op: Op)
    requires Sound(h) && op.TakeOp?
    ensures Sound(Step(h, op))
  {
    hide Unique, Sorted, AfterTake, Taken, Position;
    AfterTakeIs(h.disk.file, op.id, op.now);
    TakenGone(h.disk.file, op);
  }

  lemma StepKeeps(h: History, op: Op)
    requires Sound(h) && (op.Crash? ==> op.left in h.disk.candidates)
    ensures Sound(Step(h, op))
  {
    hide SoundList, AfterStore, AfterTake, Taken, Position;
    match op {
      case StoreOp(_, _, _) => StoreKeeps(h, op);
      case TakeOp(_, _, _, _, _, _, _) => TakeKeeps(h, op);
      case Crash(_) =>
    }
  }

  lemma {:induction false} RunKeeps(h: History, ops: seq<Op>)
    requires Sound(h) && Possible(h, ops)
    ensures Sound(Run(h, ops))
    decreases |ops|
  {
    hide Sound, Step;
    if ops != [] {
      StepKeeps(h, ops[0]);
      RunKeeps(Step(h, ops[0]), ops[1..]);
    }
  }

  lemma FreshIsSound()
    ensures Sound(Fresh())
  {
  }

  /**
   Over every run of stores, takes and crashes, whatever the crashes leave: a secret is handed
   out only for its own id, peer, suite and major, before an expiry at most a day after its
   creation; and every list that the file may hold has at most 64 entries under different ids.
   */
  lemma SecretsFit(ops: seq<Op>)
    requires Possible(Fresh(), ops)
    ensures var h := Run(Fresh(), ops);
            && h.disk.file in h.disk.candidates
            && (forall c :: c in h.disk.candidates ==> |c| <= MAX_ENTRIES && DistinctIds(c))
            && (forall g :: g in h.handed ==>
                  && g.stored.serial < |h.stores|
                  && var e := h.stores[g.stored.serial];
                     && g.stored.entry.secret == e.secret
                     && e.id == g.id && e.peer == g.peer && e.suite == g.suite && e.major == g.major
                     && g.now < e.expiresAt && g.now < e.createdAt + MAX_LIFETIME)
  {
    hide Run, Possible, Sorted, Unique;
    FreshIsSound();
    RunKeeps(Fresh(), ops);
    var h := Run(Fresh(), ops);
    forall c | c in h.disk.candidates ensures |c| <= MAX_ENTRIES && DistinctIds(c) {
      UniqueIds(c);
    }
  }

  /** A take that rewrites the file uses the id up, whether or not it matched; once synced, for good. */
  lemma TakeConsumes(h: History, op: Op)
    requires Sound(h) && op.TakeOp? && Rewrites(h, op)
    ensures forall x :: x in Step(h, op).disk.file ==> x.entry.id != op.id
    ensures op.rewrite.synced ==>
              forall c, x :: c in Step(h, op).disk.candidates && x in c ==> x.entry.id != op.id
  {
    hide Unique, Sorted, AfterTake;
    AfterTakeIs(h.disk.file, op.id, op.now);
  }

  // --- Single use ---

  /** An entry with this number is in the list. */
  predicate Holds(s: seq<Stored>, serial: nat) {
    exists k :: 0 <= k < |s| && s[k].serial == serial
  }

  /** Some list that the file may hold has an entry with this number. */
  ghost predicate MayHold(disk: StoreDisk, serial: nat) {
    exists c :: c in disk.candidates && Holds(c, serial)
  }

  /** A secret was handed out since the directory was last synced. */
  predicate Owes(h: History, op: Op, owing: bool) {
    if Rewrites(h, op) && op.rewrite.synced then false else owing || Hands(h, op).Some?
  }

  /** After a secret is handed out, the directory is synced, then or by a later rewrite, before any crash. */
  predicate Settled(h: History, ops: seq<Op>, owing: bool)
    decreases |ops|
  {
    ops == [] || ((ops[0].Crash? ==> !owing) && Settled(Step(h, ops[0]), ops[1..], Owes(h, ops[0], owing)))
  }

  ghost predicate Once(handed: seq<Handed>) {
    forall i, j :: 0 <= i < j < |handed| ==> handed[i].stored.serial != handed[j].stored.serial
  }

  /** No secret handed out is in the file, nor, unless a sync is owed, in what a crash may leave. */
  ghost predicate Spent(h: History, owing: bool) {
    forall g :: g in h.handed ==> !Holds(h.disk.file, g.stored.serial) && (!owing ==> !MayHold(h.disk, g.stored.serial))
  }

  /** A call brings no number back: what the new file holds, the old one held, or it is new. */
  lemma NothingReturns(h: History, op: Op, serial: nat)
    requires Sound(h) && !op.Crash? && serial < |h.stores| && !Holds(h.disk.file, serial)
    ensures !Holds(Step(h, op).disk.file, serial)
  {
    hide Unique, Sorted, AfterStore, AfterTake, Position, Taken;
    if op.StoreOp? {
      AfterStoreIs(h.disk.file, op.e, |h.stores|, op.now);
    } else {
      AfterTakeIs(h.disk.file, op.id, op.now);
    }
    var r := Step(h, op).disk.file;
    assert forall k :: 0 <= k < |r| ==> r[k] in r;
  }

  /** What is handed out was in the file, and no longer is. */
  lemma HandedLeaves(h: History, op: Op)
    requires Sound(h) && Hands(h, op).Some?
    ensures var g := Hands(h, op).value;
            && Fitting(g, h.stores)
            && Holds(h.disk.file, g.stored.serial) && !Holds(Step(h, op).disk.file, g.stored.serial)
  {
    hide Unique, Sorted, AfterTake, Position, Taken;
    TakenGone(h.disk.file, op);
    var t := Taken(h.disk.file, op.id, op.peer, op.suite, op.major, op.now).value;
    var k :| 0 <= k < |h.disk.file| && h.disk.file[k] == t;
    assert Genuine(t, h.stores);
  }

  lemma OnceStep(h: History, op: Op, owing: bool)
    requires Sound(h) && Once(h.handed) && Spent(h, owing)
    requires op.Crash? ==> op.left in h.disk.candidates && !owing
    ensures Once(Step(h, op).handed) && Spent(Step(h, op), Owes(h, op, owing))
  {
    hide SoundList, AfterStore, AfterTake, Position, Taken, Holds, Clamped;
    var v := Step(h, op);
    if Hands(h, op).Some? {
      HandedLeaves(h, op);
      var n := |h.handed|;
      forall i | 0 <= i < n ensures v.handed[i].stored.serial != v.handed[n].stored.serial {
        assert h.handed[i] in h.handed;
      }
    }
    forall g | g in v.handed
      ensures !Holds(v.disk.file, g.stored.serial) && (!Owes(h, op, owing) ==> !MayHold(v.disk, g.stored.serial))
    {
      if g in h.handed && !op.Crash? {
        NothingReturns(h, op, g.stored.serial);
      }
    }
  }

  lemma {:induction false} OnceRun(h: History, ops: seq<Op>, owing: bool)
    requires Sound(h) && Possible(h, ops) && Settled(h, ops, owing)
    requires Once(h.handed) && Spent(h, owing)
    ensures Once(Run(h, ops).handed)
    decreases |ops|
  {
    hide Sound, Step, Once, Spent, Owes;
    if ops != [] {
      StepKeeps(h, ops[0]);
      OnceStep(h, ops[0], owing);
      OnceRun(Step(h, ops[0]), ops[1..], Owes(h, ops[0], owing));
    }
  }

  /**
   Over every run in which a directory sync comes between handing out and the next crash, each
   stored secret is handed out at most once.
   */
  lemma SecretsAreSingleUse(ops: seq<Op>)
    requires Possible(Fresh(), ops) && Settled(Fresh(), ops, false)
    ensures Once(Run(Fresh(), ops).handed)
  {
    hide Possible, Settled, Run;
    FreshIsSound();
    OnceRun(Fresh(), ops, false);
  }

  /** The secret with this number is handed out in the run to `v`, after `h`. */
  ghost predicate HandedSince(h: History, v: History, serial: nat) {
    exists i :: |h.handed| <= i < |v.handed| && v.handed[i].stored.serial == serial
  }

  lemma NeverStep(h: History, op: Op, serial: nat)
    requires Sound(h) && (op.Crash? ==> op.left in h.disk.candidates)
    requires serial < |h.stores| && !MayHold(h.disk, serial)
    ensures serial < |Step(h, op).stores| && !MayHold(Step(h, op).disk, serial)
    ensures Hands(h, op).Some? ==> Hands(h, op).value.stored.serial != serial
  {
    hide SoundList, AfterStore, AfterTake, Position, Taken, Holds;
    assert !Holds(h.disk.file, serial);
    if !op.Crash? {
      NothingReturns(h, op, serial);
    }
    if Hands(h, op).Some? {
      HandedLeaves(h, op);
    }
  }

  lemma {:induction false} NeverAgain(h: History, ops: seq<Op>, serial: nat)
    requires Sound(h) && Possible(h, ops) && serial < |h.stores| && !MayHold(h.disk, serial)
    ensures |h.handed| <= |Run(h, ops).handed| && !HandedSince(h, Run(h, ops), serial)
    ensures Run(h, ops).handed[..|h.handed|] == h.handed
    decreases |ops|
  {
    hide Sound, DiskAfter, Hands, MayHold;
    if ops != [] {
      StepKeeps(h, ops[0]);
      NeverStep(h, ops[0], serial);
      var v := Step(h, ops[0]);
      NeverAgain(v, ops[1..], serial);
      var r := Run(v, ops[1..]).handed;
      assert r[..|h.handed|] == r[..|v.handed|][..|h.handed|];
      assert |v.handed| > |h.handed| ==> r[|h.handed|] == r[..|v.handed|][|h.handed|];
    }
  }

  /** A crash that leaves a list with the secret, and the same request again. */
  lemma HandedAgain(h: History, g: Handed, left: seq<Stored>) returns (ops: seq<Op>)
    requires Sound(h) && g in h.handed && left in h.disk.candidates && Holds(left, g.stored.serial)
    ensures |ops| == 2 && Possible(h, ops) && Run(h, ops).handed == h.handed + [g]
  {
    hide Unique, Sorted, AfterTake, Clamped;
    var take := TakeOp(g.id, g.peer, g.suite, g.major, g.now, Renamed(true), true);
    ops := [Crash(left), take];
    var k :| 0 <= k < |left| && left[k].serial == g.stored.serial;
    assert left[k] in left && left[k] == g.stored;
    FoundById(left, g.stored);
    var v := Step(h, ops[0]);
    assert ops[1..] == [take] && ops[1..][1..] == [];
    assert Possible(v, [take]) && Run(v, [take]) == Step(v, take);
  }

  lemma FoundById(s: seq<Stored>, x: Stored)
    requires Unique(s) && x in s
    ensures Position(s, x.entry.id) < |s| && s[Position(s, x.entry.id)] == x
  {
    var p := Position(s, x.entry.id);
    assert p < |s| ==> s[p] in s;
  }

  /**
   Once a secret is handed out, some run hands it out again exactly when a list that a crash may
   leave still has it.
   */
  lemma ReuseIff(h: History, g: Handed)
    requires Sound(h) && g in h.handed
    ensures (exists ops :: Possible(h, ops) && HandedSince(h, Run(h, ops), g.stored.serial)) <==>
            MayHold(h.disk, g.stored.serial)
  {
    hide Possible, Run, SoundList, Holds;
    var serial := g.stored.serial;
    if MayHold(h.disk, serial) {
      var left :| left in h.disk.candidates && Holds(left, serial);
      var ops := HandedAgain(h, g, left);
      assert Run(h, ops).handed[|h.handed|].stored.serial == serial;
    } else {
      forall ops | Possible(h, ops) ensures !HandedSince(h, Run(h, ops), serial) {
        NeverAgain(h, ops, serial);
      }
    }
  }

  /**
   It happens for every secret that fits its request: stored, taken without a directory sync,
   brought back by a crash, and taken again.
   */
  lemma CrashReuses(e: Entry, now: U64) returns (ops: seq<Op>)
    requires now < Clamped(e).expiresAt
    ensures |ops| == 4 && Possible(Fresh(), ops)
    ensures var handed := Run(Fresh(), ops).handed; |handed| == 2 && handed[0] == handed[1]
  {
    hide Clamped, AfterTake, AfterStore, Sound;
    var x := Stored(Clamped(e), 0);
    var store := StoreOp(e, now, Renamed(true));
    var take := TakeOp(e.id, e.peer, e.suite, e.major, now, Renamed(false), true);
    FirstStored(e, now);
    var h := Step(Fresh(), store);
    assert h.disk == StoreDisk([x], {[x]});
    var v := Step(h, take);
    assert Position([x], e.id) == 0;
    FreshIsSound();
    StepKeeps(Fresh(), store);
    StepKeeps(h, take);
    assert [x] in v.disk.candidates && [x][0].serial == 0;
    var rest := HandedAgain(v, v.handed[0], [x]);
    ops := [store, take] + rest;
    assert ops[1..] == [take] + rest && ops[1..][1..] == rest;
  }

  lemma FirstStored(e: Entry, now: U64)
    ensures AfterStore([], e, 0, now) == [Stored(Clamped(e), 0)]
  {
    var x := Stored(Clamped(e), 0);
    assert [] + [x] == [x] && [x][..0] == [];
    assert Sort([x]) == [x];
  }

  // --- Which entries a full store keeps ---

  /** Where a new entry lands: behind every entry that is not newer than it, in a sorted list. */
  lemma {:induction false} InsertAt(s: seq<Stored>, x: Stored) returns (k: nat)
    ensures k <= |s| && Insert(s, x) == s[..k] + [x] + s[k..]
    ensures k > 0 ==> s[k - 1].entry.createdAt <= x.entry.createdAt
    ensures forall i :: k <= i < |s| ==> s[i].entry.createdAt > x.entry.createdAt
  {
    k := |s|;
    if s != [] && s[|s| - 1].entry.createdAt > x.entry.createdAt {
      var front := s[..|s| - 1];
      k := InsertAt(front, x);
      assert s[..k] == front[..k] && s[k..] == front[k..] + [s[|s| - 1]];
    }
  }

  lemma SameMembers(s: seq<Stored>)
    ensures forall y :: y in Sort(s) <==> y in s
  {
    hide Sort;
    SortSame(s);
    assert forall y :: y in Sort(s) <==> y in multiset(Sort(s));
    assert forall y :: y in s <==> y in multiset(s);
  }

  /**
   A new secret is kept unless the store is full of secrets created strictly later; in that
   case the new one is what is dropped.
   */
  lemma NewSecretKept(s: seq<Stored>, e: Entry, serial: nat, now: U64)
    requires |s| <= MAX_ENTRIES && forall x :: x in s ==> x.serial < serial
    ensures var kept := Retained(s, e.id, now);
            var crowded := |kept| == MAX_ENTRIES && forall y :: y in kept ==> y.entry.createdAt > e.createdAt;
            Stored(Clamped(e), serial) in AfterStore(s, e, serial, now) <==> !crowded
  {
    hide Insert, Retained, Clamped;
    var kept := Retained(s, e.id, now);
    var x := Stored(Clamped(e), serial);
    assert (kept + [x])[..|kept|] == kept;
    SameMembers(kept);
    var a := Sort(kept);
    var k := InsertAt(a, x);
    var all := a[..k] + [x] + a[k..];
    assert all[k] == x;
    if |kept| == MAX_ENTRIES {
      if k > 0 {
        assert a[k - 1] in kept && Newest(all)[k - 1] == x;
      } else {
        assert Newest(all) == a && x !in a;
        assert forall y :: y in a ==> y.entry.createdAt > x.entry.createdAt;
      }
    }
  }

  /**
   A stored secret is there for its owner: taken next, it is handed out exactly when it was kept,
   is asked for by its own peer, suite and major, and neither its expiry nor a day has passed.
   */
  lemma StoredIsTaken(h: History, e: Entry, now: U64, synced: bool, take: Op)
    requires Sound(h) && take.TakeOp? && take.rewrite.Renamed? && take.answered && take.id == e.id
    ensures var v := Step(h, StoreOp(e, now, Renamed(synced)));
            var kept := Retained(h.disk.file, e.id, now);
            var crowded := |kept| == MAX_ENTRIES && forall y :: y in kept ==> y.entry.createdAt > e.createdAt;
            && (Hands(v, take).Some? <==>
                && !crowded && take.peer == e.peer && take.suite == e.suite && take.major == e.major
                && take.now < e.expiresAt && take.now < e.createdAt + MAX_LIFETIME)
            && (Hands(v, take).Some? ==> Hands(v, take).value.stored == Stored(Clamped(e), |h.stores|))
  {
    hide AfterStore, AfterTake, Retained, Position, Clamped, Unique, Sorted;
    var v := Step(h, StoreOp(e, now, Renamed(synced)));
    var x := Stored(Clamped(e), |h.stores|);
    StoreKeeps(h, StoreOp(e, now, Renamed(synced)));
    NewSecretKept(h.disk.file, e, |h.stores|, now);
    OnlyNewHasId(h, e, now);
    var list := v.disk.file;
    assert forall k :: 0 <= k < |list| ==> list[k] in list;
    if x in list {
      FoundById(list, x);
    }
  }

  lemma OnlyNewHasId(h: History, e: Entry, now: U64)
    requires Sound(h)
    ensures forall y :: y in AfterStore(h.disk.file, e, |h.stores|, now) && y.entry.id == e.id ==>
              y == Stored(Clamped(e), |h.stores|)
  {
    hide Sort, Unique, Sorted;
    var all := Retained(h.disk.file, e.id, now) + [Stored(Clamped(e), |h.stores|)];
    SameMembers(all);
    forall y | y in Newest(Sort(all)) ensures y in Sort(all) {
      assert y in Sort(all);
    }
  }

  // --- A run in which the new secret is the one dropped ---

  /** One of many secrets created at the same time. */
  function Early(k: nat): Entry {
    Entry(BigEndian(k, 16), BigEndian(k, 32), BigEndian(k, 48), SUITE_ID, PROTOCOL_MAJOR, 1, 2)
  }

  function EarlyFile(n: nat): seq<Stored> {
    seq(n, (k: nat) => Stored(Early(k), k))
  }

  function EarlyOps(n: nat): seq<Op> {
    seq(n, (k: nat) => StoreOp(Early(k), 0, Renamed(true)))
  }

  lemma {:induction false} RunLast(h: History, ops: seq<Op>, op: Op)
    ensures Run(h, ops + [op]) == Step(Run(h, ops), op)
    decreases |ops|
  {
    hide Step;
    if ops == [] {
      assert ops + [op] == [op];
    } else {
      RunLast(Step(h, ops[0]), ops[1..], op);
      assert (ops + [op])[1..] == ops[1..] + [op];
    }
  }

  lemma {:induction false} SortKeeps(s: seq<Stored>)
    requires forall x :: x in s ==> x.entry.createdAt == 1
    ensures Sort(s) == s
    decreases |s|
  {
    if s != [] {
      var n := |s| - 1;
      assert s == s[..n] + [s[n]];
      SortKeeps(s[..n]);
      assert n > 0 ==> s[..n][n - 1] in s;
    }
  }

  lemma {:induction false} RetainedAll(s: seq<Stored>, id: Bytes, now: U64)
    requires forall x :: x in s ==> x.entry.id != id && x.entry.expiresAt > now
    ensures Retained(s, id, now) == s
    decreases |s|
  {
    if s != [] {
      assert s == [s[0]] + s[1..];
      RetainedAll(s[1..], id, now);
    }
  }

  lemma EarlyIdsDiffer(n: nat, x: Stored)
    requires n <= 64 && x in EarlyFile(n)
    ensures x.serial < n && x.entry == Early(x.serial) && x.entry.id != BigEndian(n, 16)
  {
    var k :| 0 <= k < n && EarlyFile(n)[k] == x;
    assert Pow256(16) > 64 by { Pow256Grows(16); }
    if BigEndian(k, 16) == BigEndian(n, 16) {
      BigEndianInjective(k, n, 16);
    }
  }

  lemma Pow256Grows(n: nat)
    requires n >= 1
    ensures Pow256(n) >= 256
  {
    if n > 1 {
      Pow256Grows(n - 1);
    }
  }

  lemma OneMoreEarly(n: nat)
    requires n < 64
    ensures AfterStore(EarlyFile(n), Early(n), n, 0) == EarlyFile(n + 1)
  {
    hide BigEndian, Sort, Retained;
    var file, x := EarlyFile(n), Stored(Early(n), n);
    forall y | y in file ensures y.entry.id != Early(n).id && y.entry.expiresAt > 0 && y.entry.createdAt == 1 {
      EarlyIdsDiffer(n, y);
    }
    RetainedAll(file, Early(n).id, 0);
    assert Clamped(Early(n)) == Early(n);
    SortKeeps(file + [x]);
    assert file + [x] == EarlyFile(n + 1);
  }

  lemma EarlyOpsGrow(n: nat)
    ensures EarlyOps(n + 1) == EarlyOps(n) + [StoreOp(Early(n), 0, Renamed(true))]
  {
    hide Early;
  }

  lemma {:induction false} EarlyFills(n: nat)
    requires n <= 64
    ensures var h := Run(Fresh(), EarlyOps(n)); h.disk == StoreDisk(EarlyFile(n), {EarlyFile(n)}) && |h.stores| == n
  {
    var h := Fresh();
    assert Run(h, []) == h && EarlyOps(0) == [] && EarlyFile(0) == [];
    hide Run, Early, EarlyOps, EarlyFile, AfterStore, AfterTake, Taken, Position;
    if n > 0 {
      EarlyFills(n - 1);
      OneMoreEarly(n - 1);
      EarlyOpsGrow(n - 1);
      RunLast(h, EarlyOps(n - 1), StoreOp(Early(n - 1), 0, Renamed(true)));
    }
  }

  /** After 64 secrets, one that is still valid but a second older is stored and is not there. */
  lemma NewSecretDropped() returns (ops: seq<Op>)
    ensures |ops| == 65 && ops[64].StoreOp? && ops[64].rewrite == Renamed(true) && ops[64].e.expiresAt > ops[64].now
    ensures forall k :: 0 <= k < 65 ==> ops[k].StoreOp? && ops[k].e.Sized()
    ensures var h := Run(Fresh(), ops);
            |h.stores| == 65 && forall c, x :: c in h.disk.candidates && x in c ==> x.serial != 64
  {
    hide Run, BigEndian, AfterStore, AfterTake, Taken, Position;
    var e := LateEntry();
    var op := StoreOp(e, 0, Renamed(true));
    ops := EarlyOps(64) + [op];
    EarlyFills(64);
    RunLast(Fresh(), EarlyOps(64), op);
    LateIsDropped();
  }

  function LateEntry(): Entry {
    Entry(BigEndian(64, 16), BigEndian(64, 32), BigEndian(64, 48), SUITE_ID, PROTOCOL_MAJOR, 0, 1)
  }

  lemma LateIsDropped()
    ensures forall x :: x in AfterStore(EarlyFile(64), LateEntry(), 64, 0) ==> x.serial != 64
  {
    hide BigEndian, AfterStore;
    var e := LateEntry();
    forall x | x in EarlyFile(64)
      ensures x.serial < 64 && x.entry.id != e.id && x.entry.createdAt == 1 && x.entry.expiresAt == 2
    {
      EarlyIdsDiffer(64, x);
    }
    RetainedAll(EarlyFile(64), e.id, 0);
    NewSecretKept(EarlyFile(64), e, 64, 0);
    StoredOrNew(EarlyFile(64), e, 64, 0);
  }

  lemma StoredOrNew(s: seq<Stored>, e: Entry, serial: nat, now: U64)
    ensures forall x :: x in AfterStore(s, e, serial, now) ==> x in s || x == Stored(Clamped(e), serial)
  {
    hide Sort;
    var all := Retained(s, e.id, now) + [Stored(Clamped(e), serial)];
    SameMembers(all);
    forall x | x in Newest(Sort(all)) ensures x in Sort(all) {
      assert x in Sort(all);
    }
  }
}
