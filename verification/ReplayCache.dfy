/**
 The responder's bounded memory of hellos (`ReplayCache`, `handshake.rs`): a hash set beside
 a queue that forgets the oldest key first.
 */
module ReplayCache {
  import opened Octets

  const REPLAY_CACHE_CAP := 4096

  type Key = Bytes

  // --- The queue as a value ---

  predicate Distinct(s: seq<Key>) {
    forall i, j :: 0 <= i < j < |s| ==> s[i] != s[j]
  }

  /** A key is accepted unless it is remembered; a full queue forgets its oldest first. */
  function Remember(order: seq<Key>, key: Key): (r: (bool, seq<Key>)) {
    if key in order then (false, order)
    else if |order| >= REPLAY_CACHE_CAP then (true, order[1..] + [key])
    else (true, order + [key])
  }

  /** The last 4096 of a sequence, or all of it. */
  function Recent(s: seq<Key>): (r: seq<Key>)
    ensures |r| <= REPLAY_CACHE_CAP && |r| <= |s|
  {
    if |s| > REPLAY_CACHE_CAP then s[|s| - REPLAY_CACHE_CAP..] else s
  }

  /** The keys accepted out of a sequence of presentations, starting from an empty cache. */
  function Accepted(presented: seq<Key>): seq<Key> {
    if presented == [] then []
    else
      var before := Accepted(presented[..|presented| - 1]);
      var key := presented[|presented| - 1];
      if key in Recent(before) then before else before + [key]
  }

  /** What the queue holds after a sequence of presentations. */
  function Held(presented: seq<Key>): seq<Key> {
    if presented == [] then []
    else Remember(Held(presented[..|presented| - 1]), presented[|presented| - 1]).1
  }

  // --- Over every run ---

  /** The queue is always the last 4096 accepted keys, so a key is accepted iff it is not one of them. */
  lemma {:induction false} HoldsRecent(presented: seq<Key>, key: Key)
    ensures Held(presented) == Recent(Accepted(presented))
    ensures Remember(Held(presented), key).0 <==> key !in Recent(Accepted(presented))
  {
    hide Recent, Remember;
    if presented == [] {
      NothingRecent();
    } else {
      var n := |presented| - 1;
      HoldsRecent(presented[..n], presented[n]);
      RecentSlides(Accepted(presented[..n]), presented[n]);
    }
    RecentSlides(Accepted(presented), key);
  }

  lemma NothingRecent()
    ensures Recent([]) == []
  {
  }

  lemma RecentSlides(accepted: seq<Key>, key: Key)
    ensures var recent := Recent(accepted);
            Remember(recent, key) == (key !in recent, Recent(if key in recent then accepted else accepted + [key]))
  {
    var recent := Recent(accepted);
    if key !in recent {
      var longer := accepted + [key];
      assert Recent(longer) == Remember(recent, key).1;
    }
  }

  /** Any 4097 acceptances in a row are of different keys. */
  lemma {:induction false} NearbyAcceptancesDiffer(presented: seq<Key>, i: nat, j: nat)
    requires i < j < |Accepted(presented)| && j - i <= REPLAY_CACHE_CAP
    ensures Accepted(presented)[i] != Accepted(presented)[j]
    decreases |presented|
  {
    var n := |presented| - 1;
    var before := Accepted(presented[..n]);
    if j < |before| {
      NearbyAcceptancesDiffer(presented[..n], i, j);
    } else {
      var recent := Recent(before);
      assert before[i] == recent[i - (|before| - |recent|)];
    }
  }

  /** And no more than that: a key accepted 4097 acceptances ago is accepted again. */
  lemma OldKeysReturn(presented: seq<Key>, i: nat)
    requires i + REPLAY_CACHE_CAP < |Accepted(presented)|
    requires forall j :: i < j < |Accepted(presented)| ==> Accepted(presented)[j] != Accepted(presented)[i]
    ensures Remember(Held(presented), Accepted(presented)[i]).0
  {
    HoldsRecent(presented, Accepted(presented)[i]);
  }

  // --- The cache ---

  class Cache {
    var seen: set<Key>
    var order: seq<Key>

    ghost predicate Valid()
      reads this
    {
      && |order| <= REPLAY_CACHE_CAP && Distinct(order)
      && (forall k :: k in seen <==> k in order)
    }

    constructor ()
      ensures Valid() && order == []
    {
      seen := {};
      order := [];
    }

    /** `check_and_insert`. */
    method CheckAndInsert(deviceId: Bytes, nonce: Bytes) returns (fresh': bool)
      requires Valid()
      modifies this
      ensures Valid()
      ensures (fresh', order) == Remember(old(order), deviceId + nonce)
    {
      var key := deviceId + nonce;
      if key in seen {
        return false;
      }
      if |order| >= REPLAY_CACHE_CAP {
        var oldest := order[0];
        order := order[1..];
        seen := seen - {oldest};
      }
      seen := seen + {key};
      order := order + [key];
      return true;
    }
  }
}
