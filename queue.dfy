/**
 * The matchmaking queue (pending.json): entries waiting for an opponent,
 * each with an expiry time, paired first-come first-served.
 */
module MatchQueue {
  import opened Common
  import opened Duel

  /** One pending entry: `{user_id, user_data, expires}`. */
  datatype Pending = Pending(userId: UserId, userData: UserData, expires: int)

  /** Seconds a new pending entry stays eligible. */
  const QueueTtl := 60

  /** `[p for p in pending if p['expires'] > now]`: drops the expired entries, keeping the order. */
  function Prune(ps: seq<Pending>, now: int): (r: seq<Pending>)
    ensures |r| <= |ps|
    ensures forall k :: 0 <= k < |r| ==> r[k].expires > now && r[k] in ps
    ensures forall k :: 0 <= k < |ps| && ps[k].expires > now ==> ps[k] in r
  {
    if ps == [] then []
    else (if ps[0].expires > now then [ps[0]] else []) + Prune(ps[1..], now)
  }

  /** Pruning keeps the relative order: pruning a concatenation prunes each part. */
  lemma {:induction false} PruneAppend(a: seq<Pending>, b: seq<Pending>, now: int)
    ensures Prune(a + b, now) == Prune(a, now) + Prune(b, now)
  {
    if a == [] {
      assert a + b == b;
    } else {
      assert (a + b)[1..] == a[1..] + b;
      PruneAppend(a[1..], b, now);
    }
  }

  /** Pruning twice at the same moment prunes nothing more. */
  lemma {:induction false} PruneIdempotent(ps: seq<Pending>, now: int)
    ensures Prune(Prune(ps, now), now) == Prune(ps, now)
  {
    if ps != [] {
      PruneIdempotent(ps[1..], now);
      PruneAppend(if ps[0].expires > now then [ps[0]] else [], Prune(ps[1..], now), now);
    }
  }

  /** The position of the first entry that belongs to somebody other than `user`. */
  function FirstOther(ps: seq<Pending>, user: UserId): (r: Option<nat>)
    ensures r.Some? ==> r.value < |ps| && ps[r.value].userId != user
    ensures r.Some? ==> forall j :: 0 <= j < r.value ==> ps[j].userId == user
    ensures r.None? ==> forall j :: 0 <= j < |ps| ==> ps[j].userId == user
    decreases |ps|
  {
    if ps == [] then None
    else if ps[0].userId != user then Some(0)
    else match FirstOther(ps[1..], user)
      case None => None
      case Some(k) => Some(k + 1)
  }

  /** `pending.pop(i)`. */
  function RemoveAt(ps: seq<Pending>, i: nat): (r: seq<Pending>)
    requires i < |ps|
    ensures |r| == |ps| - 1
    ensures forall k :: 0 <= k < i ==> r[k] == ps[k]
    ensures forall k :: i <= k < |r| ==> r[k] == ps[k + 1]
  {
    ps[..i] + ps[i + 1..]
  }

  /** How many entries of the queue belong to `user`. */
  function EntriesOf(ps: seq<Pending>, user: UserId): nat {
    if ps == [] then 0 else (if ps[0].userId == user then 1 else 0) + EntriesOf(ps[1..], user)
  }

  lemma {:induction false} EntriesOfAppend(a: seq<Pending>, b: seq<Pending>, user: UserId)
    ensures EntriesOf(a + b, user) == EntriesOf(a, user) + EntriesOf(b, user)
  {
    if a == [] {
      assert a + b == b;
    } else {
      assert (a + b)[1..] == a[1..] + b;
      EntriesOfAppend(a[1..], b, user);
    }
  }

  /**
   * The queue is not deduplicated: enqueueing a user who already waits adds a
   * second entry for that user.
   */
  lemma EnqueueAddsEntry(ps: seq<Pending>, e: Pending)
    ensures EntriesOf(ps + [e], e.userId) == EntriesOf(ps, e.userId) + 1
  {
    EntriesOfAppend(ps, [e], e.userId);
  }
}
