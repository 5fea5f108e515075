/** The limit on session creations: at most so many in any 60 seconds, for each key. */
module RateLimiter {

  const WINDOW := 60.0

  type Times = seq<real>

  predicate InOrder(times: Times) {
    forall i, j | 0 <= i < j < |times| :: times[i] <= times[j]
  }

  predicate UpTo(times: Times, now: real) {
    forall i | 0 <= i < |times| :: times[i] <= now
  }

  /** The times that lie less than 60 seconds before `now`. */
  function Recent(times: Times, now: real): Times {
    if times == [] then []
    else (if now - times[0] < WINDOW then [times[0]] else []) + Recent(times[1..], now)
  }

  /** The times in the half-open interval of 60 seconds that begins at `start`. */
  function Within(times: Times, start: real): Times {
    if times == [] then []
    else (if start <= times[0] < start + 60.0 then [times[0]] else []) + Within(times[1..], start)
  }

  /** Any `limit + 1` consecutive acceptances take at least 60 seconds. */
  predicate Spaced(times: Times, limit: nat) {
    forall i | 0 <= i && i + limit < |times| :: times[i + limit] - times[i] >= 60.0
  }

  // ---------------------------------------------------------------------------------------------
  // Recent times

  lemma {:induction false} RecentOfRecent(times: Times, earlier: real, now: real)
    requires earlier <= now
    ensures Recent(Recent(times, earlier), now) == Recent(times, now)
  {
    if times != [] {
      RecentOfRecent(times[1..], earlier, now);
      var rest := Recent(times[1..], earlier);
      if earlier - times[0] < WINDOW {
        assert Recent(times, earlier)[1..] == rest;
      } else {
        assert Recent(times, earlier) == rest;
      }
    }
  }

  lemma {:induction false} RecentOfMore(times: Times, t: real, now: real)
    ensures Recent(times + [t], now) == Recent(times, now) + if now - t < WINDOW then [t] else []
  {
    if times == [] {
      assert times + [t] == [t];
    } else {
      assert (times + [t])[1..] == times[1..] + [t];
      RecentOfMore(times[1..], t, now);
    }
  }

  /** Once the oldest time is recent, all are. */
  lemma {:induction false} AllRecent(times: Times, now: real)
    requires InOrder(times) && (times != [] ==> now - times[0] < WINDOW)
    ensures Recent(times, now) == times
  {
    if times != [] {
      AllRecent(times[1..], now);
    }
  }

  /** The recent times are the last ones, and only they are recent. */
  lemma {:induction false} RecentIsSuffix(times: Times, now: real)
    requires InOrder(times)
    ensures var n, m := |times|, |Recent(times, now)|;
            && m <= n && Recent(times, now) == times[n - m..]
            && (forall i | 0 <= i < n - m :: now - times[i] >= 60.0)
            && forall i | n - m <= i < n :: now - times[i] < 60.0
  {
    if times != [] {
      if now - times[0] < WINDOW {
        AllRecent(times, now);
      } else {
        RecentIsSuffix(times[1..], now);
        assert forall i | 0 < i < |times| :: times[i] == times[1..][i - 1];
      }
    }
  }

  // ---------------------------------------------------------------------------------------------
  // Every interval

  /** The times within an interval stand together. */
  lemma {:induction false} WithinIsBlock(times: Times, start: real) returns (i: nat)
    requires InOrder(times)
    ensures i + |Within(times, start)| <= |times|
    ensures Within(times, start) == times[i..i + |Within(times, start)|]
    ensures Within(times, start) != [] ==> start <= times[i]
  {
    if times == [] || start <= times[0] {
      NoGap(times, start);
      i := 0;
    } else {
      i := WithinIsBlock(times[1..], start);
      assert times[1..][i..i + |Within(times, start)|] == times[i + 1..i + 1 + |Within(times, start)|];
      i := i + 1;
    }
  }

  /** If no time is before the interval, those within are the first. */
  lemma {:induction false} NoGap(times: Times, start: real)
    requires InOrder(times) && (times != [] ==> start <= times[0])
    ensures |Within(times, start)| <= |times| && Within(times, start) == times[..|Within(times, start)|]
  {
    if times != [] {
      NoGap(times[1..], start);
      if times[0] >= start + WINDOW {
        NoneWithin(times[1..], start);
      }
    }
  }

  lemma {:induction false} NoneWithin(times: Times, start: real)
    requires forall i | 0 <= i < |times| :: times[i] >= start + WINDOW
    ensures Within(times, start) == []
  {
    if times != [] {
      NoneWithin(times[1..], start);
    }
  }

  lemma {:induction false} WithinAreWithin(times: Times, start: real)
    ensures forall i | 0 <= i < |Within(times, start)| :: start <= Within(times, start)[i] < start + WINDOW
  {
    if times != [] {
      WithinAreWithin(times[1..], start);
    }
  }

  /** However the interval lies, it holds at most the limit of acceptances. */
  lemma AtMostLimit(times: Times, limit: nat, start: real)
    requires InOrder(times) && Spaced(times, limit)
    ensures |Within(times, start)| <= limit
  {
    if |Within(times, start)| > limit {
      NotSpaced(times, limit, start);
    }
  }

  lemma NotSpaced(times: Times, limit: nat, start: real)
    requires InOrder(times) && |Within(times, start)| > limit
    ensures !Spaced(times, limit)
  {
    var i := WithinIsBlock(times, start);
    WithinAreWithin(times, start);
    var block := Within(times, start);
    assert block[0] == times[i] && block[limit] == times[i + limit];
  }

  /** Conversely, nothing weaker than the spacing bounds every interval. */
  lemma SpacedIff(times: Times, limit: nat)
    requires InOrder(times)
    ensures Spaced(times, limit) <==> forall start :: |Within(times, start)| <= limit
  {
    if Spaced(times, limit) {
      forall start ensures |Within(times, start)| <= limit {
        AtMostLimit(times, limit, start);
      }
    } else {
      var i :| 0 <= i && i + limit < |times| && times[i + limit] - times[i] < WINDOW;
      BlockIsWithin(times, i, i + limit, times[i]);
    }
  }

  lemma {:induction false} BlockIsWithin(times: Times, i: nat, j: nat, start: real)
    requires InOrder(times) && i <= j < |times| && start <= times[i] && times[j] < start + WINDOW
    ensures |Within(times, start)| >= j - i + 1
  {
    if i > 0 {
      BlockIsWithin(times[1..], i - 1, j - 1, start);
    } else if j > 0 {
      BlockIsWithin(times[1..], 0, j - 1, start);
    }
  }

  // ---------------------------------------------------------------------------------------------
  // The limiter

  class SessionManager {
    const limit: int
    var createHits: map<string, Times>

    /** Every acceptance ever and the last pruning, for each key, and the time of the last call. */
    ghost var accepted: map<string, Times>
    ghost var prunings: map<string, real>
    ghost var clock: real

    ghost function Accepted(key: string): Times
      reads this
    {
      if key in accepted then accepted[key] else []
    }

    function Bucket(key: string): Times
      reads this
    {
      if key in createHits then createHits[key] else []
    }

    /** Each bucket is the history of its key, cut to the 60 seconds before the last time it was looked at. */
    ghost predicate Tracks(key: string)
      reads this
    {
      var history := Accepted(key);
      && InOrder(history) && UpTo(history, clock)
      && (limit > 0 ==> Spaced(history, limit)) && (limit <= 0 ==> history == [])
      && if key in prunings then prunings[key] <= clock && Bucket(key) == Recent(history, prunings[key])
         else Bucket(key) == history == []
    }

    ghost predicate Valid()
      reads this
    {
      forall key :: Tracks(key)
    }

    constructor (limit: int, now: real)
      ensures Valid() && this.limit == limit && clock == now && accepted == map[]
    {
      this.limit := limit;
      createHits, accepted, prunings, clock := map[], map[], map[], now;
    }

    /** Refused exactly when the last 60 seconds already hold the limit, or when the limit allows none. */
    method AllowSessionCreate(key: string, now: real) returns (allowed: bool)
      requires Valid() && clock <= now
      modifies this
      ensures Valid() && clock == now
      ensures allowed <==> limit > 0 && |Recent(old(Accepted(key)), now)| < limit
      ensures var history := old(Accepted(key));
              allowed <==> limit > 0 && (|history| < limit || now - history[|history| - limit] >= 60.0)
      ensures Accepted(key) == old(Accepted(key)) + if allowed then [now] else []
      ensures limit > 0 ==> Bucket(key) == Recent(Accepted(key), now)
      ensures forall other | other != key ::
                Bucket(other) == old(Bucket(other)) && Accepted(other) == old(Accepted(other))
    {
      hide Recent, InOrder, UpTo, Spaced;
      ghost var history := Accepted(key);
      assert Tracks(key);
      ghost var pruned := if key in prunings then prunings[key] else clock;
      NothingRecent(pruned);
      BucketInOrder(history, pruned);
      UpToLater(history, clock, now);
      RecentIsSuffix(history, now);
      if limit <= 0 {
        clock := now;
        allowed := false;
      } else {
        var bucket := Pruned(Bucket(key), now);
        RecentOfRecent(history, pruned, now);
        allowed := |bucket| < limit;
        if allowed {
          OneMore(history, clock, now, limit);
          bucket := bucket + [now];
        }
        createHits := createHits[key := bucket];
        accepted := accepted[key := history + if allowed then [now] else []];
        prunings := prunings[key := now];
        clock := now;
      }
      assert history + [] == history;
      KeepTracking(key);
    }

    method Pruned(hits: Times, now: real) returns (bucket: Times)
      requires InOrder(hits)
      ensures bucket == Recent(hits, now)
    {
      hide Recent, InOrder;
      bucket := hits;
      while bucket != [] && now - bucket[0] >= WINDOW
        invariant Recent(bucket, now) == Recent(hits, now) && InOrder(bucket)
        decreases |bucket|
      {
        DropOld(bucket, now);
        bucket := bucket[1..];
      }
      AllRecent(bucket, now);
    }

    /** Over any life of the manager, every interval of 60 seconds holds at most the limit. */
    lemma EveryMinute(key: string, start: real)
      requires Valid()
      ensures |Within(Accepted(key), start)| <= if limit > 0 then limit else 0
    {
      assert Tracks(key);
      if limit > 0 {
        AtMostLimit(Accepted(key), limit, start);
      }
    }

    twostate lemma KeepTracking(key: string)
      requires old(Valid()) && old(clock) <= clock
      requires Tracks(key)
      requires forall other | other != key ::
                 Bucket(other) == old(Bucket(other)) && Accepted(other) == old(Accepted(other))
      requires forall other | other != key :: other in prunings <==> other in old(prunings)
      requires forall other | other != key && other in prunings :: prunings[other] == old(prunings)[other]
      ensures Valid()
    {
      hide Recent, InOrder, Spaced;
      forall other: string ensures Tracks(other) {
        if other != key {
          assert old(Tracks(other));
        }
      }
    }
  }

  lemma NothingRecent(now: real)
    ensures Recent([], now) == []
  {
  }

  lemma UpToLater(times: Times, earlier: real, now: real)
    requires UpTo(times, earlier) && earlier <= now
    ensures UpTo(times, now)
  {
  }

  lemma BucketInOrder(history: Times, pruned: real)
    requires InOrder(history)
    ensures InOrder(Recent(history, pruned))
  {
    RecentIsSuffix(history, pruned);
  }

  lemma DropOld(bucket: Times, now: real)
    requires bucket != [] && now - bucket[0] >= WINDOW && InOrder(bucket)
    ensures Recent(bucket[1..], now) == Recent(bucket, now) && InOrder(bucket[1..])
  {
  }

  /** One more acceptance, when fewer than the limit are recent. */
  lemma OneMore(history: Times, clock: real, now: real, limit: nat)
    requires InOrder(history) && UpTo(history, clock) && clock <= now
    requires Spaced(history, limit) && |Recent(history, now)| < limit
    ensures InOrder(history + [now]) && UpTo(history + [now], now) && Spaced(history + [now], limit)
    ensures Recent(history + [now], now) == Recent(history, now) + [now]
  {
    RecentOfMore(history, now, now);
    RecentIsSuffix(history, now);
    var more := history + [now];
    forall i | 0 <= i && i + limit < |more| ensures more[i + limit] - more[i] >= WINDOW {
      if i + limit < |history| {
        assert history[i + limit] - history[i] >= WINDOW;
      }
    }
  }
}
