/**
 Whole runs of the limiter: which clients it keeps a bucket for, and what eviction costs them.
 */
module RateLimiterRuns {
  import opened Prelude
  import opened TokenBuckets
  import opened RateLimiting

  datatype Op = Request(key: string, now: real) | Reset

  function After(ops: seq<Op>, rate: Rate, max: nat): seq<Entry> {
    if ops == [] then []
    else
      var entries, op := After(ops[..|ops| - 1], rate, max), ops[|ops| - 1];
      match op
      case Request(key, now) => Serve(entries, key, rate, max, now).entries
      case Reset => []
  }

  function Keys(entries: seq<Entry>): (keys: seq<string>)
    ensures |keys| == |entries|
    ensures forall i :: 0 <= i < |keys| ==> keys[i] == entries[i].key
  {
    seq(|entries|, i requires 0 <= i < |entries| => entries[i].key)
  }

  /** The keys requested since the last reset. */
  function SinceReset(ops: seq<Op>): seq<string> {
    if ops == [] then []
    else
      match ops[|ops| - 1]
      case Request(key, _) => SinceReset(ops[..|ops| - 1]) + [key]
      case Reset => []
  }

  function Remove(order: seq<string>, key: string): seq<string> {
    if order == [] then []
    else if order[0] == key then order[1..]
    else [order[0]] + Remove(order[1..], key)
  }

  /** The distinct keys of a history, each at its last use. */
  function ByLastUse(history: seq<string>): seq<string> {
    if history == [] then []
    else Remove(ByLastUse(history[..|history| - 1]), history[|history| - 1]) + [history[|history| - 1]]
  }

  /** The distinct keys used after the last use of a key. */
  function UsedLater(history: seq<string>, key: string): set<string> {
    if history == [] || history[|history| - 1] == key then {}
    else UsedLater(history[..|history| - 1], key) + {history[|history| - 1]}
  }

  predicate Distinct(order: seq<string>) {
    forall i, j :: 0 <= i < j < |order| ==> order[i] != order[j]
  }

  // ----- removing -----

  lemma {:induction false} RemoveAbsent(order: seq<string>, key: string)
    requires key !in order
    ensures Remove(order, key) == order
  {
    if order != [] {
      RemoveAbsent(order[1..], key);
    }
  }

  lemma {:induction false} RemoveFromFront(a: seq<string>, b: seq<string>, key: string)
    ensures Remove(a + b, key) == if key in a then Remove(a, key) + b else a + Remove(b, key)
  {
    if a == [] {
      assert a + b == b;
    } else {
      assert (a + b)[1..] == a[1..] + b;
      if a[0] != key {
        RemoveFromFront(a[1..], b, key);
        assert key in a <==> key in a[1..];
        Regroup([a[0]], a[1..], Remove(b, key));
        Regroup([a[0]], Remove(a[1..], key), b);
        assert [a[0]] + a[1..] == a;
      }
    }
  }

  lemma RemoveAt(order: seq<string>, i: nat)
    requires i < |order| && order[i] !in order[..i]
    ensures Remove(order, order[i]) == order[..i] + order[i + 1..]
  {
    var tail := order[i..];
    assert order == order[..i] + tail;
    RemoveFromFront(order[..i], tail, order[i]);
    assert tail[1..] == order[i + 1..];
  }

  lemma {:induction false} RemoveSubset(order: seq<string>, key: string)
    requires Distinct(order)
    ensures Distinct(Remove(order, key)) && key !in Remove(order, key)
    ensures forall k :: k in Remove(order, key) <==> k in order && k != key
  {
    if order != [] && order[0] != key {
      var rest := Remove(order[1..], key);
      RemoveSubset(order[1..], key);
      assert order[0] !in rest;
      DistinctCons(order[0], rest);
    }
  }

  lemma DistinctCons(first: string, rest: seq<string>)
    requires Distinct(rest) && first !in rest
    ensures Distinct([first] + rest)
  {
  }

  // ----- the table is the most recently used part -----

  lemma KeysAppend(a: seq<Entry>, b: seq<Entry>)
    ensures Keys(a + b) == Keys(a) + Keys(b)
  {
  }

  lemma KeysOfNewest(entries: seq<Entry>, max: nat)
    ensures Keys(Newest(entries, max)) == Newest(Keys(entries), max)
  {
  }

  lemma IndexOfKey(entries: seq<Entry>, key: string)
    ensures IndexOf(entries, key) < |entries| <==> key in Keys(entries)
    ensures key !in Keys(entries)[..IndexOf(entries, key)]
  {
    var i := IndexOf(entries, key);
    if key in Keys(entries) {
      var j :| 0 <= j < |entries| && Keys(entries)[j] == key;
      assert entries[j].key == key;
    }
    if i < |entries| {
      assert Keys(entries)[i] == key;
    }
  }

  lemma ServeKnown(entries: seq<Entry>, i: nat, entry: Entry)
    requires i == IndexOf(entries, entry.key) < |entries|
    ensures Keys(entries[..i] + entries[i + 1..] + [entry]) == Remove(Keys(entries), entry.key) + [entry.key]
  {
    IndexOfKey(entries, entry.key);
    RemoveAt(Keys(entries), i);
    var rest := entries[..i] + entries[i + 1..];
    KeysWithout(entries, i);
    KeysAppend(rest, [entry]);
    assert Keys([entry]) == [entry.key];
  }

  lemma KeysWithout(entries: seq<Entry>, i: nat)
    requires i < |entries|
    ensures Keys(entries[..i] + entries[i + 1..]) == Keys(entries)[..i] + Keys(entries)[i + 1..]
  {
  }

  lemma ServeNew(entries: seq<Entry>, entry: Entry, max: nat)
    ensures Keys(Newest(entries + [entry], max)) == Newest(Keys(entries) + [entry.key], max)
  {
    KeysOfNewest(entries + [entry], max);
    KeysAppend(entries, [entry]);
    assert Keys([entry]) == [entry.key];
  }

  /** A request moves its key to the end, or adds it and lets the oldest go. */
  lemma ServeKeys(entries: seq<Entry>, key: string, rate: Rate, max: nat, now: real)
    ensures Keys(Serve(entries, key, rate, max, now).entries)
         == if key in Keys(entries) then Remove(Keys(entries), key) + [key]
            else Newest(Keys(entries) + [key], max)
  {
    var i := IndexOf(entries, key);
    var entry := Entry(key, Try(BucketFor(entries, key, rate, now), rate, now).0);
    IndexOfKey(entries, key);
    if i < |entries| { ServeKnown(entries, i, entry); } else { ServeNew(entries, entry, max); }
  }

  /** The part of the order beyond the newest max. */
  function Oldest(order: seq<string>, max: nat): seq<string> {
    if |order| <= max then [] else order[..|order| - max]
  }

  lemma OldestNewest(order: seq<string>, max: nat)
    ensures order == Oldest(order, max) + Newest(order, max)
    ensures |Newest(order, max)| <= max && (Oldest(order, max) != [] ==> |Newest(order, max)| == max)
    ensures Distinct(order) ==> forall k :: k in Oldest(order, max) ==> k !in Newest(order, max)
  {
    if Distinct(order) {
      var d := |Oldest(order, max)|;
      forall k | k in Oldest(order, max) ensures k !in Newest(order, max) {
        var a :| 0 <= a < d && Oldest(order, max)[a] == k;
        assert forall b :: 0 <= b < |Newest(order, max)| ==> Newest(order, max)[b] == order[d + b];
      }
    }
  }

  lemma NewestOfSuffix(front: seq<string>, kept: seq<string>, max: nat)
    requires |kept| >= max || front == []
    ensures Newest(front + kept, max) == Newest(kept, max)
  {
    if front == [] { assert front + kept == kept; }
  }

  lemma KeptMoves(old_: seq<string>, kept: seq<string>, key: string, max: nat)
    requires key in kept && key !in old_ && (old_ == [] || |kept| == max)
    ensures Newest(Remove(old_ + kept, key) + [key], max) == Newest(Remove(kept, key) + [key], max)
    ensures |kept| <= max ==> Newest(Remove(kept, key) + [key], max) == Remove(kept, key) + [key]
  {
    RemoveFromFront(old_, kept, key);
    RemoveShortens(kept, key);
    Regroup(old_, Remove(kept, key), [key]);
    NewestOfSuffix(old_, Remove(kept, key) + [key], max);
  }

  lemma GoneReturns(old_: seq<string>, kept: seq<string>, key: string, max: nat)
    requires key !in kept && (old_ == [] || |kept| == max)
    ensures Newest(Remove(old_ + kept, key) + [key], max) == Newest(kept + [key], max)
  {
    RemoveFromFront(old_, kept, key);
    RemoveAbsent(kept, key);
    var front := if key in old_ then Remove(old_, key) else old_;
    Regroup(front, kept, [key]);
    NewestOfSuffix(front, kept + [key], max);
  }

  lemma NewestOfMoved(order: seq<string>, key: string, max: nat)
    requires Distinct(order)
    ensures var kept := Newest(order, max);
            Newest(Remove(order, key) + [key], max)
            == if key in kept then Remove(kept, key) + [key] else Newest(kept + [key], max)
  {
    var old_, kept := Oldest(order, max), Newest(order, max);
    OldestNewest(order, max);
    if key in kept { KeptMoves(old_, kept, key, max); } else { GoneReturns(old_, kept, key, max); }
  }

  lemma {:induction false} RemoveShortens(order: seq<string>, key: string)
    requires key in order
    ensures |Remove(order, key)| == |order| - 1
  {
    if order[0] != key {
      RemoveShortens(order[1..], key);
    }
  }

  lemma {:induction false} ByLastUseDistinct(history: seq<string>)
    ensures Distinct(ByLastUse(history))
    ensures forall k :: k in ByLastUse(history) <==> k in history
  {
    if history != [] {
      var front, key := history[..|history| - 1], history[|history| - 1];
      ByLastUseDistinct(front);
      RemoveSubset(ByLastUse(front), key);
      assert history == front + [key];
    }
  }

  /** After any run the table holds the most recently used distinct keys, in order of last use. */
  lemma {:induction false} TableIsMostRecent(ops: seq<Op>, rate: Rate, max: nat)
    ensures Keys(After(ops, rate, max)) == Newest(ByLastUse(SinceReset(ops)), max)
  {
    if ops == [] {
    } else {
      var front, op := ops[..|ops| - 1], ops[|ops| - 1];
      TableIsMostRecent(front, rate, max);
      match op
      case Reset =>
      case Request(key, now) =>
        var history := SinceReset(front);
        ServeKeys(After(front, rate, max), key, rate, max, now);
        ByLastUseDistinct(history);
        NewestOfMoved(ByLastUse(history), key, max);
        assert (history + [key])[..|history|] == history;
    }
  }

  /** What follows a key in an order. */
  function Following(order: seq<string>, key: string): seq<string> {
    if order == [] then []
    else if order[0] == key then order[1..]
    else Following(order[1..], key)
  }

  lemma {:induction false} FollowingAppend(a: seq<string>, b: seq<string>, key: string)
    ensures Following(a + b, key) == if key in a then Following(a, key) + b else Following(b, key)
  {
    if a == [] {
      assert a + b == b;
    } else {
      assert (a + b)[1..] == a[1..] + b;
      FollowingAppend(a[1..], b, key);
    }
  }

  lemma {:induction false} FollowingWithin(order: seq<string>, key: string)
    ensures forall k :: k in Following(order, key) ==> k in order
    ensures Distinct(order) ==> Distinct(Following(order, key))
    ensures order != [] ==> |Following(order, key)| < |order|
  {
    if order != [] && order[0] != key {
      FollowingWithin(order[1..], key);
    }
  }

  lemma {:induction false} FollowingRemove(order: seq<string>, key: string, last: string)
    requires Distinct(order) && key in order && key != last
    ensures Following(Remove(order, last), key) == Remove(Following(order, key), last)
  {
    if order[0] == last {
      FollowingWithin(order[1..], key);
      RemoveAbsent(Following(order[1..], key), last);
    } else if order[0] != key {
      FollowingRemove(order[1..], key, last);
    } else {
      assert Remove(order, last) == [key] + Remove(order[1..], last);
    }
  }

  /** The order is by last use: what follows a key in it is what was used later. */
  lemma {:induction false} OrderIsByLastUse(history: seq<string>, key: string)
    requires key in history
    ensures forall k :: k in Following(ByLastUse(history), key) <==> k in UsedLater(history, key)
  {
    var front, last := history[..|history| - 1], history[|history| - 1];
    var order := ByLastUse(front);
    assert history == front + [last];
    ByLastUseDistinct(front);
    RemoveSubset(order, last);
    FollowingAppend(Remove(order, last), [last], key);
    if key != last {
      OrderIsByLastUse(front, key);
      FollowingRemove(order, key, last);
      FollowingWithin(order, key);
      RemoveSubset(Following(order, key), last);
    }
  }

  lemma {:induction false} DistinctSize(order: seq<string>, elements: set<string>)
    requires Distinct(order) && forall k :: k in order <==> k in elements
    ensures |elements| == |order|
  {
    if order == [] {
      assert elements == {};
    } else {
      assert forall k :: k in order <==> k == order[0] || k in order[1..];
      DistinctSize(order[1..], elements - {order[0]});
    }
  }

  lemma NewestByFollowing(order: seq<string>, key: string, max: nat)
    requires Distinct(order) && key in order
    ensures key in Newest(order, max) <==> |Following(order, key)| < max
  {
    OldestNewest(order, max);
    FollowingAppend(Oldest(order, max), Newest(order, max), key);
    FollowingWithin(Newest(order, max), key);
  }

  /** A client has a bucket exactly when fewer than max others were served since it last was. */
  lemma HeldExactlyWhenRecent(ops: seq<Op>, key: string, rate: Rate, max: nat)
    ensures var history := SinceReset(ops);
            key in Keys(After(ops, rate, max)) <==> key in history && |UsedLater(history, key)| < max
  {
    var history := SinceReset(ops);
    var order := ByLastUse(history);
    TableIsMostRecent(ops, rate, max);
    ByLastUseDistinct(history);
    OldestNewest(order, max);
    if key in history {
      NewestByFollowing(order, key, max);
      OrderIsByLastUse(history, key);
      FollowingWithin(order, key);
      DistinctSize(Following(order, key), UsedLater(history, key));
    }
  }

  lemma LastKept(keys: seq<string>, front: seq<string>, key: string, max: nat)
    requires keys == Newest(front + [key], max)
    ensures keys != [] && keys[|keys| - 1] == key <==> max >= 1
  {
  }

  lemma LastUseOfLast(history: seq<string>, key: string)
    ensures ByLastUse(history + [key]) == Remove(ByLastUse(history), key) + [key]
  {
    assert (history + [key])[..|history|] == history;
  }

  lemma AfterRequest(ops: seq<Op>, key: string, now: real, rate: Rate, max: nat)
    ensures After(ops + [Request(key, now)], rate, max) == Serve(After(ops, rate, max), key, rate, max, now).entries
    ensures SinceReset(ops + [Request(key, now)]) == SinceReset(ops) + [key]
  {
    assert (ops + [Request(key, now)])[..|ops|] == ops;
  }

  /** The key just served is never the one evicted, if the limiter keeps any. */
  lemma ServedIsKept(ops: seq<Op>, key: string, now: real, rate: Rate, max: nat)
    ensures var keys := Keys(After(ops + [Request(key, now)], rate, max));
            keys != [] && keys[|keys| - 1] == key <==> max >= 1
  {
    var served := ops + [Request(key, now)];
    AfterRequest(ops, key, now, rate, max);
    TableIsMostRecent(served, rate, max);
    LastUseOfLast(SinceReset(ops), key);
    LastKept(Keys(After(served, rate, max)), Remove(ByLastUse(SinceReset(ops)), key), key, max);
  }

  // ----- eviction never hurts -----

  /** Requests of one client the bounded limiter allowed. */
  function Allowed(ops: seq<Op>, key: string, rate: Rate, max: nat): nat {
    if ops == [] then 0
    else
      var front, op := ops[..|ops| - 1], ops[|ops| - 1];
      Allowed(front, key, rate, max) +
      (if op.Request? && op.key == key && Serve(After(front, rate, max), key, rate, max, op.now).allowed then 1 else 0)
  }

  /** The client's own bucket, made at its first request and never evicted. */
  datatype Dedicated = Dedicated(bucket: Option<Bucket>, allowed: nat)

  function OwnBucket(ops: seq<Op>, key: string, rate: Rate): Dedicated {
    if ops == [] then Dedicated(None, 0)
    else
      var before, op := OwnBucket(ops[..|ops| - 1], key, rate), ops[|ops| - 1];
      if op.Request? && op.key == key then
        var bucket := if before.bucket.Some? then before.bucket.value else Full(rate, op.now);
        var (after, ok) := Try(bucket, rate, op.now);
        Dedicated(Some(after), before.allowed + (if ok then 1 else 0))
      else before
  }

  /** The bounded bucket lags behind the dedicated one by at most what it allowed more. */
  predicate Coupled(entries: seq<Entry>, key: string, own: Dedicated, lead: int) {
    forall i :: 0 <= i < |entries| && entries[i].key == key ==>
      && own.bucket.Some?
      && entries[i].bucket.updated == own.bucket.value.updated
      && entries[i].bucket.tokens >= own.bucket.value.tokens - lead as real
  }

  /** One request on two buckets, one ahead by lead. */
  lemma CoupledTry(mine: Bucket, own: Bucket, lead: int, rate: Rate, now: real)
    requires lead >= 0
    requires mine == Full(rate, now) || (mine.updated == own.updated && mine.tokens >= own.tokens - lead as real)
    ensures var (m, mOk) := Try(mine, rate, now); var (o, oOk) := Try(own, rate, now);
            var lead' := lead + (if mOk then 1 else 0) - (if oOk then 1 else 0);
            lead' >= 0 && m.updated == o.updated && m.tokens >= o.tokens - lead' as real
  {
    NoGain(rate, now);
    var m, o := Refilled(mine, rate, now), Refilled(own, rate, now);
    assert m >= o - lead as real;
    if m < 1.0 <= o {
      assert lead as real > 0.0;
    }
  }

  /** Serving one client leaves the entries of the others as they are, or drops them. */
  lemma ServeOthers(entries: seq<Entry>, key: string, rate: Rate, max: nat, now: real)
    ensures forall e :: e in Serve(entries, key, rate, max, now).entries && e.key != key ==> e in entries
  {
  }

  lemma ServeOwn(entries: seq<Entry>, key: string, rate: Rate, max: nat, now: real)
    requires Distinct(Keys(entries))
    ensures forall e :: e in Serve(entries, key, rate, max, now).entries && e.key == key
              ==> e.bucket == Try(BucketFor(entries, key, rate, now), rate, now).0
  {
    var i, after := IndexOf(entries, key), Serve(entries, key, rate, max, now).entries;
    var entry := Entry(key, Try(BucketFor(entries, key, rate, now), rate, now).0);
    forall e | e in after && e.key == key ensures e == entry {
      if i < |entries| {
        assert forall j :: 0 <= j < |entries| && j != i ==> Keys(entries)[j] != Keys(entries)[i];
      }
    }
  }

  lemma TableDistinct(ops: seq<Op>, rate: Rate, max: nat)
    ensures Distinct(Keys(After(ops, rate, max)))
  {
    TableIsMostRecent(ops, rate, max);
    ByLastUseDistinct(SinceReset(ops));
  }

  lemma {:induction false} Coupling(ops: seq<Op>, key: string, rate: Rate, max: nat)
    ensures var own := OwnBucket(ops, key, rate);
            var lead := Allowed(ops, key, rate, max) - own.allowed;
            lead >= 0 && Coupled(After(ops, rate, max), key, own, lead)
  {
    if ops == [] {
    } else {
      var front, op := ops[..|ops| - 1], ops[|ops| - 1];
      Coupling(front, key, rate, max);
      var entries, own := After(front, rate, max), OwnBucket(front, key, rate);
      match op
      case Reset =>
      case Request(k, now) =>
        if k == key {
          TableDistinct(front, rate, max);
          CoupledRequest(entries, key, own, Allowed(front, key, rate, max) - own.allowed, rate, max, now);
        } else {
          ServeOthers(entries, k, rate, max, now);
          CoupledOthers(entries, Serve(entries, k, rate, max, now).entries, key, own,
                        Allowed(front, key, rate, max) - own.allowed);
        }
    }
  }

  lemma CoupledOthers(entries: seq<Entry>, after: seq<Entry>, key: string, own: Dedicated, lead: int)
    requires Coupled(entries, key, own, lead)
    requires forall e :: e in after && e.key == key ==> e in entries
    ensures Coupled(after, key, own, lead)
  {
    forall i | 0 <= i < |after| && after[i].key == key
      ensures own.bucket.Some? && after[i].bucket.updated == own.bucket.value.updated
           && after[i].bucket.tokens >= own.bucket.value.tokens - lead as real
    {
      assert after[i] in entries;
      var j :| 0 <= j < |entries| && entries[j] == after[i];
    }
  }

  lemma CoupledRequest(entries: seq<Entry>, key: string, own: Dedicated, lead: int, rate: Rate, max: nat, now: real)
    requires Distinct(Keys(entries)) && lead >= 0 && Coupled(entries, key, own, lead)
    ensures var mine := BucketFor(entries, key, rate, now);
            var theirs := if own.bucket.Some? then own.bucket.value else Full(rate, now);
            var (m, mOk) := Try(mine, rate, now); var (o, oOk) := Try(theirs, rate, now);
            var lead' := lead + (if mOk then 1 else 0) - (if oOk then 1 else 0);
            lead' >= 0 && Coupled(Serve(entries, key, rate, max, now).entries, key, Dedicated(Some(o), 0), lead')
  {
    var mine := BucketFor(entries, key, rate, now);
    var theirs := if own.bucket.Some? then own.bucket.value else Full(rate, now);
    CoupledTry(mine, theirs, lead, rate, now);
    ServeOwn(entries, key, rate, max, now);
    var after := Serve(entries, key, rate, max, now).entries;
    assert forall i :: 0 <= i < |after| && after[i].key == key ==> after[i] in after;
  }

  /** For every run and client, the bounded limiter allows at least as many requests in total as
      a bucket of the client's own would. */
  lemma EvictionNeverHurts(ops: seq<Op>, key: string, rate: Rate, max: nat)
    ensures Allowed(ops, key, rate, max) >= OwnBucket(ops, key, rate).allowed
  {
    Coupling(ops, key, rate, max);
  }

  // ----- what eviction can give away -----

  predicate Ticking(ops: seq<Op>) {
    forall i, j :: 0 <= i < j < |ops| && ops[i].Request? && ops[j].Request? ==> ops[i].now <= ops[j].now
  }

  /** How often the client's bucket was made anew: it had one before, and the table has none. */
  function Remade(ops: seq<Op>, key: string, rate: Rate, max: nat): nat {
    if ops == [] then 0
    else
      var front, op := ops[..|ops| - 1], ops[|ops| - 1];
      Remade(front, key, rate, max) +
      (if op.Request? && op.key == key && key !in Keys(After(front, rate, max)) && OwnBucket(front, key, rate).bucket.Some?
       then 1 else 0)
  }

  lemma {:induction false} OwnUpdated(ops: seq<Op>, key: string, rate: Rate)
    requires OwnBucket(ops, key, rate).bucket.Some?
    ensures exists i :: 0 <= i < |ops| && ops[i].Request? && ops[i].now == OwnBucket(ops, key, rate).bucket.value.updated
  {
    var n := |ops| - 1;
    var front, op := ops[..n], ops[n];
    if op.Request? && op.key == key {
      assert ops[n].now == OwnBucket(ops, key, rate).bucket.value.updated;
    } else {
      OwnUpdated(front, key, rate);
      var i :| 0 <= i < |front| && front[i].Request? && front[i].now == OwnBucket(front, key, rate).bucket.value.updated;
      assert ops[i] == front[i];
    }
  }

  lemma OwnIsEarlier(ops: seq<Op>, key: string, rate: Rate)
    requires Ticking(ops) && ops != [] && ops[|ops| - 1].Request?
    ensures var own := OwnBucket(ops[..|ops| - 1], key, rate).bucket;
            own.Some? ==> own.value.updated <= ops[|ops| - 1].now
  {
    var front := ops[..|ops| - 1];
    if OwnBucket(front, key, rate).bucket.Some? {
      OwnUpdated(front, key, rate);
      var i :| 0 <= i < |front| && front[i].Request? && front[i].now == OwnBucket(front, key, rate).bucket.value.updated;
      assert ops[i] == front[i];
    }
  }

  /** The lead, and the lead with what the bucket has more, are within the tokens made anew. */
  predicate Bounded(entries: seq<Entry>, key: string, own: Option<Bucket>, lead: int, made: int, rate: Rate) {
    && lead <= made
    && (own.Some? ==> InRange(own.value, rate))
    && (forall i :: 0 <= i < |entries| && entries[i].key == key ==>
          && own.Some?
          && entries[i].bucket.updated == own.value.updated
          && lead as real + entries[i].bucket.tokens - own.value.tokens <= made as real)
  }

  lemma BoundedTry(mine: Bucket, own: Bucket, lead: int, made: int, rate: Rate, now: real)
    requires rate.refill >= 0.0 && InRange(own, rate) && own.updated <= now && lead <= made
    requires || (mine.updated == own.updated && lead as real + mine.tokens - own.tokens <= made as real)
             || (mine == Full(rate, now) && lead + rate.capacity <= made)
    ensures var (m, mOk) := Try(mine, rate, now); var (o, oOk) := Try(own, rate, now);
            var lead' := lead + (if mOk then 1 else 0) - (if oOk then 1 else 0);
            && lead' <= made && m.updated == o.updated && InRange(o, rate)
            && lead' as real + m.tokens - o.tokens <= made as real
  {
    GainNonNegative(rate, own.updated, now);
    NoGain(rate, now);
    var m, o := Refilled(mine, rate, now), Refilled(own, rate, now);
    assert lead as real + m - o <= made as real;
    if m >= 1.0 > o {
      assert lead as real < made as real;
    }
  }

  lemma BoundedRequest(entries: seq<Entry>, key: string, own: Option<Bucket>, lead: int, made: int, made': int,
                       rate: Rate, max: nat, now: real)
    requires rate.refill >= 0.0 && Distinct(Keys(entries)) && Bounded(entries, key, own, lead, made, rate)
    requires own.Some? ==> own.value.updated <= now
    requires made' == made + if key !in Keys(entries) && own.Some? then rate.capacity else 0
    ensures var mine := BucketFor(entries, key, rate, now);
            var theirs := if own.Some? then own.value else Full(rate, now);
            var (m, mOk) := Try(mine, rate, now); var (o, oOk) := Try(theirs, rate, now);
            var lead' := lead + (if mOk then 1 else 0) - (if oOk then 1 else 0);
            Bounded(Serve(entries, key, rate, max, now).entries, key, Some(o), lead', made', rate)
  {
    var mine := BucketFor(entries, key, rate, now);
    var theirs := if own.Some? then own.value else Full(rate, now);
    IndexOfKey(entries, key);
    BoundedTry(mine, theirs, lead, made', rate, now);
    ServeOwn(entries, key, rate, max, now);
    var after := Serve(entries, key, rate, max, now).entries;
    assert forall i :: 0 <= i < |after| && after[i].key == key ==> after[i] in after;
  }

  lemma BoundedOthers(entries: seq<Entry>, after: seq<Entry>, key: string, own: Option<Bucket>, lead: int, made: int,
                      rate: Rate)
    requires Bounded(entries, key, own, lead, made, rate)
    requires forall e :: e in after && e.key == key ==> e in entries
    ensures Bounded(after, key, own, lead, made, rate)
  {
    forall i | 0 <= i < |after| && after[i].key == key
      ensures own.Some? && after[i].bucket.updated == own.value.updated
           && lead as real + after[i].bucket.tokens - own.value.tokens <= made as real
    {
      assert after[i] in entries;
      var j :| 0 <= j < |entries| && entries[j] == after[i];
    }
  }

  lemma MadeAnew(capacity: nat, n: nat)
    ensures capacity * (n + 1) == capacity * n + capacity
  {
  }

  lemma {:induction false} BoundedRun(ops: seq<Op>, key: string, rate: Rate, max: nat)
    requires rate.refill >= 0.0 && Ticking(ops)
    ensures var own := OwnBucket(ops, key, rate);
            Bounded(After(ops, rate, max), key, own.bucket, Allowed(ops, key, rate, max) - own.allowed,
                    rate.capacity * Remade(ops, key, rate, max), rate)
  {
    if ops == [] {
    } else {
      var front, op := ops[..|ops| - 1], ops[|ops| - 1];
      assert Ticking(front);
      BoundedRun(front, key, rate, max);
      var entries, own := After(front, rate, max), OwnBucket(front, key, rate);
      var lead, n := Allowed(front, key, rate, max) - own.allowed, Remade(front, key, rate, max);
      match op
      case Reset =>
      case Request(k, now) =>
        if k == key {
          TableDistinct(front, rate, max);
          OwnIsEarlier(ops, key, rate);
          MadeAnew(rate.capacity, n);
          BoundedRequest(entries, key, own.bucket, lead, rate.capacity * n, rate.capacity * Remade(ops, key, rate, max),
                         rate, max, now);
        } else {
          ServeOthers(entries, k, rate, max, now);
          BoundedOthers(entries, Serve(entries, k, rate, max, now).entries, key, own.bucket, lead, rate.capacity * n, rate);
        }
    }
  }

  /** Nor does eviction give much away: a client is allowed at most one capacity more, in total, for
      each time its bucket was made anew. */
  lemma EvictionGivesAtMost(ops: seq<Op>, key: string, rate: Rate, max: nat)
    requires rate.refill >= 0.0 && Ticking(ops)
    ensures Allowed(ops, key, rate, max) <= OwnBucket(ops, key, rate).allowed + rate.capacity * Remade(ops, key, rate, max)
  {
    BoundedRun(ops, key, rate, max);
  }

  // ----- the wait a refusal reports -----

  lemma {:induction false} LastIsFound(entries: seq<Entry>, key: string)
    requires Distinct(Keys(entries)) && entries != [] && entries[|entries| - 1].key == key
    ensures IndexOf(entries, key) == |entries| - 1
  {
    var n := |entries| - 1;
    assert forall j :: 0 <= j < n ==> Keys(entries)[j] != Keys(entries)[n];
  }

  /** The table after a request ends with its key, found nowhere before, and its bucket. */
  lemma ServedIsLast(ops: seq<Op>, key: string, now: real, rate: Rate, max: nat)
    requires max >= 1
    ensures var entries := After(ops, rate, max);
            var table := Serve(entries, key, rate, max, now).entries;
            && IndexOf(table, key) < |table|
            && table[IndexOf(table, key)].bucket == Try(BucketFor(entries, key, rate, now), rate, now).0
  {
    AfterRequest(ops, key, now, rate, max);
    TableDistinct(ops + [Request(key, now)], rate, max);
    ServedIsKept(ops, key, now, rate, max);
    TableDistinct(ops, rate, max);
    OwnIsLast(After(ops, rate, max), Serve(After(ops, rate, max), key, rate, max, now).entries, key, now, rate, max);
  }

  lemma OwnIsLast(entries: seq<Entry>, table: seq<Entry>, key: string, now: real, rate: Rate, max: nat)
    requires table == Serve(entries, key, rate, max, now).entries && Distinct(Keys(entries)) && Distinct(Keys(table))
    requires Keys(table) != [] && Keys(table)[|Keys(table)| - 1] == key
    ensures IndexOf(table, key) < |table|
    ensures table[IndexOf(table, key)].bucket == Try(BucketFor(entries, key, rate, now), rate, now).0
  {
    LastIsFound(table, key);
    ServeOwn(entries, key, rate, max, now);
    assert table[|table| - 1] in table;
  }

  lemma AnswerAgain(first: Bucket, table: seq<Entry>, key: string, now: real, d: real, rate: Rate, max: nat)
    requires rate.refill > 0.0 && rate.capacity >= 1 && d >= 0.0 && !Try(first, rate, now).1
    requires IndexOf(table, key) < |table| && table[IndexOf(table, key)].bucket == Try(first, rate, now).0
    ensures Serve(table, key, rate, max, now + d).allowed <==> d >= SecondsUntilToken(Try(first, rate, now).0, rate)
  {
    ServedAnswer(table, key, rate, max, now + d);
    RetryIsExact(first, rate, now, d);
  }

  /** When a refused client's next request is also the limiter's next, it is allowed exactly from the
      reported wait on. */
  lemma ReportedWaitIsExact(ops: seq<Op>, key: string, now: real, d: real, rate: Rate, max: nat)
    requires rate.refill > 0.0 && rate.capacity >= 1 && max >= 1 && d >= 0.0
    requires !Serve(After(ops, rate, max), key, rate, max, now).allowed
    ensures var refused := Serve(After(ops, rate, max), key, rate, max, now);
            Serve(refused.entries, key, rate, max, now + d).allowed <==> d >= refused.wait
  {
    var entries := After(ops, rate, max);
    ServedIsLast(ops, key, now, rate, max);
    ServedAnswer(entries, key, rate, max, now);
    AnswerAgain(BucketFor(entries, key, rate, now), Serve(entries, key, rate, max, now).entries, key, now, d, rate, max);
  }
}
