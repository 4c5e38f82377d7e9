/**
 One bucket per client with bounded least-recently-used eviction.

 `RateLimiter.TryAcquire` is the loop and the bucket objects, proved against `Serve` on lists of
 entries, least recently used first. About runs of `Serve`: `TableIsMostRecent` and
 `HeldExactlyWhenRecent` say which clients have a bucket, and `EvictionNeverHurts` that no
 client is ever allowed less in total than with a bucket of its own that is never evicted.
 */
module RateLimiting {
  import opened TokenBuckets

  datatype Entry = Entry(key: string, bucket: Bucket)

  function IndexOf(entries: seq<Entry>, key: string): (i: nat)
    ensures i <= |entries|
    ensures i < |entries| ==> entries[i].key == key
    ensures forall j :: 0 <= j < i ==> entries[j].key != key
  {
    if entries == [] || entries[0].key == key then 0 else 1 + IndexOf(entries[1..], key)
  }

  function Newest<T>(entries: seq<T>, max: nat): seq<T> {
    if |entries| <= max then entries else entries[|entries| - max..]
  }

  /** The bucket a request is served from: the client's, or a new full one. */
  function BucketFor(entries: seq<Entry>, key: string, rate: Rate, now: real): Bucket {
    var i := IndexOf(entries, key);
    if i < |entries| then entries[i].bucket else Full(rate, now)
  }

  datatype Served = Served(entries: seq<Entry>, allowed: bool, wait: real)

  /** The client's entry moves to the end; a new one may push out the oldest. */
  function Serve(entries: seq<Entry>, key: string, rate: Rate, max: nat, now: real): Served {
    var i := IndexOf(entries, key);
    var (bucket, allowed) := Try(BucketFor(entries, key, rate, now), rate, now);
    var entry := Entry(key, bucket);
    Served(
      if i < |entries| then entries[..i] + entries[i + 1..] + [entry] else Newest(entries + [entry], max),
      allowed,
      if allowed then 0.0 else SecondsUntilToken(bucket, rate))
  }

  /** A key and its bucket object, as the ordered dictionary holds them. */
  datatype Item = Item(key: string, bucket: TokenBucket)

  function Position(items: seq<Item>, key: string): (i: nat)
    ensures i <= |items| && (i < |items| ==> items[i].key == key)
    ensures forall j :: 0 <= j < i ==> items[j].key != key
  {
    if items == [] || items[0].key == key then 0 else 1 + Position(items[1..], key)
  }

  ghost function Objects(items: seq<Item>): set<TokenBucket> {
    set i | 0 <= i < |items| :: items[i].bucket
  }

  /** Distinct keys, distinct objects, all at the limiter's rate. */
  ghost predicate WellFormed(items: seq<Item>, rate: Rate) {
    && (forall i, j :: 0 <= i < j < |items| ==> items[i].key != items[j].key && items[i].bucket != items[j].bucket)
    && (forall i :: 0 <= i < |items| ==> items[i].bucket.rate == rate)
  }

  ghost function Entries(items: seq<Item>): (entries: seq<Entry>)
    reads Objects(items)
    ensures |entries| == |items|
    ensures forall i :: 0 <= i < |items| ==> entries[i] == Entry(items[i].key, items[i].bucket.View())
  {
    assert forall i :: 0 <= i < |items| ==> items[i].bucket in Objects(items);
    seq(|items|, i requires 0 <= i < |items| reads Objects(items) requires items[i].bucket in Objects(items)
                   => Entry(items[i].key, items[i].bucket.View()))
  }

  lemma EntriesAppend(a: seq<Item>, b: seq<Item>)
    ensures Entries(a + b) == Entries(a) + Entries(b)
  {
  }

  lemma PositionIsIndexOf(items: seq<Item>, key: string)
    requires forall i, j :: 0 <= i < j < |items| ==> items[i].key != items[j].key
    ensures IndexOf(Entries(items), key) == Position(items, key)
  {
    var i, j := IndexOf(Entries(items), key), Position(items, key);
    if i < |items| { assert items[i].key == key; }
    if j < |items| { assert Entries(items)[j].key == key; }
  }

  lemma MovedIsWellFormed(items: seq<Item>, i: nat, rate: Rate)
    requires WellFormed(items, rate) && i < |items|
    ensures WellFormed(items[..i] + items[i + 1..] + [items[i]], rate)
  {
    var moved := items[..i] + items[i + 1..] + [items[i]];
    forall a | 0 <= a < |moved|
      ensures moved[a] == items[if a < i then a else if a < |items| - 1 then a + 1 else i]
    {
    }
  }

  lemma AddedIsWellFormed(items: seq<Item>, item: Item, max: nat, rate: Rate)
    requires WellFormed(items, rate) && item.bucket.rate == rate
    requires forall i :: 0 <= i < |items| ==> items[i].key != item.key && items[i].bucket != item.bucket
    ensures WellFormed(Newest(items + [item], max), rate)
  {
    var all := items + [item];
    assert forall a :: 0 <= a < |all| ==> all[a] == if a < |items| then items[a] else item;
    NewestIsWellFormed(all, max, rate);
  }

  lemma NewestIsWellFormed(all: seq<Item>, max: nat, rate: Rate)
    requires WellFormed(all, rate)
    ensures WellFormed(Newest(all, max), rate)
  {
    var newest := Newest(all, max);
    var from := |all| - |newest|;
    assert forall a :: 0 <= a < |newest| ==> newest[a] == all[from + a];
    forall a, b | 0 <= a < b < |newest|
      ensures newest[a].key != newest[b].key && newest[a].bucket != newest[b].bucket
    {
      assert newest[a] == all[from + a] && newest[b] == all[from + b];
    }
  }

  lemma EntriesOfSuffix(items: seq<Item>, from: nat)
    requires from <= |items|
    ensures Entries(items[from..]) == Entries(items)[from..]
  {
    var a, b := Entries(items[from..]), Entries(items)[from..];
    forall k | 0 <= k < |a| ensures a[k] == b[k] {
      assert items[from..][k] == items[from + k];
    }
  }

  lemma EntriesOfPrefix(items: seq<Item>, to: nat)
    requires to <= |items|
    ensures Entries(items[..to]) == Entries(items)[..to]
  {
  }

  lemma EntriesWithout(items: seq<Item>, i: nat)
    requires i < |items|
    ensures Entries(items[..i] + items[i + 1..]) == Entries(items)[..i] + Entries(items)[i + 1..]
  {
    EntriesAppend(items[..i], items[i + 1..]);
    EntriesOfPrefix(items, i);
    EntriesOfSuffix(items, i + 1);
  }

  /** The items before the one being served. */
  function Remaining(items: seq<Item>, key: string, max: nat): seq<Item> {
    var i := Position(items, key);
    if i < |items| then items[..i] + items[i + 1..] else Newest(items, if max == 0 then 0 else max - 1)
  }

  function RemainingEntries(entries: seq<Entry>, key: string, max: nat): seq<Entry> {
    var i := IndexOf(entries, key);
    if i < |entries| then entries[..i] + entries[i + 1..] else Newest(entries, if max == 0 then 0 else max - 1)
  }

  lemma EntriesOfRemaining(items: seq<Item>, key: string, max: nat)
    requires forall i, j :: 0 <= i < j < |items| ==> items[i].key != items[j].key
    ensures Entries(Remaining(items, key, max)) == RemainingEntries(Entries(items), key, max)
  {
    PositionIsIndexOf(items, key);
    var i := Position(items, key);
    if i < |items| {
      EntriesWithout(items, i);
    } else {
      var keep := if max == 0 then 0 else max - 1;
      EntriesOfSuffix(items, if |items| <= keep then 0 else |items| - keep);
    }
  }

  lemma NewestLast<T>(all: seq<T>, last: T, max: nat)
    ensures Newest(all + [last], max) == if max == 0 then [] else Newest(all, max - 1) + [last]
  {
  }

  lemma RemainingObjects(items: seq<Item>, key: string, max: nat)
    ensures Objects(Remaining(items, key, max)) <= Objects(items)
  {
    var rest := Remaining(items, key, max);
    assert forall k :: 0 <= k < |rest| ==> rest[k] in items;
  }

  lemma LastObject(rest: seq<Item>, item: Item)
    ensures Objects(rest + [item]) == Objects(rest) + {item.bucket}
  {
    var items := rest + [item];
    assert items[|rest|] == item;
    assert forall k :: 0 <= k < |rest| ==> items[k] == rest[k];
  }

  twostate lemma EntriesFramed(items: seq<Item>)
    requires forall i :: 0 <= i < |items| ==> unchanged(items[i].bucket)
    ensures old(Entries(items)) == Entries(items)
  {
  }

  lemma EntriesOfServed(rest: seq<Item>, item: Item)
    ensures Entries(rest + [item]) == Entries(rest) + [Entry(item.key, item.bucket.View())]
  {
    EntriesAppend(rest, [item]);
  }

  lemma ServeParts(entries: seq<Entry>, key: string, rate: Rate, max: nat, now: real)
    ensures Serve(entries, key, rate, max, now).entries
         == if IndexOf(entries, key) == |entries| && max == 0 then []
            else RemainingEntries(entries, key, max) + [Entry(key, Try(BucketFor(entries, key, rate, now), rate, now).0)]
  {
    NewestLast(entries, Entry(key, Try(BucketFor(entries, key, rate, now), rate, now).0), max);
  }

  lemma ServedAnswer(entries: seq<Entry>, key: string, rate: Rate, max: nat, now: real)
    ensures var served, tried := Serve(entries, key, rate, max, now), Try(BucketFor(entries, key, rate, now), rate, now);
            served.allowed == tried.1 && served.wait == (if served.allowed then 0.0 else SecondsUntilToken(tried.0, rate))
  {
  }

  /** Touching an entry and drawing from it is serving it. */
  lemma DrawnIsServed(entries: seq<Entry>, key: string, rate: Rate, max: nat, now: real,
                      touched: seq<Entry>, drawn: seq<Entry>)
    requires touched == if IndexOf(entries, key) == |entries| && max == 0 then []
                        else RemainingEntries(entries, key, max) + [Entry(key, BucketFor(entries, key, rate, now))]
    requires drawn == if touched == [] then []
                      else touched[..|touched| - 1] + [Entry(key, Try(BucketFor(entries, key, rate, now), rate, now).0)]
    ensures drawn == Serve(entries, key, rate, max, now).entries
  {
    ServeParts(entries, key, rate, max, now);
    if touched != [] {
      assert touched[..|touched| - 1] == RemainingEntries(entries, key, max);
    }
  }

  class RateLimiter {
    const rate: Rate
    const maxClients: nat
    var items: seq<Item>                // least recently used first

    ghost predicate Valid()
      reads this
    {
      WellFormed(items, rate)
    }

    ghost function View(): seq<Entry>
      reads this, Objects(items)
    {
      Entries(items)
    }

    constructor (rate: Rate, maxClients: nat)
      ensures Valid() && View() == [] && this.rate == rate && this.maxClients == maxClients
    {
      this.rate := rate;
      this.maxClients := maxClients;
      items := [];
    }

    /** Pops the oldest clients while there are too many. */
    method Evict()
      modifies this`items
      ensures items == Newest(old(items), maxClients)
    {
      ghost var all := items;
      while |items| > maxClients
        invariant |items| <= |all| && items == all[|all| - |items|..]
        invariant |items| >= if |all| <= maxClients then |all| else maxClients
      {
        items := items[1..];
      }
    }

    /** Puts the client's bucket at the end, a new one if it has none. */
    method Touch(key: string, now: real) returns (bucket: TokenBucket)
      requires Valid()
      modifies this`items
      ensures Valid() && bucket.rate == rate
      ensures Position(old(items), key) < |old(items)| ==> bucket == old(items)[Position(old(items), key)].bucket
      ensures Position(old(items), key) == |old(items)| ==> fresh(bucket) && bucket.View() == Full(rate, now)
      ensures items == if Position(old(items), key) == |old(items)| && maxClients == 0 then []
                       else Remaining(old(items), key, maxClients) + [Item(key, bucket)]
    {
      var i := Position(items, key);
      if i == |items| {
        bucket := new TokenBucket(rate, now);
        AddedIsWellFormed(items, Item(key, bucket), maxClients, rate);
        NewestLast(items, Item(key, bucket), maxClients);
        items := items + [Item(key, bucket)];
        Evict();
      } else {
        bucket := items[i].bucket;
        MovedIsWellFormed(items, i, rate);
        assert items[i] == Item(key, bucket);
        items := items[..i] + items[i + 1..] + [Item(key, bucket)];
      }
    }

    /** Draws from the bucket just touched; the other buckets stay as they are. */
    method Draw(bucket: TokenBucket, now: real) returns (allowed: bool)
      requires Valid() && (items != [] ==> items[|items| - 1].bucket == bucket)
      modifies bucket
      ensures (bucket.View(), allowed) == Try(old(bucket.View()), bucket.rate, now)
      ensures View() == if items == [] then []
                        else old(View())[..|items| - 1] + [Entry(items[|items| - 1].key, bucket.View())]
    {
      label before:
      allowed := bucket.TryAcquire(now);
      if items != [] {
        ghost var rest := items[..|items| - 1];
        EntriesFramed@before(rest);
        assert items == rest + [items[|items| - 1]];
        EntriesOfServed(rest, items[|items| - 1]);
      }
    }

    /** Touch, seen on entries. */
    method TouchEntry(key: string, now: real) returns (bucket: TokenBucket)
      requires Valid()
      modifies this`items
      ensures Valid() && bucket.rate == rate && (items != [] ==> items[|items| - 1] == Item(key, bucket))
      ensures bucket in old(Objects(items)) || fresh(bucket)
      ensures Objects(items) <= old(Objects(items)) + {bucket}
      ensures bucket.View() == BucketFor(old(View()), key, rate, now)
      ensures View() == if IndexOf(old(View()), key) == |old(View())| && maxClients == 0 then []
                        else RemainingEntries(old(View()), key, maxClients) + [Entry(key, bucket.View())]
    {
      ghost var all, rest := items, Remaining(items, key, maxClients);
      ghost var others := Entries(rest);
      PositionIsIndexOf(items, key);
      EntriesOfRemaining(items, key, maxClients);
      label before:
      bucket := Touch(key, now);
      assert Objects(items) <= Objects(all) + {bucket} by {
        RemainingObjects(all, key, maxClients);
        LastObject(rest, Item(key, bucket));
      }
      assert items != [] ==> Entries(items) == others + [Entry(key, bucket.View())] by {
        EntriesFramed@before(rest);
        EntriesOfServed(rest, Item(key, bucket));
      }
    }

    /** Touches the client's bucket and draws from it. */
    method Take(key: string, now: real) returns (bucket: TokenBucket, allowed: bool)
      requires Valid()
      modifies this, Objects(items)
      ensures Valid() && bucket.rate == rate && fresh(Objects(items) - old(Objects(items)))
      ensures View() == Serve(old(View()), key, rate, maxClients, now).entries
      ensures (bucket.View(), allowed) == Try(BucketFor(old(View()), key, rate, now), rate, now)
    {
      ghost var entries := View();
      bucket := TouchEntry(key, now);
      ghost var touched := View();
      allowed := Draw(bucket, now);
      DrawnIsServed(entries, key, rate, maxClients, now, touched, View());
    }

    method TryAcquire(key: string, now: real) returns (allowed: bool, wait: real)
      requires Valid()
      modifies this, Objects(items)
      ensures Valid() && fresh(Objects(items) - old(Objects(items)))
      ensures var served := Serve(old(View()), key, rate, maxClients, now);
              View() == served.entries && allowed == served.allowed && wait == served.wait
      ensures allowed ==> wait == 0.0
    {
      ghost var entries := View();
      var bucket;
      bucket, allowed := Take(key, now);
      wait := 0.0;
      if !allowed { wait := bucket.Wait(); }
      ServedAnswer(entries, key, rate, maxClients, now);
    }

    method Reset()
      modifies this`items
      ensures Valid() && View() == []
    {
      items := [];
    }
  }
}
