/** The per-minute rate limiter, whose buckets are keyed by text and pruned, against an unpruned ledger. */
module RateLimiter {
  import Decimal

  const PRUNE_ABOVE := 10000

  /** The bucket key of an address and a minute. */
  function BucketKey(ip: string, minute: nat): string { ip + ":" + Decimal.Text(minute) }

  /** A key is the address, a colon, and the minute in decimal. */
  lemma KeyMeans(ip: string, minute: nat)
    ensures var k, n := BucketKey(ip, minute), |ip|;
            |k| > n + 1 && k[..n] == ip && k[n] == ':' && Decimal.Value(k[n + 1..]) == minute
  {
    Decimal.ValueOfText(minute);
    assert BucketKey(ip, minute)[|ip| + 1..] == Decimal.Text(minute);
  }

  /** In a key the last colon is the one before the minute. */
  lemma LastColon(ip: string, minute: nat, i: nat)
    requires i < |BucketKey(ip, minute)|
    ensures i == |ip| ==> BucketKey(ip, minute)[i] == ':'
    ensures i > |ip| ==> BucketKey(ip, minute)[i] != ':'
  {
  }

  /** The key determines both parts, even for addresses that contain colons themselves. */
  lemma KeyInjective(ip: string, m: nat, ip': string, m': nat)
    requires BucketKey(ip, m) == BucketKey(ip', m')
    ensures ip == ip' && m == m'
  {
    var k := BucketKey(ip, m);
    LastColon(ip, m, |ip|);
    LastColon(ip, m, |ip'|);
    LastColon(ip', m', |ip|);
    LastColon(ip', m', |ip'|);
    assert |ip| == |ip'|;
    assert ip == k[..|ip|] && ip' == k[..|ip'|];
    assert Decimal.Text(m) == k[|ip| + 1..] && Decimal.Text(m') == k[|ip'| + 1..];
    Decimal.TextInjective(m, m');
  }

  datatype Hit = Hit(ip: string, minute: nat)

  /** How often the address was seen in the minute, over the whole history. */
  function Seen(history: seq<Hit>, h: Hit): nat { multiset(history)[h] }

  /** A bucket, shared by the requests of one address in one minute for as long as any of them holds it. */
  class Bucket {
    var count: nat
    const minute: nat
    ghost const hit: Hit    // what it counts
    ghost const key: string // where it was put

    constructor (ip: string, minute: nat, key: string)
      ensures count == 0 && this.minute == minute && hit == Hit(ip, minute) && this.key == key
    {
      this.count, this.minute, this.hit, this.key := 0, minute, Hit(ip, minute), key;
    }
  }

  /** Above the limit of entries the buckets more than two minutes old are dropped from the dict. */
  function Pruned(buckets: map<string, Bucket>, minute: nat): map<string, Bucket> {
    if |buckets| > PRUNE_ABOVE then map k | k in buckets && buckets[k].minute + 2 >= minute :: buckets[k]
    else buckets
  }

  /** Up to 10000 entries stay; above, exactly those of the current minute, the two before it and later ones. */
  lemma PrunedMeans(buckets: map<string, Bucket>, minute: nat, key: string)
    ensures key in Pruned(buckets, minute) <==>
            key in buckets && (|buckets| <= 10000 || minute - buckets[key].minute <= 2)
    ensures key in Pruned(buckets, minute) ==> Pruned(buckets, minute)[key] == buckets[key]
  {
  }

  class Limiter {
    const requestsPerMinute: int
    const burst: int
    var ipBuckets: map<string, Bucket>
    ghost var history: seq<Hit>
    ghost var minute: nat
    ghost var made: map<Hit, Bucket>  // every bucket ever made, pruned ones included

    /** The bucket of each hit ever seen, pruned or not, counts exactly that hit. */
    ghost predicate Counting()
      reads this, made.Values
    {
      && (forall h :: Seen(history, h) > 0 ==> h in made)
      && forall h :: h in made ==> made[h].hit == h && made[h].count == Seen(history, h) > 0
    }

    ghost predicate Labelled()
      reads `made
    {
      forall h :: h in made ==> made[h].minute == h.minute && made[h].key == BucketKey(h.ip, h.minute)
    }

    /** The dict holds such buckets, and none of a minute not yet past is missing. */
    ghost predicate Stored(since: nat)
      reads `made, `ipBuckets
    {
      && (forall k :: k in ipBuckets ==>
            ipBuckets[k].key == k && ipBuckets[k].hit in made && made[ipBuckets[k].hit] == ipBuckets[k])
      && forall h :: h in made && h.minute >= since ==>
           made[h].key in ipBuckets && ipBuckets[made[h].key] == made[h]
    }

    ghost predicate Valid()
      reads this, made.Values
    {
      Counting() && Labelled() && Stored(minute)
    }

    constructor (requestsPerMinute: int, burst: int)
      ensures Valid() && history == [] && minute == 0 && ipBuckets == map[] && made == map[]
      ensures this.requestsPerMinute == requestsPerMinute && this.burst == burst
    {
      this.requestsPerMinute, this.burst := requestsPerMinute, burst;
      ipBuckets, history, minute, made := map[], [], 0, map[];
    }

    /**
      A request at time `now` (seconds): it is forwarded exactly when fewer than the limit came from its
      address in its minute before it, whatever was pruned.  A forwarded request keeps its bucket.
     */
    method Dispatch(ip: string, now: real) returns (forwarded: bool, bucket: Bucket)
      requires Valid() && now >= 0.0 && minute <= (now / 60.0).Floor
      modifies this, made.Values
      ensures Valid() && minute == (now / 60.0).Floor
      ensures history == old(history) + [Hit(ip, minute)]
      ensures forwarded <==> Seen(old(history), Hit(ip, minute)) < requestsPerMinute + burst
      ensures Hit(ip, minute) in made && bucket == made[Hit(ip, minute)]
      ensures ipBuckets == Pruned(old(ipBuckets), minute)[BucketKey(ip, minute) := bucket]
      ensures forall h :: h in old(made) ==> h in made && made[h] == old(made)[h]
    {
      bucket := CountRequest(ip, (now / 60.0).Floor);
      forwarded := bucket.count <= requestsPerMinute + burst;
    }

    /**
      The reply to a forwarded request, any number of other requests later: the remaining count it reports
      takes off all requests of its address in its minute up to now, and stays at zero below that.
     */
    method Reply(bucket: Bucket, ghost h: Hit) returns (remaining: int)
      requires Valid() && h in made && bucket == made[h]
      ensures remaining == var left := requestsPerMinute + burst - Seen(history, h); if left > 0 then left else 0
    {
      var left := requestsPerMinute + burst - bucket.count;
      remaining := if left > 0 then left else 0;
    }

    /** The bucket of the request, looked up or made after pruning, with the request counted. */
    method CountRequest(ip: string, current: nat) returns (bucket: Bucket)
      requires Valid() && minute <= current
      modifies this, made.Values
      ensures Valid() && minute == current
      ensures history == old(history) + [Hit(ip, current)]
      ensures made == old(made)[Hit(ip, current) := bucket]
      ensures Hit(ip, current) in old(made) ==> bucket == old(made)[Hit(ip, current)]
      ensures ipBuckets == Pruned(old(ipBuckets), current)[BucketKey(ip, current) := bucket]
    {
      Prune(current);
      bucket := CountUnder(ip, current);
    }

    method CountUnder(ip: string, current: nat) returns (bucket: Bucket)
      requires Valid() && minute == current
      modifies `ipBuckets, `made, `history, made.Values
      ensures Valid()
      ensures history == old(history) + [Hit(ip, current)]
      ensures made == old(made)[Hit(ip, current) := bucket]
      ensures Hit(ip, current) in old(made) ==> bucket == old(made)[Hit(ip, current)]
      ensures ipBuckets == old(ipBuckets)[BucketKey(ip, current) := bucket]
    {
      bucket := BucketFor(ip, current);
      Increment(bucket, Hit(ip, current));
    }

    /** Pruning drops no bucket of the current minute or a later one. */
    method Prune(current: nat)
      requires Labelled() && Stored(minute) && minute <= current
      modifies `ipBuckets, `minute
      ensures Labelled() && Stored(minute) && minute == current
      ensures ipBuckets == Pruned(old(ipBuckets), current)
    {
      minute := current;
      if |ipBuckets| > PRUNE_ABOVE {
        ipBuckets := map k | k in ipBuckets && ipBuckets[k].minute + 2 >= current :: ipBuckets[k];
      }
    }

    /** The bucket under the request's key, or a new empty one put there. */
    method BucketFor(ip: string, current: nat) returns (bucket: Bucket)
      requires Labelled() && Stored(minute) && current == minute
      modifies `ipBuckets, `made
      ensures Labelled() && Stored(minute)
      ensures made == old(made)[Hit(ip, current) := bucket]
      ensures if Hit(ip, current) in old(made) then bucket == old(made)[Hit(ip, current)]
              else fresh(bucket) && bucket.count == 0
      ensures bucket.hit == Hit(ip, current) && ipBuckets == old(ipBuckets)[BucketKey(ip, current) := bucket]
    {
      var key := BucketKey(ip, current);
      if key in ipBuckets {
        bucket := ipBuckets[key];
        KeyInjective(bucket.hit.ip, bucket.hit.minute, ip, current);
      } else {
        bucket := new Bucket(ip, current, key);
        made := made[Hit(ip, current) := bucket];
        ipBuckets := ipBuckets[key := bucket];
      }
    }

    method Increment(bucket: Bucket, ghost h: Hit)
      requires h in made && bucket == made[h] && bucket.hit == h && bucket.count == Seen(history, h)
      requires forall g :: Seen(history, g) > 0 ==> g in made
      requires forall g :: g in made && g != h ==> made[g].hit == g && made[g].count == Seen(history, g) > 0
      modifies bucket, `history
      ensures Counting() && history == old(history) + [h]
    {
      assert forall g :: g in made && g != h ==> made[g] != bucket;
      bucket.count := bucket.count + 1;
      history := history + [h];
    }
  }

  /** Whatever was pruned: for a minute not yet past, the dict holds the count of the unpruned ledger. */
  lemma RequestAgrees(l: Limiter, h: Hit)
    requires l.Valid() && h.minute >= l.minute
    ensures var key := BucketKey(h.ip, h.minute);
            Seen(l.history, h) == if key in l.ipBuckets then l.ipBuckets[key].count else 0
  {
    var key := BucketKey(h.ip, h.minute);
    if key in l.ipBuckets {
      var b := l.ipBuckets[key];
      KeyInjective(b.hit.ip, b.hit.minute, h.ip, h.minute);
    }
  }

  // ---- over a whole history ----------------------------------------------

  function Forwards(history: seq<Hit>, h: Hit, limit: int): nat {
    if history == [] then 0
    else
      var n := |history| - 1;
      Forwards(history[..n], h, limit) + if history[n] == h && Seen(history[..n], h) < limit then 1 else 0
  }

  /** Of the requests of an address in a minute, exactly the first `limit` are forwarded. */
  lemma {:induction false} ExactlyTheFirst(history: seq<Hit>, h: Hit, limit: int)
    ensures Forwards(history, h, limit) ==
            if limit < 0 then 0 else if Seen(history, h) < limit then Seen(history, h) else limit
  {
    if history != [] {
      var n := |history| - 1;
      ExactlyTheFirst(history[..n], h, limit);
      assert history == history[..n] + [history[n]];
    }
  }
}
