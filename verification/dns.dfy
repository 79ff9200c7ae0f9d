/** The DNS benchmark's fallback name service: records with a time to live, a
    cache keyed by lower-cased name and record type that counts hits, misses
    and expirations, and a resolver that asks the cache first and a fixed
    table second. The clock is the explicit parameter `now`; the random time
    to live chosen on a table hit and the random A-record addresses of the
    table are parameters. */
module Dns {
  import opened Common

  const A_RECORD: int := 1
  const NS_RECORD: int := 2
  const CNAME_RECORD: int := 5
  const SOA_RECORD: int := 6
  const PTR_RECORD: int := 12
  const MX_RECORD: int := 15
  const TXT_RECORD: int := 16
  const AAAA_RECORD: int := 28

  /** `MockDNSRecord`; `timestamp` is the clock reading at construction. */
  datatype Record = Record(name: string, rtype: int, data: string, ttl: int, timestamp: int)

  /** `is_expired`: strictly older than its time to live. */
  predicate IsExpired(r: Record, now: int) {
    now - r.timestamp > r.ttl
  }

  type Key = (string, int)

  /** The cache key `(name.lower(), record_type)`. */
  function KeyOf(name: string, rtype: int): Key {
    (Lower(name), rtype)
  }

  datatype Stats = Stats(hits: nat, misses: nat, expired: nat)

  /** The number of lookups and purges the counters account for. */
  function Total(s: Stats): nat {
    s.hits + s.misses + s.expired
  }

  datatype Cache = Cache(entries: map<Key, Record>, stats: Stats)

  const EmptyCache: Cache := Cache(map[], Stats(0, 0, 0))

  /** `MockDNSCache.get`: a live entry is a hit; an expired one is deleted and
      counted as expired; an absent one is a miss. */
  function Get(c: Cache, name: string, rtype: int, now: int): (r: (Option<Record>, Cache))
    ensures Total(r.1.stats) == Total(c.stats) + 1
    ensures r.1.stats.hits >= c.stats.hits && r.1.stats.misses >= c.stats.misses
    ensures r.1.stats.expired >= c.stats.expired
    ensures r.0.Some? <==> KeyOf(name, rtype) in c.entries && !IsExpired(c.entries[KeyOf(name, rtype)], now)
    ensures r.0.Some? ==> r.0.value == c.entries[KeyOf(name, rtype)] && r.1.entries == c.entries
    ensures r.0.None? ==> r.1.entries == c.entries - {KeyOf(name, rtype)}
    ensures r.1.stats.expired > c.stats.expired <==> KeyOf(name, rtype) in c.entries && IsExpired(c.entries[KeyOf(name, rtype)], now)
  {
    var key := KeyOf(name, rtype);
    if key in c.entries then
      var record := c.entries[key];
      if IsExpired(record, now) then
        (None, Cache(c.entries - {key}, c.stats.(expired := c.stats.expired + 1)))
      else
        (Some(record), c.(stats := c.stats.(hits := c.stats.hits + 1)))
    else
      (None, c.(stats := c.stats.(misses := c.stats.misses + 1)))
  }

  /** `MockDNSCache.put`: stores a new record stamped `now`, replacing any entry
      under the same key. */
  function Put(c: Cache, name: string, rtype: int, data: string, ttl: int, now: int): (r: Cache)
    ensures r.stats == c.stats
    ensures KeyOf(name, rtype) in r.entries
    ensures r.entries[KeyOf(name, rtype)] == Record(name, rtype, data, ttl, now)
    ensures forall k :: k != KeyOf(name, rtype) ==> (k in r.entries <==> k in c.entries)
    ensures forall k :: k != KeyOf(name, rtype) && k in c.entries ==> r.entries[k] == c.entries[k]
  {
    c.(entries := c.entries[KeyOf(name, rtype) := Record(name, rtype, data, ttl, now)])
  }

  /** The keys whose records have expired by `now`. */
  function ExpiredKeys(c: Cache, now: int): set<Key> {
    set k | k in c.entries && IsExpired(c.entries[k], now)
  }

  /** `clear_expired`: deletes every expired entry and counts each deletion. */
  function ClearExpired(c: Cache, now: int): (r: Cache)
    ensures forall k :: k in r.entries <==> k in c.entries && !IsExpired(c.entries[k], now)
    ensures forall k :: k in r.entries ==> r.entries[k] == c.entries[k]
    ensures r.stats.expired == c.stats.expired + |ExpiredKeys(c, now)|
    ensures r.stats.hits == c.stats.hits && r.stats.misses == c.stats.misses
  {
    var gone := ExpiredKeys(c, now);
    Cache(c.entries - gone, c.stats.(expired := c.stats.expired + |gone|))
  }

  /** `get_stats`: a snapshot of the counters. Values cannot be aliased, so a
      snapshot is unaffected by later operations on the cache. */
  function GetStats(c: Cache): (s: Stats)
    ensures s.hits == c.stats.hits && s.misses == c.stats.misses && s.expired == c.stats.expired
    ensures Total(s) == Total(c.stats)
  {
    c.stats
  }

  // ---------------------------------------------------------------------------
  // The resolver
  // ---------------------------------------------------------------------------

  /** `MockDNSResolver`: its cache, its fixed table and the query counter. */
  datatype Resolver = Resolver(cache: Cache, db: map<Key, string>, queryCount: nat)

  /** `resolve`: counts the query, answers from the cache when it can, and
      otherwise looks the lower-cased key up in the table, caching a hit for
      `ttl` seconds and returning a new record for it. */
  function Resolve(rs: Resolver, name: string, rtype: int, now: int, ttl: int): (r: (Option<Record>, Resolver))
    ensures r.1.queryCount == rs.queryCount + 1
    ensures r.1.db == rs.db
    ensures r.0.Some? <==> (KeyOf(name, rtype) in rs.cache.entries && !IsExpired(rs.cache.entries[KeyOf(name, rtype)], now))
                           || KeyOf(name, rtype) in rs.db
  {
    var (cached, c1) := Get(rs.cache, name, rtype, now);
    var rs1 := rs.(cache := c1, queryCount := rs.queryCount + 1);
    if cached.Some? then (cached, rs1)
    else
      var key := KeyOf(name, rtype);
      if key in rs.db then
        var data := rs.db[key];
        (Some(Record(name, rtype, data, ttl, now)), rs1.(cache := Put(c1, name, rtype, data, ttl, now)))
      else (None, rs1)
  }

  // ---------------------------------------------------------------------------
  // The fixed table
  // ---------------------------------------------------------------------------

  const Domains: seq<string> := [
    "google.com", "facebook.com", "amazon.com", "microsoft.com",
    "apple.com", "twitter.com", "linkedin.com", "github.com",
    "stackoverflow.com", "reddit.com", "wikipedia.org", "youtube.com"]

  const Subdomains: seq<string> := ["www", "mail", "api", "cdn"]

  /** A, MX, TXT and NS entries for each domain; `address` supplies the random
      dotted-quad of an A record. */
  function DomainEntries(domains: seq<string>, address: string -> string): (db: map<Key, string>)
    decreases |domains|
  {
    if |domains| == 0 then map[]
    else
      var d := domains[|domains| - 1];
      DomainEntries(domains[..|domains| - 1], address)
        [(d, A_RECORD) := address(d)]
        [(d, MX_RECORD) := "mail." + d]
        [(d, TXT_RECORD) := "v=spf1 include:_spf." + d + " ~all"]
        [(d, NS_RECORD) := "ns1." + d]
  }

  /** An A record for `sub.domain` for every listed subdomain of every domain. */
  function SubdomainEntries(domains: seq<string>, subs: seq<string>, address: string -> string): (db: map<Key, string>)
    decreases |domains|
  {
    if |domains| == 0 then map[]
    else
      var d := domains[|domains| - 1];
      SubdomainsOf(SubdomainEntries(domains[..|domains| - 1], subs, address), d, subs, address)
  }

  function SubdomainsOf(db: map<Key, string>, d: string, subs: seq<string>, address: string -> string): map<Key, string>
    decreases |subs|
  {
    if |subs| == 0 then db
    else
      var name := subs[0] + "." + d;
      SubdomainsOf(db[(name, A_RECORD) := address(name)], d, subs[1..], address)
  }

  /** `_create_fake_dns_db`: the per-domain entries, then A records for the
      subdomains of the first five domains. */
  function FakeDnsDb(address: string -> string): map<Key, string> {
    var base := DomainEntries(Domains, address);
    var subs := SubdomainEntries(Domains[..5], Subdomains, address);
    base + subs
  }

  // ---------------------------------------------------------------------------
  // Properties
  // ---------------------------------------------------------------------------

  /** Lookups ignore the case of ASCII letters in the name. */
  lemma {:induction false} GetCaseInsensitive(c: Cache, n1: string, n2: string, rtype: int, now: int)
    requires Lower(n1) == Lower(n2)
    ensures Get(c, n1, rtype, now) == Get(c, n2, rtype, now)
  {
  }

  /** A record put into the cache is found under any capitalisation of its name
      for exactly `ttl` seconds: at age `ttl` it is still a hit, one second later
      it has expired and is deleted. */
  lemma {:induction false} PutThenGet(c: Cache, name: string, query: string, rtype: int, data: string, ttl: int, at: int, now: int)
    requires Lower(query) == Lower(name)
    ensures var r := Get(Put(c, name, rtype, data, ttl, at), query, rtype, now);
      (now - at <= ttl ==> r.0 == Some(Record(name, rtype, data, ttl, at)) && r.1.stats.hits == c.stats.hits + 1)
      && (now - at > ttl ==>
            r.0.None? && r.1.stats.expired == c.stats.expired + 1 && KeyOf(name, rtype) !in r.1.entries)
  {
    assert KeyOf(query, rtype) == KeyOf(name, rtype);
  }

  /** A lookup leaves every other key's entry as it was. */
  lemma {:induction false} GetKeepsOthers(c: Cache, name: string, rtype: int, now: int, k: Key)
    requires k != KeyOf(name, rtype)
    ensures var r := Get(c, name, rtype, now).1;
      (k in r.entries <==> k in c.entries) && (k in c.entries ==> r.entries[k] == c.entries[k])
  {
  }

  /** A second lookup of the same key at the same time misses when the first
      did not hit: an expired entry is counted as expired once, then as a miss. */
  lemma {:induction false} GetAfterExpired(c: Cache, name: string, rtype: int, now: int)
    requires KeyOf(name, rtype) in c.entries && IsExpired(c.entries[KeyOf(name, rtype)], now)
    ensures var first := Get(c, name, rtype, now);
      var second := Get(first.1, name, rtype, now);
      second.0.None? && second.1.stats.misses == c.stats.misses + 1
      && second.1.stats.expired == c.stats.expired + 1 && second.1.stats.hits == c.stats.hits
  {
  }

  /** A sequence of lookups, as the benchmark issues them. */
  function GetAll(c: Cache, queries: seq<(string, int)>, now: int): Cache
    decreases |queries|
  {
    if |queries| == 0 then c
    else GetAll(Get(c, queries[0].0, queries[0].1, now).1, queries[1..], now)
  }

  /** The three counters partition the lookups: each lookup adds one to exactly
      one of them, so their sum grows by the number of lookups. */
  lemma {:induction false} CountersPartitionLookups(c: Cache, queries: seq<(string, int)>, now: int)
    ensures Total(GetAll(c, queries, now).stats) == Total(c.stats) + |queries|
    decreases |queries|
  {
    if |queries| > 0 {
      CountersPartitionLookups(Get(c, queries[0].0, queries[0].1, now).1, queries[1..], now);
    }
  }

  /** Purging deletes exactly the counted entries: what remains plus what was
      counted is what there was. */
  lemma {:induction false} ClearExpiredSize(c: Cache, now: int)
    ensures var r := ClearExpired(c, now);
      |r.entries| + (r.stats.expired - c.stats.expired) == |c.entries|
  {
    var r := ClearExpired(c, now);
    var gone := ExpiredKeys(c, now);
    assert r.entries.Keys == c.entries.Keys - gone;
    assert c.entries.Keys == r.entries.Keys + gone;
    assert r.entries.Keys !! gone;
  }

  /** After a purge, a lookup at the same time never finds an expired entry, and
      a second purge changes nothing. */
  lemma {:induction false} ClearExpiredThenGet(c: Cache, name: string, rtype: int, now: int)
    ensures var r := ClearExpired(c, now);
      Get(r, name, rtype, now).1.stats.expired == r.stats.expired
      && ClearExpired(r, now) == r
  {
    var r := ClearExpired(c, now);
    assert ExpiredKeys(r, now) == {};
    assert r.entries - {} == r.entries;
  }

  /** A cache hit answers without the table: the answer and the cache are the
      same whatever the table holds. */
  lemma {:induction false} ResolveCacheFirst(rs: Resolver, db: map<Key, string>, name: string, rtype: int, now: int, ttl: int)
    requires KeyOf(name, rtype) in rs.cache.entries && !IsExpired(rs.cache.entries[KeyOf(name, rtype)], now)
    ensures var r := Resolve(rs, name, rtype, now, ttl);
      var other := Resolve(rs.(db := db), name, rtype, now, ttl);
      r.0 == other.0 == Some(rs.cache.entries[KeyOf(name, rtype)]) && r.1.cache == other.1.cache
  {
  }

  /** On a cache miss the answer is the table's data, cached for `ttl`; a name
      missing from the table yields nothing and caches nothing. */
  lemma {:induction false} ResolveMiss(rs: Resolver, name: string, rtype: int, now: int, ttl: int)
    requires KeyOf(name, rtype) !in rs.cache.entries || IsExpired(rs.cache.entries[KeyOf(name, rtype)], now)
    ensures var r := Resolve(rs, name, rtype, now, ttl);
      var key := KeyOf(name, rtype);
      (key in rs.db ==>
         r.0 == Some(Record(name, rtype, rs.db[key], ttl, now)) && key in r.1.cache.entries && r.1.cache.entries[key] == r.0.value)
      && (key !in rs.db ==> r.0.None? && key !in r.1.cache.entries)
  {
  }

  /** Resolving a name the table knows twice in a row at the same time: the
      second query is answered by the cache with the record the first stored. */
  lemma {:induction false} ResolveTwice(rs: Resolver, name: string, rtype: int, now: int, ttl: int, ttl2: int)
    requires KeyOf(name, rtype) in rs.db && ttl >= 0
    ensures var first := Resolve(rs, name, rtype, now, ttl);
      var second := Resolve(first.1, name, rtype, now, ttl2);
      second.0 == first.0 && second.1.queryCount == rs.queryCount + 2
      && second.1.cache.stats.hits >= 1
  {
    var key := KeyOf(name, rtype);
    var first := Resolve(rs, name, rtype, now, ttl);
    if !(key in rs.cache.entries && !IsExpired(rs.cache.entries[key], now)) {
      ResolveMiss(rs, name, rtype, now, ttl);
    }
    assert key in first.1.cache.entries && !IsExpired(first.1.cache.entries[key], now);
  }

  /** Each listed domain has its mail, text and name-server entries in the table. */
  lemma {:induction false} DomainEntriesHas(domains: seq<string>, address: string -> string, d: string)
    requires d in domains
    ensures var db := DomainEntries(domains, address);
      (d, A_RECORD) in db && db[(d, A_RECORD)] == address(d)
      && (d, MX_RECORD) in db && db[(d, MX_RECORD)] == "mail." + d
      && (d, TXT_RECORD) in db && db[(d, TXT_RECORD)] == "v=spf1 include:_spf." + d + " ~all"
      && (d, NS_RECORD) in db && db[(d, NS_RECORD)] == "ns1." + d
    decreases |domains|
  {
    var last := domains[|domains| - 1];
    if d != last {
      var init := domains[..|domains| - 1];
      assert d in init by {
        var i :| 0 <= i < |domains| && domains[i] == d;
        assert init[i] == d;
      }
      DomainEntriesHas(init, address, d);
    }
  }

  /** Subdomain entries are all A records. */
  lemma {:induction false} SubdomainsOfOnlyA(db: map<Key, string>, d: string, subs: seq<string>, address: string -> string, k: Key)
    requires k.1 != A_RECORD
    ensures (k in SubdomainsOf(db, d, subs, address) <==> k in db)
    ensures k in db ==> SubdomainsOf(db, d, subs, address)[k] == db[k]
    decreases |subs|
  {
    if |subs| > 0 {
      var name := subs[0] + "." + d;
      SubdomainsOfOnlyA(db[(name, A_RECORD) := address(name)], d, subs[1..], address, k);
    }
  }

  lemma {:induction false} SubdomainEntriesOnlyA(domains: seq<string>, subs: seq<string>, address: string -> string, k: Key)
    requires k.1 != A_RECORD
    ensures k !in SubdomainEntries(domains, subs, address)
    decreases |domains|
  {
    if |domains| > 0 {
      var d := domains[|domains| - 1];
      SubdomainEntriesOnlyA(domains[..|domains| - 1], subs, address, k);
      SubdomainsOfOnlyA(SubdomainEntries(domains[..|domains| - 1], subs, address), d, subs, address, k);
    }
  }

  /** The table maps each of the twelve domains to `mail.<domain>` for MX,
      the SPF text for TXT and `ns1.<domain>` for NS. */
  lemma {:induction false} FakeDnsDbRecords(address: string -> string, d: string)
    requires d in Domains
    ensures var db := FakeDnsDb(address);
      (d, MX_RECORD) in db && db[(d, MX_RECORD)] == "mail." + d
      && (d, TXT_RECORD) in db && db[(d, TXT_RECORD)] == "v=spf1 include:_spf." + d + " ~all"
      && (d, NS_RECORD) in db && db[(d, NS_RECORD)] == "ns1." + d
  {
    DomainEntriesHas(Domains, address, d);
    SubdomainEntriesOnlyA(Domains[..5], Subdomains, address, (d, MX_RECORD));
    SubdomainEntriesOnlyA(Domains[..5], Subdomains, address, (d, TXT_RECORD));
    SubdomainEntriesOnlyA(Domains[..5], Subdomains, address, (d, NS_RECORD));
  }
}
