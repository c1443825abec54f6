/**
 RateLimitMiddleware: many clients and paths sharing one cache.

 The cache is a map from key strings to entries; a key's counter is stored under a 40 character digest
 of the client address and the path, its block flag under the same key with ":blocked" added.
 */
module Middleware {
  import opened Common
  import opened PyStrings
  import opened RateLimit
  import opened LimiterLaw

  type Cache = map<string, Entry>

  const RULES: seq<(string, Rule)> := [
    ("/api/v1/auth/token/", Rule(5, 60.0)),
    ("/api/v1/auth/register/", Rule(3, 300.0)),
    ("/api/v1/voice/", Rule(10, 60.0))
  ]

  function MatchRule(path: string): Option<Rule> {
    MatchFirst(RULES, path)
  }

  function MatchFirst(rules: seq<(string, Rule)>, path: string): Option<Rule> {
    if rules == [] then None
    else if rules[0].0 <= path then Some(rules[0].1)
    else MatchFirst(rules[1..], path)
  }

  /** A path is limited exactly when it has a configured prefix, and no path has two of them. */
  lemma MatchRuleUnique(path: string)
    ensures forall i | 0 <= i < |RULES| :: RULES[i].0 <= path <==> MatchRule(path) == Some(RULES[i].1)
    ensures MatchRule(path).Some? ==> ValidRule(MatchRule(path).value) && MatchRule(path).value.limit >= 2
    ensures MatchRule(path).Some? ==> path != [] && path[0] == '/'
  {
    MatchFirstStep(RULES, path);
    assert RULES[1..][1..] == RULES[2..] && RULES[2..][1..] == [];
    MatchFirstStep(RULES[1..], path);
    MatchFirstStep(RULES[2..], path);
    assert RULES[0].0[8] == 'a' && RULES[1].0[8] == 'a' && RULES[2].0[8] == 'v';
    assert RULES[0].0[13] == 't' && RULES[1].0[13] == 'r';
  }

  lemma MatchFirstStep(rules: seq<(string, Rule)>, path: string)
    requires rules != []
    ensures MatchFirst(rules, path) == if rules[0].0 <= path then Some(rules[0].1) else MatchFirst(rules[1..], path)
  {
  }

  function ClientIp(forwardedFor: Option<string>, remoteAddr: Option<string>): string {
    if forwardedFor.Some? && forwardedFor.value != [] then Strip(FirstField(forwardedFor.value))
    else if remoteAddr.Some? then remoteAddr.value
    else "unknown"
  }

  /** Behind proxies the client is the first address of the list, without the white space around it. */
  lemma ClientIpIsFirstForwarded(left: string, ip: string, right: string, rest: string, remoteAddr: Option<string>)
    requires AllSpace(left) && Trimmed(ip) && AllSpace(right) && ',' !in ip && left + ip + right != []
    ensures ClientIp(Some(left + ip + right), remoteAddr) == ip
    ensures ClientIp(Some(left + ip + right + "," + rest), remoteAddr) == ip
  {
    assert ',' !in left && ',' !in right;
    FirstFieldIsFirst(left + ip + right, rest);
    StripIsTheMiddle(left, ip, right);
  }

  /** Without a forwarded list, or with an empty one, it is the peer, or "unknown". */
  lemma ClientIpIsPeer(forwardedFor: Option<string>, peer: string)
    requires forwardedFor in {None, Some([])}
    ensures ClientIp(forwardedFor, Some(peer)) == peer
    ensures ClientIp(forwardedFor, None) == "unknown"
  {
  }

  function RawKey(ip: string, path: string): string {
    "rl:" + ip + ":" + path
  }

  function BlockKey(key: string): string {
    key + ":blocked"
  }

  function EntryOf(cache: Cache, key: string): Option<Entry> {
    if key in cache then Some(cache[key]) else None
  }

  /** What one key finds in the cache. */
  function SlotOf(cache: Cache, key: string): Slot {
    Slot(EntryOf(cache, key), EntryOf(cache, BlockKey(key)))
  }

  datatype Request = Request(ip: string, path: string, now: real)

  function KeyOf(digest: string -> string, r: Request): string {
    digest(RawKey(r.ip, r.path))
  }

  /** process_request on the whole cache. */
  function Process(digest: string -> string, cache: Cache, r: Request): (Cache, Verdict) {
    match MatchRule(r.path)
    case None => (cache, Unlimited)
    case Some(rule) =>
      var key := KeyOf(digest, r);
      var count := Count(EntryOf(cache, key), r.now);
      if Count(EntryOf(cache, BlockKey(key)), r.now) != 0 then (cache, Blocked)
      else if count >= rule.limit then (cache[BlockKey(key) := Entry(1, r.now + BLOCK_DURATION)], LimitRejected)
      else if count == 0 then (cache[key := Entry(1, r.now + rule.window)], Admitted)
      else (cache[key := cache[key].(value := count + 1)], Admitted)
  }

  // ---------------------------------------------------------------------------------------------
  // The classes: a cache whose entries lapse, and the middleware that reads and writes it.

  class TtlCache {
    var entries: Cache

    constructor ()
      ensures entries == map[]
    {
      entries := map[];
    }

    /** cache.get(key, 0) */
    method Get(key: string, now: real) returns (value: nat)
      ensures value == Count(EntryOf(entries, key), now)
    {
      if key in entries && now < entries[key].expires {
        value := entries[key].value;
      } else {
        value := 0;
      }
    }

    method Put(key: string, value: nat, now: real, ttl: real)
      modifies this
      ensures entries == old(entries)[key := Entry(value, now + ttl)]
    {
      entries := entries[key := Entry(value, now + ttl)];
    }

    /** cache.incr(key): the lifetime stays; a missing key is an error. */
    method Incr(key: string, now: real) returns (found: bool)
      modifies this
      ensures found == Live(EntryOf(old(entries), key), now).Some?
      ensures entries == if found then old(entries)[key := old(entries)[key].(value := old(entries)[key].value + 1)]
                         else old(entries)
    {
      found := key in entries && now < entries[key].expires;
      if found {
        entries := entries[key := entries[key].(value := entries[key].value + 1)];
      }
    }
  }

  class RateLimitMiddleware {
    const cache: TtlCache
    const digest: string -> string
    const enabled: bool

    constructor (cache: TtlCache, digest: string -> string, enabled: bool)
      ensures this.cache == cache && this.digest == digest && this.enabled == enabled
    {
      this.cache, this.digest, this.enabled := cache, digest, enabled;
    }

    /** process_request, with no other request touching the cache in between. */
    method ProcessRequest(forwardedFor: Option<string>, remoteAddr: Option<string>, path: string, now: real)
      returns (verdict: Verdict)
      modifies cache
      ensures enabled ==> (cache.entries, verdict)
                          == Process(digest, old(cache.entries), Request(ClientIp(forwardedFor, remoteAddr), path, now))
      ensures !enabled ==> verdict == Unlimited && cache.entries == old(cache.entries)
    {
      if !enabled {
        return Unlimited;
      }
      var matched := MatchRule(path);
      if matched.None? {
        return Unlimited;
      }
      var rule := matched.value;
      var key := digest(RawKey(ClientIp(forwardedFor, remoteAddr), path));
      var blockKey := BlockKey(key);
      var blocked := cache.Get(blockKey, now);
      if blocked != 0 {
        return Blocked;
      }
      var count := cache.Get(key, now);
      if count >= rule.limit {
        cache.Put(blockKey, 1, now, BLOCK_DURATION);
        return LimitRejected;
      }
      if count == 0 {
        cache.Put(key, 1, now, rule.window);
      } else {
        var found := cache.Incr(key, now);
        assert found;
      }
      return Admitted;
    }
  }

  // ---------------------------------------------------------------------------------------------
  // Runs of requests from any clients.

  function Run(digest: string -> string, cache: Cache, rs: seq<Request>): (vs: seq<Verdict>)
    ensures |vs| == |rs|
    decreases |rs|
  {
    if rs == [] then []
    else
      var (next, verdict) := Process(digest, cache, rs[0]);
      [verdict] + Run(digest, next, rs[1..])
  }

  /** When the pair (ip, path) is requested. */
  function TimesOf(rs: seq<Request>, ip: string, path: string): seq<real> {
    if rs == [] then []
    else (if rs[0].ip == ip && rs[0].path == path then [rs[0].now] else []) + TimesOf(rs[1..], ip, path)
  }

  /** What the pair (ip, path) is answered. */
  function AnswersTo(rs: seq<Request>, vs: seq<Verdict>, ip: string, path: string): seq<Verdict>
    requires |rs| == |vs|
  {
    if rs == [] then []
    else (if rs[0].ip == ip && rs[0].path == path then [vs[0]] else []) + AnswersTo(rs[1..], vs[1..], ip, path)
  }

  ghost predicate FixedLength(digest: string -> string) {
    forall x :: |digest(x)| == 40
  }

  /** No other pair with a rule has, in this run, the digest of (ip, path). */
  ghost predicate OwnKey(digest: string -> string, rs: seq<Request>, ip: string, path: string) {
    forall i | 0 <= i < |rs| && MatchRule(rs[i].path).Some? ::
      KeyOf(digest, rs[i]) == digest(RawKey(ip, path)) ==> rs[i].ip == ip && rs[i].path == path
  }

  /** A block key is never a counter key, and two block keys agree only if the counter keys do. */
  lemma KeysDisjoint(k1: string, k2: string)
    requires |k1| == 40 && |k2| == 40
    ensures BlockKey(k1) != k2
    ensures BlockKey(k1) == BlockKey(k2) <==> k1 == k2
  {
    assert |BlockKey(k1)| == 48;
    assert BlockKey(k1)[..40] == k1 && BlockKey(k2)[..40] == k2;
  }

  /** A request acts on its own key exactly as the one-key model says and on no other key at all. */
  lemma ProcessActsOnOneKey(digest: string -> string, cache: Cache, r: Request, key: string)
    requires FixedLength(digest) && |key| == 40
    ensures var (next, verdict) := Process(digest, cache, r);
            if MatchRule(r.path).Some? && key == KeyOf(digest, r)
            then (SlotOf(next, key), verdict) == SlotStep(MatchRule(r.path).value, SlotOf(cache, key), r.now)
            else SlotOf(next, key) == SlotOf(cache, key)
  {
    KeysDisjoint(KeyOf(digest, r), key);
    KeysDisjoint(key, KeyOf(digest, r));
  }

  /**
   Non-interference: what one (ip, path) is answered depends on its own requests only, and is what the
   one-key model answers to them.
   */
  lemma {:induction false} RunProjectsToOneKey(digest: string -> string, cache: Cache, rs: seq<Request>,
                                               ip: string, path: string)
    requires FixedLength(digest) && OwnKey(digest, rs, ip, path) && MatchRule(path).Some?
    ensures AnswersTo(rs, Run(digest, cache, rs), ip, path)
            == Verdicts(MatchRule(path).value, SlotOf(cache, digest(RawKey(ip, path))), TimesOf(rs, ip, path))
    decreases |rs|
  {
    if rs == [] {
    } else {
      var key := digest(RawKey(ip, path));
      var (next, verdict) := Process(digest, cache, rs[0]);
      var vs := Run(digest, cache, rs);
      assert vs[1..] == Run(digest, next, rs[1..]);
      ProcessActsOnOneKey(digest, cache, rs[0], key);
      assert OwnKey(digest, rs[1..], ip, path) by {
        assert forall i | 0 <= i < |rs[1..]| :: rs[1..][i] == rs[i + 1];
      }
      RunProjectsToOneKey(digest, next, rs[1..], ip, path);
      assert MatchRule(rs[0].path).Some? && KeyOf(digest, rs[0]) == key ==> rs[0].ip == ip && rs[0].path == path;
      var rest := TimesOf(rs[1..], ip, path);
      if rs[0].ip == ip && rs[0].path == path {
        assert ([rs[0].now] + rest)[1..] == rest;
      } else {
        assert [] + rest == rest;
      }
    }
  }

  function TimeOf(r: Request): real {
    r.now
  }

  lemma {:induction false} TimesOfSorted(rs: seq<Request>, ip: string, path: string)
    requires Chronological(rs, TimeOf)
    ensures Sorted(TimesOf(rs, ip, path))
    ensures forall i | 0 <= i < |TimesOf(rs, ip, path)| :: rs != [] && rs[0].now <= TimesOf(rs, ip, path)[i]
    decreases |rs|
  {
    if rs == [] {
    } else {
      TimesOfSorted(rs[1..], ip, path);
    }
  }

  /**
   The limiter's bound for the whole middleware: whoever else is served from the same cache, a limited
   (ip, path) gets at most limit * k + limit - 1 requests through in an interval no longer than k windows.
   */
  lemma ClientBound(digest: string -> string, rs: seq<Request>, ip: string, path: string, a: real, b: real, k: nat)
    requires FixedLength(digest) && OwnKey(digest, rs, ip, path) && Chronological(rs, TimeOf)
    requires MatchRule(path).Some? && b <= a + (k as real) * MatchRule(path).value.window
    ensures |TimesOf(rs, ip, path)| == |AnswersTo(rs, Run(digest, map[], rs), ip, path)|
    ensures var limit := MatchRule(path).value.limit;
            AdmittedIn(TimesOf(rs, ip, path), AnswersTo(rs, Run(digest, map[], rs), ip, path), a, b)
            <= limit * k + limit - 1
  {
    var rule := MatchRule(path).value;
    assert ValidRule(rule) by {
      MatchRuleUnique(path);
    }
    ClientBoundUnderRule(digest, rs, ip, path, rule, a, b, k);
  }

  lemma ClientBoundUnderRule(digest: string -> string, rs: seq<Request>, ip: string, path: string, rule: Rule,
                             a: real, b: real, k: nat)
    requires FixedLength(digest) && OwnKey(digest, rs, ip, path) && Chronological(rs, TimeOf)
    requires MatchRule(path) == Some(rule) && ValidRule(rule) && b <= a + (k as real) * rule.window
    ensures |TimesOf(rs, ip, path)| == |AnswersTo(rs, Run(digest, map[], rs), ip, path)|
    ensures AdmittedIn(TimesOf(rs, ip, path), AnswersTo(rs, Run(digest, map[], rs), ip, path), a, b)
            <= rule.limit * k + rule.limit - 1
  {
    var times := TimesOf(rs, ip, path);
    RunProjectsToOneKey(digest, map[], rs, ip, path);
    assert AnswersTo(rs, Run(digest, map[], rs), ip, path) == Verdicts(rule, EMPTY_SLOT, times);
    TimesOfSorted(rs, ip, path);
    SlidingBound(rule, EMPTY_SLOT, times, a, b, k);
  }

  /** A path with none of the three prefixes, and only such a path, is not limited; it leaves the cache as it is. */
  lemma UnlimitedIff(digest: string -> string, cache: Cache, r: Request)
    ensures Process(digest, cache, r).1 == Unlimited <==> forall i | 0 <= i < |RULES| :: !(RULES[i].0 <= r.path)
    ensures Process(digest, cache, r).1 == Unlimited ==> Process(digest, cache, r).0 == cache
  {
    MatchRuleUnique(r.path);
    NoRuleIff(RULES, r.path);
  }

  lemma {:induction false} NoRuleIff(rules: seq<(string, Rule)>, path: string)
    ensures MatchFirst(rules, path).None? <==> forall i | 0 <= i < |rules| :: !(rules[i].0 <= path)
  {
    if rules == [] {
    } else {
      NoRuleIff(rules[1..], path);
      assert forall i | 1 <= i < |rules| :: rules[i] == rules[1..][i - 1];
    }
  }

  /** The law of the limiter for any (ip, path) among any other traffic, in terms of its own requests and answers. */
  lemma ClientAnswersAreLawful(digest: string -> string, rs: seq<Request>, ip: string, path: string)
    requires FixedLength(digest) && OwnKey(digest, rs, ip, path) && Chronological(rs, TimeOf)
    requires MatchRule(path).Some?
    ensures Lawful(MatchRule(path).value, TimesOf(rs, ip, path), AnswersTo(rs, Run(digest, map[], rs), ip, path))
  {
    var rule, times := MatchRule(path).value, TimesOf(rs, ip, path);
    MatchRuleUnique(path);
    RunProjectsToOneKey(digest, map[], rs, ip, path);
    assert AnswersTo(rs, Run(digest, map[], rs), ip, path) == Verdicts(rule, EMPTY_SLOT, times);
    TimesOfSorted(rs, ip, path);
    AnswersAreLawful(rule, times, Verdicts(rule, EMPTY_SLOT, times));
  }

  // ---------------------------------------------------------------------------------------------
  // The bound is one for each path.

  /** Requests with keys of their own, none of them in the cache, are all admitted. */
  lemma {:induction false} FreshKeysAdmitted(digest: string -> string, cache: Cache, rs: seq<Request>)
    requires FixedLength(digest)
    requires forall i | 0 <= i < |rs| :: MatchRule(rs[i].path).Some? && SlotOf(cache, KeyOf(digest, rs[i])) == EMPTY_SLOT
    requires forall i, j | 0 <= i < j < |rs| :: KeyOf(digest, rs[i]) != KeyOf(digest, rs[j])
    ensures Run(digest, cache, rs) == Repeat(Admitted, |rs|)
    decreases |rs|
  {
    if rs == [] {
    } else {
      var (next, verdict) := Process(digest, cache, rs[0]);
      MatchRuleUnique(rs[0].path);
      ProcessActsOnOneKey(digest, cache, rs[0], KeyOf(digest, rs[0]));
      forall i | 0 <= i < |rs[1..]|
        ensures MatchRule(rs[1..][i].path).Some? && SlotOf(next, KeyOf(digest, rs[1..][i])) == EMPTY_SLOT
      {
        ProcessActsOnOneKey(digest, cache, rs[0], KeyOf(digest, rs[i + 1]));
      }
      FreshKeysAdmitted(digest, next, rs[1..]);
    }
  }

  function VoicePath(i: nat): string {
    RULES[2].0 + Repeat('x', i)
  }

  /** One address asks for n paths under the voice prefix, all at one moment. */
  function VariedPaths(ip: string, now: real, n: nat): seq<Request> {
    seq(n, i requires 0 <= i < n => Request(ip, VoicePath(i), now))
  }

  /**
   The limit is not one for an address: from the empty cache, any number of requests of one address to the voice
   prefix are admitted at one moment if their paths differ and their digests do not collide.
   */
  lemma OneAddressManyPaths(digest: string -> string, ip: string, now: real, n: nat)
    requires FixedLength(digest)
    requires forall i: nat, j: nat | i < j < n ::
               digest(RawKey(ip, VoicePath(i))) == digest(RawKey(ip, VoicePath(j)))
               ==> RawKey(ip, VoicePath(i)) == RawKey(ip, VoicePath(j))
    ensures Run(digest, map[], VariedPaths(ip, now, n)) == Repeat(Admitted, n)
  {
    var rs := VariedPaths(ip, now, n);
    forall i | 0 <= i < n
      ensures MatchRule(rs[i].path).Some?
    {
      MatchRuleUnique(VoicePath(i));
    }
    forall i, j | 0 <= i < j < n
      ensures KeyOf(digest, rs[i]) != KeyOf(digest, rs[j])
    {
      assert |RawKey(ip, VoicePath(i))| < |RawKey(ip, VoicePath(j))|;
    }
    FreshKeysAdmitted(digest, map[], rs);
  }

  // ---------------------------------------------------------------------------------------------
  // When two (ip, path) pairs share the string that is digested.

  /** One address swallows the ':' and the head of the other pair's path. */
  ghost predicate Swallows(ip: string, path: string, longIp: string, shortPath: string) {
    exists m: string :: longIp == ip + ":" + m && path == m + ":" + shortPath
  }

  /** The exact condition under which two pairs are counted together. */
  lemma SharedRawKeyIff(ip1: string, path1: string, ip2: string, path2: string)
    ensures RawKey(ip1, path1) == RawKey(ip2, path2)
            <==> (ip1 == ip2 && path1 == path2) || Swallows(ip1, path1, ip2, path2) || Swallows(ip2, path2, ip1, path1)
  {
    if RawKey(ip1, path1) == RawKey(ip2, path2) {
      if |ip1| <= |ip2| {
        RawKeySplit(ip1, path1, ip2, path2);
      } else {
        RawKeySplit(ip2, path2, ip1, path1);
      }
    }
    if Swallows(ip1, path1, ip2, path2) {
      SwallowedRawKey(ip1, path1, ip2, path2);
    }
    if Swallows(ip2, path2, ip1, path1) {
      SwallowedRawKey(ip2, path2, ip1, path1);
    }
  }

  lemma SwallowedRawKey(ip1: string, path1: string, ip2: string, path2: string)
    requires Swallows(ip1, path1, ip2, path2)
    ensures RawKey(ip1, path1) == RawKey(ip2, path2)
  {
    var m :| ip2 == ip1 + ":" + m && path1 == m + ":" + path2;
    assert "rl:" + ip1 + ":" + (m + ":" + path2) == "rl:" + (ip1 + ":" + m) + ":" + path2;
  }

  lemma RawKeySplit(ip1: string, path1: string, ip2: string, path2: string)
    requires RawKey(ip1, path1) == RawKey(ip2, path2) && |ip1| <= |ip2|
    ensures (ip1 == ip2 && path1 == path2) || Swallows(ip1, path1, ip2, path2)
  {
    var raw := RawKey(ip1, path1);
    var n1, n2 := |ip1|, |ip2|;
    assert raw[3..3 + n1] == ip1 && raw[3..3 + n2] == ip2;
    assert raw[3 + n1] == ':' && raw[3 + n2] == ':';
    assert raw[4 + n1..] == path1 && raw[4 + n2..] == path2;
    if n1 < n2 {
      var m := raw[4 + n1..3 + n2];
      assert ip2 == ip1 + ":" + m;
      assert path1 == m + ":" + path2;
    }
  }

  /** Addresses without a '/' never share a key on limited paths. */
  lemma AddressesWithoutSlash(ip1: string, path1: string, ip2: string, path2: string)
    requires '/' !in ip1 && '/' !in ip2 && MatchRule(path1).Some? && MatchRule(path2).Some?
    ensures RawKey(ip1, path1) == RawKey(ip2, path2) <==> ip1 == ip2 && path1 == path2
  {
    SharedRawKeyIff(ip1, path1, ip2, path2);
    MatchRuleUnique(path1);
    MatchRuleUnique(path2);
    if Swallows(ip1, path1, ip2, path2) {
      SwallowedSlash(ip1, path1, ip2, path2);
    }
    if Swallows(ip2, path2, ip1, path1) {
      SwallowedSlash(ip2, path2, ip1, path1);
    }
  }

  lemma SwallowedSlash(ip: string, path: string, longIp: string, shortPath: string)
    requires Swallows(ip, path, longIp, shortPath) && path != [] && path[0] == '/'
    ensures '/' in longIp
  {
    var m :| longIp == ip + ":" + m && path == m + ":" + shortPath;
    assert path[0] == if m == [] then ':' else m[0];
    assert longIp[|ip| + 1] == m[0];
  }

  /** A collision-free digest and addresses without '/' give every pair of the run its own key. */
  lemma OwnKeyFromDigest(digest: string -> string, rs: seq<Request>, ip: string, path: string)
    requires '/' !in ip && MatchRule(path).Some?
    requires forall i | 0 <= i < |rs| :: '/' !in rs[i].ip
    requires forall i | 0 <= i < |rs| ::
               KeyOf(digest, rs[i]) == digest(RawKey(ip, path)) ==> RawKey(rs[i].ip, rs[i].path) == RawKey(ip, path)
    ensures OwnKey(digest, rs, ip, path)
  {
    forall i | 0 <= i < |rs| && MatchRule(rs[i].path).Some? && KeyOf(digest, rs[i]) == digest(RawKey(ip, path))
      ensures rs[i].ip == ip && rs[i].path == path
    {
      AddressesWithoutSlash(rs[i].ip, rs[i].path, ip, path);
    }
  }

  /**
   The sliding bound in terms of the run alone: addresses have no '/' in them, as IP addresses have not, and no
   request of the run has the digest of (ip, path) without having its raw key.
   */
  lemma ClientBoundWithoutCollisions(
    digest: string -> string, rs: seq<Request>, ip: string, path: string, a: real, b: real, k: nat)
    requires FixedLength(digest) && Chronological(rs, TimeOf)
    requires '/' !in ip && forall i | 0 <= i < |rs| :: '/' !in rs[i].ip
    requires forall i | 0 <= i < |rs| ::
               KeyOf(digest, rs[i]) == digest(RawKey(ip, path)) ==> RawKey(rs[i].ip, rs[i].path) == RawKey(ip, path)
    requires MatchRule(path).Some? && b <= a + (k as real) * MatchRule(path).value.window
    ensures |TimesOf(rs, ip, path)| == |AnswersTo(rs, Run(digest, map[], rs), ip, path)|
    ensures var limit := MatchRule(path).value.limit;
            AdmittedIn(TimesOf(rs, ip, path), AnswersTo(rs, Run(digest, map[], rs), ip, path), a, b)
            <= limit * k + limit - 1
  {
    OwnKeyFromDigest(digest, rs, ip, path);
    ClientBound(digest, rs, ip, path, a, b, k);
  }

  lemma ConfiguredRules(path: string)
    ensures "/api/v1/auth/token/" <= path ==> MatchRule(path) == Some(Rule(5, 60.0))
    ensures "/api/v1/auth/register/" <= path ==> MatchRule(path) == Some(Rule(3, 300.0))
    ensures "/api/v1/voice/" <= path ==> MatchRule(path) == Some(Rule(10, 60.0))
  {
    MatchRuleUnique(path);
    assert RULES[0] == ("/api/v1/auth/token/", Rule(5, 60.0));
    assert RULES[1] == ("/api/v1/auth/register/", Rule(3, 300.0));
    assert RULES[2] == ("/api/v1/voice/", Rule(10, 60.0));
  }

  /** What the bound comes to for the three endpoints in an interval of one window of theirs. */
  lemma ConfiguredBounds(digest: string -> string, rs: seq<Request>, ip: string, path: string, a: real, b: real)
    requires FixedLength(digest) && Chronological(rs, TimeOf) && OwnKey(digest, rs, ip, path)
    ensures var times, answers := TimesOf(rs, ip, path), AnswersTo(rs, Run(digest, map[], rs), ip, path);
            |times| == |answers|
            && ("/api/v1/auth/token/" <= path && b <= a + 60.0 ==> AdmittedIn(times, answers, a, b) <= 9)
            && ("/api/v1/auth/register/" <= path && b <= a + 300.0 ==> AdmittedIn(times, answers, a, b) <= 5)
            && ("/api/v1/voice/" <= path && b <= a + 60.0 ==> AdmittedIn(times, answers, a, b) <= 19)
  {
    ConfiguredRules(path);
    AnswersToLength(rs, Run(digest, map[], rs), ip, path);
    if MatchRule(path).Some? && b <= a + MatchRule(path).value.window {
      ClientBound(digest, rs, ip, path, a, b, 1);
    }
  }

  lemma {:induction false} AnswersToLength(rs: seq<Request>, vs: seq<Verdict>, ip: string, path: string)
    requires |rs| == |vs|
    ensures |TimesOf(rs, ip, path)| == |AnswersTo(rs, vs, ip, path)|
    decreases |rs|
  {
    if rs == [] {
    } else {
      AnswersToLength(rs[1..], vs[1..], ip, path);
    }
  }
}
