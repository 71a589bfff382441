/**
 * The request throttles of apis/api/throttling.py. The Django cache becomes
 * a field: a map from client key to request count for CustomThrottle, a set
 * of marked keys for BasicThrottle. The cache's time-to-live becomes an
 * explicit expiry operation. A request is described by its two headers;
 * `None` is a header that is absent.
 */
module Throttling {
  import opened Wrappers

  /** `s.split(',')[0]`: the text before the first comma, or all of `s` when it has none. */
  function BeforeComma(s: string): (r: string)
    ensures |r| <= |s| && r == s[..|r|]
    ensures ',' !in r
    ensures |r| < |s| ==> s[|r|] == ','
    ensures ',' !in s ==> r == s
  {
    if |s| == 0 || s[0] == ',' then ""
    else [s[0]] + BeforeComma(s[1..])
  }

  /**
   * CustomThrottle.get_ident: the first entry of a non-empty
   * X-Forwarded-For header, untrimmed; otherwise REMOTE_ADDR, which may be
   * absent too.
   */
  function GetIdent(forwardedFor: Option<string>, remoteAddr: Option<string>): (r: Option<string>)
    ensures forwardedFor.Some? && forwardedFor.value != "" ==>
      r.Some? && |r.value| <= |forwardedFor.value| && r.value == forwardedFor.value[..|r.value|] && ',' !in r.value
    ensures forwardedFor.Some? && forwardedFor.value != "" ==> r == Some(BeforeComma(forwardedFor.value))
    ensures forwardedFor.Some? && forwardedFor.value != "" && ',' !in forwardedFor.value ==> r == forwardedFor
    ensures (forwardedFor.None? || forwardedFor.value == "") ==> r == remoteAddr
  {
    if forwardedFor.Some? && forwardedFor.value != "" then Some(BeforeComma(forwardedFor.value))
    else remoteAddr
  }

  /** A key Python treats as true: present and non-empty. */
  predicate Truthy(key: Option<string>)
  {
    key.Some? && key.value != ""
  }

  /** The count a cache holds for `key`, zero when there is no entry. */
  function Count(cache: map<string, nat>, key: string): nat
  {
    if key in cache then cache[key] else 0
  }

  /**
   * CustomThrottle.allow_request on the cache as a value: the verdict and
   * the cache afterwards.
   */
  function Allow(cache: map<string, nat>, limit: int, key: Option<string>): (r: (bool, map<string, nat>))
    ensures !Truthy(key) ==> r == (true, cache)
    ensures Truthy(key) && key.value in cache && cache[key.value] >= limit ==> r == (false, cache)
    ensures Truthy(key) && key.value !in cache ==> r == (true, cache[key.value := 1])
    ensures Truthy(key) && key.value in cache && cache[key.value] < limit ==>
      r == (true, cache[key.value := cache[key.value] + 1])
  {
    if !Truthy(key) then (true, cache)
    else
      var k := key.value;
      if k in cache && cache[k] >= limit then (false, cache)
      else if k !in cache then (true, cache[k := 1])
      else if cache[k] < limit then (true, cache[k := cache[k] + 1])
      else (false, cache)
  }

  /** Every count in the cache stays within the per-window allowance. */
  predicate Bounded(cache: map<string, nat>, limit: int)
  {
    forall k :: k in cache ==> 1 <= cache[k] <= Max(limit, 1)
  }

  /** One request keeps counts within the allowance, and never touches another key's entry. */
  lemma AllowKeepsBound(cache: map<string, nat>, limit: int, key: Option<string>)
    requires Bounded(cache, limit)
    ensures Bounded(Allow(cache, limit, key).1, limit)
    ensures forall k :: k in cache && (key.None? || k != key.value) ==>
      k in Allow(cache, limit, key).1 && Allow(cache, limit, key).1[k] == cache[k]
  {
  }

  /** How many of `keys`, taken in order from `cache`, are allowed for the client `client`. */
  function AllowedFor(cache: map<string, nat>, limit: int, keys: seq<Option<string>>, client: string): nat
    decreases |keys|
  {
    if |keys| == 0 then 0
    else
      var (ok, next) := Allow(cache, limit, keys[0]);
      (if ok && keys[0] == Some(client) then 1 else 0) + AllowedFor(next, limit, keys[1..], client)
  }

  /**
   * The throttle's promise: within one window, a non-empty client key gets
   * at most max(num_requests, 1) requests through, counting those already
   * recorded in the cache, however the requests of all clients interleave.
   */
  lemma {:induction false} AllowedWithinLimit(cache: map<string, nat>, limit: int, keys: seq<Option<string>>, client: string)
    requires Bounded(cache, limit)
    requires client != ""
    ensures Count(cache, client) + AllowedFor(cache, limit, keys, client) <= Max(limit, 1)
    decreases |keys|
  {
    if |keys| > 0 {
      var (ok, next) := Allow(cache, limit, keys[0]);
      AllowKeepsBound(cache, limit, keys[0]);
      AllowedWithinLimit(next, limit, keys[1..], client);
      if ok && keys[0] == Some(client) {
        assert Count(next, client) == Count(cache, client) + 1;
      } else {
        assert Count(next, client) >= Count(cache, client);
      }
    }
  }

  /**
   * A forwarded header that starts with a comma yields the empty key, and
   * an empty key is never throttled: such requests always pass and leave
   * the cache alone.
   */
  lemma LeadingCommaBypasses(cache: map<string, nat>, limit: int, rest: string, remoteAddr: Option<string>)
    ensures GetIdent(Some("," + rest), remoteAddr) == Some("")
    ensures Allow(cache, limit, GetIdent(Some("," + rest), remoteAddr)) == (true, cache)
  {
  }

  class CustomThrottle {
    const numRequests: int
    var cache: map<string, nat>

    constructor(numRequests: int)
      ensures this.numRequests == numRequests && cache == map[]
    {
      this.numRequests := numRequests;
      cache := map[];
    }

    /**
     * allow_request: no key, allowed; a key at or over the limit, denied;
     * a new key, recorded with one request; otherwise its count goes up by
     * one. No other key's entry changes.
     */
    method AllowRequest(key: Option<string>) returns (allowed: bool)
      modifies this`cache
      ensures (allowed, cache) == Allow(old(cache), numRequests, key)
      ensures !allowed ==> cache == old(cache)
      ensures forall k :: k in old(cache) && (key.None? || k != key.value) ==> k in cache && cache[k] == old(cache)[k]
    {
      if !Truthy(key) {
        return true;
      }
      var k := key.value;
      var entry: Option<nat> := if k in cache then Some(cache[k]) else None;
      if entry.Some? && entry.value >= numRequests {
        return false;
      }
      if entry.None? {
        cache := cache[k := 1];
        return true;
      }
      if entry.value < numRequests {
        cache := cache[k := entry.value + 1];
        return true;
      }
      return false;
    }

    /** The window of `key` ends: its entry leaves the cache. */
    method Expire(key: string)
      modifies this`cache
      ensures cache == old(cache) - {key}
    {
      cache := cache - {key};
    }
  }

  /**
   * BasicThrottle.allow_request on its set of marked keys: a marked key is
   * denied; a new non-empty key is marked and allowed; a request without a
   * key is allowed and marks nothing.
   */
  function AllowOnce(marked: set<string>, key: Option<string>): (r: (bool, set<string>))
    ensures !Truthy(key) ==> r == (true, marked)
    ensures Truthy(key) && key.value in marked ==> r == (false, marked)
    ensures Truthy(key) && key.value !in marked ==> r == (true, marked + {key.value})
  {
    if !Truthy(key) then (true, marked)
    else if key.value in marked then (false, marked)
    else (true, marked + {key.value})
  }

  function AllowedOnceFor(marked: set<string>, keys: seq<Option<string>>, client: string): nat
    decreases |keys|
  {
    if |keys| == 0 then 0
    else
      var (ok, next) := AllowOnce(marked, keys[0]);
      (if ok && keys[0] == Some(client) then 1 else 0) + AllowedOnceFor(next, keys[1..], client)
  }

  /** At most one request per non-empty key and window gets through, none if the key is already marked. */
  lemma {:induction false} AllowedAtMostOnce(marked: set<string>, keys: seq<Option<string>>, client: string)
    requires client != ""
    ensures AllowedOnceFor(marked, keys, client) <= (if client in marked then 0 else 1)
    decreases |keys|
  {
    if |keys| > 0 {
      var (ok, next) := AllowOnce(marked, keys[0]);
      AllowedAtMostOnce(next, keys[1..], client);
      if ok && keys[0] == Some(client) {
        assert client in next;
      }
    }
  }

  class BasicThrottle {
    var marked: set<string>

    constructor()
      ensures marked == {}
    {
      marked := {};
    }

    /** allow_request, keyed by REMOTE_ADDR. */
    method AllowRequest(remoteAddr: Option<string>) returns (allowed: bool)
      modifies this`marked
      ensures (allowed, marked) == AllowOnce(old(marked), remoteAddr)
    {
      if Truthy(remoteAddr) {
        if remoteAddr.value in marked {
          return false;
        }
        marked := marked + {remoteAddr.value};
      }
      return true;
    }

    /** The window of `key` ends: it may be allowed once more. */
    method Expire(key: string)
      modifies this`marked
      ensures marked == old(marked) - {key}
    {
      marked := marked - {key};
    }
  }
}
