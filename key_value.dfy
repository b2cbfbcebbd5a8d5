/**
 * The Redis-backed key-value store of `src/redis/redis.service.ts`: a map
 * from key to a string value with an optional expiry instant, read against a
 * clock, and the token blacklist kept in it under the `blacklist:` prefix.
 * Times are whole seconds; the clock is a parameter of every call.
 */
module KeyValue {
  import opened Wrappers

  type Time = int

  /** A stored value and the instant from which it is gone (none: it never expires). */
  datatype Entry = Entry(value: string, expiresAt: Option<Time>)

  type Store = map<string, Entry>

  /** Redis refuses `SETEX` with a non-positive number of seconds. */
  datatype StoreError = InvalidExpireTime

  /** The value `GET key` answers at time `now`: the stored one while it has not expired. */
  function Live(store: Store, key: string, now: Time): (v: Option<string>)
    ensures v.Some? <==> key in store && (store[key].expiresAt.None? || now < store[key].expiresAt.value)
    ensures v.Some? ==> v.value == store[key].value
  {
    if key in store && (store[key].expiresAt.None? || now < store[key].expiresAt.value)
    then Some(store[key].value)
    else None
  }

  const BlacklistPrefix: string := "blacklist:"

  /** The key under which a token is blacklisted. */
  function BlacklistKey(token: string): (key: string)
    ensures |key| == |BlacklistPrefix| + |token|
    ensures key[..|BlacklistPrefix|] == BlacklistPrefix && key[|BlacklistPrefix|..] == token
  {
    BlacklistPrefix + token
  }

  /** What `isBlacklisted` answers: the live value under the token's key is exactly "1". */
  predicate Blacklisted(store: Store, token: string, now: Time) {
    Live(store, BlacklistKey(token), now) == Some("1")
  }

  /** Distinct tokens never share a blacklist key. */
  lemma BlacklistKeyInjective(a: string, b: string)
    ensures BlacklistKey(a) == BlacklistKey(b) <==> a == b
  {
    if BlacklistKey(a) == BlacklistKey(b) {
      calc {
        a;
        BlacklistKey(a)[|BlacklistPrefix|..];
        BlacklistKey(b)[|BlacklistPrefix|..];
        b;
      }
    }
  }

  /** A value written with a time-to-live of `seconds` at `now` is what `GET`
      answers exactly until `seconds` have passed. */
  lemma {:induction false} LiveAfterSetex(store: Store, key: string, value: string, seconds: int, now: Time, t: Time)
    requires seconds > 0 && now <= t
    ensures Live(store[key := Entry(value, Some(now + seconds))], key, t) ==
      if t < now + seconds then Some(value) else None
  {
  }

  /** Blacklisting a token leaves the blacklist status of every other token as it was. */
  lemma OtherTokensUnaffected(store: Store, token: string, entry: Entry, other: string, t: Time)
    requires other != token
    ensures Blacklisted(store[BlacklistKey(token) := entry], other, t) == Blacklisted(store, other, t)
  {
    BlacklistKeyInjective(token, other);
  }

  /** A blacklisted token stays blacklisted for the whole time-to-live, and not a second longer. */
  lemma BlacklistedUntilExpiry(store: Store, token: string, seconds: int, now: Time, t: Time)
    requires seconds > 0 && now <= t
    ensures Blacklisted(store[BlacklistKey(token) := Entry("1", Some(now + seconds))], token, t) <==> t < now + seconds
  {
    LiveAfterSetex(store, BlacklistKey(token), "1", seconds, now, t);
  }

  /** A key in the blacklist namespace that holds any value other than "1"
      (written through the generic `set`, with or without expiry) does not blacklist its token. */
  lemma OnlyOneMeansBlacklisted(store: Store, token: string, entry: Entry, t: Time)
    requires entry.value != "1"
    ensures !Blacklisted(store[BlacklistKey(token) := entry], token, t)
  {
  }

  /** The store of `RedisService`. */
  class RedisService {
    var store: Store

    constructor ()
      ensures store == map[]
    {
      store := map[];
    }

    /** `SETEX key seconds value`; Redis refuses a non-positive time-to-live. */
    method Setex(key: string, seconds: int, value: string, now: Time) returns (r: Result<(), StoreError>)
      modifies this
      ensures r.Success? <==> seconds > 0
      ensures r.Success? ==> store == old(store)[key := Entry(value, Some(now + seconds))]
      ensures r.Failure? ==> store == old(store)
    {
      if seconds <= 0 {
        return Failure(InvalidExpireTime);
      }
      store := store[key := Entry(value, Some(now + seconds))];
      return Success(());
    }

    /** `addToBlacklist`: store "1" under the token's key for `expiresInSeconds`. */
    method AddToBlacklist(token: string, expiresInSeconds: int, now: Time) returns (r: Result<(), StoreError>)
      modifies this
      ensures r.Success? <==> expiresInSeconds > 0
      ensures r.Success? ==> store == old(store)[BlacklistKey(token) := Entry("1", Some(now + expiresInSeconds))]
      ensures r.Success? ==> forall t :: now <= t ==> (Blacklisted(store, token, t) <==> t < now + expiresInSeconds)
      ensures r.Failure? ==> store == old(store)
    {
      r := Setex(BlacklistKey(token), expiresInSeconds, "1", now);
      if r.Success? {
        forall t | now <= t
          ensures Blacklisted(store, token, t) <==> t < now + expiresInSeconds
        {
          BlacklistedUntilExpiry(old(store), token, expiresInSeconds, now, t);
        }
      }
    }

    /** `isBlacklisted`: whether the live value under the token's key is exactly "1". */
    method IsBlacklisted(token: string, now: Time) returns (b: bool)
      ensures b <==> (BlacklistKey(token) in store && store[BlacklistKey(token)].value == "1" &&
                      (store[BlacklistKey(token)].expiresAt.None? || now < store[BlacklistKey(token)].expiresAt.value))
      ensures b == Blacklisted(store, token, now)
    {
      var result := Get(BlacklistKey(token), now);
      b := result == Some("1");
    }

    /** `removeFromBlacklist`: delete the token's key and nothing else. */
    method RemoveFromBlacklist(token: string)
      modifies this
      ensures store == old(store) - {BlacklistKey(token)}
      ensures forall t :: !Blacklisted(store, token, t)
      ensures forall k, t :: k != BlacklistKey(token) ==> Live(store, k, t) == Live(old(store), k, t)
    {
      Del(BlacklistKey(token));
    }

    /** `set`: with a truthy (non-zero) time-to-live the key expires, otherwise
        (absent or 0) it is stored without expiry, dropping any earlier one. */
    method Set(key: string, value: string, expiresInSeconds: Option<int>, now: Time) returns (r: Result<(), StoreError>)
      modifies this
      ensures r.Failure? <==> expiresInSeconds.Some? && expiresInSeconds.value < 0
      ensures r.Success? && (expiresInSeconds == None || expiresInSeconds == Some(0)) ==>
        store == old(store)[key := Entry(value, None)] && forall t :: Live(store, key, t) == Some(value)
      ensures r.Success? && expiresInSeconds.Some? && expiresInSeconds.value != 0 ==>
        store == old(store)[key := Entry(value, Some(now + expiresInSeconds.value))]
      ensures r.Failure? ==> store == old(store)
    {
      if expiresInSeconds.Some? && expiresInSeconds.value != 0 {
        r := Setex(key, expiresInSeconds.value, value, now);
      } else {
        store := store[key := Entry(value, None)];
        r := Success(());
      }
    }

    /** `get`: the live value, or none once the key is deleted or expired. */
    method Get(key: string, now: Time) returns (v: Option<string>)
      ensures v == Live(store, key, now)
      ensures v.Some? ==> key in store && v.value == store[key].value
    {
      if key in store && (store[key].expiresAt.None? || now < store[key].expiresAt.value) {
        v := Some(store[key].value);
      } else {
        v := None;
      }
    }

    /** `del`: remove the key; every other key keeps its value and expiry. */
    method Del(key: string)
      modifies this
      ensures store == old(store) - {key}
      ensures forall t :: Live(store, key, t) == None
    {
      store := store - {key};
    }
  }
}
