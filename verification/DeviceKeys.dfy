/**
 The store of derived device keys: a memo table that must never be told apart from the derivation it saves.

 The key derivation function is a parameter; nothing is assumed about it.
 */
module DeviceKeys {
  import opened Text

  type DeviceId = nat

  datatype Call = Derive(id: DeviceId) | Revoke(id: DeviceId) | Clear

  /** The derivation context of a device. */
  function Context(id: DeviceId): string {
    "alice-gw:device:" + Decimal(id)
  }

  lemma ContextsDiffer(a: DeviceId, b: DeviceId)
    requires Context(a) == Context(b)
    ensures a == b
  {
    assert Context(a)[|"alice-gw:device:"|..] == Decimal(a) && Context(b)[|"alice-gw:device:"|..] == Decimal(b);
    DecimalInjective(a, b);
  }

  /** The ids that the first `n` calls leave cached. */
  ghost function Cached(calls: seq<Call>, n: nat): set<DeviceId>
    requires n <= |calls|
  {
    if n == 0 then {}
    else match calls[n - 1]
      case Derive(id) => Cached(calls, n - 1) + {id}
      case Revoke(id) => Cached(calls, n - 1) - {id}
      case Clear => {}
  }

  /** `id` was derived by call `i` and neither revoked nor cleared after that. */
  ghost predicate DerivedAt(calls: seq<Call>, id: DeviceId, i: nat, n: nat)
    requires n <= |calls|
  {
    i < n && calls[i] == Derive(id) && forall j :: i < j < n ==> calls[j] != Revoke(id) && calls[j] != Clear
  }

  lemma {:induction false} CachedIffDerivedSince(calls: seq<Call>, id: DeviceId, n: nat)
    requires n <= |calls|
    ensures id in Cached(calls, n) <==> exists i :: DerivedAt(calls, id, i, n)
  {
    if n > 0 {
      CachedIffDerivedSince(calls, id, n - 1);
      if id in Cached(calls, n) && calls[n - 1] != Derive(id) {
        var i :| DerivedAt(calls, id, i, n - 1);
        assert DerivedAt(calls, id, i, n);
      } else if calls[n - 1] == Derive(id) {
        assert DerivedAt(calls, id, n - 1, n);
      } else if i :| DerivedAt(calls, id, i, n) {
        assert DerivedAt(calls, id, i, n - 1);
      }
    }
  }

  lemma {:induction false} SamePrefix(calls: seq<Call>, call: Call, n: nat)
    requires n <= |calls|
    ensures Cached(calls + [call], n) == Cached(calls, n)
  {
    if n > 0 {
      SamePrefix(calls, call, n - 1);
    }
  }

  /** One key store, with its whole history as a ghost. */
  class DeviceKeyStore<Key> {
    const kdf: (string, seq<bv8>) -> Key
    const masterSecret: seq<bv8>
    var keyCache: map<DeviceId, Key>
    ghost var calls: seq<Call>

    /** Every cached key is the derived one, and exactly the ids derived since their last removal are cached. */
    ghost predicate Valid()
      reads this
    {
      && (forall id :: id in keyCache ==> keyCache[id] == kdf(Context(id), masterSecret))
      && keyCache.Keys == Cached(calls, |calls|)
    }

    constructor (kdf: (string, seq<bv8>) -> Key, masterSecret: seq<bv8>)
      ensures Valid() && calls == [] && this.kdf == kdf && this.masterSecret == masterSecret
    {
      this.kdf := kdf;
      this.masterSecret := masterSecret;
      keyCache := map[];
      calls := [];
    }

    /** Whatever happened before, the answer is the derivation. */
    method DeriveDeviceKey(id: DeviceId) returns (key: Key)
      requires Valid()
      modifies this
      ensures Valid() && calls == old(calls) + [Derive(id)]
      ensures key == kdf("alice-gw:device:" + Decimal(id), masterSecret)
      ensures keyCache.Keys == old(keyCache).Keys + {id}
    {
      SamePrefix(calls, Derive(id), |calls|);
      calls := calls + [Derive(id)];
      if id in keyCache {
        return keyCache[id];
      }
      key := kdf(Context(id), masterSecret);
      keyCache := keyCache[id := key];
    }

    method RevokeDevice(id: DeviceId)
      requires Valid()
      modifies this
      ensures Valid() && calls == old(calls) + [Revoke(id)]
      ensures keyCache == old(keyCache) - {id}
    {
      SamePrefix(calls, Revoke(id), |calls|);
      calls := calls + [Revoke(id)];
      keyCache := keyCache - {id};
    }

    method ClearCache()
      requires Valid()
      modifies this
      ensures Valid() && calls == old(calls) + [Clear]
      ensures keyCache == map[]
    {
      SamePrefix(calls, Clear, |calls|);
      calls := calls + [Clear];
      keyCache := map[];
    }

    method CachedKeyCount() returns (count: nat)
      requires Valid()
      ensures count == |Cached(calls, |calls|)| == |keyCache|
    {
      assert |keyCache| == |keyCache.Keys|;
      count := |keyCache|;
    }
  }
}
