/**
  `CacheService` of the backend with Redis switched off or unreachable: a
  dictionary from keys to values held in memory and updated in place. A
  stored value may itself be Python's `None`, so values are `Option<V>`.
*/
module Cache {
  import opened Wrappers
  import opened Text

  /**
    Whether the service talks to Redis: `REDIS_ENABLED` (default "false")
    must say "true" in any case, `REDIS_URL` must be set and non-empty, and
    the connection test must pass; any failure falls back to memory.
  */
  function RedisUsed(redisEnabled: Option<string>, redisUrl: Option<string>, connects: bool): (used: bool)
    ensures used <==> redisEnabled.Some? && Lower(redisEnabled.value) == "true" && redisUrl.Some? && redisUrl.value != "" && connects
  {
    var flag := if redisEnabled.Some? then redisEnabled.value else "false";
    assert Lower("false") != "true" by {
      assert |Lower("false")| == 5;
    }
    Lower(flag) == "true" && redisUrl.Some? && redisUrl.value != "" && connects
  }

  /** `dict.get(key)`: the stored value, `None` for a missing key. */
  function Lookup<V>(m: map<string, Option<V>>, key: string): (v: Option<V>)
    ensures key !in m ==> v == None
    ensures key in m ==> v == m[key]
  {
    if key in m then m[key] else None
  }

  /** The cache of the backend, on its in-memory path. */
  class CacheService<V> {
    /** Whether Redis serves the cache; fixed when the service is built. */
    const enabled: bool
    /** The in-memory dictionary. */
    var memory: map<string, Option<V>>

    /** A new service: it decides once whether Redis is used and starts with an empty dictionary; it never fails. */
    constructor (redisEnabled: Option<string>, redisUrl: Option<string>, connects: bool)
      ensures enabled == RedisUsed(redisEnabled, redisUrl, connects) && memory == map[]
    {
      enabled := RedisUsed(redisEnabled, redisUrl, connects);
      memory := map[];
    }

    /** `get`: the value stored under `key`, `None` when there is none. */
    method Get(key: string) returns (v: Option<V>)
      requires !enabled
      ensures v == Lookup(memory, key)
    {
      if key in memory {
        v := memory[key];
      } else {
        v := None;
      }
    }

    /** `set`: stores `value` under `key`; the time to live is ignored in memory, and the call always succeeds. */
    method Set(key: string, value: Option<V>, ttl: int) returns (ok: bool)
      requires !enabled
      modifies this
      ensures ok && memory == old(memory)[key := value]
    {
      memory := memory[key := value];
      ok := true;
    }

    /** `delete`: removes `key` if it is there and succeeds either way. */
    method Delete(key: string) returns (ok: bool)
      requires !enabled
      modifies this
      ensures ok && memory == old(memory) - {key}
    {
      if key in memory {
        memory := memory - {key};
      }
      ok := true;
    }

    /** `clear`: empties the dictionary. */
    method Clear() returns (ok: bool)
      requires !enabled
      modifies this
      ensures ok && memory == map[]
    {
      memory := map[];
      ok := true;
    }

    /** `exists`: whether `key` is stored, even with a `None` value. */
    method Exists(key: string) returns (b: bool)
      requires !enabled
      ensures b <==> key in memory
    {
      b := key in memory;
    }

    /**
      `get_many`: the keys among `keys` whose value is not `None`, each with
      its value; a key stored with `None` is left out like a missing one.
    */
    method GetMany(keys: seq<string>) returns (result: map<string, V>)
      requires !enabled
      ensures forall k :: k in result <==> k in keys && Lookup(memory, k).Some?
      ensures forall k :: k in result ==> Lookup(memory, k) == Some(result[k])
    {
      result := map[];
      for i := 0 to |keys|
        invariant forall k :: k in result <==> k in keys[..i] && Lookup(memory, k).Some?
        invariant forall k :: k in result ==> Lookup(memory, k) == Some(result[k])
      {
        assert keys[..i + 1] == keys[..i] + [keys[i]];
        var value := Get(keys[i]);
        if value.Some? {
          result := result[keys[i] := value.value];
        }
      }
      assert keys[..|keys|] == keys;
    }

    /**
      `set_many`: stores every pair of `mapping` through `set`; it succeeds
      when every `set` does, which in memory is always.
    */
    method SetMany(mapping: map<string, Option<V>>, ttl: int) returns (success: bool)
      requires !enabled
      modifies this
      ensures success && memory == old(memory) + mapping
    {
      success := true;
      var pending := mapping.Keys;
      ghost var done: set<string> := {};
      while pending != {}
        invariant pending + done == mapping.Keys && pending !! done
        invariant memory == old(memory) + map k | k in done :: mapping[k]
        invariant success
        decreases pending
      {
        var key :| key in pending;
        var ok := Set(key, mapping[key], ttl);
        if !ok {
          success := false;
        }
        ghost var before := done;
        pending := pending - {key};
        done := done + {key};
        assert (map k | k in done :: mapping[k]) == (map k | k in before :: mapping[k])[key := mapping[key]];
      }
      assert (map k | k in done :: mapping[k]) == mapping;
    }
  }

  /** An operation that changes the dictionary. */
  datatype Op<V> = Put(key: string, value: Option<V>) | Remove(key: string) | Wipe

  /** The dictionary after one operation, as `set`, `delete` and `clear` leave it. */
  function Apply<V>(m: map<string, Option<V>>, op: Op<V>): (r: map<string, Option<V>>)
    ensures op.Put? ==> r == m[op.key := op.value]
    ensures op.Remove? ==> r == m - {op.key}
    ensures op.Wipe? ==> r == map[]
  {
    match op
    case Put(k, v) => m[k := v]
    case Remove(k) => m - {k}
    case Wipe => map[]
  }

  /** The dictionary after a run of operations, in order. */
  function Run<V>(m: map<string, Option<V>>, ops: seq<Op<V>>): map<string, Option<V>>
    decreases |ops|
  {
    if |ops| == 0 then m else Apply(Run(m, ops[..|ops| - 1]), ops[|ops| - 1])
  }

  /**
    What `get(key)` should see after a run of operations: the value of the
    last write of `key` when the last operation touching it is a `set`,
    `None` when it is a `delete` or a `clear`, and the starting value when no
    operation touches it.
  */
  function Latest<V>(m: map<string, Option<V>>, ops: seq<Op<V>>, key: string): Option<V>
    decreases |ops|
  {
    if |ops| == 0 then Lookup(m, key)
    else
      match ops[|ops| - 1]
      case Put(k, v) => if k == key then v else Latest(m, ops[..|ops| - 1], key)
      case Remove(k) => if k == key then None else Latest(m, ops[..|ops| - 1], key)
      case Wipe => None
  }

  /** After any run of operations, `get(key)` returns the latest write of `key`, or `None` after a delete or clear. */
  lemma {:induction false} RunLookup<V>(m: map<string, Option<V>>, ops: seq<Op<V>>, key: string)
    ensures Lookup(Run(m, ops), key) == Latest(m, ops, key)
    decreases |ops|
  {
    if |ops| > 0 {
      RunLookup(m, ops[..|ops| - 1], key);
    }
  }

  /** A set then a get returns the value set; the other keys keep their values. */
  lemma SetThenGet<V>(m: map<string, Option<V>>, key: string, value: Option<V>, other: string)
    ensures Lookup(m[key := value], key) == value
    ensures other != key ==> Lookup(m[key := value], other) == Lookup(m, other)
  {
  }

  /** After a delete, get returns `None` for that key; the other keys keep their values. */
  lemma DeleteThenGet<V>(m: map<string, Option<V>>, key: string, other: string)
    ensures Lookup(m - {key}, key) == None && key !in m - {key}
    ensures other != key ==> Lookup(m - {key}, other) == Lookup(m, other) && (other in m - {key} <==> other in m)
  {
  }

  /** After `set_many`, every key of the mapping holds its value and the other keys keep theirs. */
  lemma SetManyThenGet<V>(m: map<string, Option<V>>, mapping: map<string, Option<V>>, key: string)
    ensures key in mapping ==> Lookup(m + mapping, key) == mapping[key]
    ensures key !in mapping ==> Lookup(m + mapping, key) == Lookup(m, key)
  {
  }
}
