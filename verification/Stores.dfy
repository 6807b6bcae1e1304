/** The map store and the store that prefixes its keys. */
module Stores {
  import opened Bits
  import opened Keys
  import opened Seqs
  import opened Wrappers

  type Value = seq<Byte>

  datatype DataStoreError = NotFound(key: string)

  class MapDataStore {
    var values: map<Key, Value>

    constructor ()
      ensures values == map[]
    {
      values := map[];
    }

    method Get(key: Key) returns (r: Result<Value, DataStoreError>)
      ensures r == if key in values then Ok(values[key]) else Err(NotFound(key))
    {
      if key in values {
        return Ok(values[key]);
      }
      return Err(NotFound(key));
    }

    method Has(key: Key) returns (b: bool)
      ensures b <==> key in values
    {
      b := key in values;
    }

    method Size(key: Key) returns (r: Result<nat, DataStoreError>)
      ensures r == if key in values then Ok(|values[key]|) else Err(NotFound(key))
    {
      if key in values {
        return Ok(|values[key]|);
      }
      return Err(NotFound(key));
    }

    method Put(key: Key, value: Value)
      modifies this
      ensures values == old(values)[key := value]
    {
      values := values[key := value];
    }

    method Delete(key: Key)
      modifies this
      ensures values == old(values) - {key}
    {
      values := values - {key};
    }
  }

  // ---- the prefix transform -----------------------------------------------------------------

  /** `convert_key`; `None` would be a panic. */
  function Convert(pathClean: string -> string, prefix: Key, key: Key): (k: Option<Key>) {
    Child(pathClean, prefix, key)
  }

  /** `invert_key`; `None` is the panic "expected prefix not found", or one of `new_unchecked`. */
  function Invert(prefix: Key, key: Key): (k: Option<Key>) {
    if IsRoot(prefix) then Some(key)
    else if IsAncestorOf(prefix, key) then NewUnchecked(key[|prefix|..])
    else None
  }

  /** Converting never panics; inverting gives the key back exactly when the prefix or the key is not the root
      on its own: the root under a proper prefix is the one key that cannot be inverted. */
  lemma InvertConvert(pathClean: string -> string, prefix: Key, key: Key)
    requires CleanContract(pathClean) && Canonical(prefix) && Canonical(key)
    ensures Convert(pathClean, prefix, key).Some?
    ensures Canonical(Convert(pathClean, prefix, key).value)
    ensures Invert(prefix, Convert(pathClean, prefix, key).value) == Some(key)
        <==> IsRoot(prefix) || !IsRoot(key)
  {
    hide CleanContract, List, Render, IsAncestorOf, NewUnchecked, New;
    ChildConcat(pathClean, prefix, key);
    if IsRoot(prefix) {
      NewCanonical(pathClean, key);
    } else if IsRoot(key) {
      NotOwnAncestor(prefix);
    } else {
      InvertJoined(prefix, key);
    }
  }

  lemma NotOwnAncestor(k: Key)
    ensures !IsAncestorOf(k, k)
  {
  }

  /** Off the root, joining is concatenation, and cutting the prefix off again gives the key. */
  lemma InvertJoined(prefix: Key, key: Key)
    requires Canonical(prefix) && Canonical(key) && !IsRoot(prefix) && !IsRoot(key)
    ensures NewUnchecked(prefix + key) == Some(prefix + key)
    ensures Invert(prefix, prefix + key) == Some(key)
  {
    hide List, Slashed;
    RenderList(prefix);
    RenderList(key);
    LastNotSlash(List(prefix));
    LastNotSlash(List(key));
    var k := prefix + key;
    assert k[|prefix|..] == key && k[..|prefix|] == prefix;
  }

  /** Inverting panics exactly on the keys that are not below a prefix other than the root. */
  lemma InvertPanicIff(prefix: Key, key: Key)
    requires Canonical(prefix) && Canonical(key)
    ensures Invert(prefix, key).None? <==> List(prefix) != [] && !(List(prefix) < List(key))
  {
    hide Canonical, List, Render, IsAncestorOf;
    RenderList(prefix);
    AncestorIffPrefix(prefix, key);
    RootIff(prefix);
    if !IsRoot(prefix) && IsAncestorOf(prefix, key) { BelowIsKey(prefix, key); }
  }

  lemma RootIff(k: Key)
    requires Canonical(k)
    ensures IsRoot(k) <==> List(k) == []
  {
    RenderList(k);
    if List(k) != [] { LastNotSlash(List(k)); }
  }

  /** What is left of a key below a prefix is a key. */
  lemma BelowIsKey(prefix: Key, key: Key)
    requires Canonical(prefix) && Canonical(key) && !IsRoot(prefix) && IsAncestorOf(prefix, key)
    ensures NewUnchecked(key[|prefix|..]).Some?
  {
    RenderList(key);
    var rest := key[|prefix|..];
    assert rest[0] == '/' && rest[|rest| - 1] == key[|key| - 1];
    if List(key) != [] { LastNotSlash(List(key)); }
  }

  /** Different keys stay different. */
  lemma ConvertInjective(pathClean: string -> string, prefix: Key, k1: Key, k2: Key)
    requires CleanContract(pathClean) && Canonical(prefix) && Canonical(k1) && Canonical(k2)
    requires Convert(pathClean, prefix, k1) == Convert(pathClean, prefix, k2)
    ensures k1 == k2
  {
    ConvertList(pathClean, prefix, k1);
    ConvertList(pathClean, prefix, k2);
    var a := List(prefix);
    assert (a + List(k1))[|a|..] == List(k1) && (a + List(k2))[|a|..] == List(k2);
    RenderList(k1);
    RenderList(k2);
  }

  lemma ConvertList(pathClean: string -> string, prefix: Key, key: Key)
    requires CleanContract(pathClean) && Canonical(prefix) && Canonical(key)
    ensures Convert(pathClean, prefix, key).Some?
    ensures List(Convert(pathClean, prefix, key).value) == List(prefix) + List(key)
  {
    ChildConcat(pathClean, prefix, key);
    RenderList(prefix);
    RenderList(key);
    assert Components(List(prefix) + List(key));
    ListRender(List(prefix) + List(key));
  }

  /** A converted key lies at the prefix or below it, and every canonical key there is a converted one. */
  lemma ConvertRange(pathClean: string -> string, prefix: Key, s: Key)
    requires CleanContract(pathClean) && Canonical(prefix) && Canonical(s)
    ensures (exists key :: Canonical(key) && Convert(pathClean, prefix, key) == Some(s))
        <==> s == prefix || IsAncestorOf(prefix, s)
  {
    AncestorIffPrefix(prefix, s);
    RenderList(prefix);
    RenderList(s);
    var a, c := List(prefix), List(s);
    if s == prefix || IsAncestorOf(prefix, s) {
      var rest := c[|a|..];
      assert a + rest == c && Components(rest);
      var key := Render(rest);
      assert Canonical(key);
      ListRender(rest);
      ChildConcat(pathClean, prefix, key);
    } else {
      forall key | Canonical(key)
        ensures Convert(pathClean, prefix, key) != Some(s)
      {
        ConvertList(pathClean, prefix, key);
      }
    }
  }

  // ---- the transformed store ----------------------------------------------------------------

  /** What the prefixed store holds under `key`. */
  function Lookup(pathClean: string -> string, values: map<Key, Value>, prefix: Key, key: Key): (v: Option<Value>) {
    match Convert(pathClean, prefix, key)
    case None => None
    case Some(k) => if k in values then Some(values[k]) else None
  }

  /** A write through one prefixed store is a map update of that store. */
  lemma PutIsMapUpdate(pathClean: string -> string, values: map<Key, Value>, prefix: Key, key: Key, value: Value, other: Key)
    requires CleanContract(pathClean) && Canonical(prefix) && Canonical(key) && Canonical(other)
    ensures
      var k := Convert(pathClean, prefix, key);
      && k.Some?
      && Lookup(pathClean, values[k.value := value], prefix, other)
         == (if other == key then Some(value) else Lookup(pathClean, values, prefix, other))
      && Lookup(pathClean, values - {k.value}, prefix, other)
         == (if other == key then None else Lookup(pathClean, values, prefix, other))
  {
    ConvertList(pathClean, prefix, key);
    ConvertList(pathClean, prefix, other);
    if other != key && Convert(pathClean, prefix, other) == Convert(pathClean, prefix, key) {
      ConvertInjective(pathClean, prefix, key, other);
    }
  }

  /** Neither prefix lies at or below the other. */
  predicate Incomparable(p: Key, q: Key) {
    p != q && !IsAncestorOf(p, q) && !IsAncestorOf(q, p)
  }

  /** Stores under incomparable prefixes share no key, so neither sees the other's writes. */
  lemma PrefixesDisjoint(pathClean: string -> string, values: map<Key, Value>, p: Key, q: Key, key: Key, other: Key, value: Value)
    requires CleanContract(pathClean) && Canonical(p) && Canonical(q) && Canonical(key) && Canonical(other)
    requires Incomparable(p, q)
    ensures
      var k := Convert(pathClean, p, key);
      && k.Some? && k != Convert(pathClean, q, other)
      && Lookup(pathClean, values[k.value := value], q, other) == Lookup(pathClean, values, q, other)
      && Lookup(pathClean, values - {k.value}, q, other) == Lookup(pathClean, values, q, other)
  {
    hide CleanContract, Canonical, Convert, IsAncestorOf, List, Render, Components;
    ConvertList(pathClean, p, key);
    ConvertList(pathClean, q, other);
    AncestorIffPrefix(p, q);
    AncestorIffPrefix(q, p);
    RenderList(p);
    RenderList(q);
    CommonPrefix(List(p), List(key), List(q), List(other));
  }

  /** Stores under two prefixes share no key exactly when neither prefix lies at or below the other. */
  lemma PrefixesDisjointIff(pathClean: string -> string, p: Key, q: Key)
    requires CleanContract(pathClean) && Canonical(p) && Canonical(q)
    ensures Incomparable(p, q) <==>
      forall key, other :: Canonical(key) && Canonical(other) ==>
        Convert(pathClean, p, key) != Convert(pathClean, q, other)
  {
    hide CleanContract, Canonical, Convert, IsAncestorOf;
    if Incomparable(p, q) {
      forall key, other | Canonical(key) && Canonical(other)
        ensures Convert(pathClean, p, key) != Convert(pathClean, q, other)
      {
        PrefixesDisjoint(pathClean, map[], p, q, key, other, []);
      }
    } else {
      // Whichever prefix lies at or below the other is a key of both stores.
      var shared := if p == q || IsAncestorOf(p, q) then q else p;
      ConvertRange(pathClean, p, shared);
      ConvertRange(pathClean, q, shared);
      var key :| Canonical(key) && Convert(pathClean, p, key) == Some(shared);
      var other :| Canonical(other) && Convert(pathClean, q, other) == Some(shared);
    }
  }

  /** A store whose keys all live under a prefix of another store. */
  class TransformDataStore {
    const pathClean: string -> string
    const prefix: Key
    const datastore: MapDataStore

    ghost predicate Valid() {
      CleanContract(pathClean) && Canonical(prefix)
    }

    ghost function At(key: Key): (v: Option<Value>)
      reads datastore
    {
      Lookup(pathClean, datastore.values, prefix, key)
    }

    constructor (pathClean: string -> string, prefix: Key, datastore: MapDataStore)
      requires CleanContract(pathClean) && Canonical(prefix)
      ensures Valid() && this.pathClean == pathClean && this.prefix == prefix && this.datastore == datastore
    {
      this.pathClean, this.prefix, this.datastore := pathClean, prefix, datastore;
    }

    method ConvertKey(key: Key) returns (k: Key)
      requires Valid() && Canonical(key)
      ensures Convert(pathClean, prefix, key) == Some(k)
    {
      InvertConvert(pathClean, prefix, key);
      k := Convert(pathClean, prefix, key).value;
    }

    method Get(key: Key) returns (r: Result<Value, DataStoreError>)
      requires Valid() && Canonical(key)
      ensures
        match At(key)
        case Some(value) => r == Ok(value)
        case None => Convert(pathClean, prefix, key).Some? && r == Err(NotFound(Convert(pathClean, prefix, key).value))
    {
      var k := ConvertKey(key);
      r := datastore.Get(k);
    }

    method Has(key: Key) returns (b: bool)
      requires Valid() && Canonical(key)
      ensures b <==> At(key).Some?
    {
      var k := ConvertKey(key);
      b := datastore.Has(k);
    }

    method Size(key: Key) returns (r: Result<nat, DataStoreError>)
      requires Valid() && Canonical(key)
      ensures
        match At(key)
        case Some(value) => r == Ok(|value|)
        case None => Convert(pathClean, prefix, key).Some? && r == Err(NotFound(Convert(pathClean, prefix, key).value))
    {
      var k := ConvertKey(key);
      r := datastore.Size(k);
    }

    method Put(key: Key, value: Value)
      requires Valid() && Canonical(key)
      modifies datastore
      ensures forall k :: Canonical(k) ==> At(k) == if k == key then Some(value) else old(At(k))
      ensures forall s :: s != prefix && !IsAncestorOf(prefix, s) ==>
        (s in datastore.values <==> s in old(datastore.values))
        && (s in datastore.values ==> datastore.values[s] == old(datastore.values)[s])
    {
      var k := ConvertKey(key);
      ghost var before := datastore.values;
      datastore.Put(k, value);
      WriteFrame(key, k);
      forall other | Canonical(other)
        ensures At(other) == if other == key then Some(value) else old(At(other))
      {
        PutIsMapUpdate(pathClean, before, prefix, key, value, other);
      }
    }

    method Delete(key: Key)
      requires Valid() && Canonical(key)
      modifies datastore
      ensures forall k :: Canonical(k) ==> At(k) == if k == key then None else old(At(k))
      ensures forall s :: s != prefix && !IsAncestorOf(prefix, s) ==>
        (s in datastore.values <==> s in old(datastore.values))
        && (s in datastore.values ==> datastore.values[s] == old(datastore.values)[s])
    {
      var k := ConvertKey(key);
      ghost var before := datastore.values;
      datastore.Delete(k);
      WriteFrame(key, k);
      forall other | Canonical(other)
        ensures At(other) == if other == key then None else old(At(other))
      {
        PutIsMapUpdate(pathClean, before, prefix, key, [], other);
      }
    }

    lemma WriteFrame(key: Key, k: Key)
      requires Valid() && Canonical(key) && Convert(pathClean, prefix, key) == Some(k)
      ensures k == prefix || IsAncestorOf(prefix, k)
    {
      ChildConcat(pathClean, prefix, key);
      ConvertRange(pathClean, prefix, k);
    }
  }
}
