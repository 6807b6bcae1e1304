/** Deferred writes: a coalescing map of operations, an ordered log of operations, and how they agree. */
module Batches {
  import opened Keys
  import opened Stores

  datatype Op<+V> = Put(value: V) | Delete

  datatype KeyedOp<+K, +V> = KeyedOp(key: K, op: Op<V>)

  /** One operation on a store. */
  function ApplyOp<K, V>(store: map<K, V>, w: KeyedOp<K, V>): (r: map<K, V>) {
    match w.op
    case Put(v) => store[w.key := v]
    case Delete => store - {w.key}
  }

  /** Operations one after the other. */
  function ApplyLog<K, V>(store: map<K, V>, log: seq<KeyedOp<K, V>>): (r: map<K, V>) {
    if log == [] then store else ApplyOp(ApplyLog(store, log[..|log| - 1]), log[|log| - 1])
  }

  /** The last operation on each key. */
  function Coalesce<K, V>(log: seq<KeyedOp<K, V>>): (ops: map<K, Op<V>>) {
    if log == [] then map[] else Coalesce(log[..|log| - 1])[log[|log| - 1].key := log[|log| - 1].op]
  }

  /** A store with one operation a key laid over it. */
  function Overlay<K, V>(store: map<K, V>, ops: map<K, Op<V>>): (r: map<K, V>) {
    map k | k in store.Keys + ops.Keys && (k in ops ==> ops[k].Put?) :: if k in ops then ops[k].value else store[k]
  }

  /** Keeping only the last operation on each key loses nothing. */
  lemma {:induction false} CoalesceAgrees<K, V>(store: map<K, V>, log: seq<KeyedOp<K, V>>)
    ensures Overlay(store, Coalesce(log)) == ApplyLog(store, log)
  {
    if log != [] {
      var init, last := log[..|log| - 1], log[|log| - 1];
      CoalesceAgrees(store, init);
      OverlayStep(store, Coalesce(init), last);
    }
  }

  lemma OverlayStep<K, V>(store: map<K, V>, ops: map<K, Op<V>>, w: KeyedOp<K, V>)
    ensures Overlay(store, ops[w.key := w.op]) == ApplyOp(Overlay(store, ops), w)
  {
  }

  /** An order in which a hash map may be iterated: every entry once. */
  ghost predicate Iterates<K, V>(order: seq<KeyedOp<K, V>>, ops: map<K, Op<V>>) {
    && (forall i, j :: 0 <= i < j < |order| ==> order[i].key != order[j].key)
    && (forall i :: 0 <= i < |order| ==> order[i].key in ops && order[i].op == ops[order[i].key])
    && (forall k :: k in ops ==> exists i :: 0 <= i < |order| && order[i].key == k)
  }

  /** Committing the coalesced map in whatever order, replaying the log in its order and applying each
      operation directly give the same store. */
  lemma BatchEquivalence<K, V>(store: map<K, V>, log: seq<KeyedOp<K, V>>, order: seq<KeyedOp<K, V>>)
    requires Iterates(order, Coalesce(log))
    ensures ApplyLog(store, order) == ApplyLog(store, log) == Overlay(store, Coalesce(log))
  {
    CoalesceAgrees(store, log);
    CoalesceAgrees(store, order);
    CoalesceOrder(order, Coalesce(log));
  }

  lemma CoalesceOrder<K, V>(order: seq<KeyedOp<K, V>>, ops: map<K, Op<V>>)
    requires Iterates(order, ops)
    ensures Coalesce(order) == ops
  {
    CoalesceDistinct(order);
    forall k | k in ops
      ensures k in Coalesce(order) && Coalesce(order)[k] == ops[k]
    {
      var i :| 0 <= i < |order| && order[i].key == k;
    }
  }

  lemma {:induction false} CoalesceDistinct<K, V>(order: seq<KeyedOp<K, V>>)
    requires forall i, j :: 0 <= i < j < |order| ==> order[i].key != order[j].key
    ensures forall i :: 0 <= i < |order| ==> order[i].key in Coalesce(order) && Coalesce(order)[order[i].key] == order[i].op
    ensures forall k :: k in Coalesce(order) ==> exists i :: 0 <= i < |order| && order[i].key == k
  {
    if order != [] {
      var init, last := order[..|order| - 1], order[|order| - 1];
      CoalesceDistinct(init);
      forall k | k in Coalesce(order)
        ensures exists i :: 0 <= i < |order| && order[i].key == k
      {
        if k != last.key {
          assert k in Coalesce(init);
          var i :| 0 <= i < |init| && init[i].key == k;
          assert order[i].key == k;
        } else {
          assert order[|order| - 1].key == k;
        }
      }
    }
  }

  /** The stores agree on every key outside `keys`. */
  ghost predicate AgreeOutside<K(!new), V>(a: map<K, V>, b: map<K, V>, keys: set<K>) {
    forall k :: k !in keys ==> (k in a <==> k in b) && (k in a ==> a[k] == b[k])
  }

  /** What is under keys that will be written anyway does not matter. */
  lemma OverlayForgets<K(!new), V>(a: map<K, V>, b: map<K, V>, ops: map<K, Op<V>>)
    requires AgreeOutside(a, b, ops.Keys)
    ensures Overlay(a, ops) == Overlay(b, ops)
  {
    var x, y := Overlay(a, ops), Overlay(b, ops);
    assert x.Keys == y.Keys;
  }

  lemma {:induction false} CoalesceGrows<K, V>(log: seq<KeyedOp<K, V>>, more: seq<KeyedOp<K, V>>)
    ensures Coalesce(log).Keys <= Coalesce(log + more).Keys
  {
    if more == [] {
      assert log + more == log;
    } else {
      CoalesceGrows(log, more[..|more| - 1]);
      assert (log + more)[..|log + more| - 1] == log + more[..|more| - 1];
    }
  }

  /** A commit that broke off part-way and is repeated, even after more writes were batched, ends in the store
      that applying all the writes to the original store gives. */
  lemma RetryConverges<K(!new), V>(store: map<K, V>, broken: map<K, V>, log: seq<KeyedOp<K, V>>, more: seq<KeyedOp<K, V>>)
    requires AgreeOutside(store, broken, Coalesce(log).Keys)
    ensures Overlay(broken, Coalesce(log + more)) == ApplyLog(store, log + more)
  {
    CoalesceGrows(log, more);
    OverlayForgets(store, broken, Coalesce(log + more));
    CoalesceAgrees(store, log + more);
  }

  // ---- commits that fail --------------------------------------------------------------------

  /** An operation that changes nothing: the store holds the value already, or lacks the key already. */
  predicate NoChange<K, V(==)>(store: map<K, V>, w: KeyedOp<K, V>) {
    match w.op
    case Put(v) => w.key in store && store[w.key] == v
    case Delete => w.key !in store
  }

  lemma NoChangeIff<K, V>(store: map<K, V>, w: KeyedOp<K, V>)
    ensures NoChange(store, w) <==> ApplyOp(store, w) == store
  {
    match w.op
    case Put(v) => assert w.key in store[w.key := v] && store[w.key := v][w.key] == v;
    case Delete => assert w.key !in store - {w.key};
  }

  /** Operations laid over a store leave it as it was exactly when each changes nothing. */
  lemma OverlayIdentityIff<K, V>(store: map<K, V>, ops: map<K, Op<V>>)
    ensures Overlay(store, ops) == store <==> forall k :: k in ops ==> NoChange(store, KeyedOp(k, ops[k]))
  {
    var r := Overlay(store, ops);
    if r == store {
      forall k | k in ops
        ensures NoChange(store, KeyedOp(k, ops[k]))
      {
        assert k in r <==> ops[k].Put?;
      }
    }
    if forall k :: k in ops ==> NoChange(store, KeyedOp(k, ops[k])) {
      assert forall k :: k in r <==> k in store;
      assert forall k :: k in r ==> r[k] == store[k];
    }
  }

  /** Writes that went through before anything else are undone by forgetting the batch exactly when the last one on
      each key changes nothing. */
  lemma WrittenIff<K, V>(store: map<K, V>, written: seq<KeyedOp<K, V>>)
    ensures ApplyLog(store, written) == store
        <==> forall k :: k in Coalesce(written) ==> NoChange(store, KeyedOp(k, Coalesce(written)[k]))
  {
    CoalesceAgrees(store, written);
    OverlayIdentityIff(store, Coalesce(written));
  }

  /** A commit that failed after `n` writes has left the store as it was exactly when each of them changes nothing. */
  lemma FailedCommitIff<K, V>(store: map<K, V>, ops: map<K, Op<V>>, order: seq<KeyedOp<K, V>>, n: nat)
    requires Iterates(order, ops) && n <= |order|
    ensures ApplyLog(store, order[..n]) == store <==> forall i :: 0 <= i < n ==> NoChange(store, order[i])
  {
    var written := order[..n];
    WrittenIff(store, written);
    CoalesceDistinct(written);
    if forall i :: 0 <= i < n ==> NoChange(store, order[i]) {
      forall k | k in Coalesce(written)
        ensures NoChange(store, KeyedOp(k, Coalesce(written)[k]))
      {
        var i :| 0 <= i < |written| && written[i].key == k;
        assert written[i] == order[i] == KeyedOp(k, Coalesce(written)[k]);
      }
    }
    if ApplyLog(store, written) == store {
      forall i | 0 <= i < n
        ensures NoChange(store, order[i])
      {
        assert written[i] == order[i];
        assert order[i] == KeyedOp(order[i].key, Coalesce(written)[order[i].key]);
      }
    }
  }

  /** With single writes that fail cleanly, discarding after a failed commit restores the store whatever the iteration
      order and the place of the failure exactly when at most one key is batched, or the batch changes nothing. */
  lemma DiscardRestoresIff<K(!new), V(!new)>(store: map<K, V>, log: seq<KeyedOp<K, V>>)
    ensures (forall order, n :: Fails(order, n, Coalesce(log)) ==> ApplyLog(store, order[..n]) == store)
        <==> |Coalesce(log)| <= 1 || ApplyLog(store, log) == store
  {
    var ops := Coalesce(log);
    CoalesceAgrees(store, log);
    OverlayIdentityIff(store, ops);
    if |ops| <= 1 || ApplyLog(store, log) == store {
      forall order, n | Fails(order, n, ops)
        ensures ApplyLog(store, order[..n]) == store
      {
        FailedCommitIff(store, ops, order, n);
        if |ops| <= 1 { OrderLength(order, ops); }
      }
    } else {
      var k :| k in ops && !NoChange(store, KeyedOp(k, ops[k]));
      var order := OrderFrom([], ops, k);
      OrderLength(order, ops);
      assert Fails(order, 1, ops);
      FailedCommitIff(store, ops, order, 1);
      assert order[0] == KeyedOp(k, ops[k]);
    }
  }

  /** Writing `ops` in this order fails after `n` writes, with one at least not done. */
  ghost predicate Fails<K, V>(order: seq<KeyedOp<K, V>>, n: int, ops: map<K, Op<V>>) {
    Iterates(order, ops) && 0 <= n < |order|
  }

  ghost function KeysOf<K, V>(order: seq<KeyedOp<K, V>>): (ks: set<K>) {
    set w | w in order :: w.key
  }

  lemma {:induction false} OrderLength<K, V>(order: seq<KeyedOp<K, V>>, ops: map<K, Op<V>>)
    requires Iterates(order, ops)
    ensures |order| == |ops|
  {
    DistinctKeys(order);
    assert KeysOf(order) == ops.Keys;
  }

  lemma {:induction false} DistinctKeys<K, V>(order: seq<KeyedOp<K, V>>)
    requires forall i, j :: 0 <= i < j < |order| ==> order[i].key != order[j].key
    ensures |KeysOf(order)| == |order|
  {
    if order != [] {
      var init, last := order[..|order| - 1], order[|order| - 1];
      DistinctKeys(init);
      assert order == init + [last];
      assert KeysOf(order) == KeysOf(init) + {last.key};
      assert last.key !in KeysOf(init);
    }
  }

  /** Entries of `ops` on different keys. */
  ghost predicate Begins<K, V>(done: seq<KeyedOp<K, V>>, ops: map<K, Op<V>>) {
    && (forall i, j :: 0 <= i < j < |done| ==> done[i].key != done[j].key)
    && (forall i :: 0 <= i < |done| ==> done[i].key in ops && done[i].op == ops[done[i].key])
  }

  /** An iteration that begins so can go on with any key left. */
  lemma OrderFrom<K, V>(done: seq<KeyedOp<K, V>>, ops: map<K, Op<V>>, k: K) returns (order: seq<KeyedOp<K, V>>)
    requires Begins(done, ops) && k in ops && k !in KeysOf(done)
    ensures Iterates(order, ops) && |done| < |order|
    ensures order[..|done|] == done && order[|done|] == KeyedOp(k, ops[k])
  {
    var next := done + [KeyedOp(k, ops[k])];
    BeginsNext(done, ops, k);
    order := Completed(next, ops);
    assert order[..|done|] == order[..|next|][..|done|] == done;
    assert order[|done|] == order[..|next|][|done|];
  }

  lemma BeginsNext<K, V>(done: seq<KeyedOp<K, V>>, ops: map<K, Op<V>>, k: K)
    requires Begins(done, ops) && k in ops && k !in KeysOf(done)
    ensures Begins(done + [KeyedOp(k, ops[k])], ops)
    ensures KeysOf(done + [KeyedOp(k, ops[k])]) == KeysOf(done) + {k}
  {
    var next := done + [KeyedOp(k, ops[k])];
    forall i | 0 <= i < |done|
      ensures done[i].key != k
    {
      assert done[i] in done;
    }
    assert next[|done|] in next;
    assert forall w :: w in next <==> w in done || w == KeyedOp(k, ops[k]);
  }

  lemma {:induction false} Completed<K, V>(done: seq<KeyedOp<K, V>>, ops: map<K, Op<V>>) returns (order: seq<KeyedOp<K, V>>)
    requires Begins(done, ops)
    ensures Iterates(order, ops) && done <= order
    decreases ops.Keys - KeysOf(done)
  {
    if k :| k in ops && k !in KeysOf(done) {
      BeginsNext(done, ops, k);
      order := Completed(done + [KeyedOp(k, ops[k])], ops);
    } else {
      order := done;
      forall k | k in ops
        ensures exists i :: 0 <= i < |order| && order[i].key == k
      {
        assert k in KeysOf(done);
        var w :| w in done && w.key == k;
      }
    }
  }

  /** Two puts, the first written before the commit fails: it stays in the store after a discard. */
  lemma DiscardLeavesWrite(a: Key, b: Key, value: Value)
    requires a != b
    ensures
      var order: seq<KeyedOp<Key, Value>> := [KeyedOp(a, Op.Put(value)), KeyedOp(b, Op.Put(value))];
      && Fails(order, 1, Coalesce(order))
      && ApplyLog(map[], order[..1]) == map[a := value] != map[]
  {
    var order: seq<KeyedOp<Key, Value>> := [KeyedOp(a, Op.Put(value)), KeyedOp(b, Op.Put(value))];
    CoalesceDistinct(order);
    forall k | k in Coalesce(order)
      ensures exists i :: 0 <= i < |order| && order[i].key == k
    {
    }
    assert order[..1][..0] == [] && order[..1][0] == order[0];
    assert a in map[a := value];
  }

  /** A store whose single writes can fail; a failed write may leave any value under its own key. */
  class FallibleStore {
    var values: map<Key, Value>

    method Apply(key: Key, op: Op<Value>) returns (ok: bool, ghost torn: seq<KeyedOp<Key, Value>>)
      modifies this
      ensures ok ==> torn == [] && values == ApplyOp(old(values), KeyedOp(key, op))
      ensures !ok ==> values == ApplyLog(old(values), torn)
      ensures |torn| <= 1 && forall w :: w in torn ==> w.key == key
    {
      ok := *;
      torn := [];
      if ok {
        values := ApplyOp(values, KeyedOp(key, op));
      } else {
        var tears: bool := *;
        var value: Value := *;
        if tears {
          values := values[key := value];
          torn := [KeyedOp(key, Op.Put(value))];
          assert torn[..0] == [];
        }
      }
    }
  }

  lemma {:induction false} ApplyLogConcat<K, V>(store: map<K, V>, a: seq<KeyedOp<K, V>>, b: seq<KeyedOp<K, V>>)
    ensures ApplyLog(store, a + b) == ApplyLog(ApplyLog(store, a), b)
  {
    if b == [] {
      assert a + b == a;
    } else {
      ApplyLogConcat(store, a, b[..|b| - 1]);
      assert (a + b)[..|a + b| - 1] == a + b[..|b| - 1];
    }
  }

  lemma {:induction false} ApplyLogOutside<K(!new), V>(store: map<K, V>, written: seq<KeyedOp<K, V>>, keys: set<K>)
    requires KeysOf(written) <= keys
    ensures AgreeOutside(store, ApplyLog(store, written), keys)
  {
    if written != [] {
      var init, last := written[..|written| - 1], written[|written| - 1];
      assert last in written && forall w :: w in init ==> w in written;
      assert last.key in KeysOf(written) && KeysOf(init) <= KeysOf(written);
      ApplyLogOutside(store, init, keys);
    }
  }

  /** What a failed commit wrote: the entries of `ops` before the `n`th of some order, and perhaps a torn value under
      the key of the `n`th. */
  ghost predicate WroteBefore(order: seq<KeyedOp<Key, Value>>, n: int, torn: seq<KeyedOp<Key, Value>>,
                              ops: map<Key, Op<Value>>, wrote: seq<KeyedOp<Key, Value>>) {
    && Fails(order, n, ops)
    && wrote == order[..n] + torn
    && |torn| <= 1 && forall w :: w in torn ==> w.key == order[n].key
  }

  /** `written` has become `written'` by a failed commit of `ops`. */
  ghost predicate FailedCommit(ops: map<Key, Op<Value>>, written: seq<KeyedOp<Key, Value>>, written': seq<KeyedOp<Key, Value>>) {
    exists order, n, torn, wrote :: WroteBefore(order, n, torn, ops, wrote) && written' == written + wrote
  }

  lemma NothingWritten(store: map<Key, Value>, ops: map<Key, Op<Value>>)
    ensures ApplyLog(store, []) == store && Begins([], ops) && KeysOf<Key, Value>([]) == {}
    ensures Coalesce<Key, Value>([]) == map[]
  {
  }

  lemma ApplySnoc(store: map<Key, Value>, done: seq<KeyedOp<Key, Value>>, w: KeyedOp<Key, Value>)
    ensures ApplyLog(store, done + [w]) == ApplyOp(ApplyLog(store, done), w)
  {
    assert (done + [w])[..|done|] == done;
  }

  /** `BasicBatchDataStore`, and `BasicTxnDataStore` with its `discard`. */
  class BasicBatchDataStore {
    var ops: map<Key, Op<Value>>
    const datastore: FallibleStore
    /** The store when the batch was last empty, what was batched since, and what failed commits have written since. */
    ghost var base: map<Key, Value>
    ghost var log: seq<KeyedOp<Key, Value>>
    ghost var written: seq<KeyedOp<Key, Value>>

    ghost predicate Valid()
      reads this, datastore
    {
      && ops == Coalesce(log)
      && KeysOf(written) <= ops.Keys
      && datastore.values == ApplyLog(base, written)
    }

    constructor (datastore: FallibleStore)
      ensures Valid() && this.datastore == datastore && base == datastore.values && log == [] && written == []
    {
      this.datastore := datastore;
      ops, base, log, written := map[], datastore.values, [], [];
    }

    method Put(key: Key, value: Value)
      requires Valid()
      modifies this
      ensures Valid() && base == old(base) && written == old(written)
      ensures log == old(log) + [KeyedOp(key, Op.Put(value))]
    {
      ops := ops[key := Op.Put(value)];
      log := log + [KeyedOp(key, Op.Put(value))];
    }

    method Delete(key: Key)
      requires Valid()
      modifies this
      ensures Valid() && base == old(base) && written == old(written)
      ensures log == old(log) + [KeyedOp(key, Op.Delete)]
    {
      ops := ops[key := Op.Delete];
      log := log + [KeyedOp(key, Op.Delete)];
    }

    /** However often it failed before, a commit that succeeds leaves the original store with every batched write
        applied in turn; one that fails has written some of the batch, and can be repeated. */
    method Commit() returns (ok: bool)
      requires Valid()
      modifies this, datastore
      ensures Valid()
      ensures ok ==> datastore.values == ApplyLog(old(base), old(log)) && log == [] && base == datastore.values && written == []
      ensures !ok ==> base == old(base) && log == old(log)
      ensures !ok ==> FailedCommit(old(ops), old(written), written)
    {
      hide Coalesce, Begins, ApplyLog, ApplyOp, KeysOf, FailedCommit;
      NothingWritten(datastore.values, ops);
      var todo := ops.Keys;
      ghost var done: seq<KeyedOp<Key, Value>> := [];
      ghost var before := datastore.values;
      while todo != {}
        invariant todo <= ops.Keys && ops == old(ops) && base == old(base) && log == old(log) && written == old(written)
        invariant Begins(done, ops) && KeysOf(done) == ops.Keys - todo
        invariant datastore.values == ApplyLog(before, done)
        decreases todo
      {
        var key :| key in todo;
        ghost var torn;
        ok, torn := datastore.Apply(key, ops[key]);
        if !ok {
          RecordFailure(done, key, torn);
          return;
        }
        BeginsNext(done, ops, key);
        ApplySnoc(before, done, KeyedOp(key, ops[key]));
        done := done + [KeyedOp(key, ops[key])];
        todo := todo - {key};
      }
      Committed(base, log, before, done, written);
      NothingWritten(datastore.values, map[]);
      ops := map[];
      base, log, written := datastore.values, [], [];
      return true;
    }

    ghost method RecordFailure(done: seq<KeyedOp<Key, Value>>, key: Key, torn: seq<KeyedOp<Key, Value>>)
      requires ops == Coalesce(log) && KeysOf(written) <= ops.Keys
      requires Begins(done, ops) && key in ops && key !in KeysOf(done)
      requires |torn| <= 1 && forall w :: w in torn ==> w.key == key
      requires datastore.values == ApplyLog(ApplyLog(ApplyLog(base, written), done), torn)
      modifies this`written
      ensures Valid()
      ensures FailedCommit(ops, old(written), written)
    {
      hide Coalesce, Begins, ApplyLog, KeysOf, Iterates;
      var order := OrderFrom(done, ops, key);
      var wrote := done + torn;
      assert WroteBefore(order, |done|, torn, ops, wrote);
      ApplyLogConcat(base, written, wrote);
      ApplyLogConcat(ApplyLog(base, written), done, torn);
      WroteKeys(written, done, torn, ops, key);
      written := written + wrote;
    }

    /** Drops what is batched. The store keeps what failed commits have written, so it is the original one exactly
        when the last write on each key changes nothing. */
    method Discard()
      requires Valid()
      modifies this
      ensures Valid() && log == [] && written == [] && base == datastore.values && ops == map[]
      ensures datastore.values == ApplyLog(old(base), old(written))
      ensures datastore.values == old(base)
          <==> forall k :: k in Coalesce(old(written)) ==> NoChange(old(base), KeyedOp(k, Coalesce(old(written))[k]))
    {
      WrittenIff(base, written);
      ops := map[];
      base, log, written := datastore.values, [], [];
    }
  }

  lemma WroteKeys(written: seq<KeyedOp<Key, Value>>, done: seq<KeyedOp<Key, Value>>, torn: seq<KeyedOp<Key, Value>>,
                  ops: map<Key, Op<Value>>, key: Key)
    requires KeysOf(written) <= ops.Keys && Begins(done, ops) && key in ops && forall w :: w in torn ==> w.key == key
    ensures KeysOf(written + (done + torn)) <= ops.Keys
  {
    forall w | w in written + (done + torn)
      ensures w.key in ops
    {
      if w in written { assert w.key in KeysOf(written); }
    }
  }

  /** Writing the whole batch over whatever failed commits left gives the original store with the log applied. */
  lemma Committed(base: map<Key, Value>, log: seq<KeyedOp<Key, Value>>, before: map<Key, Value>,
                  done: seq<KeyedOp<Key, Value>>, written: seq<KeyedOp<Key, Value>>)
    requires before == ApplyLog(base, written) && KeysOf(written) <= Coalesce(log).Keys
    requires Begins(done, Coalesce(log)) && KeysOf(done) == Coalesce(log).Keys
    ensures ApplyLog(before, done) == ApplyLog(base, log)
  {
    var ops := Coalesce(log);
    forall k | k in ops
      ensures exists i :: 0 <= i < |done| && done[i].key == k
    {
      assert k in KeysOf(done);
      var w :| w in done && w.key == k;
    }
    BatchEquivalence(before, log, done);
    ApplyLogOutside(base, written, ops.Keys);
    OverlayForgets(base, before, ops);
    CoalesceAgrees(base, log);
  }
}
