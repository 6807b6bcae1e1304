/** Deferred writes to RocksDB: an ordered log, written as a whole. */
module RocksBatches {
  import opened Batches
  import opened Keys
  import opened Stores

  /** A column and the bytes of a key in it, one character for each. */
  type DbKey = (string, string)

  class DBTransaction {
    var ops: seq<KeyedOp<DbKey, Value>>

    constructor ()
      ensures ops == []
    {
      ops := [];
    }

    method Put(col: string, key: string, value: Value)
      modifies this
      ensures ops == old(ops) + [KeyedOp((col, key), Op.Put(value))]
    {
      ops := ops + [KeyedOp((col, key), Op.Put(value))];
    }

    method Delete(col: string, key: string)
      modifies this
      ensures ops == old(ops) + [KeyedOp((col, key), Op.Delete)]
    {
      ops := ops + [KeyedOp((col, key), Op.Delete)];
    }

    method Clear()
      modifies this
      ensures ops == []
    {
      ops := [];
    }
  }

  /** The bytes a transaction is counted as. */
  function TotalBytes(log: seq<KeyedOp<DbKey, Value>>): (n: nat) {
    if log == [] then 0
    else
      var w := log[|log| - 1];
      TotalBytes(log[..|log| - 1]) + |w.key.1| + (match w.op case Put(v) => |v| case Delete => 0)
  }

  /** A put counts its key and its value, a delete its key; a transaction counts all its operations. */
  lemma {:induction false} TotalBytesMeaning(a: seq<KeyedOp<DbKey, Value>>, b: seq<KeyedOp<DbKey, Value>>, k: DbKey, v: Value)
    ensures TotalBytes(a + b) == TotalBytes(a) + TotalBytes(b)
    ensures TotalBytes([KeyedOp(k, Op.Put(v))]) == |k.1| + |v|
    ensures TotalBytes([KeyedOp(k, Op.Delete)]) == |k.1|
    decreases |b|
  {
    var put: seq<KeyedOp<DbKey, Value>>, delete: seq<KeyedOp<DbKey, Value>> := [KeyedOp(k, Op.Put(v))], [KeyedOp(k, Op.Delete)];
    assert put[..0] == [] && delete[..0] == [];
    if b == [] {
      assert a + b == a;
    } else {
      TotalBytesMeaning(a, b[..|b| - 1], k, v);
      assert (a + b)[..|a + b| - 1] == a + b[..|b| - 1];
    }
  }

  /** Writing applies the whole transaction, fails and changes nothing, or panics on an unknown column. */
  datatype WriteResult = Written | Failed | NoSuchColumn

  class Database {
    var open: bool
    var columns: set<string>
    var values: map<DbKey, Value>
    var bytesWritten: nat

    /** The operations are copied into one write batch, which the database applies as a whole or not at all. */
    method Write(txn: DBTransaction) returns (r: WriteResult)
      modifies this
      ensures r.Written? ==> old(open) && values == ApplyLog(old(values), txn.ops)
      ensures !r.Written? ==> values == old(values)
      ensures r.NoSuchColumn? <==> old(open) && exists w :: w in txn.ops && w.key.0 !in columns
      ensures open == old(open) && columns == old(columns)
      ensures bytesWritten == old(bytesWritten) + if open && !r.NoSuchColumn? then TotalBytes(txn.ops) else 0
    {
      if !open {
        return Failed;
      }
      var batch: seq<KeyedOp<DbKey, Value>> := [];
      var total := 0;
      var i := 0;
      while i < |txn.ops|
        invariant 0 <= i <= |txn.ops|
        invariant batch == txn.ops[..i] && total == TotalBytes(txn.ops[..i])
        invariant forall w :: w in txn.ops[..i] ==> w.key.0 in columns
      {
        var w := txn.ops[i];
        if w.key.0 !in columns {
          return NoSuchColumn;
        }
        match w.op {
          case Put(value) => total := total + |w.key.1| + |value|;
          case Delete => total := total + |w.key.1|;
        }
        batch := batch + [w];
        assert txn.ops[..i + 1][..i] == txn.ops[..i];
        i := i + 1;
      }
      assert txn.ops[..i] == txn.ops;
      bytesWritten := bytesWritten + total;
      var ok: bool := *;
      if !ok {
        return Failed;
      }
      values := ApplyLog(values, batch);
      return Written;
    }
  }

  // ---- the RocksDB store --------------------------------------------------------------------

  const DEFAULT_COLUMN_NAME := "default"

  /** What a database holds in the default column. */
  function Column(values: map<DbKey, Value>): (r: map<Key, Value>) {
    map c | c in values && c.0 == DEFAULT_COLUMN_NAME :: c.1 := values[c]
  }

  function InColumn(log: seq<KeyedOp<Key, Value>>): (r: seq<KeyedOp<DbKey, Value>>)
    ensures |r| == |log|
    ensures forall i :: 0 <= i < |log| ==> r[i] == KeyedOp((DEFAULT_COLUMN_NAME, log[i].key), log[i].op)
  {
    seq(|log|, i requires 0 <= i < |log| => KeyedOp((DEFAULT_COLUMN_NAME, log[i].key), log[i].op))
  }

  /** Replaying the log in the column is applying the operations to what the column holds. */
  lemma {:induction false} ColumnLog(values: map<DbKey, Value>, log: seq<KeyedOp<Key, Value>>)
    ensures Column(ApplyLog(values, InColumn(log))) == ApplyLog(Column(values), log)
  {
    if log != [] {
      var init, last := log[..|log| - 1], log[|log| - 1];
      ColumnLog(values, init);
      assert InColumn(log)[..|log| - 1] == InColumn(init);
      ColumnOp(ApplyLog(values, InColumn(init)), last);
    }
  }

  lemma ColumnOp(values: map<DbKey, Value>, w: KeyedOp<Key, Value>)
    ensures Column(ApplyOp(values, KeyedOp((DEFAULT_COLUMN_NAME, w.key), w.op))) == ApplyOp(Column(values), w)
  {
    var r := ApplyOp(values, KeyedOp((DEFAULT_COLUMN_NAME, w.key), w.op));
    forall k
      ensures k in Column(r) <==> (DEFAULT_COLUMN_NAME, k) in r
      ensures k in Column(values) <==> (DEFAULT_COLUMN_NAME, k) in values
    {
    }
  }

  /** `RocksDBTxnDataStore`, and `RocksDBBatchDataStore` without `discard`. */
  class RocksDBTxnDataStore {
    const db: Database
    const txn: DBTransaction
    ghost var log: seq<KeyedOp<Key, Value>>

    ghost predicate Valid()
      reads this, txn
    {
      txn.ops == InColumn(log)
    }

    constructor (db: Database)
      ensures Valid() && this.db == db && fresh(txn) && log == []
    {
      this.db := db;
      txn := new DBTransaction();
      log := [];
    }

    method Put(key: Key, value: Value)
      requires Valid()
      modifies this, txn
      ensures Valid() && log == old(log) + [KeyedOp(key, Op.Put(value))]
    {
      txn.Put(DEFAULT_COLUMN_NAME, key, value);
      log := log + [KeyedOp(key, Op.Put(value))];
    }

    method Delete(key: Key)
      requires Valid()
      modifies this, txn
      ensures Valid() && log == old(log) + [KeyedOp(key, Op.Delete)]
    {
      txn.Delete(DEFAULT_COLUMN_NAME, key);
      log := log + [KeyedOp(key, Op.Delete)];
    }

    /** All of the log in its order, or nothing. */
    method Commit() returns (r: WriteResult)
      requires Valid()
      modifies this, txn, db
      ensures Valid()
      ensures r.Written? ==> log == [] && Column(db.values) == ApplyLog(Column(old(db.values)), old(log))
      ensures !r.Written? ==> log == old(log) && db.values == old(db.values)
      ensures forall c: DbKey :: c.0 != DEFAULT_COLUMN_NAME ==>
        (c in db.values <==> c in old(db.values)) && (c in db.values ==> db.values[c] == old(db.values)[c])
    {
      ColumnLog(db.values, log);
      OtherColumns(db.values, log);
      r := db.Write(txn);
      if r.Written? {
        txn.Clear();
        log := [];
      }
    }

    /** The database is as it was before anything was recorded, whatever commits have failed. */
    method Discard()
      requires Valid()
      modifies this, txn
      ensures Valid() && log == []
    {
      txn.Clear();
      log := [];
    }
  }

  lemma {:induction false} OtherColumns(values: map<DbKey, Value>, log: seq<KeyedOp<Key, Value>>)
    ensures
      var r := ApplyLog(values, InColumn(log));
      forall c: DbKey :: c.0 != DEFAULT_COLUMN_NAME ==> (c in r <==> c in values) && (c in r ==> r[c] == values[c])
  {
    if log != [] {
      var init := log[..|log| - 1];
      OtherColumns(values, init);
      assert InColumn(log)[..|log| - 1] == InColumn(init);
    }
  }
}
