/** What the DAG-JSON tree of a value holds, and what a parsed value holds of its tree. */
module IpldMeaning {
  import opened IpldJson
  import opened Wrappers

  // ---- maps ---------------------------------------------------------------------------------

  /** The value under a key. */
  function Find(entries: seq<Entry>, key: string): (v: Option<Ipld>) {
    if entries == [] then None
    else if entries[0].key == key then Some(entries[0].value)
    else Find(entries[1..], key)
  }

  /** Inserting is a map update: the key has the value, and every other key has what it had. */
  lemma {:induction false} FindInserted(entries: seq<Entry>, key: string, value: Ipld, k: string)
    ensures Find(Insert(entries, key, value), k) == if k == key then Some(value) else Find(entries, k)
  {
    if entries != [] {
      FindInserted(entries[1..], key, value, k);
      var r := Insert(entries, key, value);
      assert r[1..] == if key == entries[0].key then entries[1..]
                       else if KeyLess(key, entries[0].key) then entries
                       else Insert(entries[1..], key, value);
    }
  }

  /** The last member of a name. */
  function LastMember(es: seq<Member>, name: string): (j: Option<Json>) {
    if es == [] then None
    else if es[|es| - 1].name == name then Some(es[|es| - 1].json)
    else LastMember(es[..|es| - 1], name)
  }

  lemma {:induction false} LastMemberNamed(es: seq<Member>, name: string)
    ensures LastMember(es, name).Some? <==> exists i :: 0 <= i < |es| && es[i].name == name
  {
    if es != [] {
      var init := es[..|es| - 1];
      LastMemberNamed(init, name);
      if LastMember(init, name).Some? {
        var i :| 0 <= i < |init| && init[i].name == name;
        assert es[i].name == name;
      }
      forall i | 0 <= i < |es| && es[i].name == name && i < |es| - 1
        ensures LastMember(init, name).Some?
      {
        assert init[i].name == name;
      }
    }
  }

  /** Members are read exactly when each of them is; then the map has under each name the last member of that name,
      and no other keys. */
  lemma {:induction false} EntriesMeaning(c: Codecs, es: seq<Member>, name: string)
    ensures ParseEntries(c, es).Ok? <==> forall i :: 0 <= i < |es| ==> Parse(c, es[i].json).Ok?
    ensures ParseEntries(c, es).Ok? ==>
      match LastMember(es, name)
      case None => Find(ParseEntries(c, es).value, name) == None
      case Some(j) => Parse(c, j).Ok? && Find(ParseEntries(c, es).value, name) == Some(Parse(c, j).value)
  {
    if es != [] {
      var init, last := es[..|es| - 1], es[|es| - 1];
      EntriesMeaning(c, init, name);
      assert es == init + [last];
      if ParseEntries(c, es).Ok? {
        FindInserted(ParseEntries(c, init).value, last.name, Parse(c, last.json).value, name);
      }
    }
  }

  /** A key is in the map exactly when a member has that name. */
  lemma MapKeys(c: Codecs, es: seq<Member>, name: string)
    requires ParseEntries(c, es).Ok?
    ensures Find(ParseEntries(c, es).value, name).Some? <==> exists i :: 0 <= i < |es| && es[i].name == name
  {
    EntriesMeaning(c, es, name);
    LastMemberNamed(es, name);
  }

  /** The first member that is not read decides the error. */
  lemma EntriesFailure(c: Codecs, es: seq<Member>, n: nat)
    requires n < |es| && Parse(c, es[n].json).Err? && forall i :: 0 <= i < n ==> Parse(c, es[i].json).Ok?
    ensures ParseEntries(c, es) == Err(Parse(c, es[n].json).error)
  {
    EntriesMeaning(c, es[..n], "");
    assert es[..n + 1][..n] == es[..n];
    EntriesError(c, es, n + 1);
  }

  // ---- lists --------------------------------------------------------------------------------

  /** Elements are read exactly when each of them is, each in its place. */
  lemma {:induction false} ListMeaning(c: Codecs, js: seq<Json>)
    ensures ParseList(c, js).Ok? <==> forall i :: 0 <= i < |js| ==> Parse(c, js[i]).Ok?
    ensures ParseList(c, js).Ok? ==>
      |ParseList(c, js).value| == |js|
      && forall i :: 0 <= i < |js| ==> Parse(c, js[i]) == Ok(ParseList(c, js).value[i])
  {
    if js != [] {
      var init, last := js[..|js| - 1], js[|js| - 1];
      ListMeaning(c, init);
      assert js == init + [last];
    }
  }

  lemma ListFailure(c: Codecs, js: seq<Json>, n: nat)
    requires n < |js| && Parse(c, js[n]).Err? && forall i :: 0 <= i < n ==> Parse(c, js[i]).Ok?
    ensures ParseList(c, js) == Err(Parse(c, js[n]).error)
  {
    ListMeaning(c, js[..n]);
    assert js[..n + 1][..n] == js[..n];
    ListError(c, js, n + 1);
  }

  lemma {:induction false} PrintedList(c: Codecs, list: seq<Ipld>)
    ensures forall i :: 0 <= i < |list| ==> PrintList(c, list)[i] == Print(c, list[i])
  {
    if list != [] { PrintedList(c, list[..|list| - 1]); }
  }

  lemma {:induction false} PrintedEntries(c: Codecs, entries: seq<Entry>)
    ensures forall i :: 0 <= i < |entries| ==>
      PrintEntries(c, entries)[i] == Member(entries[i].key, Print(c, entries[i].value))
  {
    if entries != [] { PrintedEntries(c, entries[..|entries| - 1]); }
  }

  // ---- trees --------------------------------------------------------------------------------

  /** `j` is the tree of `v`, one level down. */
  ghost predicate TreeOf(c: Codecs, v: Ipld, j: Json) {
    match v
    case Null => j == JsonNull
    case Bool(b) => j == JsonBool(b)
    case Integer(i) => j == JsonInteger(i)
    case Float(f) => j == JsonFloat(f)
    case String(s) => j == JsonString(s)
    case Bytes(b) => j == JsonObject([Member("/", JsonObject([Member("bytes", JsonString(c.multibase64(b)))]))])
    case Link(cid) => j == JsonObject([Member("/", JsonString(c.cidText(cid)))])
    case List(items) =>
      j.JsonArray? && |j.items| == |items| && forall i :: 0 <= i < |items| ==> j.items[i] == Print(c, items[i])
    case Map(entries) =>
      j.JsonObject? && |j.members| == |entries|
      && forall i :: 0 <= i < |entries| ==> j.members[i] == Member(entries[i].key, Print(c, entries[i].value))
  }

  /** Every value is printed as its tree: scalars as they are, elements and entries in their order, bytes and links as
      the reserved shapes. */
  lemma PrintMeaning(c: Codecs, v: Ipld)
    ensures TreeOf(c, v, Print(c, v))
  {
    match v
    case List(items) => PrintedList(c, items);
    case Map(entries) => PrintedEntries(c, entries);
    case _ =>
  }

  /** What is made of the entries of an object. */
  lemma ObjectMeaning(c: Codecs, es: seq<Member>, entries: seq<Entry>)
    requires ParseEntries(c, es) == Ok(entries)
    ensures Parse(c, JsonObject(es))
         == if exists s :: entries == [Entry("/", String(s))] then
              (match c.parseCid(entries[0].value.text)
               case None => Err(InvalidCid)
               case Some(cid) => Ok(Link(cid)))
            else if exists s :: entries == [Entry("/", Map([Entry("bytes", String(s))]))] then
              (match c.decodeMultibase(entries[0].value.entries[0].value.text)
               case None => Err(InvalidMultibase)
               case Some((Base64, bytes)) => Ok(Bytes(bytes))
               case Some((OtherBase, _)) => Err(UnexpectedMultibase))
            else Ok(Map(entries))
  {
    if |entries| == 1 && entries[0].key == "/" {
      var v := entries[0].value;
      assert entries == [Entry("/", v)];
      if v.String? {
        assert v == String(v.text);
      } else if v.Map? && |v.entries| == 1 && v.entries[0].key == "bytes" && v.entries[0].value.String? {
        var s := v.entries[0].value.text;
        assert v.entries == [Entry("bytes", String(s))] && v == Map([Entry("bytes", String(s))]);
      }
    }
  }

  /** A key is shorter, or as long and smaller at the first byte that differs. */
  lemma KeyLessMeaning(a: string, b: string)
    ensures KeyLess(a, b) <==> |a| < |b| || (|a| == |b| && Orders.Before(Orders.CharLess, a, b))
  {
    Orders.CharBefore(a, b);
  }
}
