/** IPLD values and their DAG-JSON trees. */
module IpldJson {
  import opened Bits
  import opened Orders
  import opened Wrappers

  type Cid = seq<nat>

  /** Map entries are listed in the order of a `BTreeMap`. A float is its bit pattern. */
  datatype Ipld =
    | Null
    | Bool(b: bool)
    | Integer(i: int)
    | Float(bits: U64)
    | String(text: string)
    | Bytes(data: seq<Byte>)
    | List(items: seq<Ipld>)
    | Map(entries: seq<Entry>)
    | Link(cid: Cid)

  datatype Entry = Entry(key: string, value: Ipld)

  /** The tree a JSON serializer receives, and a JSON deserializer offers in text order. */
  datatype Json =
    | JsonNull
    | JsonBool(b: bool)
    | JsonInteger(i: int)
    | JsonFloat(bits: U64)
    | JsonString(text: string)
    | JsonArray(items: seq<Json>)
    | JsonObject(members: seq<Member>)

  datatype Member = Member(name: string, json: Json)

  datatype JsonError = InvalidCid | InvalidMultibase | UnexpectedMultibase

  datatype Base = Base64 | OtherBase

  /** The text forms of cids and of multibase strings. */
  datatype Codecs = Codecs(
    cidText: Cid -> string,
    parseCid: string -> Option<Cid>,
    multibase64: seq<Byte> -> string,
    decodeMultibase: string -> Option<(Base, seq<Byte>)>)
  {
    ghost predicate Valid() {
      && (forall cid :: parseCid(cidText(cid)) == Some(cid))
      && (forall bytes :: decodeMultibase(multibase64(bytes)) == Some((Base64, bytes)))
    }
  }

  const SLASH := "/"
  const BYTES := "bytes"

  // ---- maps ---------------------------------------------------------------------------------

  /** `Ord for MapKey`: shorter keys first, then byte-wise. */
  predicate KeyLess(a: string, b: string) {
    |a| < |b| || (|a| == |b| && a != b && LexLeq(CharLeq, a, b))
  }

  lemma KeyLessOrder(a: string, b: string, c: string)
    ensures KeyLess(a, b) || KeyLess(b, a) || a == b
    ensures KeyLess(a, b) && KeyLess(b, c) ==> KeyLess(a, c)
    ensures KeyLess(a, b) ==> a != b
  {
    CharTotal();
    LexConnected(CharLeq, a, b);
    if LexLeq(CharLeq, a, b) && LexLeq(CharLeq, b, c) {
      LexTrans(CharLeq, a, b, c);
      if a == c { LexAntisym(CharLeq, a, b); }
    }
  }

  predicate SortedKeys(entries: seq<Entry>) {
    forall i, j :: 0 <= i < j < |entries| ==> KeyLess(entries[i].key, entries[j].key)
  }

  /** `BTreeMap::insert`. */
  function Insert(entries: seq<Entry>, key: string, value: Ipld): (r: seq<Entry>) {
    if entries == [] then [Entry(key, value)]
    else if key == entries[0].key then [Entry(key, value)] + entries[1..]
    else if KeyLess(key, entries[0].key) then [Entry(key, value)] + entries
    else [entries[0]] + Insert(entries[1..], key, value)
  }

  // ---- printing -----------------------------------------------------------------------------

  function Print(c: Codecs, v: Ipld): (j: Json)
    decreases v
  {
    match v
    case Null => JsonNull
    case Bool(b) => JsonBool(b)
    case Integer(i) => JsonInteger(i)
    case Float(f) => JsonFloat(f)
    case String(s) => JsonString(s)
    case Bytes(b) => JsonObject([Member(SLASH, JsonObject([Member(BYTES, JsonString(c.multibase64(b)))]))])
    case List(list) => JsonArray(PrintList(c, list))
    case Map(entries) => JsonObject(PrintEntries(c, entries))
    case Link(cid) => JsonObject([Member(SLASH, JsonString(c.cidText(cid)))])
  }

  function PrintList(c: Codecs, list: seq<Ipld>): (js: seq<Json>)
    ensures |js| == |list|
    decreases list
  {
    if list == [] then [] else PrintList(c, list[..|list| - 1]) + [Print(c, list[|list| - 1])]
  }

  function PrintEntries(c: Codecs, entries: seq<Entry>): (js: seq<Member>)
    ensures |js| == |entries|
    decreases entries
  {
    if entries == [] then []
    else
      var last := entries[|entries| - 1];
      PrintEntries(c, entries[..|entries| - 1]) + [Member(last.key, Print(c, last.value))]
  }

  // ---- parsing ------------------------------------------------------------------------------

  /** The end of `visit_map`: the reserved shapes become links and bytes. */
  function FinishMap(c: Codecs, entries: seq<Entry>): (r: Result<Ipld, JsonError>) {
    if |entries| == 1 && entries[0].key == SLASH then
      match entries[0].value
      case String(s) =>
        (match c.parseCid(s)
         case None => Err(InvalidCid)
         case Some(cid) => Ok(Link(cid)))
      case Map(inner) =>
        if |inner| == 1 && inner[0].key == BYTES && inner[0].value.String? then
          match c.decodeMultibase(inner[0].value.text)
          case None => Err(InvalidMultibase)
          case Some((base, bytes)) => if base != Base64 then Err(UnexpectedMultibase) else Ok(Bytes(bytes))
        else Ok(Map(entries))
      case _ => Ok(Map(entries))
    else Ok(Map(entries))
  }

  function Parse(c: Codecs, j: Json): (r: Result<Ipld, JsonError>)
    decreases j
  {
    match j
    case JsonNull => Ok(Null)
    case JsonBool(b) => Ok(Bool(b))
    case JsonInteger(i) => Ok(Integer(i))
    case JsonFloat(f) => Ok(Float(f))
    case JsonString(s) => Ok(String(s))
    case JsonArray(js) =>
      (match ParseList(c, js)
       case Err(e) => Err(e)
       case Ok(list) => Ok(List(list)))
    case JsonObject(es) =>
      (match ParseEntries(c, es)
       case Err(e) => Err(e)
       case Ok(entries) => FinishMap(c, entries))
  }

  function ParseList(c: Codecs, js: seq<Json>): (r: Result<seq<Ipld>, JsonError>)
    decreases js
  {
    if js == [] then Ok([])
    else
      match ParseList(c, js[..|js| - 1])
      case Err(e) => Err(e)
      case Ok(list) =>
        match Parse(c, js[|js| - 1])
        case Err(e) => Err(e)
        case Ok(v) => Ok(list + [v])
  }

  function ParseEntries(c: Codecs, es: seq<Member>): (r: Result<seq<Entry>, JsonError>)
    decreases es
  {
    if es == [] then Ok([])
    else
      match ParseEntries(c, es[..|es| - 1])
      case Err(e) => Err(e)
      case Ok(entries) =>
        match Parse(c, es[|es| - 1].json)
        case Err(e) => Err(e)
        case Ok(v) => Ok(Insert(entries, es[|es| - 1].name, v))
  }

  // ---- the values that survive --------------------------------------------------------------

  /** A map of the shape `{"/": string}` or `{"/": {"bytes": string}}`. */
  predicate Reserved(v: Ipld) {
    && v.Map? && |v.entries| == 1 && v.entries[0].key == SLASH
    && (var inner := v.entries[0].value;
        || inner.String?
        || (inner.Map? && |inner.entries| == 1 && inner.entries[0].key == BYTES && inner.entries[0].value.String?))
  }

  /** Map keys are sorted, as a `BTreeMap` keeps them, at every depth. */
  predicate WellFormed(v: Ipld)
    decreases v
  {
    match v
    case List(list) => forall i :: 0 <= i < |list| ==> WellFormed(list[i])
    case Map(entries) => SortedKeys(entries) && forall i :: 0 <= i < |entries| ==> WellFormed(entries[i].value)
    case _ => true
  }

  /** No map of a reserved shape at any depth. */
  predicate Free(v: Ipld)
    decreases v
  {
    match v
    case List(list) => forall i :: 0 <= i < |list| ==> Free(list[i])
    case Map(entries) => !Reserved(v) && forall i :: 0 <= i < |entries| ==> Free(entries[i].value)
    case _ => true
  }

  lemma {:induction false} PrintParse(c: Codecs, v: Ipld)
    requires c.Valid() && WellFormed(v) && Free(v)
    ensures Parse(c, Print(c, v)) == Ok(v)
    decreases v
  {
    match v
    case List(list) => PrintParseList(c, list);
    case Map(entries) => PrintParseEntries(c, entries);
    case Bytes(b) => ParseBytesShape(c, c.multibase64(b));
    case Link(cid) => ParseOne(c, SLASH, JsonString(c.cidText(cid)), String(c.cidText(cid)));
    case _ =>
  }

  lemma ParseOne(c: Codecs, key: string, j: Json, v: Ipld)
    requires Parse(c, j) == Ok(v)
    ensures ParseEntries(c, [Member(key, j)]) == Ok([Entry(key, v)])
  {
    var es := [Member(key, j)];
    assert es[..0] == [];
    assert ParseEntries(c, es[..0]) == Ok([]);
    assert Insert([], key, v) == [Entry(key, v)];
  }

  lemma ParseBytesShape(c: Codecs, s: string)
    ensures
      var j := JsonObject([Member(SLASH, JsonObject([Member(BYTES, JsonString(s))]))]);
      Parse(c, j) == FinishMap(c, [Entry(SLASH, Map([Entry(BYTES, String(s))]))])
  {
    var inner := JsonObject([Member(BYTES, JsonString(s))]);
    ParseOne(c, BYTES, JsonString(s), String(s));
    ParseOne(c, SLASH, inner, Map([Entry(BYTES, String(s))]));
  }

  lemma {:induction false} PrintParseList(c: Codecs, list: seq<Ipld>)
    requires c.Valid() && forall i :: 0 <= i < |list| ==> WellFormed(list[i]) && Free(list[i])
    ensures ParseList(c, PrintList(c, list)) == Ok(list)
    decreases list
  {
    if list != [] {
      var init, last := list[..|list| - 1], list[|list| - 1];
      PrintParseList(c, init);
      PrintParse(c, last);
      var js := PrintList(c, list);
      assert js[..|js| - 1] == PrintList(c, init) && js[|js| - 1] == Print(c, last);
      assert list == init + [last];
    }
  }

  lemma {:induction false} PrintParseEntries(c: Codecs, entries: seq<Entry>)
    requires c.Valid() && SortedKeys(entries)
    requires forall i :: 0 <= i < |entries| ==> WellFormed(entries[i].value) && Free(entries[i].value)
    ensures ParseEntries(c, PrintEntries(c, entries)) == Ok(entries)
    decreases entries
  {
    if entries != [] {
      var init, last := entries[..|entries| - 1], entries[|entries| - 1];
      PrintParseEntries(c, init);
      PrintParse(c, last.value);
      var js := PrintEntries(c, entries);
      assert js[..|js| - 1] == PrintEntries(c, init) && js[|js| - 1] == Member(last.key, Print(c, last.value));
      InsertLast(init, last.key, last.value);
      assert entries == init + [last];
    }
  }

  /** Inserting a key above all others appends it. */
  lemma {:induction false} InsertLast(entries: seq<Entry>, key: string, value: Ipld)
    requires forall i :: 0 <= i < |entries| ==> KeyLess(entries[i].key, key)
    ensures Insert(entries, key, value) == entries + [Entry(key, value)]
  {
    if entries != [] {
      KeyLessOrder(entries[0].key, key, entries[0].key);
      InsertLast(entries[1..], key, value);
      assert entries == [entries[0]] + entries[1..];
    }
  }

  /** Inserting keeps the keys sorted and brings in nothing but the new value. */
  lemma {:induction false} InsertSorted(entries: seq<Entry>, key: string, value: Ipld)
    requires SortedKeys(entries)
    ensures SortedKeys(Insert(entries, key, value))
    ensures forall i :: 0 <= i < |Insert(entries, key, value)| ==>
      Insert(entries, key, value)[i] == Entry(key, value) || Insert(entries, key, value)[i] in entries
    decreases entries
  {
    if entries != [] {
      var head, tail := entries[0], entries[1..];
      assert entries == [head] + tail;
      InsertSorted(tail, key, value);
      KeyLessOrder(key, head.key, head.key);
      forall i | 0 <= i < |tail|
        ensures KeyLess(head.key, tail[i].key)
        ensures KeyLess(key, head.key) ==> KeyLess(key, tail[i].key)
      {
        assert tail[i] == entries[i + 1];
        KeyLessOrder(key, head.key, tail[i].key);
      }
      forall e | e in Insert(tail, key, value)
        ensures e == Entry(key, value) || e in tail
      {
      }
    }
  }

  /** Whatever JSON is parsed, the value is well formed and has no reserved shape left in it. */
  lemma {:induction false} ParsedIsFree(c: Codecs, j: Json)
    requires Parse(c, j).Ok?
    ensures WellFormed(Parse(c, j).value) && Free(Parse(c, j).value)
    decreases j
  {
    match j
    case JsonArray(js) => ParsedListIsFree(c, js);
    case JsonObject(es) => ParsedEntriesAreFree(c, es);
    case _ =>
  }

  lemma {:induction false} ParsedListIsFree(c: Codecs, js: seq<Json>)
    requires ParseList(c, js).Ok?
    ensures forall i :: 0 <= i < |ParseList(c, js).value| ==>
      WellFormed(ParseList(c, js).value[i]) && Free(ParseList(c, js).value[i])
    decreases js
  {
    if js != [] {
      ParsedListIsFree(c, js[..|js| - 1]);
      ParsedIsFree(c, js[|js| - 1]);
    }
  }

  lemma {:induction false} ParsedEntriesAreFree(c: Codecs, es: seq<Member>)
    requires ParseEntries(c, es).Ok?
    ensures SortedKeys(ParseEntries(c, es).value)
    ensures forall i :: 0 <= i < |ParseEntries(c, es).value| ==>
      WellFormed(ParseEntries(c, es).value[i].value) && Free(ParseEntries(c, es).value[i].value)
    decreases es
  {
    if es != [] {
      var last := es[|es| - 1];
      ParsedEntriesAreFree(c, es[..|es| - 1]);
      ParsedIsFree(c, last.json);
      var before, v := ParseEntries(c, es[..|es| - 1]).value, Parse(c, last.json).value;
      InsertSorted(before, last.name, v);
    }
  }

  /** Parsing the printed form of a value gives the value back exactly when it holds no reserved shape. */
  lemma PrintParseIff(c: Codecs, v: Ipld)
    requires c.Valid() && WellFormed(v)
    ensures Parse(c, Print(c, v)) == Ok(v) <==> Free(v)
  {
    if Free(v) {
      PrintParse(c, v);
    } else if Parse(c, Print(c, v)).Ok? {
      ParsedIsFree(c, Print(c, v));
    }
  }

  /** Printing and parsing again what was parsed changes nothing. */
  lemma ParsePrintParse(c: Codecs, j: Json)
    requires c.Valid() && Parse(c, j).Ok?
    ensures Parse(c, Print(c, Parse(c, j).value)) == Parse(c, j)
  {
    ParsedIsFree(c, j);
    PrintParse(c, Parse(c, j).value);
  }

  // ---- the visitor --------------------------------------------------------------------------

  /** `JsonVisitor`, with its loops. */
  method Visit(c: Codecs, j: Json) returns (r: Result<Ipld, JsonError>)
    ensures r == Parse(c, j)
    decreases j
  {
    match j {
      case JsonNull => r := Ok(Null);
      case JsonBool(b) => r := Ok(Bool(b));
      case JsonInteger(i) => r := Ok(Integer(i));
      case JsonFloat(f) => r := Ok(Float(f));
      case JsonString(s) => r := Ok(String(s));
      case JsonArray(js) => r := VisitSeq(c, js);
      case JsonObject(es) => r := VisitMap(c, es);
    }
  }

  method VisitSeq(c: Codecs, js: seq<Json>) returns (r: Result<Ipld, JsonError>)
    ensures r == Parse(c, JsonArray(js))
    decreases js
  {
    var vec: seq<Ipld> := [];
    var i := 0;
    while i < |js|
      invariant 0 <= i <= |js|
      invariant ParseList(c, js[..i]) == Ok(vec)
    {
      var elem := Visit(c, js[i]);
      assert js[..i + 1][..i] == js[..i];
      if elem.Err? {
        ListError(c, js, i + 1);
        return Err(elem.error);
      }
      vec := vec + [elem.value];
      i := i + 1;
    }
    assert js[..i] == js;
    return Ok(List(vec));
  }

  method VisitMap(c: Codecs, es: seq<Member>) returns (r: Result<Ipld, JsonError>)
    ensures r == Parse(c, JsonObject(es))
    decreases es
  {
    var entries: seq<Entry> := [];
    var i := 0;
    while i < |es|
      invariant 0 <= i <= |es|
      invariant ParseEntries(c, es[..i]) == Ok(entries)
    {
      var value := Visit(c, es[i].json);
      assert es[..i + 1][..i] == es[..i];
      if value.Err? {
        EntriesError(c, es, i + 1);
        return Err(value.error);
      }
      entries := Insert(entries, es[i].name, value.value);
      i := i + 1;
    }
    assert es[..i] == es;
    r := FinishMap(c, entries);
  }

  /** The first error is the result. */
  lemma {:induction false} ListError(c: Codecs, js: seq<Json>, n: nat)
    requires n <= |js| && ParseList(c, js[..n]).Err?
    ensures ParseList(c, js) == ParseList(c, js[..n])
    decreases |js|
  {
    if n == |js| {
      assert js[..n] == js;
    } else {
      assert js[..|js| - 1][..n] == js[..n];
      ListError(c, js[..|js| - 1], n);
    }
  }

  lemma {:induction false} EntriesError(c: Codecs, es: seq<Member>, n: nat)
    requires n <= |es| && ParseEntries(c, es[..n]).Err?
    ensures ParseEntries(c, es) == ParseEntries(c, es[..n])
    decreases |es|
  {
    if n == |es| {
      assert es[..n] == es;
    } else {
      assert es[..|es| - 1][..n] == es[..n];
      EntriesError(c, es[..|es| - 1], n);
    }
  }
}
