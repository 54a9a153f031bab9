/** The document store contract and its two backends: an in-process map, and documents updated by
    atomic filtered replacement. Any key may hold any value; versions are optimistic locks. */
module DocStore {
  import opened Wrappers
  import opened Text
  import opened Keys

  datatype StoreError = BadKey | NotFound | Conflict

  datatype Row<+V> = Row(version: int, value: V)
  type Rows<+V> = map<string, Row<V>>

  // ----- The contract -----

  function VersionOf<V>(rows: Rows<V>, id: string): int { if id in rows then rows[id].version else 0 }

  function WithPut<V>(rows: Rows<V>, id: string, val: V): Rows<V> {
    rows[id := Row(VersionOf(rows, id) + 1, val)]
  }

  /** Version 0 asks for a key that does not exist yet. */
  predicate Current<V>(rows: Rows<V>, id: string, expected: int) {
    if expected == 0 then id !in rows else id in rows && rows[id].version == expected
  }

  function WithPutVersioned<V>(rows: Rows<V>, id: string, expected: int, val: V): Option<Rows<V>> {
    if Current(rows, id, expected) then Some(WithPut(rows, id, val)) else None
  }

  /** The keys under a prefix, in byte order. */
  ghost predicate IsListing(ks: seq<string>, keys: set<string>, prefix: string) {
    StrictlySorted(ks) && forall k :: k in ks <==> k in keys && prefix <= k
  }

  datatype Found<+V> = Found(id: string, val: V)

  /** A scan is the listing with each key's value. */
  ghost predicate IsScan<V>(found: seq<Found<V>>, rows: Rows<V>, prefix: string) {
    && IsListing(seq(|found|, i requires 0 <= i < |found| => found[i].id), rows.Keys, prefix)
    && forall i :: 0 <= i < |found| ==> found[i].id in rows && found[i].val == rows[found[i].id].value
  }

  function Pair<V>(ks: seq<string>, rows: Rows<V>): seq<Found<V>>
    requires forall k :: k in ks ==> k in rows
  {
    seq(|ks|, i requires 0 <= i < |ks| => Found(ks[i], rows[ks[i]].value))
  }

  lemma PairIsScan<V>(ks: seq<string>, rows: Rows<V>, prefix: string)
    requires IsListing(ks, rows.Keys, prefix)
    ensures IsScan(Pair(ks, rows), rows, prefix)
  {
    var found := Pair(ks, rows);
    assert seq(|found|, i requires 0 <= i < |found| => found[i].id) == ks;
  }

  lemma ListingsAgree(a: seq<string>, b: seq<string>, keys: set<string>, prefix: string)
    requires IsListing(a, keys, prefix) && IsListing(b, keys, prefix)
    ensures a == b
  {
    ListingUnique(a, b);
  }

  predicate Distinct(ks: seq<string>) { forall i, j :: 0 <= i < j < |ks| ==> ks[i] != ks[j] }

  lemma SortDistinct(ks: seq<string>)
    requires Distinct(ks)
    ensures StrictlySorted(Sort(ks)) && forall k :: k in Sort(ks) <==> k in ks
  {
    SortSorts(ks);
    var r := Sort(ks);
    forall i, j | 0 <= i < j < |r| ensures Less(r[i], r[j]) {
      LessTotal(r[i], r[j]);
      Twice(r, i, j);
      DistinctOnce(ks, r[i]);
    }
    forall k ensures k in r <==> k in ks {
      assert k in multiset(r) <==> k in multiset(ks);
    }
  }

  lemma Twice(r: seq<string>, i: int, j: int)
    requires 0 <= i < j < |r|
    ensures multiset(r)[r[i]] >= if r[i] == r[j] then 2 else 1
  {
    assert r == r[..i] + [r[i]] + r[i + 1..j] + [r[j]] + r[j + 1..];
  }

  lemma DistinctOnce(ks: seq<string>, k: string)
    requires Distinct(ks)
    ensures multiset(ks)[k] <= 1
  {
    if ks != [] {
      DistinctOnce(ks[1..], k);
      assert ks == [ks[0]] + ks[1..];
    }
  }

  lemma SomeKey(ks: seq<string>)
    ensures ks == [] || exists k :: k in ks
  {
    if ks != [] {
      assert ks[0] in ks;
    }
  }

  /** The keys a query lets through, collected in no order and then sorted. */
  method Collect(keys: set<string>, lets: string -> bool) returns (ks: seq<string>)
    ensures StrictlySorted(ks) && forall k :: k in ks <==> k in keys && lets(k)
  {
    ks := [];
    var rest := keys;
    while rest != {}
      invariant rest <= keys && Distinct(ks)
      invariant forall k :: k in ks <==> k in keys - rest && lets(k)
      decreases rest
    {
      var k :| k in rest;
      rest := rest - {k};
      if lets(k) {
        ks := ks + [k];
      }
    }
    SortDistinct(ks);
    ks := Sort(ks);
  }

  /** One module's rows in process. */
  class MemoryStore<V> {
    var rows: Rows<V>

    constructor ()
      ensures rows == map[]
    {
      rows := map[];
    }

    method Get(id: string) returns (r: Result<Row<V>, StoreError>)
      ensures r == if !ValidKey(id) then Failure(BadKey)
                   else if id in rows then Success(rows[id]) else Failure(NotFound)
    {
      if !ValidKey(id) {
        return Failure(BadKey);
      }
      return if id in rows then Success(rows[id]) else Failure(NotFound);
    }

    method Put(id: string, val: V) returns (e: Option<StoreError>)
      modifies this
      ensures e == if ValidKey(id) then None else Some(BadKey)
      ensures rows == if ValidKey(id) then WithPut(old(rows), id, val) else old(rows)
    {
      if !ValidKey(id) {
        return Some(BadKey);
      }
      rows := rows[id := Row((if id in rows then rows[id].version else 0) + 1, val)];
      return None;
    }

    method PutVersioned(id: string, expected: int, val: V) returns (e: Option<StoreError>)
      modifies this
      ensures !ValidKey(id) ==> e == Some(BadKey) && rows == old(rows)
      ensures ValidKey(id) ==>
                match WithPutVersioned(old(rows), id, expected, val)
                case Some(after) => e == None && rows == after
                case None => e == Some(Conflict) && rows == old(rows)
    {
      if !ValidKey(id) {
        return Some(BadKey);
      }
      var version := if id in rows then rows[id].version else 0;
      if expected == 0 {
        if id in rows {
          return Some(Conflict);
        }
      } else if id !in rows || version != expected {
        return Some(Conflict);
      }
      rows := rows[id := Row(version + 1, val)];
      return None;
    }

    method Delete(id: string) returns (e: Option<StoreError>)
      modifies this
      ensures e == if ValidKey(id) then None else Some(BadKey)
      ensures rows == if ValidKey(id) then old(rows) - {id} else old(rows)
    {
      if !ValidKey(id) {
        return Some(BadKey);
      }
      rows := rows - {id};
      return None;
    }

    method List(prefix: string) returns (r: Result<seq<string>, StoreError>)
      ensures r.Success? <==> ValidPrefix(prefix)
      ensures r.Success? ==> IsListing(r.value, rows.Keys, prefix)
    {
      if !ValidPrefix(prefix) {
        return Failure(BadKey);
      }
      var ks := Collect(rows.Keys, k => prefix <= k);
      return Success(ks);
    }

    method Scan(prefix: string) returns (r: Result<seq<Found<V>>, StoreError>)
      ensures r.Success? <==> ValidPrefix(prefix)
      ensures r.Success? ==> IsScan(r.value, rows, prefix)
    {
      var ks := List(prefix);
      if ks.Failure? {
        return Failure(ks.error);
      }
      PairIsScan(ks.value, rows, prefix);
      return Success(Pair(ks.value, rows));
    }
  }

  // ----- MongoDB documents -----

  /** A document may predate versioning. */
  datatype Doc<+V> = Doc(version: Option<int>, payload: V)
  type Docs<+V> = map<string, Doc<V>>

  datatype Replaced<+V> = Matched(docs: Docs<V>) | Unmatched | Inserted(docs: Docs<V>) | DuplicateKey

  /** ReplaceOne on {_id, version in accept}: one atomic step; an upsert that finds the id taken by
      a document the filter rejects hits the unique index. */
  function ReplaceOne<V>(docs: Docs<V>, id: string, accept: set<Option<int>>, doc: Doc<V>, upsert: bool): Replaced<V> {
    if id in docs && docs[id].version in accept then Matched(docs[id := doc])
    else if !upsert then Unmatched
    else if id in docs then DuplicateKey
    else Inserted(docs[id := doc])
  }

  /** The rows that documents stand for; a document without a version reads as version 0. */
  function Abstract<V>(docs: Docs<V>): Rows<V> {
    map k | k in docs :: Row(if docs[k].version.Some? then docs[k].version.value else 0, docs[k].payload)
  }

  function MongoPutVersioned<V>(docs: Docs<V>, id: string, expected: int, val: V): Option<Docs<V>> {
    if expected == 0 then
      match ReplaceOne(docs, id, {None, Some(0)}, Doc(Some(1), val), true)
      case Matched(after) => Some(after)
      case Inserted(after) => Some(after)
      case Unmatched => None
      case DuplicateKey => None
    else
      match ReplaceOne(docs, id, {Some(expected)}, Doc(Some(expected + 1), val), false)
      case Matched(after) => Some(after)
      case Inserted(after) => Some(after)
      case Unmatched => None
      case DuplicateKey => None
  }

  /** A document written before versions, which a first versioned write adopts. */
  predicate Legacy<V>(docs: Docs<V>, id: string) {
    id in docs && (docs[id].version == None || docs[id].version == Some(0))
  }

  class MongoStore<V> {
    var docs: Docs<V>

    method Get(id: string) returns (r: Result<Row<V>, StoreError>)
      ensures r == if !ValidKey(id) then Failure(BadKey)
                   else if id in docs then Success(Abstract(docs)[id]) else Failure(NotFound)
    {
      if !ValidKey(id) {
        return Failure(BadKey);
      }
      if id !in docs {
        return Failure(NotFound);
      }
      return Success(Row(if docs[id].version.Some? then docs[id].version.value else 0, docs[id].payload));
    }

    method PutVersioned(id: string, expected: int, val: V) returns (e: Option<StoreError>)
      modifies this
      ensures !ValidKey(id) ==> e == Some(BadKey) && docs == old(docs)
      ensures ValidKey(id) ==>
                match MongoPutVersioned(old(docs), id, expected, val)
                case Some(after) => e == None && docs == after
                case None => e == Some(Conflict) && docs == old(docs)
    {
      if !ValidKey(id) {
        return Some(BadKey);
      }
      var r;
      if expected == 0 {
        r := ReplaceOne(docs, id, {None, Some(0)}, Doc(Some(1), val), true);
        if r.DuplicateKey? {
          return Some(Conflict);
        }
      } else {
        r := ReplaceOne(docs, id, {Some(expected)}, Doc(Some(expected + 1), val), false);
        if r.Unmatched? {
          return Some(Conflict);
        }
      }
      docs := r.docs;
      return None;
    }

    /** The bounded read-then-write loop; with nobody else writing, the first round succeeds and the
        result is the contract's. */
    method Put(id: string, val: V) returns (e: Option<StoreError>)
      modifies this
      ensures e == if ValidKey(id) then None else Some(BadKey)
      ensures ValidKey(id) ==> Abstract(docs) == WithPut(Abstract(old(docs)), id, val)
      ensures !ValidKey(id) ==> docs == old(docs)
    {
      if !ValidKey(id) {
        return Some(BadKey);
      }
      for attempt := 0 to 5
        invariant attempt == 0 && docs == old(docs)
      {
        var row := Get(id);
        var version := if row.Success? then row.value.version else 0;
        var error := PutVersioned(id, version, val);
        if error == Some(Conflict) {
          continue;
        }
        assert Abstract(docs) == WithPut(Abstract(old(docs)), id, val);
        return error;
      }
    }

    method Delete(id: string) returns (e: Option<StoreError>)
      modifies this
      ensures e == if ValidKey(id) then None else Some(BadKey)
      ensures docs == if ValidKey(id) then old(docs) - {id} else old(docs)
    {
      if !ValidKey(id) {
        return Some(BadKey);
      }
      docs := docs - {id};
      return None;
    }

    /** A half-open range over the sorted index instead of a prefix test. */
    method List(prefix: string) returns (r: Result<seq<string>, StoreError>)
      requires IsBytes(prefix) && forall k :: k in docs ==> IsBytes(k)
      ensures r.Success? <==> ValidPrefix(prefix)
      ensures r.Success? && (prefix == "" || !AllTop(prefix)) ==> IsListing(r.value, docs.Keys, prefix)
      ensures r.Success? && prefix != "" && AllTop(prefix) ==> r.value == []
      ensures r.Success? ==> forall k :: k in r.value ==> k in docs
    {
      if !ValidPrefix(prefix) {
        return Failure(BadKey);
      }
      var ks;
      if prefix == "" {
        ks := Collect(docs.Keys, k => true);
        return Success(ks);
      }
      var end := PrefixSuccessor(prefix);
      ks := Collect(docs.Keys, k => AtMost(prefix, k) && Less(k, end));
      forall k | k in docs ensures k in ks <==> InRange(prefix, k) && k in docs {
      }
      if AllTop(prefix) {
        assert forall k :: k in docs ==> !InRange(prefix, k);
        SomeKey(ks);
      } else {
        forall k | k in docs ensures k in ks <==> prefix <= k {
          RangeIsPrefix(prefix, k);
        }
      }
      return Success(ks);
    }

    method Scan(prefix: string) returns (r: Result<seq<Found<V>>, StoreError>)
      requires IsBytes(prefix) && forall k :: k in docs ==> IsBytes(k)
      ensures r.Success? <==> ValidPrefix(prefix)
      ensures r.Success? && (prefix == "" || !AllTop(prefix)) ==> IsScan(r.value, Abstract(docs), prefix)
      ensures r.Success? && prefix != "" && AllTop(prefix) ==> r.value == []
    {
      var ks := List(prefix);
      if ks.Failure? {
        return Failure(ks.error);
      }
      var listed := ks.value;
      assert Abstract(docs).Keys == docs.Keys;
      if prefix == "" || !AllTop(prefix) {
        PairIsScan(listed, Abstract(docs), prefix);
      }
      return Success(Pair(listed, Abstract(docs)));
    }
  }

  // ----- The backends agree -----

  /** A versioned write does the same to the documents as to the rows they stand for, except that
      asking for a new key adopts a legacy document where the map reports a conflict. */
  lemma {:induction false} BackendsAgree<V>(docs: Docs<V>, id: string, expected: int, val: V)
    ensures var mongo := MongoPutVersioned(docs, id, expected, val);
            var memory := WithPutVersioned(Abstract(docs), id, expected, val);
            (mongo.Some? == memory.Some? && (mongo.Some? ==> Abstract(mongo.value) == memory.value))
              <==> !(expected == 0 && Legacy(docs, id))
  {
    var mongo := MongoPutVersioned(docs, id, expected, val);
    var memory := WithPutVersioned(Abstract(docs), id, expected, val);
    if mongo.Some? && memory.Some? {
      assert Abstract(mongo.value) == memory.value;
    }
  }
}
