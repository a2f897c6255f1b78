/** The two key-value stores as objects: internal/store/keyvalue.go and
    internal/plugins/storage/firestore/kv_store.go. */
module KeyValueStores {
  import opened Wrappers
  import opened KeyValue

  // ---------- Sorting, as `sort.Strings` does ----------

  function Insert(key: string, s: seq<string>): seq<string> {
    if s == [] || Less(key, s[0]) then [key] + s else [s[0]] + Insert(key, s[1..])
  }

  function Sorted(s: seq<string>): seq<string> {
    if s == [] then [] else Insert(s[0], Sorted(s[1..]))
  }

  lemma {:induction false} InsertAscending(key: string, s: seq<string>)
    requires Ascending(s) && key !in s
    ensures Ascending(Insert(key, s))
    ensures forall x :: x in Insert(key, s) <==> x == key || x in s
  {
    if s != [] {
      LessTotal(key, s[0]);
      if Less(key, s[0]) {
        forall j | 0 <= j < |s| ensures Less(key, s[j]) {
          if j > 0 { LessTransitive(key, s[0], s[j]); }
        }
      } else {
        InsertAscending(key, s[1..]);
        var rest := Insert(key, s[1..]);
        assert forall x :: x in s <==> x == s[0] || x in s[1..];
        forall j | 0 <= j < |rest| ensures Less(s[0], rest[j]) {
          assert rest[j] in rest;
        }
      }
    }
  }

  predicate Distinct(s: seq<string>) {
    forall i, j :: 0 <= i < j < |s| ==> s[i] != s[j]
  }

  lemma {:induction false} SortedAscending(s: seq<string>)
    requires Distinct(s)
    ensures Ascending(Sorted(s)) && forall x :: x in Sorted(s) <==> x in s
  {
    if s != [] {
      SortedAscending(s[1..]);
      assert s[0] !in s[1..];
      InsertAscending(s[0], Sorted(s[1..]));
      assert forall x :: x in s <==> x == s[0] || x in s[1..];
    }
  }

  // ---------- The in-memory store ----------

  class MemoryKeyValueStore {
    var data: map<string, array<bv8>>

    function View(): Memory
      reads this, data.Values
    {
      map key | key in data :: data[key][..]
    }

    constructor ()
      ensures View() == map[]
    {
      data := map[];
    }

    /** Hands out a copy, so that the caller's buffer is never the store's. */
    method Get(key: string) returns (value: array?<bv8>)
      ensures match MemoryGet(View(), key)
              case None => value == null
              case Some(bytes) => value != null && fresh(value) && value[..] == bytes
    {
      if key !in data {
        return null;
      }
      value := Copy(data[key]);
    }

    /** Keeps a copy, for the same reason. */
    method Set(key: string, value: array<bv8>)
      modifies this
      ensures View() == MemoryStep(old(View()), KeyValue.Set(key, value[..]))
      ensures key in data && fresh(data[key])
      ensures forall k :: k in data && k != key ==> k in old(data) && data[k] == old(data)[k]
    {
      var cp := Copy(value);
      data := data[key := cp];
    }

    method Delete(key: string)
      modifies this
      ensures View() == MemoryStep(old(View()), KeyValue.Delete(key))
    {
      data := data - {key};
    }

    method List(prefix: string) returns (keys: seq<string>)
      ensures Lists(keys, MemoryMatches(View(), prefix))
    {
      keys := [];
      var todo := data.Keys;
      while todo != {}
        invariant todo <= data.Keys
        invariant Distinct(keys)
        invariant forall key :: key in keys <==> key in data && key !in todo && prefix <= key
        decreases todo
      {
        var key :| key in todo;
        todo := todo - {key};
        if prefix <= key {
          keys := keys + [key];
        }
      }
      SortedAscending(keys);
      keys := Sorted(keys);
    }
  }

  method Copy(from: array<bv8>) returns (to: array<bv8>)
    ensures fresh(to) && to[..] == from[..]
  {
    to := new bv8[from.Length](_ => 0);
    for i := 0 to from.Length
      invariant to[..i] == from[..i]
    {
      to[i] := from[i];
    }
    assert to[..] == to[..to.Length] && from[..] == from[..from.Length];
  }

  // ---------- The Firestore store ----------

  class FirestoreKeyValueStore {
    /** The collection. */
    var docs: Docs

    /** Every document sits under the sanitized id of the key it holds. */
    ghost predicate Valid()
      reads this
    {
      forall id :: id in docs ==> SanitizeDocID(docs[id].key) == id
    }

    constructor ()
      ensures Valid() && docs == map[]
    {
      docs := map[];
    }

    method Get(key: string) returns (value: Option<Data>)
      ensures value == DocsGet(docs, key)
    {
      var id := SanitizeDocID(key);
      if id !in docs {
        return None;
      }
      return Some(docs[id].data);
    }

    method Set(key: string, value: Data)
      requires Valid()
      modifies this
      ensures Valid() && docs == DocsStep(old(docs), KeyValue.Set(key, value))
    {
      docs := docs[SanitizeDocID(key) := Doc(key, value)];
    }

    method Delete(key: string)
      requires Valid()
      modifies this
      ensures Valid() && docs == DocsStep(old(docs), KeyValue.Delete(key))
    {
      docs := docs - {SanitizeDocID(key)};
    }

    /** `found` are the ids the query answers with: those in range, each once, ordered by key. */
    ghost predicate Answers(found: seq<string>, prefix: string)
      reads this
    {
      && Distinct(found)
      && (forall id :: id in found <==> id in docs && InRange(docs[id].key, prefix))
      && forall i, j :: 0 <= i < j < |found| ==> !Less(docs[found[j]].key, docs[found[i]].key)
    }

    method List(prefix: string, found: seq<string>) returns (keys: seq<string>)
      requires Valid() && Answers(found, prefix)
      ensures Lists(keys, DocsMatches(docs, prefix))
    {
      assert forall id :: id in found ==> id in docs;
      keys := [];
      for i := 0 to |found|
        invariant |keys| == i && forall j :: 0 <= j < i ==> keys[j] == docs[found[j]].key
      {
        assert found[i] in found;
        keys := keys + [docs[found[i]].key];
      }
      forall i, j | 0 <= i < j < |keys| ensures Less(keys[i], keys[j]) {
        LessTotal(keys[i], keys[j]);
        assert SanitizeDocID(keys[i]) == found[i] && SanitizeDocID(keys[j]) == found[j];
      }
      forall key | key in DocsMatches(docs, prefix) ensures key in keys {
        var id :| id in docs && InRange(docs[id].key, prefix) && docs[id].key == key;
        assert id in found;
      }
    }
  }
}
