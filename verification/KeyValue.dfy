/**
 The key-value stores: the in-memory one of internal/store/keyvalue.go and the Firestore one of
 internal/plugins/storage/firestore/kv_store.go, which files a value under a sanitized id. Keys are
 strings of characters, ordered by character as their UTF-8 bytes are.
 */
module KeyValue {
  import opened Wrappers

  type Data = seq<bv8>

  // ---------- Ids ----------

  /** Every slash becomes two underscores. */
  function SanitizeDocID(key: string): string {
    if key == "" then "" else (if key[0] == '/' then "__" else [key[0]]) + SanitizeDocID(key[1..])
  }

  lemma {:induction false} SanitizeInjective(a: string, b: string)
    requires '_' !in a && '_' !in b
    requires SanitizeDocID(a) == SanitizeDocID(b)
    ensures a == b
  {
    if a != "" && b != "" {
      assert SanitizeDocID(a)[0] == (if a[0] == '/' then '_' else a[0]);
      assert SanitizeDocID(b)[0] == (if b[0] == '/' then '_' else b[0]);
      assert a[0] in a && b[0] in b;
      var n := if a[0] == '/' then 2 else 1;
      assert SanitizeDocID(a)[n..] == SanitizeDocID(a[1..]) && SanitizeDocID(b)[n..] == SanitizeDocID(b[1..]);
      SanitizeInjective(a[1..], b[1..]);
      assert a == [a[0]] + a[1..] && b == [b[0]] + b[1..];
    }
  }

  // ---------- Runs ----------

  datatype Op = Get(key: string) | Set(key: string, value: Data) | Delete(key: string)

  datatype Doc = Doc(key: string, data: Data)

  type Memory = map<string, Data>

  /** Documents by id. */
  type Docs = map<string, Doc>

  function MemoryStep(m: Memory, op: Op): Memory {
    match op
    case Get(_) => m
    case Set(key, value) => m[key := value]
    case Delete(key) => m - {key}
  }

  function DocsStep(d: Docs, op: Op): Docs {
    match op
    case Get(_) => d
    case Set(key, value) => d[SanitizeDocID(key) := Doc(key, value)]
    case Delete(key) => d - {SanitizeDocID(key)}
  }

  function MemoryGet(m: Memory, key: string): Option<Data> {
    Lookup(m, key)
  }

  function DocsGet(d: Docs, key: string): Option<Data> {
    var id := SanitizeDocID(key);
    if id in d then Some(d[id].data) else None
  }

  function MemoryFinal(m: Memory, run: seq<Op>): Memory
    decreases |run|
  {
    if run == [] then m else MemoryFinal(MemoryStep(m, run[0]), run[1..])
  }

  function DocsFinal(d: Docs, run: seq<Op>): Docs
    decreases |run|
  {
    if run == [] then d else DocsFinal(DocsStep(d, run[0]), run[1..])
  }

  /** The answers to the `Get`s of a run. */
  function MemoryAnswers(m: Memory, run: seq<Op>): seq<Option<Data>>
    decreases |run|
  {
    if run == [] then []
    else (if run[0].Get? then [MemoryGet(m, run[0].key)] else []) + MemoryAnswers(MemoryStep(m, run[0]), run[1..])
  }

  function DocsAnswers(d: Docs, run: seq<Op>): seq<Option<Data>>
    decreases |run|
  {
    if run == [] then []
    else (if run[0].Get? then [DocsGet(d, run[0].key)] else []) + DocsAnswers(DocsStep(d, run[0]), run[1..])
  }

  predicate Uses(run: seq<Op>, keys: set<string>) {
    forall op :: op in run ==> op.key in keys
  }

  predicate InjectiveOn(keys: set<string>) {
    forall a, b :: a in keys && b in keys && SanitizeDocID(a) == SanitizeDocID(b) ==> a == b
  }

  /** The documents are the memory, filed under sanitized ids. */
  ghost predicate Refines(d: Docs, m: Memory, keys: set<string>) {
    && m.Keys <= keys
    && (forall key :: key in keys ==> DocsGet(d, key) == MemoryGet(m, key))
    && (forall id :: id in d ==> SanitizeDocID(d[id].key) == id && d[id].key in m)
  }

  lemma StepRefines(d: Docs, m: Memory, op: Op, keys: set<string>)
    requires Refines(d, m, keys) && op.key in keys && InjectiveOn(keys)
    ensures Refines(DocsStep(d, op), MemoryStep(m, op), keys)
  {
    var e, n := DocsStep(d, op), MemoryStep(m, op);
    forall key | key in keys ensures DocsGet(e, key) == MemoryGet(n, key) {
      assert DocsGet(d, key) == MemoryGet(m, key);
      assert SanitizeDocID(key) == SanitizeDocID(op.key) <==> key == op.key;
    }
    forall id | id in e ensures SanitizeDocID(e[id].key) == id && e[id].key in n {
      if id != SanitizeDocID(op.key) { assert id in d && e[id] == d[id]; }
    }
  }

  lemma {:induction false} RunRefines(d: Docs, m: Memory, run: seq<Op>, keys: set<string>)
    requires Refines(d, m, keys) && Uses(run, keys) && InjectiveOn(keys)
    ensures DocsAnswers(d, run) == MemoryAnswers(m, run)
    ensures Refines(DocsFinal(d, run), MemoryFinal(m, run), keys)
    decreases |run|
  {
    if run != [] {
      assert run[0] in run;
      StepRefines(d, m, run[0], keys);
      RunRefines(DocsStep(d, run[0]), MemoryStep(m, run[0]), run[1..], keys);
    }
  }

  /** The two stores answer alike on every run over a set of keys if and only if no two of these keys
      are sanitized to the same id. */
  lemma AnswersAgreeExactly(keys: set<string>)
    ensures InjectiveOn(keys) <==> forall run :: Uses(run, keys) ==>
            DocsAnswers(map[], run) == MemoryAnswers(map[], run)
  {
    if InjectiveOn(keys) {
      forall run | Uses(run, keys) ensures DocsAnswers(map[], run) == MemoryAnswers(map[], run) {
        RunRefines(map[], map[], run, keys);
      }
    } else {
      var a, b :| a in keys && b in keys && SanitizeDocID(a) == SanitizeDocID(b) && a != b;
      var run := [Set(a, []), Get(b)];
      var d, m := DocsStep(map[], run[0]), MemoryStep(map[], run[0]);
      assert run[1..] == [Get(b)] && run[1..][1..] == [];
      assert DocsAnswers(d, run[1..]) == [Some([])] && MemoryAnswers(m, run[1..]) == [None];
      assert DocsAnswers(map[], run) == [Some([])] && MemoryAnswers(map[], run) == [None];
      assert Uses(run, keys);
    }
  }

  /** So they answer alike on every run whose keys hold no underscore. */
  lemma UnderscoreFreeRunsAgree(run: seq<Op>)
    requires forall op :: op in run ==> '_' !in op.key
    ensures DocsAnswers(map[], run) == MemoryAnswers(map[], run)
  {
    var keys := set op | op in run :: op.key;
    forall a, b | a in keys && b in keys && SanitizeDocID(a) == SanitizeDocID(b) ensures a == b {
      SanitizeInjective(a, b);
    }
    AnswersAgreeExactly(keys);
  }

  /** The restriction matters: a slash and two underscores are filed under the same id. */
  lemma SanitizeCollides()
    ensures SanitizeDocID("a/b") == SanitizeDocID("a__b")
  {
    assert SanitizeDocID("/b") == "__b" && SanitizeDocID("__b") == "__b";
    assert "a/b"[1..] == "/b" && "a__b"[1..] == "__b";
  }

  // ---------- Listing by prefix ----------

  /** Lexicographic order. */
  predicate Less(a: string, b: string) {
    b != "" && (a == "" || a[0] < b[0] || (a[0] == b[0] && Less(a[1..], b[1..])))
  }

  lemma {:induction false} LessTotal(a: string, b: string)
    ensures Less(a, b) || a == b || Less(b, a)
    ensures !(Less(a, b) && Less(b, a)) && !Less(a, a)
  {
    if a != "" {
      LessTotal(a[1..], a[1..]);
      if b != "" {
        LessTotal(a[1..], b[1..]);
        assert a == [a[0]] + a[1..] && b == [b[0]] + b[1..];
      }
    }
  }

  lemma {:induction false} LessTransitive(a: string, b: string, c: string)
    requires Less(a, b) && Less(b, c)
    ensures Less(a, c)
  {
    if a != "" && a[0] == b[0] == c[0] { LessTransitive(a[1..], b[1..], c[1..]); }
  }

  const TOP: char := '\U{FFFF}'

  predicate InRange(key: string, prefix: string) {
    !Less(key, prefix) && Less(key, prefix + [TOP])
  }

  /** The range query finds exactly the keys with the prefix whose next character, if any, is below
      U+FFFF. */
  lemma {:induction false} RangeIsPrefix(key: string, prefix: string)
    ensures InRange(key, prefix) <==> prefix <= key && (|key| == |prefix| || key[|prefix|] < TOP)
  {
    if prefix == "" {
      assert prefix + [TOP] == [TOP] && [TOP][1..] == "" && !Less(key, "");
      if key != "" { assert !Less(key[1..], [TOP][1..]); }
    } else if key != "" {
      assert (prefix + [TOP])[1..] == prefix[1..] + [TOP];
      RangeIsPrefix(key[1..], prefix[1..]);
      assert prefix <= key <==> prefix[0] == key[0] && prefix[1..] <= key[1..];
    }
  }

  /** Strictly ascending. */
  predicate Ascending(s: seq<string>) {
    forall i, j :: 0 <= i < j < |s| ==> Less(s[i], s[j])
  }

  ghost predicate Lists(s: seq<string>, keys: set<string>) {
    Ascending(s) && forall key :: key in s <==> key in keys
  }

  lemma NoneInEmpty(a: seq<string>, b: seq<string>)
    requires forall key :: key in b ==> key in a
    ensures a == [] ==> b == []
  {
    if b != [] { assert b[0] in b; }
  }

  /** There is only one ascending list of a set of keys. */
  lemma {:induction false} ListingUnique(a: seq<string>, b: seq<string>)
    requires Ascending(a) && Ascending(b) && forall key :: key in a <==> key in b
    ensures a == b
  {
    NoneInEmpty(a, b);
    NoneInEmpty(b, a);
    if a != [] {
      assert a[0] in a && a[0] in b && b[0] in b && b[0] in a;
      var i :| 0 <= i < |b| && b[i] == a[0];
      var j :| 0 <= j < |a| && a[j] == b[0];
      LessTotal(a[0], b[0]);
      assert a[0] == b[0];
      forall key ensures key in a[1..] <==> key in b[1..] {
        LessTotal(a[0], a[0]);
        assert key in a[1..] <==> key in a && key != a[0];
        assert key in b[1..] <==> key in b && key != b[0];
      }
      ListingUnique(a[1..], b[1..]);
      assert a == [a[0]] + a[1..] && b == [b[0]] + b[1..];
    }
  }

  function MemoryMatches(m: Memory, prefix: string): set<string> {
    set key | key in m && prefix <= key
  }

  function DocsMatches(d: Docs, prefix: string): set<string> {
    set id | id in d && InRange(d[id].key, prefix) :: d[id].key
  }

  /** After any run of keys without underscores, what each store lists in ascending order for a prefix
      is the same if and only if no key with the prefix goes on with U+FFFF or a later character. */
  lemma ListingsAgreeExactly(run: seq<Op>, prefix: string, a: seq<string>, b: seq<string>)
    requires forall op :: op in run ==> '_' !in op.key
    requires Lists(a, DocsMatches(DocsFinal(map[], run), prefix))
    requires Lists(b, MemoryMatches(MemoryFinal(map[], run), prefix))
    ensures a == b <==> forall key :: key in MemoryFinal(map[], run) && prefix < key ==> key[|prefix|] < TOP
  {
    var keys := set op | op in run :: op.key;
    forall x, y | x in keys && y in keys && SanitizeDocID(x) == SanitizeDocID(y) ensures x == y {
      SanitizeInjective(x, y);
    }
    RunRefines(map[], map[], run, keys);
    var d, m := DocsFinal(map[], run), MemoryFinal(map[], run);
    forall key
      ensures key in a <==> key in m && InRange(key, prefix)
      ensures key in b <==> key in m && prefix <= key
      ensures key in a <==> key in b && (prefix < key ==> key[|prefix|] < TOP)
    {
      RangeIsPrefix(key, prefix);
      if key in m {
        assert key in keys && DocsGet(d, key) == MemoryGet(m, key);
        assert SanitizeDocID(d[SanitizeDocID(key)].key) == SanitizeDocID(key);
      }
    }
    if forall key :: key in m && prefix < key ==> key[|prefix|] < TOP {
      ListingUnique(a, b);
    }
  }
}
