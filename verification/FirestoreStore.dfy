/**
 One instance of the Firestore rule store as an object: internal/plugins/storage/firestore/rule_store.go.
 Its methods are tied to the steps of `RuleReplicas`. A goroutine that writes to Firestore is an
 element of `launched`; what it does when it runs is `RuleReplicas.Apply`.
 */
module FirestoreStore {
  import opened RuleTable
  import opened RuleStore
  import opened RuleReplicas

  /** Every cached rule comes from an unexpired document that names it, and every such document's rule is
      cached; of two documents that name one rule, which a write of the store never makes, either may win. */
  ghost predicate LoadedFrom(cache: Table, docs: map<string, RuleDoc>, now: int) {
    && (forall doc :: doc in docs.Values && doc.expiresAt > now ==> doc.ruleId in cache)
    && (forall id :: id in cache ==>
          exists doc :: doc in docs.Values && doc.expiresAt > now && doc.ruleId == id
                     && cache[id] == Live(DocToRule(doc), 0))
  }

  predicate OwnIds(docs: map<string, RuleDoc>) {
    forall id :: id in docs ==> docs[id].ruleId == id
  }

  /** Documents that are filed under their own rule ids load to exactly one table. */
  lemma LoadedOwnIds(cache: Table, docs: map<string, RuleDoc>, now: int)
    requires LoadedFrom(cache, docs, now)
    ensures OwnIds(docs) ==> cache == Load(docs, now)
  {
    forall id | OwnIds(docs)
      ensures id in cache <==> id in Load(docs, now)
      ensures id in cache ==> cache[id] == Load(docs, now)[id]
    {
      if id in cache {
        var doc :| doc in docs.Values && doc.expiresAt > now && doc.ruleId == id
                   && cache[id] == Live(DocToRule(doc), 0);
        var key :| key in docs && docs[key] == doc;
        assert key == id;
      }
      if id in Load(docs, now) { assert docs[id] in docs.Values; }
    }
  }

  function WithDoc(cache: Table, doc: RuleDoc, now: int): Table {
    if doc.expiresAt > now then cache[doc.ruleId := Live(DocToRule(doc), 0)] else cache
  }

  lemma OneMoreLoaded(cache: Table, docs: map<string, RuleDoc>, id: string, doc: RuleDoc, now: int)
    requires LoadedFrom(cache, docs, now) && id !in docs
    ensures LoadedFrom(WithDoc(cache, doc, now), docs[id := doc], now)
  {
    var more := docs[id := doc];
    forall d | d in docs.Values ensures d in more.Values {
      var key :| key in docs && docs[key] == d;
      assert more[key] == d;
    }
    assert more[id] == doc && doc in more.Values;
  }

  method LoadDoc(table: MemoryRuleStore, doc: RuleDoc, now: int)
    requires table.Valid()
    modifies table`rules
    ensures table.Valid() && table.View() == WithDoc(old(table.View()), doc, now)
  {
    if doc.expiresAt > now {
      var rule := new RuleObject(DocToRule(doc));
      table.File(rule);
    }
  }

  /** The initial load keeps the rules that have not expired. */
  method LoadRules(docs: map<string, RuleDoc>, now: int) returns (table: MemoryRuleStore)
    ensures fresh(table) && table.Valid() && LoadedFrom(table.View(), docs, now)
    ensures OwnIds(docs) ==> table.View() == Load(docs, now)
  {
    table := new MemoryRuleStore();
    var todo := docs.Keys;
    ghost var seen: map<string, RuleDoc> := map[];
    while todo != {}
      invariant todo <= docs.Keys && seen == docs - todo
      invariant fresh(table) && table.Valid()
      invariant LoadedFrom(table.View(), seen, now)
      decreases todo
    {
      var id :| id in todo;
      todo := todo - {id};
      OneMoreLoaded(table.View(), seen, id, docs[id], now);
      seen := seen[id := docs[id]];
      LoadDoc(table, docs[id], now);
    }
    assert seen == docs;
    LoadedOwnIds(table.View(), docs, now);
  }

  class FirestoreRuleStore {
    const table: MemoryRuleStore
    var launched: multiset<Write>
    var feed: seq<Change>
    var listening: bool

    ghost predicate Valid()
      reads this, table, table.rules.Values
    {
      table.Valid()
    }

    /** The instance when its clock reads `now`. */
    ghost function View(now: int): Instance
      reads this, table, table.rules.Values
    {
      Instance(now, table.View(), launched, feed, listening)
    }

    constructor (docs: map<string, RuleDoc>, now: int)
      ensures Valid() && launched == multiset{} && feed == [] && listening
      ensures LoadedFrom(table.View(), docs, now)
      ensures OwnIds(docs) ==> table.View() == Load(docs, now)
    {
      var loaded := LoadRules(docs, now);
      table, launched, feed, listening := loaded, multiset{}, [], true;
    }

    method SetRule(rule: RuleObject, now: int) returns (ok: bool)
      requires Valid()
      modifies this`launched, table`rules, rule
      ensures Valid() && (ok <==> old(rule.data.ruleId) != "")
      ensures View(now) == Administer(old(View(now)), RuleReplicas.SetRule(0, old(rule.data)))
    {
      ok := table.SetRule(rule, now);
      if ok {
        launched := launched + multiset{SetDoc(rule.data)};
      }
    }

    method RemoveRule(id: string) returns (found: bool)
      requires Valid()
      modifies this`launched, table`rules
      ensures Valid() && (found <==> id in old(table.View()))
      ensures forall now :: View(now) == Administer(old(View(now)), RuleReplicas.RemoveRule(0, id))
    {
      found := table.RemoveRule(id);
      if found {
        launched := launched + multiset{DeleteDoc(id)};
      } else {
        assert table.View() == old(table.View());
      }
    }

    method RemoveAll() returns (count: nat)
      requires Valid()
      modifies this`launched, table`rules
      ensures Valid() && count == |old(table.View()).Keys|
      ensures table.View() == map[] && launched == old(launched) + multiset{DeleteAllDocs}
      ensures forall now :: View(now) == Administer(old(View(now)), RuleReplicas.RemoveAll(0))
    {
      count := table.RemoveAll();
      launched := launched + multiset{DeleteAllDocs};
    }

    method ApplyChange(change: Change)
      requires Valid()
      modifies table`rules
      ensures Valid() && table.View() == RuleTable.Step(old(table.View()), ChangeOp(change))
    {
      match change
      case Upsert(doc) =>
        var rule := new RuleObject(DocToRule(doc));
        table.File(rule);
      case Removed(id) =>
        var _ := table.RemoveRule(id);
    }

    /** Applies the delivered changes one by one. */
    method ListenForChanges()
      requires Valid()
      modifies this`feed, table`rules
      ensures Valid() && forall now :: View(now) == ReceiveAll(old(View(now)))
    {
      while feed != []
        invariant Valid()
        invariant forall now :: ReceiveAll(View(now)) == ReceiveAll(old(View(now)))
        decreases |feed|
      {
        label before:
        ApplyChange(feed[0]);
        feed := feed[1..];
        assert forall now :: View(now) == Receive(old@before(View(now)));
      }
    }

    /** Ends the listener; writes in flight go on. */
    method Stop()
      requires Valid()
      modifies this`feed, this`listening
      ensures Valid() && forall now :: View(now) == Stopped(old(View(now)))
    {
      listening := false;
      feed := [];
    }
  }
}
