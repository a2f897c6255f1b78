/**
 The in-memory rule store: internal/store/rules.go over the counters of internal/store/types.go.
 The Firestore store keeps the same table with the same code and adds writes; see `RuleReplicas`.
 */
module RuleStore {
  import opened Wrappers
  import opened RuleTable

  /** A rule with its atomic counter. The plain fields are kept as one value. */
  class RuleObject {
    var data: Rule
    var currentRPM: int

    constructor (data: Rule)
      ensures this.data == data && currentRPM == 0
    {
      this.data, currentRPM := data, 0;
    }

    method IncrementRPM() returns (count: int)
      modifies this`currentRPM
      ensures count == currentRPM == Increment(old(currentRPM))
    {
      currentRPM := if currentRPM == MAX_INT64 then MIN_INT64 else currentRPM + 1;
      count := currentRPM;
    }

    method ResetRPM()
      modifies this`currentRPM
      ensures currentRPM == 0
    {
      currentRPM := 0;
    }
  }

  class MemoryRuleStore {
    var rules: map<string, RuleObject>

    /** Every rule is filed under its own id, so no object is filed twice. */
    ghost predicate Valid()
      reads this, rules.Values
    {
      forall id :: id in rules ==> rules[id].data.ruleId == id
    }

    ghost function View(): Table
      reads this, rules.Values
    {
      map id | id in rules :: Live(rules[id].data, rules[id].currentRPM)
    }

    constructor ()
      ensures Valid() && View() == map[]
    {
      rules := map[];
    }

    /** Files a rule, its counter at 0, in place of whatever was there. */
    method File(rule: RuleObject)
      requires Valid() && rule.currentRPM == 0
      modifies this`rules
      ensures Valid() && View() == old(View())[rule.data.ruleId := Live(rule.data, 0)]
      ensures rules == old(rules)[rule.data.ruleId := rule]
    {
      rules := rules[rule.data.ruleId := rule];
    }

    /** Dates a rule that has no expiry yet and starts its counter. */
    method Prepare(rule: RuleObject, now: int)
      modifies rule
      ensures rule.data == WithExpiry(old(rule.data), now) && rule.currentRPM == 0
    {
      if rule.data.expiresAt == 0 {
        rule.data := rule.data.(expiresAt := now + rule.data.durationSeconds * SECOND);
      }
      rule.ResetRPM();
    }

    method SetRule(rule: RuleObject, now: int) returns (ok: bool)
      requires Valid()
      modifies this`rules, rule
      ensures Valid()
      ensures ok <==> old(rule.data.ruleId) != ""
      ensures !ok ==> View() == old(View()) && unchanged(rule)
      ensures ok ==> rule.data == WithExpiry(old(rule.data), now)
      ensures ok ==> View() == old(View())[rule.data.ruleId := Live(rule.data, 0)]
    {
      if rule.data.ruleId == "" {
        return false;
      }
      ghost var id, was := rule.data.ruleId, View();
      Prepare(rule, now);
      ghost var prepared := View();
      assert prepared.Keys == was.Keys;
      assert forall j :: j in was && j != id ==> prepared[j] == was[j];
      File(rule);
      assert prepared[id := Live(rule.data, 0)] == was[id := Live(rule.data, 0)];
      return true;
    }

    method RemoveRule(id: string) returns (found: bool)
      requires Valid()
      modifies this`rules
      ensures Valid() && View() == Step(old(View()), Drop(id))
      ensures found <==> id in old(View())
      ensures rules == old(rules) - {id}
    {
      if id !in rules {
        return false;
      }
      rules := rules - {id};
      return true;
    }

    method RemoveAll() returns (count: nat)
      requires Valid()
      modifies this`rules
      ensures Valid() && View() == Step(old(View()), Clear) && rules == map[]
      ensures count == |old(View()).Keys|
    {
      count := |rules.Keys|;
      assert View().Keys == rules.Keys;
      rules := map[];
    }

    /** Visits the rules in any order and stops at the first that decides, which is `pick`. */
    method ShouldAllow(host: string, path: string, now: int, glob: Glob)
        returns (allowed: bool, ghost pick: Option<string>)
      requires Valid()
      modifies rules.Values
      ensures Valid() && Choosable(old(View()), host, path, now, glob, pick)
      ensures allowed == Answer(old(View()), pick)
      ensures View() == Step(old(View()), Check(host, path, now, pick))
    {
      pick := None;
      var todo := rules.Keys;
      while todo != {}
        invariant todo <= rules.Keys
        invariant forall id :: id in rules && id !in todo ==> !Decides(rules[id].data, host, path, now, glob)
        decreases todo
      {
        var id :| id in todo;
        todo := todo - {id};
        var rule := rules[id];
        if !Unexpired(rule.data, now) {
          continue;
        }
        if rule.data.targetHost != host {
          continue;
        }
        if rule.data.pathPattern.Some? && !MatchRulePath(rule.data.pathPattern.value, path, glob) {
          continue;
        }
        if rule.data.action == "block" {
          pick := Some(id);
          return false, pick;
        }
        if rule.data.action == "allow" {
          pick := Some(id);
          return true, pick;
        }
        if rule.data.action == "throttle" {
          pick := Some(id);
          ghost var was := View();
          var count := rule.IncrementRPM();
          assert forall j :: j in rules && j != id ==> rules[j] != rule;
          assert View() == Bump(was, id);
          return count <= rule.data.maxRPM, pick;
        }
      }
      return true, pick;
    }

    /** The active rules, without an order. */
    method GetStatus(now: int) returns (status: map<string, Live>)
      requires Valid()
      ensures status == Active(View(), now)
      ensures forall id :: Lookup(status, id)
                        == if id in rules && rules[id].data.expiresAt > now
                           then Some(Live(rules[id].data, rules[id].currentRPM)) else None
    {
      status := map[];
      var todo := rules.Keys;
      while todo != {}
        invariant todo <= rules.Keys
        invariant forall id :: id in status <==> id in rules && id !in todo && Unexpired(rules[id].data, now)
        invariant forall id :: id in status ==> status[id] == Live(rules[id].data, rules[id].currentRPM)
        decreases todo
      {
        var id :| id in todo;
        todo := todo - {id};
        if Unexpired(rules[id].data, now) {
          status := status[id := Live(rules[id].data, rules[id].currentRPM)];
        }
      }
    }

    method DeleteExpired(now: int)
      requires Valid()
      modifies this`rules
      ensures Valid() && View() == Step(old(View()), Sweep(now))
      ensures forall id :: id in rules <==> id in old(rules) && old(rules[id].data).expiresAt > now
      ensures forall id :: id in rules ==> rules[id] == old(rules)[id]
    {
      ghost var before := rules;
      var todo := rules.Keys;
      while todo != {}
        invariant todo <= rules.Keys <= before.Keys
        invariant forall id :: id in rules ==> rules[id] == before[id]
        invariant forall id :: id in before && id !in todo ==> (id in rules <==> Unexpired(before[id].data, now))
        decreases todo
      {
        var id :| id in todo;
        todo := todo - {id};
        if !Unexpired(rules[id].data, now) {
          rules := rules - {id};
        }
      }
      assert forall id :: id in rules <==> id in before && Unexpired(before[id].data, now);
    }

    method ResetAllRPM()
      requires Valid()
      modifies rules.Values
      ensures Valid() && View() == Step(old(View()), ResetAll)
      ensures forall id :: id in rules ==> rules[id].currentRPM == 0 && rules[id].data == old(rules[id].data)
    {
      ghost var was := View();
      var todo := rules.Keys;
      while todo != {}
        invariant todo <= rules.Keys
        invariant forall id :: id in rules ==> rules[id].data == was[id].rule
        invariant forall id :: id in rules && id !in todo ==> rules[id].currentRPM == 0
        decreases todo
      {
        var id :| id in todo;
        todo := todo - {id};
        rules[id].ResetRPM();
      }
      assert forall id :: id in rules ==> View()[id] == Reset(was)[id];
    }
  }
}
