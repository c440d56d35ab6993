/** The lore store (src/stores/domain/loreStore.ts): world rules and factions, their two grouping
    getters, and the actions that create, update, delete and select them. */
module LoreStore {
  import opened Wrappers
  import opened Types
  import Lists
  import Text

  // ---------------- rulesByCategory ----------------

  /** `rulesByCategory`: the rules grouped by category, each group in list order. */
  function RulesByCategory(rules: seq<WorldRule>): map<string, seq<WorldRule>> {
    Lists.GroupBy(rules, RuleCategoryOf)
  }

  /** A category has a group exactly when some rule has that category, and the group holds
      exactly the rules of that category, in list order. */
  lemma RulesByCategoryGroups(rules: seq<WorldRule>, c: string)
    ensures c in RulesByCategory(rules) <==> exists i :: 0 <= i < |rules| && rules[i].category == c
    ensures c in RulesByCategory(rules) ==> RulesByCategory(rules)[c] == Lists.WithKey(rules, RuleCategoryOf, c)
  {
    Lists.GroupByIsFilter(rules, RuleCategoryOf, c);
    var w := Lists.WithKey(rules, RuleCategoryOf, c);
    if w != [] {
      assert w[0] in rules;
    }
  }

  // ---------------- factionsByType ----------------

  const Righteous := "正道"
  const Demonic := "魔道"
  const Unaligned := "中立"

  /** The crude classification of an ideology: righteous if it mentions 天道 or 正义, otherwise
      demonic if it mentions 强者为尊 or 魔, otherwise unaligned. */
  function FactionType(ideology: string): string {
    if Text.Contains(ideology, "天道") || Text.Contains(ideology, "正义") then Righteous
    else if Text.Contains(ideology, "强者为尊") || Text.Contains(ideology, "魔") then Demonic
    else Unaligned
  }

  function FactionTypeOf(f: Faction): string { FactionType(f.ideology) }

  /** `factionsByType`: the factions grouped by their classification, each group in list order. */
  function FactionsByType(factions: seq<Faction>): map<string, seq<Faction>> {
    Lists.GroupBy(factions, FactionTypeOf)
  }

  /** The classification in terms of where the key words occur: the righteous words win over the
      demonic ones, and an ideology with none of them is unaligned. */
  lemma FactionTypeIff(ideology: string)
    ensures FactionType(ideology) == Righteous <==>
      exists i: nat :: Text.OccursAt(ideology, "天道", i) || Text.OccursAt(ideology, "正义", i)
    ensures FactionType(ideology) == Demonic <==>
      && (forall i: nat :: !Text.OccursAt(ideology, "天道", i) && !Text.OccursAt(ideology, "正义", i))
      && exists i: nat :: Text.OccursAt(ideology, "强者为尊", i) || Text.OccursAt(ideology, "魔", i)
    ensures FactionType(ideology) == Unaligned <==>
      forall i: nat :: && !Text.OccursAt(ideology, "天道", i) && !Text.OccursAt(ideology, "正义", i)
                       && !Text.OccursAt(ideology, "强者为尊", i) && !Text.OccursAt(ideology, "魔", i)
  {
    Text.ContainsIff(ideology, "天道");
    Text.ContainsIff(ideology, "正义");
    Text.ContainsIff(ideology, "强者为尊");
    Text.ContainsIff(ideology, "魔");
  }

  /** Only the three labels occur as keys; a label has a group exactly when some faction gets it,
      and the group holds exactly the factions with that label, in list order. */
  lemma FactionsByTypeGroups(factions: seq<Faction>, k: string)
    ensures k in FactionsByType(factions) ==> k == Righteous || k == Demonic || k == Unaligned
    ensures k in FactionsByType(factions) <==> exists i :: 0 <= i < |factions| && FactionTypeOf(factions[i]) == k
    ensures k in FactionsByType(factions) ==> FactionsByType(factions)[k] == Lists.WithKey(factions, FactionTypeOf, k)
  {
    Lists.GroupByIsFilter(factions, FactionTypeOf, k);
    var w := Lists.WithKey(factions, FactionTypeOf, k);
    if w != [] {
      assert w[0] in factions;
    }
  }

  // ---------------- Records built by the actions ----------------

  /** The `data` argument of `createWorldRule`. */
  datatype NewRuleData = NewRuleData(
    name: string,
    category: string,
    description: string,
    constraints: Option<seq<string>>,
    examples: Option<seq<string>>,
    tags: Option<seq<string>>)

  /** The `data` argument of `createFaction`. */
  datatype NewFactionData = NewFactionData(name: string, ideology: string, resources: Option<seq<string>>)

  /** `{ ...rule, ...updates, updatedAt: now }`. */
  function MergeRule(r: WorldRule, u: WorldRulePatch, now: int): WorldRule {
    WorldRule(
      u.id.GetOr(r.id), u.projectId.GetOr(r.projectId), u.name.GetOr(r.name), u.category.GetOr(r.category),
      u.description.GetOr(r.description), u.constraints.GetOr(r.constraints), u.examples.GetOr(r.examples),
      u.tags.GetOr(r.tags), u.createdAt.GetOr(r.createdAt), now)
  }

  /** `{ ...faction, ...updates, updatedAt: now }`. */
  function MergeFaction(f: Faction, u: FactionPatch, now: int): Faction {
    Faction(
      u.id.GetOr(f.id), u.projectId.GetOr(f.projectId), u.name.GetOr(f.name), u.ideology.GetOr(f.ideology),
      u.relationships.GetOr(f.relationships), u.members.GetOr(f.members), u.resources.GetOr(f.resources),
      u.createdAt.GetOr(f.createdAt), now)
  }

  /** The patch `{ relationships }` that `addFactionRelationship` passes to `updateFaction`. */
  function RelationshipsPatch(rels: seq<FactionRelationship>): FactionPatch {
    FactionPatch(None, None, None, None, Some(rels), None, None, None, None)
  }

  function IndexOfRule(rules: seq<WorldRule>, id: Id): Option<nat> {
    Lists.IndexOfKey(rules, RuleIdOf, id)
  }

  function IndexOfFaction(factions: seq<Faction>, id: Id): Option<nat> {
    Lists.IndexOfKey(factions, FactionIdOf, id)
  }

  // ---------------- The store ----------------

  /** The store's state that its actions change. `freshId`, `now` and `writeOk` parameters stand
      for `crypto.randomUUID()`, `Date.now()` and whether the database call succeeds; a failed
      database call throws before the in-memory state is touched. */
  class Store {
    var worldRules: seq<WorldRule>
    var factions: seq<Faction>
    var currentRule: Option<WorldRule>
    var currentFaction: Option<Faction>

    constructor()
      ensures worldRules == [] && factions == [] && currentRule == None && currentFaction == None
    {
      worldRules := [];
      factions := [];
      currentRule := None;
      currentFaction := None;
    }

    /** `createWorldRule`: absent lists default to empty and both timestamps are `now`. */
    method CreateWorldRule(data: NewRuleData, projectId: Id, freshId: Id, now: int, writeOk: bool)
      returns (r: Result<WorldRule, StoreError>)
      modifies this
      ensures factions == old(factions) && currentRule == old(currentRule) && currentFaction == old(currentFaction)
      ensures !writeOk ==> r == Failure(WriteFailed) && worldRules == old(worldRules)
      ensures writeOk ==> r.Success? && worldRules == old(worldRules) + [r.value]
      ensures writeOk ==> var w := r.value;
        && w.id == freshId && w.projectId == projectId && w.name == data.name
        && w.category == data.category && w.description == data.description
        && w.constraints == data.constraints.GetOr([]) && w.examples == data.examples.GetOr([])
        && w.tags == data.tags.GetOr([]) && w.createdAt == now && w.updatedAt == now
    {
      var w := WorldRule(
        freshId, projectId, data.name, data.category, data.description,
        data.constraints.GetOr([]), data.examples.GetOr([]), data.tags.GetOr([]), now, now);
      if !writeOk {
        return Failure(WriteFailed);
      }
      worldRules := worldRules + [w];
      r := Success(w);
    }

    /** `updateWorldRule`: merge into the first rule with id `id` and refresh the selected rule. */
    method UpdateWorldRule(id: Id, updates: WorldRulePatch, now: int, writeOk: bool) returns (r: Outcome<StoreError>)
      modifies this
      ensures factions == old(factions) && currentFaction == old(currentFaction)
      ensures IndexOfRule(old(worldRules), id).None? ==>
        r == Fail(NotFound("World rule not found")) && worldRules == old(worldRules) && currentRule == old(currentRule)
      ensures IndexOfRule(old(worldRules), id).Some? && !writeOk ==>
        r == Fail(WriteFailed) && worldRules == old(worldRules) && currentRule == old(currentRule)
      ensures IndexOfRule(old(worldRules), id).Some? && writeOk ==>
        var i := IndexOfRule(old(worldRules), id).value;
        var updated := MergeRule(old(worldRules)[i], updates, now);
        && r == Pass
        && worldRules == old(worldRules)[i := updated]
        && currentRule == (if old(currentRule).Some? && old(currentRule).value.id == id then Some(updated) else old(currentRule))
    {
      var found := IndexOfRule(worldRules, id);
      if found.None? {
        return Fail(NotFound("World rule not found"));
      }
      var updated := MergeRule(worldRules[found.value], updates, now);
      if !writeOk {
        return Fail(WriteFailed);
      }
      worldRules := worldRules[found.value := updated];
      if currentRule.Some? && currentRule.value.id == id {
        currentRule := Some(updated);
      }
      r := Pass;
    }

    /** `deleteWorldRule`: drop every rule with id `id` and clear the selection if it had it. An
        unknown id is not an error. */
    method DeleteWorldRule(id: Id, writeOk: bool) returns (r: Outcome<StoreError>)
      modifies this
      ensures factions == old(factions) && currentFaction == old(currentFaction)
      ensures !writeOk ==> r == Fail(WriteFailed) && worldRules == old(worldRules) && currentRule == old(currentRule)
      ensures writeOk ==> && r == Pass
                          && worldRules == Lists.WithoutKey(old(worldRules), RuleIdOf, id)
                          && currentRule == (if old(currentRule).Some? && old(currentRule).value.id == id then None else old(currentRule))
    {
      if !writeOk {
        return Fail(WriteFailed);
      }
      worldRules := Lists.WithoutKey(worldRules, RuleIdOf, id);
      if currentRule.Some? && currentRule.value.id == id {
        currentRule := None;
      }
      r := Pass;
    }

    /** `setCurrentRule`. */
    method SetCurrentRule(rule: Option<WorldRule>)
      modifies this
      ensures currentRule == rule
      ensures worldRules == old(worldRules) && factions == old(factions) && currentFaction == old(currentFaction)
    {
      currentRule := rule;
    }

    /** `createFaction`: no relationships or members yet, absent resources default to empty. */
    method CreateFaction(data: NewFactionData, projectId: Id, freshId: Id, now: int, writeOk: bool)
      returns (r: Result<Faction, StoreError>)
      modifies this
      ensures worldRules == old(worldRules) && currentRule == old(currentRule) && currentFaction == old(currentFaction)
      ensures !writeOk ==> r == Failure(WriteFailed) && factions == old(factions)
      ensures writeOk ==> r.Success? && factions == old(factions) + [r.value]
      ensures writeOk ==> var f := r.value;
        && f.id == freshId && f.projectId == projectId && f.name == data.name && f.ideology == data.ideology
        && f.relationships == [] && f.members == [] && f.resources == data.resources.GetOr([])
        && f.createdAt == now && f.updatedAt == now
    {
      var f := Faction(freshId, projectId, data.name, data.ideology, [], [], data.resources.GetOr([]), now, now);
      if !writeOk {
        return Failure(WriteFailed);
      }
      factions := factions + [f];
      r := Success(f);
    }

    /** `updateFaction`: merge into the first faction with id `id` and refresh the selection. */
    method UpdateFaction(id: Id, updates: FactionPatch, now: int, writeOk: bool) returns (r: Outcome<StoreError>)
      modifies this
      ensures worldRules == old(worldRules) && currentRule == old(currentRule)
      ensures IndexOfFaction(old(factions), id).None? ==>
        r == Fail(NotFound("Faction not found")) && factions == old(factions) && currentFaction == old(currentFaction)
      ensures IndexOfFaction(old(factions), id).Some? && !writeOk ==>
        r == Fail(WriteFailed) && factions == old(factions) && currentFaction == old(currentFaction)
      ensures IndexOfFaction(old(factions), id).Some? && writeOk ==>
        var i := IndexOfFaction(old(factions), id).value;
        var updated := MergeFaction(old(factions)[i], updates, now);
        && r == Pass
        && factions == old(factions)[i := updated]
        && currentFaction == (if old(currentFaction).Some? && old(currentFaction).value.id == id then Some(updated) else old(currentFaction))
    {
      var found := IndexOfFaction(factions, id);
      if found.None? {
        return Fail(NotFound("Faction not found"));
      }
      var updated := MergeFaction(factions[found.value], updates, now);
      if !writeOk {
        return Fail(WriteFailed);
      }
      factions := factions[found.value := updated];
      if currentFaction.Some? && currentFaction.value.id == id {
        currentFaction := Some(updated);
      }
      r := Pass;
    }

    /** `deleteFaction`. */
    method DeleteFaction(id: Id, writeOk: bool) returns (r: Outcome<StoreError>)
      modifies this
      ensures worldRules == old(worldRules) && currentRule == old(currentRule)
      ensures !writeOk ==> r == Fail(WriteFailed) && factions == old(factions) && currentFaction == old(currentFaction)
      ensures writeOk ==> && r == Pass
                          && factions == Lists.WithoutKey(old(factions), FactionIdOf, id)
                          && currentFaction == (if old(currentFaction).Some? && old(currentFaction).value.id == id then None else old(currentFaction))
    {
      if !writeOk {
        return Fail(WriteFailed);
      }
      factions := Lists.WithoutKey(factions, FactionIdOf, id);
      if currentFaction.Some? && currentFaction.value.id == id {
        currentFaction := None;
      }
      r := Pass;
    }

    /** `addFactionRelationship`: append `rel` to the faction's relationships through
        `updateFaction`; nothing else of the faction changes but its timestamp. */
    method AddFactionRelationship(factionId: Id, rel: FactionRelationship, now: int, writeOk: bool)
      returns (r: Outcome<StoreError>)
      modifies this
      ensures worldRules == old(worldRules) && currentRule == old(currentRule)
      ensures IndexOfFaction(old(factions), factionId).None? ==>
        r == Fail(NotFound("Faction not found")) && factions == old(factions) && currentFaction == old(currentFaction)
      ensures IndexOfFaction(old(factions), factionId).Some? && !writeOk ==>
        r == Fail(WriteFailed) && factions == old(factions) && currentFaction == old(currentFaction)
      ensures IndexOfFaction(old(factions), factionId).Some? && writeOk ==>
        var i := IndexOfFaction(old(factions), factionId).value;
        var f := old(factions)[i];
        var updated := f.(relationships := f.relationships + [rel], updatedAt := now);
        && r == Pass
        && factions == old(factions)[i := updated]
        && currentFaction == (if old(currentFaction).Some? && old(currentFaction).value.id == factionId then Some(updated) else old(currentFaction))
    {
      var found := IndexOfFaction(factions, factionId);
      if found.None? {
        return Fail(NotFound("Faction not found"));
      }
      var rels := factions[found.value].relationships + [rel];
      r := UpdateFaction(factionId, RelationshipsPatch(rels), now, writeOk);
    }

    /** `setCurrentFaction`. */
    method SetCurrentFaction(faction: Option<Faction>)
      modifies this
      ensures currentFaction == faction
      ensures worldRules == old(worldRules) && factions == old(factions) && currentRule == old(currentRule)
    {
      currentFaction := faction;
    }
  }

  // ---------------- What the actions keep ----------------

  /** Deleting a rule just created with a fresh id gives back the list before the creation. */
  lemma DeleteUndoesCreateRule(rules: seq<WorldRule>, w: WorldRule)
    requires forall i :: 0 <= i < |rules| ==> rules[i].id != w.id
    ensures Lists.WithoutKey(rules + [w], RuleIdOf, w.id) == rules
  {
    Lists.RemoveAppended(rules, w, RuleIdOf);
  }

  /** Deleting a faction just created with a fresh id gives back the list before the creation. */
  lemma DeleteUndoesCreateFaction(factions: seq<Faction>, f: Faction)
    requires forall i :: 0 <= i < |factions| ==> factions[i].id != f.id
    ensures Lists.WithoutKey(factions + [f], FactionIdOf, f.id) == factions
  {
    Lists.RemoveAppended(factions, f, FactionIdOf);
  }

  /** Deleting an id nobody has changes nothing. */
  lemma DeleteAbsentRule(rules: seq<WorldRule>, id: Id)
    requires IndexOfRule(rules, id).None?
    ensures Lists.WithoutKey(rules, RuleIdOf, id) == rules
  {
    Lists.WithoutAbsentKey(rules, RuleIdOf, id);
  }

  /** After a deletion no rule has the id, and the rules that remain are the others in their
      order: the count drops by the number of rules that had it. */
  lemma DeleteRuleRemovesExactly(rules: seq<WorldRule>, id: Id)
    ensures forall i :: 0 <= i < |Lists.WithoutKey(rules, RuleIdOf, id)| ==> Lists.WithoutKey(rules, RuleIdOf, id)[i].id != id
    ensures |Lists.WithoutKey(rules, RuleIdOf, id)| == |rules| - |Lists.WithKey(rules, RuleIdOf, id)|
    ensures multiset(Lists.WithoutKey(rules, RuleIdOf, id)) + multiset(Lists.WithKey(rules, RuleIdOf, id)) == multiset(rules)
  {
    Lists.WithKeySplit(rules, RuleIdOf, id);
  }
}
