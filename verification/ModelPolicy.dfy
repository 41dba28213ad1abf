/**
 Managed model policies (apps/api/src/brandwell-management.ts): how a patch becomes a policy, and
 what the platform and workspace routes keep true of every workspace and its sidekicks.
 */
module ModelPolicy {
  import opened Options

  /** The provider's description of a model; only its image input matters here. */
  datatype Entry = Entry(image: bool, rest: nat)

  /** A policy as stored. `None` in the catalog is a value that is not an object. */
  datatype Policy = Policy(
    provider: string,
    preferred: string,
    computer: Option<string>,
    lightweight: Option<string>,
    reasoning: Option<string>,
    fallbacks: seq<string>,
    catalog: map<string, Option<Entry>>,
    maxTokens: Option<nat>,
    thinking: Option<string>,
    monthly: int,
    daily: Option<int>,
    warning: int)

  datatype Master = Master(policy: Policy, inherits: bool)

  /** What a request sets; the inner option of a field is its nullable value. */
  datatype Patch = Patch(
    inherit: Option<bool>,
    preferred: Option<string>,
    computer: Option<Option<string>>,
    lightweight: Option<Option<string>>,
    reasoning: Option<Option<string>>,
    fallbacks: Option<seq<string>>,
    maxTokens: Option<Option<nat>>,
    thinking: Option<Option<string>>,
    monthly: Option<int>,
    daily: Option<Option<int>>,
    warning: Option<int>)

  const NoPatch := Patch(None, None, None, None, None, None, None, None, None, None, None)

  /** The provider's answer about one model. */
  datatype Lookup = Unavailable | Unsupported | Supported(entry: Entry)

  datatype Plan = Planned(next: Master) | Refused(status: nat)

  const DEFAULT_MODEL := "openai/gpt-5.6-terra"
  const MONTHLY_CAP := 200_000_000

  function Or<T>(patch: Option<T>, current: T): T {
    if patch.Some? then patch.value else current
  }

  // ----- model identifiers

  predicate Alphanumeric(c: char) {
    'A' <= c <= 'Z' || 'a' <= c <= 'z' || '0' <= c <= '9'
  }

  predicate ValidVendor(s: string) {
    && 1 <= |s| <= 100
    && (Alphanumeric(s[0]) || s[0] == '~')
    && forall i :: 0 < i < |s| ==> Alphanumeric(s[i]) || s[i] in "._~-"
  }

  predicate ValidName(s: string) {
    && 1 <= |s| <= 100
    && Alphanumeric(s[0])
    && forall i :: 0 < i < |s| ==> Alphanumeric(s[i]) || s[i] in "._:-"
  }

  predicate ValidModelId(s: string) {
    exists i :: 0 <= i < |s| && s[i] == '/' && ValidVendor(s[..i]) && ValidName(s[i + 1..])
  }

  /** A model id has one slash, with a vendor before it and a name after it that may not start with punctuation. */
  lemma ModelIdForm(s: string)
    ensures ValidModelId(s) ==>
              exists i :: && 1 <= i <= 100 && i + 2 <= |s| <= i + 101 && s[i] == '/'
                          && (forall j :: 0 <= j < |s| && j != i ==> s[j] != '/')
                          && s[i + 1] !in "._:-" && s[0] !in "._-"
  {
    if ValidModelId(s) {
      var i :| 0 <= i < |s| && s[i] == '/' && ValidVendor(s[..i]) && ValidName(s[i + 1..]);
      forall j | 0 <= j < |s| && j != i ensures s[j] != '/' {
        assert j < i ==> s[j] == s[..i][j];
        assert j > i ==> s[j] == s[i + 1..][j - i - 1];
      }
      assert s[0] == s[..i][0] && s[i + 1] == s[i + 1..][0];
    }
  }

  /** Any vendor and name over the allowed characters make a model id. */
  lemma ModelIdOf(vendor: string, name: string)
    requires 1 <= |vendor| <= 100 && 1 <= |name| <= 100
    requires forall c :: c in vendor || c in name ==>
               'A' <= c <= 'Z' || 'a' <= c <= 'z' || '0' <= c <= '9' || c in ".-_~:"
    requires ':' !in vendor && '~' !in name && vendor[0] !in "._-" && name[0] !in "._:-"
    ensures ValidModelId(vendor + "/" + name)
  {
    var s := vendor + "/" + name;
    assert s[|vendor|] == '/' && s[..|vendor|] == vendor && s[|vendor| + 1..] == name;
    assert ValidVendor(vendor) by {
      assert forall i :: 0 <= i < |vendor| ==> vendor[i] in vendor;
    }
    assert ValidName(name) by {
      assert forall i :: 0 <= i < |name| ==> name[i] in name;
    }
  }

  lemma BuiltInDefaultIsValid()
    ensures ValidModelId(DEFAULT_MODEL)
  {
    assert DEFAULT_MODEL[6] == '/' && DEFAULT_MODEL[..6] == "openai" && DEFAULT_MODEL[7..] == "gpt-5.6-terra";
  }

  function PlatformDefault(setting: Option<string>): string {
    if setting.Some? && setting.value != "" then setting.value else DEFAULT_MODEL
  }

  // ----- resolving a patch

  lemma PlatformDefaultIs(setting: Option<string>)
    ensures setting.None? || setting == Some("") ==> PlatformDefault(setting) == "openai/gpt-5.6-terra"
    ensures setting.Some? && setting.value != "" ==> PlatformDefault(setting) == setting.value
  {
  }

  function ModelCatalogRecord(stored: map<string, Option<Entry>>): map<string, Entry> {
    map id | id in stored && ValidModelId(id) && stored[id].Some? :: stored[id].value
  }

  function StringArray(items: seq<string>): seq<string> {
    if items == [] then [] else (if items[0] == "" then [] else [items[0]]) + StringArray(items[1..])
  }

  function ResolvedModelPolicy(current: Master, patch: Patch, platformDefault: string): Master {
    var p := current.policy;
    var inherits := Or(patch.inherit, if patch.preferred.Some? then false else current.inherits);
    Master(
      p.(preferred := if inherits then platformDefault else Or(patch.preferred, p.preferred),
         computer := Or(patch.computer, p.computer),
         lightweight := Or(patch.lightweight, p.lightweight),
         reasoning := Or(patch.reasoning, p.reasoning),
         fallbacks := Or(patch.fallbacks, StringArray(p.fallbacks)),
         maxTokens := Or(patch.maxTokens, p.maxTokens),
         thinking := Or(patch.thinking, p.thinking),
         monthly := Or(patch.monthly, p.monthly),
         daily := Or(patch.daily, p.daily),
         warning := Or(patch.warning, p.warning)),
      inherits)
  }

  predicate ResolvedModelLimits(current: Policy, patch: Patch) {
    var monthly, daily := Or(patch.monthly, current.monthly), Or(patch.daily, current.daily);
    var warning := Or(patch.warning, current.warning);
    && !(monthly <= 0 || monthly > MONTHLY_CAP)
    && !(monthly > 0 && warning > monthly)
    && !(monthly > 0 && daily.Some? && daily.value > monthly)
  }

  function Named(id: Option<string>): set<string> {
    if id.Some? && id.value != "" then {id.value} else {}
  }

  /** Every model the policy names. */
  function Configured(p: Policy): set<string> {
    Named(Some(p.preferred)) + Named(p.computer) + Named(p.lightweight) + Named(p.reasoning)
    + set id | id in p.fallbacks && id != ""
  }

  function Nullable(field: Option<Option<string>>): set<string> {
    if field.Some? && field.value.Some? then {field.value.value} else {}
  }

  function ModelIdsFromPatch(patch: Patch): set<string> {
    Nullable(Some(patch.preferred)) + Nullable(patch.computer) + Nullable(patch.lightweight) + Nullable(patch.reasoning)
    + if patch.fallbacks.Some? then (set id | id in patch.fallbacks.value) else {}
  }

  function ModelIdsToValidate(current: Master, patch: Patch, next: Master): set<string> {
    ModelIdsFromPatch(patch) + (Configured(next.policy) - ModelCatalogRecord(current.policy.catalog).Keys)
  }

  function NextCatalog(known: map<string, Entry>, ids: set<string>, answers: string -> Lookup): map<string, Entry> {
    known + map id | id in ids && answers(id).Supported? :: answers(id).entry
  }

  function Stored(catalog: map<string, Entry>): map<string, Option<Entry>> {
    map id | id in catalog :: Some(catalog[id])
  }

  /** The workspace route up to its provider calls: limits, then models, then the computer model. */
  function Resolve(current: Master, patch: Patch, platformDefault: string, answers: string -> Lookup): Plan {
    if !ResolvedModelLimits(current.policy, patch) then Refused(400)
    else
      var next := ResolvedModelPolicy(current, patch, platformDefault);
      var ids := ModelIdsToValidate(current, patch, next);
      if exists id :: id in ids && answers(id).Unavailable? then Refused(503)
      else if exists id :: id in ids && answers(id).Unsupported? then Refused(400)
      else
        var catalog := NextCatalog(ModelCatalogRecord(current.policy.catalog), ids, answers);
        if forall c :: c in Named(next.policy.computer) ==> c in catalog && catalog[c].image
        then Planned(next.(policy := next.policy.(catalog := Stored(catalog))))
        else Refused(400)
  }

  // ----- what a policy promises

  /** Every named model has a catalog entry, and the computer model accepts images. */
  predicate Closed(p: Policy) {
    && (forall id :: id in Configured(p) ==> id in ModelCatalogRecord(p.catalog))
    && (forall id :: id in Named(p.computer) ==> id in p.catalog && p.catalog[id].Some? && p.catalog[id].value.image)
  }

  predicate Bounded(p: Policy) {
    0 < p.monthly <= MONTHLY_CAP && p.warning <= p.monthly && (p.daily.Some? ==> p.daily.value <= p.monthly)
  }

  predicate AllValid(ids: set<string>) {
    forall id :: id in ids ==> ValidModelId(id)
  }

  lemma {:induction false} StringArrayKeepsNames(items: seq<string>)
    ensures forall id :: id in StringArray(items) <==> id in items && id != ""
  {
    if items != [] {
      StringArrayKeepsNames(items[1..]);
      assert items == [items[0]] + items[1..];
    }
  }

  // ----- successive patches

  function Over<T>(second: Option<T>, first: Option<T>): Option<T> {
    if second.Some? then second else first
  }

  /** One patch for two: the second wins, and a second preferred model ends inheritance. */
  function Then(first: Patch, second: Patch): Patch {
    Patch(Over(second.inherit, if second.preferred.Some? then Some(false) else first.inherit),
          Over(second.preferred, first.preferred),
          Over(second.computer, first.computer),
          Over(second.lightweight, first.lightweight),
          Over(second.reasoning, first.reasoning),
          Over(second.fallbacks, first.fallbacks),
          Over(second.maxTokens, first.maxTokens),
          Over(second.thinking, first.thinking),
          Over(second.monthly, first.monthly),
          Over(second.daily, first.daily),
          Over(second.warning, first.warning))
  }

  lemma {:induction false} StringArrayKeepsText(items: seq<string>)
    requires "" !in items
    ensures StringArray(items) == items
  {
    if items != [] {
      assert items[0] in items && items == [items[0]] + items[1..];
      StringArrayKeepsText(items[1..]);
    }
  }

  /**
   Two patches in a row are one, except exactly when the first leaves the workspace inheriting and
   the second stops that without naming a model: the default then stays as the preferred model.
   */
  lemma PatchesCompose(current: Master, first: Patch, second: Patch, platformDefault: string)
    requires first.fallbacks.Some? ==> "" !in first.fallbacks.value
    ensures var between := ResolvedModelPolicy(current, first, platformDefault);
            ResolvedModelPolicy(between, second, platformDefault)
            == ResolvedModelPolicy(current, Then(first, second), platformDefault)
            <==> !(between.inherits && second.inherit == Some(false) && second.preferred.None?
                   && platformDefault != Or(first.preferred, current.policy.preferred))
  {
    if first.fallbacks.Some? {
      StringArrayKeepsText(first.fallbacks.value);
    } else {
      StringArrayKeepsNames(current.policy.fallbacks);
      StringArrayKeepsText(StringArray(current.policy.fallbacks));
    }
  }

  /** Nothing but the patch, the platform default and the current policy is ever named. */
  lemma NamesComeFrom(current: Master, patch: Patch, platformDefault: string)
    ensures Configured(ResolvedModelPolicy(current, patch, platformDefault).policy)
            <= ModelIdsFromPatch(patch) + {platformDefault} + Configured(current.policy)
  {
    StringArrayKeepsNames(current.policy.fallbacks);
  }

  /** Every model a plan names was known or has just been validated, so no second validation is reached. */
  lemma ComputerEntryPresent(current: Master, patch: Patch, platformDefault: string, answers: string -> Lookup)
    requires var next := ResolvedModelPolicy(current, patch, platformDefault);
             forall id :: id in ModelIdsToValidate(current, patch, next) ==> answers(id).Supported?
    ensures var next := ResolvedModelPolicy(current, patch, platformDefault);
            var ids := ModelIdsToValidate(current, patch, next);
            Configured(next.policy) <= NextCatalog(ModelCatalogRecord(current.policy.catalog), ids, answers).Keys
  {
  }

  /** An accepted request had every model answered, and its plan is the resolved policy with the next catalog. */
  lemma PlanIs(current: Master, patch: Patch, platformDefault: string, answers: string -> Lookup)
    requires Resolve(current, patch, platformDefault, answers).Planned?
    ensures var next := ResolvedModelPolicy(current, patch, platformDefault);
            var ids := ModelIdsToValidate(current, patch, next);
            var catalog := NextCatalog(ModelCatalogRecord(current.policy.catalog), ids, answers);
            && ResolvedModelLimits(current.policy, patch)
            && (forall id :: id in ids ==> answers(id).Supported?)
            && (forall c :: c in Named(next.policy.computer) ==> c in catalog && catalog[c].image)
            && Resolve(current, patch, platformDefault, answers).next
               == next.(policy := next.policy.(catalog := Stored(catalog)))
  {
    var next := ResolvedModelPolicy(current, patch, platformDefault);
    var ids := ModelIdsToValidate(current, patch, next);
    forall id | id in ids ensures answers(id).Supported? {
      assert !answers(id).Unavailable? && !answers(id).Unsupported?;
    }
  }

  /** A plan is within the limits, and on the default if it inherits. */
  lemma PlanIsBounded(current: Master, patch: Patch, platformDefault: string, answers: string -> Lookup)
    requires Resolve(current, patch, platformDefault, answers).Planned?
    ensures var next := Resolve(current, patch, platformDefault, answers).next;
            Bounded(next.policy) && (next.inherits ==> next.policy.preferred == platformDefault)
  {
    PlanIs(current, patch, platformDefault, answers);
  }

  /** A plan is closed exactly when the names it ends up with are well formed. */
  lemma PlanIsSound(current: Master, patch: Patch, platformDefault: string, answers: string -> Lookup)
    requires Resolve(current, patch, platformDefault, answers).Planned?
    ensures var next := Resolve(current, patch, platformDefault, answers).next;
            Closed(next.policy) <==> AllValid(Configured(next.policy))
  {
    PlanIs(current, patch, platformDefault, answers);
    ComputerEntryPresent(current, patch, platformDefault, answers);
    var next := ResolvedModelPolicy(current, patch, platformDefault);
    var ids := ModelIdsToValidate(current, patch, next);
    CoveredIsClosed(next.policy, NextCatalog(ModelCatalogRecord(current.policy.catalog), ids, answers));
  }

  lemma RecordOfStored(catalog: map<string, Entry>)
    ensures forall id :: id in ModelCatalogRecord(Stored(catalog)) <==> id in catalog && id in ValidIds(catalog.Keys)
    ensures forall id :: id in catalog ==> Stored(catalog)[id] == Some(catalog[id])
  {
  }

  function ValidIds(ids: set<string>): set<string> {
    set id | id in ids && ValidModelId(id)
  }

  lemma CoveredIsClosed(p: Policy, catalog: map<string, Entry>)
    requires Configured(p) <= catalog.Keys
    requires forall c :: c in Named(p.computer) ==> c in catalog && catalog[c].image
    ensures Closed(p.(catalog := Stored(catalog))) <==> AllValid(Configured(p.(catalog := Stored(catalog))))
  {
    var stored := p.(catalog := Stored(catalog));
    var names := Configured(p);
    assert Configured(stored) == names;
    RecordOfStored(catalog);
    assert Closed(stored) <==> names <= ValidIds(catalog.Keys);
    assert names <= ValidIds(catalog.Keys) <==> AllValid(names);
  }

  /** The models of an accepted request are well formed, whatever the current catalog holds. */
  lemma PlanIsClosed(current: Master, patch: Patch, platformDefault: string, answers: string -> Lookup)
    requires AllValid(ModelIdsFromPatch(patch)) && ValidModelId(platformDefault) && AllValid(Configured(current.policy))
    ensures var plan := Resolve(current, patch, platformDefault, answers);
            plan.Planned? ==> Closed(plan.next.policy)
  {
    var plan := Resolve(current, patch, platformDefault, answers);
    if plan.Planned? {
      NamesComeFrom(current, patch, platformDefault);
      PlanIs(current, patch, platformDefault, answers);
      PlanIsSound(current, patch, platformDefault, answers);
      assert Configured(plan.next.policy) == Configured(ResolvedModelPolicy(current, patch, platformDefault).policy);
    }
  }

  /** Every setting of a policy as one patch that does not inherit. */
  function PatchOf(p: Policy): Patch {
    Patch(Some(false), Some(p.preferred), Some(p.computer), Some(p.lightweight), Some(p.reasoning), Some(p.fallbacks),
          Some(p.maxTokens), Some(p.thinking), Some(p.monthly), Some(p.daily), Some(p.warning))
  }

  /** Patching any policy with all settings of another gives that other one, and an empty patch changes nothing. */
  lemma PatchReproduces(current: Master, other: Policy, platformDefault: string)
    ensures ResolvedModelPolicy(current, PatchOf(other), platformDefault)
         == Master(other.(provider := current.policy.provider, catalog := current.policy.catalog), false)
    ensures "" !in current.policy.fallbacks ==>
              ResolvedModelPolicy(current, NoPatch, platformDefault)
              == if current.inherits then Master(current.policy.(preferred := platformDefault), true) else current
  {
    if "" !in current.policy.fallbacks {
      StringArrayKeepsText(current.policy.fallbacks);
    }
  }

  /** Naming a preferred model ends inheritance unless the patch asks for it, and is the one that is stored. */
  lemma PreferredModelEndsInheritance(current: Master, patch: Patch, platformDefault: string)
    requires patch.preferred.Some? && patch.inherit != Some(true)
    ensures var next := ResolvedModelPolicy(current, patch, platformDefault);
            !next.inherits && next.policy.preferred == patch.preferred.value
  {
  }

  /**
   A request is accepted exactly if the resolved policy is within the limits, the provider supports every model to
   be validated, and a named computer model takes images.
   */
  lemma AcceptedExactly(current: Master, patch: Patch, platformDefault: string, lookups: string -> Lookup)
    ensures var plan := Resolve(current, patch, platformDefault, lookups);
            var p := ResolvedModelPolicy(current, patch, platformDefault).policy;
            var ids := ModelIdsFromPatch(patch) + (Configured(p) - ModelCatalogRecord(current.policy.catalog).Keys);
            plan.Planned? <==>
              && 0 < p.monthly <= 200_000_000 && p.warning <= p.monthly
              && (p.daily.Some? ==> p.daily.value <= p.monthly)
              && (forall id :: id in ids ==> lookups(id).Supported?)
              && (p.computer.Some? && p.computer.value != "" ==>
                    var c := p.computer.value;
                    if c in ids then lookups(c).entry.image else ModelCatalogRecord(current.policy.catalog)[c].image)
  {
    var next := ResolvedModelPolicy(current, patch, platformDefault);
    var ids := ModelIdsToValidate(current, patch, next);
    if forall id :: id in ids ==> lookups(id).Supported? {
      ComputerEntryPresent(current, patch, platformDefault, lookups);
      assert forall id :: id in ids ==> !lookups(id).Unavailable? && !lookups(id).Unsupported?;
      ComputerChecked(next.policy.computer, ModelCatalogRecord(current.policy.catalog), ids, lookups);
    } else {
      var id :| id in ids && !lookups(id).Supported?;
    }
  }

  lemma ComputerChecked(computer: Option<string>, known: map<string, Entry>, ids: set<string>,
                        lookups: string -> Lookup)
    requires forall id :: id in ids ==> lookups(id).Supported?
    requires forall c :: c in Named(computer) ==> c in ids || c in known
    ensures var catalog := NextCatalog(known, ids, lookups);
            (forall c :: c in Named(computer) ==> c in catalog && catalog[c].image) <==>
              (computer.Some? && computer.value != "" ==>
                 var c := computer.value; if c in ids then lookups(c).entry.image else known[c].image)
  {
    if computer.Some? && computer.value != "" {
      assert computer.value in Named(computer);
    }
  }

  /** A refusal is a 400, or a 503 exactly if the limits are kept and the provider could not be asked. */
  lemma UnavailableExactly(current: Master, patch: Patch, platformDefault: string, lookups: string -> Lookup)
    ensures var plan := Resolve(current, patch, platformDefault, lookups);
            var p := ResolvedModelPolicy(current, patch, platformDefault).policy;
            var ids := ModelIdsFromPatch(patch) + (Configured(p) - ModelCatalogRecord(current.policy.catalog).Keys);
            && (plan.Refused? ==> plan.status in {400, 503})
            && (plan == Refused(503) <==>
                && 0 < p.monthly <= 200_000_000 && p.warning <= p.monthly
                && (p.daily.Some? ==> p.daily.value <= p.monthly)
                && exists id :: id in ids && lookups(id).Unavailable?)
  {
  }

  /** The names of a policy, and those of a patch, field by field. */
  lemma NamesExactly(p: Policy, patch: Patch, id: string)
    ensures id in Configured(p) <==>
              id != "" && (p.preferred == id || p.computer == Some(id) || p.lightweight == Some(id)
                           || p.reasoning == Some(id) || id in p.fallbacks)
    ensures id in ModelIdsFromPatch(patch) <==>
              || patch.preferred == Some(id) || patch.computer == Some(Some(id)) || patch.lightweight == Some(Some(id))
              || patch.reasoning == Some(Some(id)) || (patch.fallbacks.Some? && id in patch.fallbacks.value)
  {
  }

  /** A plan's catalog has the valid known entries, and the provider's answer for every model validated now. */
  lemma PlannedCatalog(current: Master, patch: Patch, platformDefault: string, lookups: string -> Lookup, id: string)
    requires Resolve(current, patch, platformDefault, lookups).Planned?
    ensures var before := current.policy.catalog;
            var next := Resolve(current, patch, platformDefault, lookups).next.policy;
            var asked := id in ModelIdsFromPatch(patch)
                         || (id in Configured(next) && !(id in before && before[id].Some? && ValidModelId(id)));
            && (asked ==> lookups(id).Supported? && id in next.catalog && next.catalog[id] == Some(lookups(id).entry))
            && (!asked && id in before && before[id].Some? && ValidModelId(id) ==>
                  id in next.catalog && next.catalog[id] == before[id])
            && (id in next.catalog ==> asked || (id in before && before[id].Some? && ValidModelId(id)))
  {
    PlanIs(current, patch, platformDefault, lookups);
  }

  // ----- masters and sidekicks

  predicate ModelPoliciesMatch(a: Policy, b: Policy) {
    && a.provider == b.provider && a.preferred == b.preferred
    && a.computer == b.computer && a.lightweight == b.lightweight && a.reasoning == b.reasoning
    && a.fallbacks == b.fallbacks
    && ModelCatalogRecord(a.catalog) == ModelCatalogRecord(b.catalog)
    && a.maxTokens == b.maxTokens && a.thinking == b.thinking
    && a.monthly == b.monthly && a.daily == b.daily && a.warning == b.warning
  }

  /** Policies that match over one catalog are the same. */
  lemma MatchIsEquality(a: Policy, b: Policy)
    ensures a.catalog == b.catalog ==> (ModelPoliciesMatch(a, b) <==> a == b)
    ensures ModelPoliciesMatch(a, b) ==>
              forall id :: ValidModelId(id) && id in a.catalog && a.catalog[id].Some? ==>
                id in b.catalog && b.catalog[id] == a.catalog[id]
  {
    if ModelPoliciesMatch(a, b) {
      forall id | ValidModelId(id) && id in a.catalog && a.catalog[id].Some?
        ensures id in b.catalog && b.catalog[id] == a.catalog[id]
      {
        assert id in ModelCatalogRecord(a.catalog) && id in ModelCatalogRecord(b.catalog);
      }
    }
  }

  datatype Workspace = Workspace(master: Master, sidekicks: seq<Policy>)

  /** The sidekicks reported as drifting from their master. */
  function Drift(ws: Workspace): set<int> {
    set i | 0 <= i < |ws.sidekicks| && !ModelPoliciesMatch(ws.master.policy, ws.sidekicks[i])
  }

  function Foreign(ws: Workspace): set<int> {
    set i | 0 <= i < |ws.sidekicks| && ws.sidekicks[i].provider != ws.master.policy.provider
  }

  /** The commit of the workspace route: one policy for the master and every sidekick. */
  function CommitPlan(ws: Workspace, next: Master): Workspace {
    Workspace(next.(policy := next.policy.(provider := ws.master.policy.provider)),
              seq(|ws.sidekicks|, i requires 0 <= i < |ws.sidekicks| =>
                    next.policy.(provider := ws.sidekicks[i].provider)))
  }

  /** The commit of the platform route for one workspace, whose catalog was read before. */
  function CommitDefault(ws: Workspace, id: string, entry: Entry, read: map<string, Option<Entry>>): Workspace {
    var catalog := Stored(ModelCatalogRecord(read)[id := entry]);
    Workspace(ws.master.(policy := ws.master.policy.(preferred := id, catalog := catalog)),
              seq(|ws.sidekicks|, i requires 0 <= i < |ws.sidekicks| =>
                    ws.sidekicks[i].(preferred := id, catalog := catalog)))
  }

  /** After a workspace update only sidekicks of another provider drift. */
  lemma CommitEndsDrift(ws: Workspace, next: Master)
    ensures Drift(CommitPlan(ws, next)) == Foreign(ws) == Foreign(CommitPlan(ws, next))
  {
    var after := CommitPlan(ws, next);
    forall i | 0 <= i < |ws.sidekicks| ensures i in Drift(after) <==> i in Foreign(ws) {
    }
  }

  predicate MatchBesidesDefault(a: Policy, b: Policy) {
    ModelPoliciesMatch(a, b.(preferred := a.preferred, catalog := a.catalog))
  }

  /** A platform update ends drift of the default and the catalog, and no other. */
  lemma DefaultDriftExactly(ws: Workspace, id: string, entry: Entry, read: map<string, Option<Entry>>)
    ensures Drift(CommitDefault(ws, id, entry, read))
            == set i | 0 <= i < |ws.sidekicks| && !MatchBesidesDefault(ws.master.policy, ws.sidekicks[i])
    ensures Drift(CommitDefault(ws, id, entry, read)) <= Drift(ws)
  {
    var after := CommitDefault(ws, id, entry, read);
    forall i | 0 <= i < |ws.sidekicks|
      ensures ModelPoliciesMatch(after.master.policy, after.sidekicks[i]) <==>
              MatchBesidesDefault(ws.master.policy, ws.sidekicks[i])
    {
    }
  }

  // ----- the platform

  datatype World = World(setting: Option<string>, workspaces: map<nat, Workspace>)

  predicate Inheriting(w: World, ws: nat) {
    ws in w.workspaces && w.workspaces[ws].master.inherits
  }

  ghost predicate FollowsDefault(w: World) {
    forall ws :: Inheriting(w, ws) ==> w.workspaces[ws].master.policy.preferred == PlatformDefault(w.setting)
  }

  predicate Sound(ws: Workspace) {
    Closed(ws.master.policy) && Bounded(ws.master.policy) && Drift(ws) == Foreign(ws)
  }

  ghost predicate Invariant(w: World) {
    && ValidModelId(PlatformDefault(w.setting))
    && FollowsDefault(w)
    && forall ws :: ws in w.workspaces ==> Sound(w.workspaces[ws])
  }

  /** The catalogs the platform route reads before its transaction. */
  function ReadInherited(w: World): map<nat, map<string, Option<Entry>>> {
    map ws | ws in w.workspaces && Inheriting(w, ws) :: w.workspaces[ws].master.policy.catalog
  }

  function SetDefault(w: World, id: string, entry: Entry, read: map<nat, map<string, Option<Entry>>>): World {
    World(Some(id), map ws | ws in w.workspaces ::
            if ws in read && Inheriting(w, ws) then CommitDefault(w.workspaces[ws], id, entry, read[ws])
            else w.workspaces[ws])
  }

  function SetPolicy(w: World, ws: nat, next: Master): World
    requires ws in w.workspaces
  {
    w.(workspaces := w.workspaces[ws := CommitPlan(w.workspaces[ws], next)])
  }

  lemma CommitDefaultKeepsSound(ws: Workspace, id: string, entry: Entry)
    requires Sound(ws) && ValidModelId(id) && entry.image
    ensures Sound(CommitDefault(ws, id, entry, ws.master.policy.catalog))
  {
    var read := ws.master.policy.catalog;
    var after := CommitDefault(ws, id, entry, read);
    StaleCatalogExactly(ws, id, entry, read);
    DefaultDriftExactly(ws, id, entry, read);
    assert forall i :: 0 <= i < |ws.sidekicks| ==> after.sidekicks[i].provider == ws.sidekicks[i].provider;
    assert Foreign(after) == Foreign(ws);
    assert Foreign(after) <= Drift(after);
  }

  /** Models other than the preferred one. */
  function Others(p: Policy): set<string> {
    Configured(p.(preferred := ""))
  }

  /**
   Whatever catalog was read, the update keeps the policy closed exactly when that catalog covers the other
   models.
   */
  lemma StaleCatalogExactly(ws: Workspace, id: string, entry: Entry, read: map<string, Option<Entry>>)
    requires ValidModelId(id) && entry.image
    ensures var p := ws.master.policy;
            Closed(CommitDefault(ws, id, entry, read).master.policy) <==>
              && (forall other :: other in Others(p) ==> other == id || other in ModelCatalogRecord(read))
              && (forall c :: c in Named(p.computer) ==>
                    c == id || (c in ModelCatalogRecord(read) && ModelCatalogRecord(read)[c].image))
  {
    var p := ws.master.policy;
    var after := CommitDefault(ws, id, entry, read).master.policy;
    var known := ModelCatalogRecord(read);
    assert forall k :: k in ModelCatalogRecord(after.catalog) <==> k == id || k in known;
    assert Configured(after) == {id} + Others(p);
    forall c | c in Named(p.computer)
      ensures (c in after.catalog && after.catalog[c].Some? && after.catalog[c].value.image) <==>
              c == id || (c in known && known[c].image)
    {
    }
  }

  /** With stale reads, the default is followed exactly when no workspace began to inherit meanwhile. */
  lemma StaleDefaultExactly(w: World, id: string, entry: Entry, read: map<nat, map<string, Option<Entry>>>)
    requires id != ""
    ensures FollowsDefault(SetDefault(w, id, entry, read)) <==>
              forall ws :: Inheriting(w, ws) ==> ws in read || w.workspaces[ws].master.policy.preferred == id
  {
    var after := SetDefault(w, id, entry, read);
    forall ws | ws in w.workspaces
      ensures Inheriting(after, ws) <==> Inheriting(w, ws)
      ensures Inheriting(w, ws) ==>
                after.workspaces[ws].master.policy.preferred
                == if ws in read then id else w.workspaces[ws].master.policy.preferred
    {
    }
    if FollowsDefault(after) {
      forall ws | Inheriting(w, ws) ensures ws in read || w.workspaces[ws].master.policy.preferred == id {
        assert Inheriting(after, ws);
      }
    } else {
      var ws :| Inheriting(after, ws) && after.workspaces[ws].master.policy.preferred != id;
      assert Inheriting(w, ws);
    }
  }

  /**
   A plan made under an older default keeps the workspace on the default exactly when it does not inherit or
   the default is the same.
   */
  lemma StalePlanExactly(w: World, ws: nat, next: Master, planned: string)
    requires ws in w.workspaces && FollowsDefault(w) && (next.inherits ==> next.policy.preferred == planned)
    ensures FollowsDefault(SetPolicy(w, ws, next)) <==> !next.inherits || planned == PlatformDefault(w.setting)
  {
    var after := SetPolicy(w, ws, next);
    assert forall v :: v in w.workspaces && v != ws ==> (Inheriting(after, v) <==> Inheriting(w, v));
    assert Inheriting(after, ws) <==> next.inherits;
  }

  // ----- runs of both routes

  datatype Request =
    | PlatformRequest(modelId: string, metadata: Lookup)
    | WorkspaceRequest(ws: nat, patch: Patch, answers: string -> Lookup)

  /** What request parsing lets through. */
  predicate WellFormed(r: Request) {
    match r
    case PlatformRequest(id, _) => ValidModelId(id)
    case WorkspaceRequest(_, patch, _) => AllValid(ModelIdsFromPatch(patch))
  }

  function Serve(w: World, r: Request): World {
    match r
    case PlatformRequest(id, metadata) =>
      if metadata.Supported? && metadata.entry.image then SetDefault(w, id, metadata.entry, ReadInherited(w)) else w
    case WorkspaceRequest(ws, patch, answers) =>
      if ws !in w.workspaces then w
      else
        var plan := Resolve(w.workspaces[ws].master, patch, PlatformDefault(w.setting), answers);
        if plan.Planned? then SetPolicy(w, ws, plan.next) else w
  }

  lemma PlatformKeepsInvariant(w: World, id: string, entry: Entry)
    requires Invariant(w) && ValidModelId(id) && entry.image
    ensures Invariant(SetDefault(w, id, entry, ReadInherited(w)))
  {
    var after := SetDefault(w, id, entry, ReadInherited(w));
    StaleDefaultExactly(w, id, entry, ReadInherited(w));
    forall ws | ws in after.workspaces ensures Sound(after.workspaces[ws]) {
      if Inheriting(w, ws) {
        CommitDefaultKeepsSound(w.workspaces[ws], id, entry);
      }
    }
  }

  lemma CommitPlanSound(ws: Workspace, patch: Patch, platformDefault: string, answers: string -> Lookup)
    requires Closed(ws.master.policy) && AllValid(ModelIdsFromPatch(patch)) && ValidModelId(platformDefault)
    requires Resolve(ws.master, patch, platformDefault, answers).Planned?
    ensures Sound(CommitPlan(ws, Resolve(ws.master, patch, platformDefault, answers).next))
  {
    var next := Resolve(ws.master, patch, platformDefault, answers).next;
    forall id | id in Configured(ws.master.policy) ensures ValidModelId(id) {
      assert id in ModelCatalogRecord(ws.master.policy.catalog);
    }
    PlanIsBounded(ws.master, patch, platformDefault, answers);
    PlanIsClosed(ws.master, patch, platformDefault, answers);
    CommitEndsDrift(ws, next);
    SameNames(CommitPlan(ws, next).master.policy, next.policy);
  }

  lemma WorkspaceKeepsInvariant(w: World, ws: nat, patch: Patch, answers: string -> Lookup)
    requires Invariant(w)
    ensures AllValid(ModelIdsFromPatch(patch)) ==> Invariant(Serve(w, WorkspaceRequest(ws, patch, answers)))
  {
    if ws in w.workspaces && AllValid(ModelIdsFromPatch(patch)) {
      var current, platformDefault := w.workspaces[ws].master, PlatformDefault(w.setting);
      var plan := Resolve(current, patch, platformDefault, answers);
      if plan.Planned? {
        assert Sound(w.workspaces[ws]);
        CommitPlanSound(w.workspaces[ws], patch, platformDefault, answers);
        PlanIsBounded(current, patch, platformDefault, answers);
        StalePlanExactly(w, ws, plan.next, platformDefault);
      }
    }
  }

  lemma SameNames(a: Policy, b: Policy)
    requires a == b.(provider := a.provider)
    ensures Closed(a) <==> Closed(b)
  {
    assert Configured(a) == Configured(b);
  }

  function ServeAll(w: World, requests: seq<Request>): World
    decreases |requests|
  {
    if requests == [] then w else ServeAll(Serve(w, requests[0]), requests[1..])
  }

  /** An accepted platform request moves the default and exactly the inheriting workspaces, with their sidekicks. */
  lemma PlatformTakesEffect(w: World, id: string, entry: Entry)
    ensures var after := Serve(w, PlatformRequest(id, Supported(entry)));
            if !entry.image then after == w
            else
              && after.setting == Some(id) && after.workspaces.Keys == w.workspaces.Keys
              && forall ws :: ws in w.workspaces ==>
                   && after.workspaces[ws].master.inherits == w.workspaces[ws].master.inherits
                   && if w.workspaces[ws].master.inherits then
                        && after.workspaces[ws].master.policy.preferred == id
                        && forall i :: 0 <= i < |w.workspaces[ws].sidekicks| ==>
                             after.workspaces[ws].sidekicks[i].preferred == id
                      else after.workspaces[ws] == w.workspaces[ws]
    ensures Serve(w, PlatformRequest(id, Unsupported)) == w && Serve(w, PlatformRequest(id, Unavailable)) == w
  {
  }

  /** An accepted workspace request stores its plan in that workspace only; a refused one changes nothing. */
  lemma WorkspaceTakesEffect(w: World, ws: nat, patch: Patch, lookups: string -> Lookup)
    requires ws in w.workspaces
    ensures var after := Serve(w, WorkspaceRequest(ws, patch, lookups));
            var plan := Resolve(w.workspaces[ws].master, patch, PlatformDefault(w.setting), lookups);
            && after.setting == w.setting
            && (forall other :: other in w.workspaces && other != ws ==>
                  other in after.workspaces && after.workspaces[other] == w.workspaces[other])
            && (plan.Refused? ==> after == w)
            && (plan.Planned? ==>
                  && ws in after.workspaces && after.workspaces[ws].master.inherits == plan.next.inherits
                  && after.workspaces[ws].master.policy
                     == plan.next.policy.(provider := w.workspaces[ws].master.policy.provider)
                  && |after.workspaces[ws].sidekicks| == |w.workspaces[ws].sidekicks|)
  {
  }

  lemma ServeKeepsInvariant(w: World, r: Request)
    requires Invariant(w) && WellFormed(r)
    ensures Invariant(Serve(w, r))
  {
    match r
    case PlatformRequest(id, metadata) =>
      if metadata.Supported? && metadata.entry.image {
        PlatformKeepsInvariant(w, id, metadata.entry);
      }
    case WorkspaceRequest(ws, patch, answers) =>
      WorkspaceKeepsInvariant(w, ws, patch, answers);
  }

  /**
   Any sequence of both routes: every policy stays closed under its catalog and within its limits,
   inheriting workspaces follow the default, and only sidekicks of another provider drift.
   */
  lemma {:induction false} EveryRun(w: World, requests: seq<Request>)
    requires Invariant(w) && forall i :: 0 <= i < |requests| ==> WellFormed(requests[i])
    ensures Invariant(ServeAll(w, requests))
    decreases |requests|
  {
    if requests != [] {
      ServeKeepsInvariant(w, requests[0]);
      EveryRun(Serve(w, requests[0]), requests[1..]);
    }
  }

  // ----- overlaps of the two routes

  const Image := Entry(true, 0)

  /** A platform with one sound workspace on the default. */
  function Sample(inherits: bool): World {
    var policy := Policy("openrouter", "a/b", None, None, None, [], map["a/b" := Some(Image)], None, None, 1, None, 1);
    World(Some("a/b"), map[0 := Workspace(Master(policy, inherits), [])])
  }

  lemma ShortIdsAreValid()
    ensures ValidModelId("a/b") && ValidModelId("c/d") && ValidModelId("e/f")
  {
    assert "a/b"[1] == '/' && "a/b"[..1] == "a" && "a/b"[2..] == "b";
    assert "c/d"[1] == '/' && "c/d"[..1] == "c" && "c/d"[2..] == "d";
    assert "e/f"[1] == '/' && "e/f"[..1] == "e" && "e/f"[2..] == "f";
  }

  lemma OneNameIsClosed(p: Policy, id: string)
    requires p.preferred == id && p.computer.None? && p.lightweight.None? && p.reasoning.None? && p.fallbacks == []
    requires p.catalog == map[id := Some(Image)] && ValidModelId(id)
    ensures Closed(p)
  {
    assert Configured(p) <= {id};
  }

  lemma SampleIsSound(inherits: bool)
    ensures Invariant(Sample(inherits))
  {
    ShortIdsAreValid();
    var ws := Sample(inherits).workspaces[0];
    OneNameIsClosed(ws.master.policy, "a/b");
    assert Drift(ws) == Foreign(ws) == {};
  }

  /** What the workspace route makes of the sample when every model is supported. */
  lemma SampleUpdate(inherits: bool, patch: Patch)
    requires ResolvedModelLimits(Sample(inherits).workspaces[0].master.policy, patch)
    requires patch.computer in {None, Some(Some("c/d"))}
    ensures var w := Sample(inherits);
            var resolved := ResolvedModelPolicy(w.workspaces[0].master, patch, "a/b");
            var plan := Resolve(w.workspaces[0].master, patch, "a/b", _ => Supported(Image));
            && plan.Planned? && plan.next.inherits == resolved.inherits
            && plan.next.policy.preferred == resolved.policy.preferred
            && plan.next.policy.computer == resolved.policy.computer
            && Serve(w, WorkspaceRequest(0, patch, _ => Supported(Image))) == SetPolicy(w, 0, plan.next)
  {
    var current := Sample(inherits).workspaces[0].master;
    var next := ResolvedModelPolicy(current, patch, "a/b");
    if next.policy.computer.Some? {
      assert "c/d" in ModelIdsToValidate(current, patch, next);
    }
    PlanIs(current, patch, "a/b", _ => Supported(Image));
  }

  /** A workspace that begins to inherit after the platform route has read is left on the old default. */
  lemma NewInheritorMissesTheDefault()
    ensures var w := Sample(false);
            var request := WorkspaceRequest(0, NoPatch.(inherit := Some(true)), _ => Supported(Image));
            && Invariant(w) && WellFormed(request)
            && !FollowsDefault(SetDefault(Serve(w, request), "c/d", Image, ReadInherited(w)))
  {
    var w := Sample(false);
    var patch := NoPatch.(inherit := Some(true));
    SampleIsSound(false);
    SampleUpdate(false, patch);
    var later := Serve(w, WorkspaceRequest(0, patch, _ => Supported(Image)));
    assert Inheriting(later, 0) && later.workspaces[0].master.policy.preferred == "a/b";
    StaleDefaultExactly(later, "c/d", Image, ReadInherited(w));
  }

  /** A model added after the platform route has read loses its catalog entry. */
  lemma NewModelLosesItsEntry()
    ensures var w := Sample(true);
            var request := WorkspaceRequest(0, NoPatch.(computer := Some(Some("c/d"))), _ => Supported(Image));
            && Invariant(w) && WellFormed(request)
            && !Closed(SetDefault(Serve(w, request), "e/f", Image, ReadInherited(w)).workspaces[0].master.policy)
  {
    var patch := NoPatch.(computer := Some(Some("c/d")));
    SampleIsSound(true);
    ComputerPatchIsValid();
    ShortIdsAreValid();
    SampleUpdate(true, patch);
    var later := Serve(Sample(true), WorkspaceRequest(0, patch, _ => Supported(Image)));
    UnreadModelIsLost(later, 0, "c/d", "e/f", ReadInherited(Sample(true)));
  }

  lemma ComputerPatchIsValid()
    ensures AllValid(ModelIdsFromPatch(NoPatch.(computer := Some(Some("c/d")))))
  {
    ShortIdsAreValid();
    assert ModelIdsFromPatch(NoPatch.(computer := Some(Some("c/d")))) == {"c/d"};
  }

  lemma UnreadModelIsLost(w: World, ws: nat, model: string, id: string, read: map<nat, map<string, Option<Entry>>>)
    requires Inheriting(w, ws) && ws in read && model !in read[ws]
    requires w.workspaces[ws].master.policy.computer == Some(model) && model != "" && model != id && ValidModelId(id)
    ensures !Closed(SetDefault(w, id, Image, read).workspaces[ws].master.policy)
  {
    StaleCatalogExactly(w.workspaces[ws], id, Image, read[ws]);
    assert model in Others(w.workspaces[ws].master.policy);
  }

  /** A plan made before a platform update puts an inheriting workspace back on the old default. */
  lemma OlderPlanMissesTheDefault()
    ensures var w := Sample(true);
            var plan := Resolve(w.workspaces[0].master, NoPatch.(monthly := Some(2)), "a/b", _ => Supported(Image));
            && Invariant(w) && plan.Planned?
            && !FollowsDefault(SetPolicy(Serve(w, PlatformRequest("c/d", Supported(Image))), 0, plan.next))
  {
    var w := Sample(true);
    var patch := NoPatch.(monthly := Some(2));
    SampleIsSound(true);
    SampleUpdate(true, patch);
    var plan := Resolve(w.workspaces[0].master, patch, "a/b", _ => Supported(Image));
    var later := Serve(w, PlatformRequest("c/d", Supported(Image)));
    assert later.setting == Some("c/d") && 0 in later.workspaces;
    LeftBehind(later, 0, plan.next);
  }

  lemma LeftBehind(w: World, ws: nat, next: Master)
    requires ws in w.workspaces && next.inherits && next.policy.preferred != PlatformDefault(w.setting)
    ensures !FollowsDefault(SetPolicy(w, ws, next))
  {
    assert Inheriting(SetPolicy(w, ws, next), ws);
  }
}
