/**
 Model and voice credentials and their secrets (apps/api/src/router.ts, apps/api/src/voice.ts).
 Both kinds of row are kept by the same serializable transactions, so one model serves for each;
 an owner is a user in a workspace.
 */
module Credentials {
  import opened Options

  datatype Credential = Credential(owner: nat, provider: nat, secret: nat, isDefault: bool, choice: string)

  /** The credentials by id, and the stored secrets of their kind. */
  datatype Store = Store(rows: map<nat, Credential>, secrets: set<nat>)

  const Empty := Store(map[], {})

  predicate Owns(s: Store, owner: nat, id: nat) {
    id in s.rows && s.rows[id].owner == owner
  }

  predicate Matches(s: Store, owner: nat, provider: nat, id: nat) {
    id in s.rows && s.rows[id].owner == owner && s.rows[id].provider == provider
  }

  /** The owner's rows other than `kept` are no longer the default. */
  function NoDefault(rows: map<nat, Credential>, owner: nat, kept: Option<nat>): map<nat, Credential> {
    map id | id in rows ::
      if rows[id].owner == owner && kept != Some(id) then rows[id].(isDefault := false) else rows[id]
  }

  /** Another credential uses the secret. */
  predicate Shared(rows: map<nat, Credential>, id: nat, secret: nat) {
    exists other :: other in rows && other != id && rows[other].secret == secret
  }

  /** A connect under row `id`: the new secret comes, and the one it replaces goes unless it is shared. */
  function Connect(s: Store, c: Credential, id: nat): Store {
    var rows := NoDefault(s.rows, c.owner, None)[id := c];
    var replaced := if id in s.rows && !Shared(rows, id, s.rows[id].secret) then {s.rows[id].secret} else {};
    Store(rows, s.secrets + {c.secret} - replaced)
  }

  function Choose(s: Store, id: nat, choice: string): Store
    requires id in s.rows
  {
    s.(rows := NoDefault(s.rows, s.rows[id].owner, Some(id))[id := s.rows[id].(choice := choice, isDefault := true)])
  }

  datatype Step = Connecting(c: Credential, id: nat) | Choosing(id: nat, choice: string)

  /** A connect has a fresh secret, and takes the row the owner has for the provider if there is one. */
  ghost predicate Legal(s: Store, step: Step) {
    match step
    case Connecting(c, id) =>
      && c.secret !in s.secrets && c.isDefault
      && if id in s.rows then Matches(s, c.owner, c.provider, id)
         else forall other :: !Matches(s, c.owner, c.provider, other)
    case Choosing(id, _) => id in s.rows
  }

  function Apply(s: Store, step: Step): Store
    requires step.Choosing? ==> step.id in s.rows
  {
    match step
    case Connecting(c, id) => Connect(s, c, id)
    case Choosing(id, choice) => Choose(s, id, choice)
  }

  // ----- what the transactions keep

  ghost predicate SecretsExist(s: Store) {
    forall id :: id in s.rows ==> s.rows[id].secret in s.secrets
  }

  ghost predicate UsedBy(s: Store, secret: nat, id: nat) {
    id in s.rows && s.rows[id].secret == secret
  }

  ghost predicate SecretsUsed(s: Store) {
    forall secret :: secret in s.secrets ==> exists id :: UsedBy(s, secret, id)
  }

  /** The owner has exactly this default. */
  ghost predicate DefaultIs(s: Store, owner: nat, id: nat) {
    && Owns(s, owner, id) && s.rows[id].isDefault
    && forall other :: Owns(s, owner, other) && other != id ==> !s.rows[other].isDefault
  }

  ghost predicate OneDefault(s: Store, owner: nat) {
    exists id :: DefaultIs(s, owner, id)
  }

  ghost predicate DefaultsSet(s: Store) {
    forall owner, id :: Owns(s, owner, id) ==> OneDefault(s, owner)
  }

  ghost predicate ProvidersDiffer(s: Store) {
    forall owner, provider, a, b :: Matches(s, owner, provider, a) && Matches(s, owner, provider, b) ==> a == b
  }

  ghost predicate Invariant(s: Store) {
    SecretsExist(s) && SecretsUsed(s) && DefaultsSet(s) && ProvidersDiffer(s)
  }

  /** From any store, a connect or a choice leaves the owner with the row it names as the only default. */
  lemma DefaultAfter(s: Store, step: Step)
    requires Legal(s, step)
    ensures var owner := if step.Connecting? then step.c.owner else s.rows[step.id].owner;
            DefaultIs(Apply(s, step), owner, step.id)
    ensures var owner := if step.Connecting? then step.c.owner else s.rows[step.id].owner;
            forall other :: other in s.rows && s.rows[other].owner != owner ==>
                              Apply(s, step).rows[other] == s.rows[other]
  {
  }

  /** A connect writes its row, a choice its text; the owner's other rows lose only the default. */
  lemma RowsAfter(s: Store, step: Step)
    requires Legal(s, step)
    ensures var rows, after := s.rows, Apply(s, step).rows;
            && after.Keys == rows.Keys + {step.id}
            && (step.Connecting? ==> after[step.id] == step.c)
            && (step.Choosing? ==>
                  && after[step.id] == rows[step.id].(choice := step.choice, isDefault := true)
                  && Apply(s, step).secrets == s.secrets)
            && forall other :: other in rows && other != step.id ==>
                 && after[other].owner == rows[other].owner && after[other].provider == rows[other].provider
                 && after[other].secret == rows[other].secret && after[other].choice == rows[other].choice
                 && after[other].isDefault == (rows[other].isDefault && rows[other].owner != after[step.id].owner)
  {
  }

  lemma DefaultsKept(s: Store, step: Step)
    requires Legal(s, step) && DefaultsSet(s)
    ensures DefaultsSet(Apply(s, step))
  {
    var after := Apply(s, step);
    var mine := if step.Connecting? then step.c.owner else s.rows[step.id].owner;
    DefaultAfter(s, step);
    forall owner, id | Owns(after, owner, id) ensures OneDefault(after, owner) {
      if owner != mine {
        assert Owns(s, owner, id);
        var kept :| DefaultIs(s, owner, kept);
        assert forall other :: Owns(after, owner, other) <==> Owns(s, owner, other);
        assert DefaultIs(after, owner, kept);
      }
    }
  }

  /** A replaced secret is deleted exactly when no other credential uses it; every other secret stays. */
  lemma ReplacedSecretGoes(s: Store, c: Credential, id: nat)
    requires Legal(s, Connecting(c, id)) && SecretsExist(s)
    ensures forall secret :: secret in Connect(s, c, id).secrets <==>
                               || secret == c.secret
                               || (secret in s.secrets && (UsedBy(s, secret, id) ==> Shared(s.rows, id, secret)))
  {
    var rows := NoDefault(s.rows, c.owner, None)[id := c];
    assert forall other :: other in s.rows && other != id ==> rows[other].secret == s.rows[other].secret;
    if id in s.rows {
      assert Shared(rows, id, s.rows[id].secret) <==> Shared(s.rows, id, s.rows[id].secret);
    }
  }

  lemma SecretsKept(s: Store, step: Step)
    requires Legal(s, step) && SecretsExist(s) && SecretsUsed(s)
    ensures SecretsExist(Apply(s, step)) && SecretsUsed(Apply(s, step))
  {
    var after := Apply(s, step);
    forall id | id in after.rows ensures after.rows[id].secret in after.secrets {
      if step.Connecting? {
        ReplacedSecretGoes(s, step.c, step.id);
      }
    }
    forall secret | secret in after.secrets ensures exists id :: UsedBy(after, secret, id) {
      if step.Connecting? && secret == step.c.secret {
        assert UsedBy(after, secret, step.id);
      } else {
        if step.Connecting? {
          ReplacedSecretGoes(s, step.c, step.id);
        }
        var user := StillUser(s, step, secret);
        assert UsedBy(after, secret, user);
      }
    }
  }

  /** A secret that stays has a user other than the row that got a new one. */
  lemma StillUser(s: Store, step: Step, secret: nat) returns (user: nat)
    requires Legal(s, step) && SecretsExist(s) && SecretsUsed(s)
    requires secret in s.secrets && secret in Apply(s, step).secrets
    ensures UsedBy(s, secret, user) && (step.Connecting? ==> user != step.id)
  {
    user :| UsedBy(s, secret, user);
    if step.Connecting? && user == step.id {
      ReplacedSecretGoes(s, step.c, step.id);
      user :| user in s.rows && user != step.id && s.rows[user].secret == secret;
    }
  }

  lemma ProvidersKept(s: Store, step: Step)
    requires Legal(s, step) && ProvidersDiffer(s)
    ensures ProvidersDiffer(Apply(s, step))
  {
    var after := Apply(s, step);
    assert forall owner, provider, id :: Matches(after, owner, provider, id) ==>
             || Matches(s, owner, provider, id)
             || (step.Connecting? && id == step.id && owner == step.c.owner && provider == step.c.provider);
  }

  lemma ApplyKeepsInvariant(s: Store, step: Step)
    requires Legal(s, step) && Invariant(s)
    ensures Invariant(Apply(s, step))
  {
    DefaultsKept(s, step);
    SecretsKept(s, step);
    ProvidersKept(s, step);
  }

  /** No stored secret is unused and none is missing. */
  lemma SecretsExactly(s: Store)
    requires Invariant(s)
    ensures forall secret :: secret in s.secrets <==> exists id :: UsedBy(s, secret, id)
  {
  }

  // ----- whole runs

  ghost predicate Runs(s: Store, steps: seq<Step>)
    decreases |steps|
  {
    steps == [] || (Legal(s, steps[0]) && Runs(Apply(s, steps[0]), steps[1..]))
  }

  ghost function Outcome(s: Store, steps: seq<Step>): Store
    requires Runs(s, steps)
    decreases |steps|
  {
    if steps == [] then s else Outcome(Apply(s, steps[0]), steps[1..])
  }

  lemma {:induction false} RunKeepsInvariant(s: Store, steps: seq<Step>)
    requires Invariant(s) && Runs(s, steps)
    ensures Invariant(Outcome(s, steps))
    decreases |steps|
  {
    if steps != [] {
      ApplyKeepsInvariant(s, steps[0]);
      RunKeepsInvariant(Apply(s, steps[0]), steps[1..]);
    }
  }

  /** From nothing, any sequence of connects and choices: one default each, no missing and no unused secret. */
  lemma EveryRun(steps: seq<Step>)
    requires Runs(Empty, steps)
    ensures Invariant(Outcome(Empty, steps))
  {
    RunKeepsInvariant(Empty, steps);
  }

  /** An owner with a credential has a default; two credentials of one owner are not both, and differ in provider. */
  lemma OneDefaultEach(s: Store, a: nat, b: nat) returns (default: nat)
    requires Invariant(s) && a in s.rows && b in s.rows && s.rows[a].owner == s.rows[b].owner
    ensures default in s.rows && s.rows[default].owner == s.rows[a].owner && s.rows[default].isDefault
    ensures a != b ==>
              !(s.rows[a].isDefault && s.rows[b].isDefault) && s.rows[a].provider != s.rows[b].provider
  {
    var owner := s.rows[a].owner;
    assert Owns(s, owner, a) && Owns(s, owner, b) && OneDefault(s, owner);
    default :| DefaultIs(s, owner, default);
    assert Matches(s, owner, s.rows[a].provider, a) && Matches(s, owner, s.rows[b].provider, b);
  }

  // ----- the routes

  class CredentialStore {
    var store: Store

    constructor ()
      ensures store == Empty && Invariant(store)
    {
      store := Empty;
    }

    /** `persistModelCredential` and `persistVoiceCredential`; an aborted transaction changes nothing. */
    method Persist(owner: nat, provider: nat, secret: nat, choice: string, aborts: bool) returns (id: Option<nat>)
      requires Invariant(store) && secret !in store.secrets
      modifies this
      ensures Invariant(store)
      ensures aborts <==> id.None?
      ensures aborts ==> store == old(store)
      ensures id.Some? ==>
                && var c := Credential(owner, provider, secret, true, choice);
                Legal(old(store), Connecting(c, id.value)) && store == Connect(old(store), c, id.value)
    {
      if aborts {
        return None;
      }
      ghost var before := store;
      ghost var c := Credential(owner, provider, secret, true, choice);
      var existing := FindExisting(owner, provider);
      store := store.(secrets := store.secrets + {secret});
      store := store.(rows := NoDefault(store.rows, owner, None));
      if existing.None? {
        var added := NewId();
        store := store.(rows := store.rows[added := Credential(owner, provider, secret, true, choice)]);
        id := Some(added);
      } else {
        id := existing;
        var row := store.rows[id.value];
        store := store.(rows := store.rows[id.value := row.(secret := secret, isDefault := true, choice := choice)]);
        if !Shared(store.rows, id.value, row.secret) {
          store := store.(secrets := store.secrets - {row.secret});
        }
      }
      assert store == Connect(before, c, id.value);
      ApplyKeepsInvariant(before, Connecting(c, id.value));
    }

    /** `models.setDefault` and `voice.setVoice`: the named provider's credential, or else the owner's default. */
    method SetDefault(owner: nat, provider: Option<nat>, choice: string) returns (id: Option<nat>)
      requires Invariant(store)
      modifies this
      ensures Invariant(store)
      ensures id.None? ==>
                && store == old(store)
                && if provider.Some? then forall other :: !Matches(store, owner, provider.value, other)
                   else forall other :: !Owns(store, owner, other)
      ensures id.Some? ==>
                && Owns(old(store), owner, id.value) && store == Choose(old(store), id.value, choice)
                && if provider.Some? then Matches(old(store), owner, provider.value, id.value)
                   else DefaultIs(old(store), owner, id.value)
    {
      ghost var before := store;
      if provider.Some? {
        id := FindExisting(owner, provider.value);
      } else {
        id := FindDefault(owner);
      }
      if id.Some? {
        ApplyKeepsInvariant(before, Choosing(id.value, choice));
        store := store.(rows := NoDefault(store.rows, owner, id));
        store := store.(rows := store.rows[id.value := store.rows[id.value].(choice := choice, isDefault := true)]);
        assert store == Choose(before, id.value, choice);
      }
    }

    method FindExisting(owner: nat, provider: nat) returns (id: Option<nat>)
      ensures id.Some? ==> Matches(store, owner, provider, id.value)
      ensures id.None? ==> forall other :: !Matches(store, owner, provider, other)
    {
      var found := set id | id in store.rows && Matches(store, owner, provider, id);
      if found == {} {
        assert forall other :: Matches(store, owner, provider, other) ==> other in found;
        return None;
      }
      var some :| some in found;
      id := Some(some);
    }

    method FindDefault(owner: nat) returns (id: Option<nat>)
      requires DefaultsSet(store)
      ensures id.Some? ==> DefaultIs(store, owner, id.value)
      ensures id.None? ==> forall other :: !Owns(store, owner, other)
    {
      var found := set id | id in store.rows && Owns(store, owner, id) && store.rows[id].isDefault;
      if found == {} {
        assert forall other :: DefaultIs(store, owner, other) ==> other in found;
        assert !OneDefault(store, owner);
        return None;
      }
      var some :| some in found;
      assert OneDefault(store, owner);
      id := Some(some);
    }

    method NewId() returns (id: nat)
      ensures id !in store.rows
    {
      var left := store.rows.Keys;
      id := 0;
      while left != {}
        invariant left <= store.rows.Keys
        invariant forall used :: used in store.rows && used !in left ==> used < id
        decreases left
      {
        var used :| used in left;
        left := left - {used};
        id := if used < id then id else used + 1;
      }
    }
  }
}
