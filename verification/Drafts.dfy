/**
  What each request does to what the next publish will ship, said of the tables
  themselves, and how a value gets from a request to a node.
 */
module Drafts {
  import opened Common
  import opened Bundles
  import opened Store
  import F = Fleet

  /** The value of the secret a publish would freeze now. */
  function Selected(b: Bundles, id: Id): Option<Bytes> {
    if id in b.secrets && b.secrets[id].scope in b.drafts && id in b.drafts[b.secrets[id].scope].selections
    then Find(VersionsOf(b, id), b.drafts[b.secrets[id].scope].selections[id])
    else None
  }

  /** Name, values, file binding and selected value of the secret are as before. */
  ghost predicate SameSecret(b: Bundles, q: Bundles, id: Id) {
    && (id in q.secrets <==> id in b.secrets) && (id in b.secrets ==> q.secrets[id] == b.secrets[id])
    && (id in q.bindings <==> id in b.bindings) && (id in b.bindings ==> q.bindings[id] == b.bindings[id])
    && (forall number :: Find(VersionsOf(q, id), number) == Find(VersionsOf(b, id), number))
    && Selected(q, id) == Selected(b, id)
  }

  ghost predicate SameDraft(b: Bundles, q: Bundles, scope: Scope) {
    (scope in q.drafts <==> scope in b.drafts) && (scope in b.drafts ==> q.drafts[scope] == b.drafts[scope])
  }

  /** Only this environment's draft moved, to the next version. */
  ghost predicate Bumped(b: Bundles, q: Bundles, scope: Scope) {
    && scope in q.drafts && q.drafts[scope].version == 1 + (if scope in b.drafts then b.drafts[scope].version else 0)
    && forall s :: s != scope ==> SameDraft(b, q, s)
  }

  ghost predicate SameRevisionTable(b: Bundles, q: Bundles) {
    q.revisions == b.revisions && q.clock == b.clock
  }

  // --- Edits --------------------------------------------------------------------------

  /** A new secret: its value is stored, bound and selected, and no other moves. */
  lemma CreateEffect(b: Bundles, id: Id, scope: Scope, name: string, sealed: Bytes, inUse: set<Scope>)
    requires Valid(b)
    ensures var o := After(b, CreateSecret(id, scope, name, sealed), inUse);
      && (o.reply.Done? <==> scope in b.environments && id !in b.secrets && Secret(scope, name) !in b.secrets.Values)
      && (o.reply.NotFound? <==> scope !in b.environments)
      && (!o.reply.Done? ==> o.state == b)
      && (o.reply.Done? ==>
            && id in o.state.secrets && o.state.secrets[id] == Secret(scope, name)
            && Selected(o.state, id) == Some(sealed) && |VersionsOf(o.state, id)| == 1
            && id in o.state.bindings && o.state.bindings[id] == Binding(name, 0, 0, 0x100)
            && o.state.environments == b.environments && SameRevisionTable(b, o.state) && Bumped(b, o.state, scope)
            && forall other :: other != id ==> SameSecret(b, o.state, other))
  {
    var o := After(b, CreateSecret(id, scope, name, sealed), inUse);
    if o.reply.Done? {
      forall other | other != id ensures SameSecret(b, o.state, other) {
        assert VersionsOf(o.state, other) == VersionsOf(b, other);
      }
    }
  }

  /** A rotation of a selected secret: the next publish ships the new value, the
      old values can still be found, and no other secret moves. */
  lemma RotateEffect(b: Bundles, id: Id, sealed: Bytes, inUse: set<Scope>)
    requires Valid(b)
    ensures var o := After(b, AddVersion(id, sealed), inUse);
      && (o.reply.Done? <==> id in b.secrets) && (!o.reply.Done? ==> o.state == b)
      && (o.reply.Done? ==>
            && (Selected(b, id).Some? ==> Selected(o.state, id) == Some(sealed))
            && (Selected(b, id).None? ==> Selected(o.state, id).None?)
            && o.state.secrets == b.secrets && o.state.bindings == b.bindings && o.state.environments == b.environments
            && SameRevisionTable(b, o.state) && Bumped(b, o.state, b.secrets[id].scope)
            && (forall number :: Find(VersionsOf(b, id), number).Some? ==>
                  Find(VersionsOf(o.state, id), number) == Find(VersionsOf(b, id), number))
            && forall other :: other != id ==> SameSecret(b, o.state, other))
  {
    if id in b.secrets {
      assert SecretComplete(b, id);
      RotatedSelection(b, id, sealed, inUse);
      RotatedValues(b, id, sealed, inUse);
      RotatedOthers(b, id, sealed, inUse);
    }
  }

  lemma RotatedValues(b: Bundles, id: Id, sealed: Bytes, inUse: set<Scope>)
    requires id in b.secrets
    ensures var q := After(b, AddVersion(id, sealed), inUse).state;
      forall number :: Find(VersionsOf(b, id), number).Some? ==> Find(VersionsOf(q, id), number) == Find(VersionsOf(b, id), number)
  {
    var rows, q := VersionsOf(b, id), After(b, AddVersion(id, sealed), inUse).state;
    MaxBounds(rows, MaxNumber(rows) + 1);
    forall number | Find(rows, number).Some? ensures Find(VersionsOf(q, id), number) == Find(rows, number) {
      FindAppended(rows, Version(MaxNumber(rows) + 1, sealed), number);
    }
  }

  lemma RotatedOthers(b: Bundles, id: Id, sealed: Bytes, inUse: set<Scope>)
    requires Valid(b) && id in b.secrets
    ensures forall other :: other != id ==> SameSecret(b, After(b, AddVersion(id, sealed), inUse).state, other)
  {
    var q := After(b, AddVersion(id, sealed), inUse).state;
    forall other | other != id ensures SameSecret(b, q, other) {
      assert VersionsOf(q, other) == VersionsOf(b, other);
    }
  }

  lemma RotatedSelection(b: Bundles, id: Id, sealed: Bytes, inUse: set<Scope>)
    requires Valid(b) && id in b.secrets
    ensures var q := After(b, AddVersion(id, sealed), inUse).state;
      && (Selected(b, id).Some? ==> Selected(q, id) == Some(sealed)) && (Selected(b, id).None? ==> Selected(q, id).None?)
  {
    assert SecretComplete(b, id);
    var rows := VersionsOf(b, id);
    MaxBounds(rows, MaxNumber(rows) + 1);
    FindAppended(rows, Version(MaxNumber(rows) + 1, sealed), MaxNumber(rows) + 1);
    var scope := b.secrets[id].scope;
    if id in b.drafts[scope].selections {
      assert VersionExists(b, scope, id, b.drafts[scope].selections[id]);
    }
  }

  /** A new binding: the next publish ships the file there; values stay. */
  lemma BindEffect(b: Bundles, id: Id, binding: Binding, inUse: set<Scope>)
    requires Valid(b)
    ensures var o := After(b, UpdateBinding(id, binding), inUse);
      && (o.reply.Done? <==> id in b.secrets) && (!o.reply.Done? ==> o.state == b)
      && (o.reply.Done? ==>
            && id in o.state.bindings && o.state.bindings[id] == binding && Selected(o.state, id) == Selected(b, id)
            && o.state.secrets == b.secrets && o.state.versions == b.versions && o.state.environments == b.environments
            && SameRevisionTable(b, o.state) && Bumped(b, o.state, b.secrets[id].scope)
            && o.state.drafts[b.secrets[id].scope].selections == b.drafts[b.secrets[id].scope].selections
            && forall other :: other != id ==> SameSecret(b, o.state, other))
  {
    if id in b.secrets {
      assert SecretComplete(b, id);
    }
  }

  /** New selections: all or none of them, on the expected draft version only. */
  lemma SelectEffect(b: Bundles, scope: Scope, expected: int, selections: map<Id, int>, inUse: set<Scope>)
    ensures var o := After(b, UpdateDraft(scope, expected, selections), inUse);
      && (o.reply.Done? <==>
            && scope in b.drafts && b.drafts[scope].version == expected
            && forall id :: id in selections ==>
                 && id in b.secrets && b.secrets[id].scope == scope && Find(VersionsOf(b, id), selections[id]).Some?)
      && (o.reply.Conflict? <==> scope in b.drafts && b.drafts[scope].version != expected)
      && (!o.reply.Done? ==> o.state == b)
      && (o.reply.Done? ==>
            && (forall id :: id in selections ==> Selected(o.state, id) == Find(VersionsOf(b, id), selections[id]))
            && (forall id :: id !in selections ==> SameSecret(b, o.state, id))
            && o.state.secrets == b.secrets && o.state.versions == b.versions && o.state.bindings == b.bindings
            && o.state.environments == b.environments && SameRevisionTable(b, o.state) && Bumped(b, o.state, scope))
  {}

  /** A deleted secret is gone from the tables, the drafts and the revisions. */
  lemma DeleteEffect(b: Bundles, id: Id, inUse: set<Scope>)
    requires Valid(b)
    ensures var o := After(b, DeleteSecret(id), inUse);
      && (o.reply.Done? <==> id in b.secrets && b.secrets[id].scope !in inUse)
      && (o.reply.Conflict? <==> id in b.secrets && b.secrets[id].scope in inUse)
      && (!o.reply.Done? ==> o.state == b)
      && (o.reply.Done? ==>
            && id !in o.state.secrets && id !in o.state.bindings && VersionsOf(o.state, id) == []
            && (forall s :: s in o.state.drafts ==> id !in o.state.drafts[s].selections)
            && (forall r :: r in o.state.revisions ==> id !in o.state.revisions[r].files)
            && o.state.environments == b.environments && o.state.clock == b.clock
            && o.state.drafts.Keys == b.drafts.Keys && o.state.revisions.Keys == b.revisions.Keys
            && (forall s :: s in b.drafts ==> o.state.drafts[s].version == b.drafts[s].version)
            && (forall r, other :: r in b.revisions && other in b.revisions[r].files && other != id ==>
                  other in o.state.revisions[r].files && o.state.revisions[r].files[other] == b.revisions[r].files[other])
            && forall other :: other != id ==> SameSecret(b, o.state, other))
  {
    if id in b.secrets && b.secrets[id].scope !in inUse {
      DeletedOthers(b, id, inUse);
    }
  }

  lemma DeletedOthers(b: Bundles, id: Id, inUse: set<Scope>)
    requires Valid(b) && id in b.secrets && b.secrets[id].scope !in inUse
    ensures forall other :: other != id ==> SameSecret(b, After(b, DeleteSecret(id), inUse).state, other)
  {
    var q := After(b, DeleteSecret(id), inUse).state;
    forall other | other != id ensures SameSecret(b, q, other) {
      assert VersionsOf(q, other) == VersionsOf(b, other);
    }
  }

  // --- Publish and rollback -----------------------------------------------------------

  ghost predicate OnlyRevisionAdded(b: Bundles, q: Bundles, revision: Id) {
    && q.environments == b.environments && q.secrets == b.secrets && q.versions == b.versions && q.bindings == b.bindings
    && q.drafts == b.drafts && revision !in b.revisions && revision in q.revisions
    && (forall r :: r != revision ==>
          (r in q.revisions <==> r in b.revisions) && (r in b.revisions ==> q.revisions[r] == b.revisions[r]))
    && forall r :: r in b.revisions ==> b.revisions[r].createdAt < q.revisions[revision].createdAt
  }

  /** A publish freezes exactly the selected version and the current binding of
      every selected secret, under the draft's version. */
  lemma PublishEffect(b: Bundles, scope: Scope, revision: Id, inUse: set<Scope>)
    requires Valid(b)
    ensures var o := After(b, Publish(scope, revision), inUse);
      && (o.reply.Done? <==> scope in b.drafts && b.drafts[scope].selections != map[] && revision !in b.revisions)
      && (o.reply.NoSecrets? <==> scope in b.drafts && b.drafts[scope].selections == map[])
      && (!o.reply.Done? ==> o.state == b)
      && (o.reply.Done? ==>
            && OnlyRevisionAdded(b, o.state, revision)
            && var r := o.state.revisions[revision];
               && r.scope == scope && r.draftVersion == b.drafts[scope].version
               && r.files.Keys == b.drafts[scope].selections.Keys
               && forall id :: id in r.files ==>
                    && id in b.bindings && r.files[id] == FileRow(b.bindings[id], b.drafts[scope].selections[id])
                    && Selected(b, id).Some? && Find(VersionsOf(o.state, id), r.files[id].version) == Selected(b, id))
  {
    if scope in b.drafts {
      forall id | id in b.drafts[scope].selections ensures id in b.bindings && b.secrets[id].scope == scope && Selected(b, id).Some? {
        assert VersionExists(b, scope, id, b.drafts[scope].selections[id]) && SecretComplete(b, id);
      }
    }
  }

  /** A rollback freezes what the earlier revision of the environment held. */
  lemma RollbackEffect(b: Bundles, scope: Scope, revision: Id, source: Id, inUse: set<Scope>)
    requires Valid(b)
    ensures var o := After(b, Rollback(scope, revision, source), inUse);
      && (o.reply.Done? <==>
            && source in b.revisions && b.revisions[source].scope == scope && b.revisions[source].files != map[]
            && revision !in b.revisions)
      && (!o.reply.Done? ==> o.state == b)
      && (o.reply.Done? ==>
            && OnlyRevisionAdded(b, o.state, revision)
            && o.state.revisions[revision].scope == scope
            && o.state.revisions[revision].draftVersion == b.revisions[source].draftVersion
            && o.state.revisions[revision].files == b.revisions[source].files)
  {}

  // --- Every secret is selected ---------------------------------------------------------

  /** Every secret is selected in the draft of its environment. */
  ghost predicate AllSelected(b: Bundles) {
    forall id :: id in b.secrets ==> Selected(b, id).Some?
  }

  lemma OthersSelected(b: Bundles, q: Bundles, moved: set<Id>)
    requires AllSelected(b) && forall id :: id in q.secrets && id !in moved ==> SameSecret(b, q, id)
    requires forall id :: id in q.secrets && id in moved ==> Selected(q, id).Some?
    ensures AllSelected(q)
  {
    forall id | id in q.secrets ensures Selected(q, id).Some? {
      if id !in moved {
        assert SameSecret(b, q, id);
      }
    }
  }

  lemma CreateSelects(b: Bundles, r: Request, inUse: set<Scope>)
    requires r.CreateSecret? && Valid(b) && AllSelected(b)
    ensures AllSelected(After(b, r, inUse).state)
  {
    CreateEffect(b, r.id, r.scope, r.name, r.sealed, inUse);
    var o := After(b, r, inUse);
    if o.reply.Done? { OthersSelected(b, o.state, {r.id}); }
  }

  lemma RotateSelects(b: Bundles, r: Request, inUse: set<Scope>)
    requires r.AddVersion? && Valid(b) && AllSelected(b)
    ensures AllSelected(After(b, r, inUse).state)
  {
    RotateEffect(b, r.id, r.sealed, inUse);
    var o := After(b, r, inUse);
    if o.reply.Done? { OthersSelected(b, o.state, {r.id}); }
  }

  lemma BindSelects(b: Bundles, r: Request, inUse: set<Scope>)
    requires r.UpdateBinding? && Valid(b) && AllSelected(b)
    ensures AllSelected(After(b, r, inUse).state)
  {
    BindEffect(b, r.id, r.binding, inUse);
    var o := After(b, r, inUse);
    if o.reply.Done? { OthersSelected(b, o.state, {r.id}); }
  }

  lemma SelectSelects(b: Bundles, r: Request, inUse: set<Scope>)
    requires r.UpdateDraft? && AllSelected(b)
    ensures AllSelected(After(b, r, inUse).state)
  {
    SelectEffect(b, r.scope, r.expected, r.selections, inUse);
    var o := After(b, r, inUse);
    if o.reply.Done? { OthersSelected(b, o.state, r.selections.Keys); }
  }

  lemma DeleteSelects(b: Bundles, r: Request, inUse: set<Scope>)
    requires r.DeleteSecret? && Valid(b) && AllSelected(b)
    ensures AllSelected(After(b, r, inUse).state)
  {
    DeleteEffect(b, r.id, inUse);
    var o := After(b, r, inUse);
    if o.reply.Done? { OthersSelected(b, o.state, {r.id}); }
  }

  /** A request that leaves secrets, values and drafts alone leaves the selection alone. */
  lemma UntouchedSelects(b: Bundles, q: Bundles)
    requires AllSelected(b) && q.secrets == b.secrets && q.versions == b.versions && q.drafts == b.drafts
    ensures AllSelected(q)
  {
    assert forall id :: id in b.secrets ==> Selected(q, id) == Selected(b, id);
  }

  lemma RestSelects(b: Bundles, r: Request, inUse: set<Scope>)
    requires AllSelected(b) && (r.CreateEnvironment? || r.Publish? || r.Rollback?)
    ensures AllSelected(After(b, r, inUse).state)
  {
    UntouchedSelects(b, After(b, r, inUse).state);
  }

  lemma StepSelects(b: Bundles, r: Request, inUse: set<Scope>)
    requires Valid(b) && AllSelected(b)
    ensures AllSelected(After(b, r, inUse).state)
  {
    if r.CreateSecret? {
      CreateSelects(b, r, inUse);
    } else if r.AddVersion? {
      RotateSelects(b, r, inUse);
    } else if r.UpdateBinding? {
      BindSelects(b, r, inUse);
    } else if r.UpdateDraft? {
      SelectSelects(b, r, inUse);
    } else if r.DeleteSecret? {
      DeleteSelects(b, r, inUse);
    } else {
      RestSelects(b, r, inUse);
    }
  }

  lemma {:induction false} RunSelects(db: Db, actions: seq<Action>)
    requires Consistent(db.bundles, db.fleet) && AllSelected(db.bundles)
    ensures AllSelected(Run(db, actions).bundles)
    decreases |actions|
  {
    if actions != [] {
      StepConsistent(db, actions[0]);
      if actions[0].Edit? {
        StepSelects(db.bundles, actions[0].request, F.ActiveScopes(db.fleet));
      } else {
        OnlyEditsTouchBundles(db, actions[0]);
      }
      RunSelects(Step(db, actions[0]), actions[1..]);
    }
  }

  /** In every reachable state a publish freezes every secret of the environment,
      with its selected value and its current binding. */
  lemma PublishIsWhole(db: Db, scope: Scope, revision: Id)
    requires Reachable(db) && After(db.bundles, Publish(scope, revision), F.ActiveScopes(db.fleet)).reply.Done?
    ensures var files := After(db.bundles, Publish(scope, revision), F.ActiveScopes(db.fleet)).state.revisions[revision].files;
      forall id :: id in files <==> id in db.bundles.secrets && db.bundles.secrets[id].scope == scope
  {
    EverySecretSelected(db);
    PublishEffect(db.bundles, scope, revision, F.ActiveScopes(db.fleet));
    forall id | id in db.bundles.secrets && db.bundles.secrets[id].scope == scope ensures id in db.bundles.drafts[scope].selections {
      assert Selected(db.bundles, id).Some?;
    }
    forall id | id in db.bundles.drafts[scope].selections ensures id in db.bundles.secrets && db.bundles.secrets[id].scope == scope {
      assert VersionExists(db.bundles, scope, id, db.bundles.drafts[scope].selections[id]);
    }
  }

  // --- From a request to a node -----------------------------------------------------------

  /** The state after a publish and its advance. */
  ghost function Rolled(db: Db, scope: Scope, revision: Id): Db {
    Step(Step(db, Edit(Publish(scope, revision))), Advance(revision))
  }

  /** The node is given, for the secret, this file with this value. */
  ghost predicate Given(db: Db, node: Id, revision: Id, id: Id, binding: Binding, sealed: Bytes) {
    && revision in F.AssignedRevisions(db.fleet, node) && revision in db.bundles.revisions
    && var files := db.bundles.revisions[revision].files;
       && Deliverable(db.bundles, files) && id in files
       && Resolve(db.bundles, files)[id] == Delivered(binding, sealed)
  }

  /** What is selected when an environment is published is what its nodes are given. */
  lemma SelectedIsGiven(db: Db, scope: Scope, revision: Id, a: Id, node: Id, id: Id)
    requires Consistent(db.bundles, db.fleet)
    requires After(db.bundles, Publish(scope, revision), F.ActiveScopes(db.fleet)).reply.Done?
    requires F.Delivers(db.fleet, a, node) && db.fleet.assignments[a].scope == scope
    requires id in db.bundles.secrets && db.bundles.secrets[id].scope == scope && Selected(db.bundles, id).Some?
    ensures id in db.bundles.bindings
    ensures Given(Rolled(db, scope, revision), node, revision, id, db.bundles.bindings[id], Selected(db.bundles, id).value)
  {
    var published := After(db.bundles, Publish(scope, revision), F.ActiveScopes(db.fleet)).state;
    FrozenValue(db.bundles, scope, revision, F.ActiveScopes(db.fleet), id);
    PublishReachesEveryNode(db, scope, revision, a, node);
    RolledBundles(db, scope, revision);
  }

  lemma RolledBundles(db: Db, scope: Scope, revision: Id)
    ensures Rolled(db, scope, revision).bundles == After(db.bundles, Publish(scope, revision), F.ActiveScopes(db.fleet)).state
  {
    OnlyEditsTouchBundles(Step(db, Edit(Publish(scope, revision))), Advance(revision));
  }

  lemma FrozenValue(b: Bundles, scope: Scope, revision: Id, inUse: set<Scope>, id: Id)
    requires Valid(b) && After(b, Publish(scope, revision), inUse).reply.Done?
    requires id in b.secrets && b.secrets[id].scope == scope && Selected(b, id).Some?
    ensures var q := After(b, Publish(scope, revision), inUse).state;
      && revision in q.revisions && id in b.bindings && Deliverable(q, q.revisions[revision].files)
      && id in q.revisions[revision].files
      && Resolve(q, q.revisions[revision].files)[id] == Delivered(b.bindings[id], Selected(b, id).value)
  {
    PublishEffect(b, scope, revision, inUse);
    StepValid(b, Publish(scope, revision), inUse);
    EveryRevisionDeliverable(After(b, Publish(scope, revision), inUse).state, revision);
  }

  /** A rotated value, once published and advanced, is what every node of the
      environment is given. */
  lemma RotatedIsGiven(db: Db, id: Id, sealed: Bytes, revision: Id, a: Id, node: Id)
    requires Reachable(db) && id in db.bundles.secrets && revision !in db.bundles.revisions
    requires F.Delivers(db.fleet, a, node) && db.fleet.assignments[a].scope == db.bundles.secrets[id].scope
    ensures id in db.bundles.bindings
    ensures Given(Rolled(Step(db, Edit(AddVersion(id, sealed))), db.bundles.secrets[id].scope, revision), node, revision, id,
                  db.bundles.bindings[id], sealed)
  {
    var rotated := Step(db, Edit(AddVersion(id, sealed)));
    EditReachable(db, AddVersion(id, sealed));
    RotateEffect(db.bundles, id, sealed, F.ActiveScopes(db.fleet));
    EverySecretSelected(db);
    SelectedPublishes(rotated, id, revision);
    SelectedIsGiven(rotated, db.bundles.secrets[id].scope, revision, a, node, id);
  }

  /** So is a new binding. */
  lemma BoundIsGiven(db: Db, id: Id, binding: Binding, revision: Id, a: Id, node: Id)
    requires Reachable(db) && id in db.bundles.secrets && revision !in db.bundles.revisions
    requires F.Delivers(db.fleet, a, node) && db.fleet.assignments[a].scope == db.bundles.secrets[id].scope
    ensures Selected(db.bundles, id).Some?
    ensures Given(Rolled(Step(db, Edit(UpdateBinding(id, binding))), db.bundles.secrets[id].scope, revision), node, revision, id,
                  binding, Selected(db.bundles, id).value)
  {
    var bound := Step(db, Edit(UpdateBinding(id, binding)));
    EditReachable(db, UpdateBinding(id, binding));
    BindEffect(db.bundles, id, binding, F.ActiveScopes(db.fleet));
    EverySecretSelected(db);
    SelectedPublishes(bound, id, revision);
    SelectedIsGiven(bound, db.bundles.secrets[id].scope, revision, a, node, id);
  }

  /** And the value of a new secret. */
  lemma CreatedIsGiven(db: Db, id: Id, scope: Scope, name: string, sealed: Bytes, revision: Id, a: Id, node: Id)
    requires Reachable(db) && After(db.bundles, CreateSecret(id, scope, name, sealed), F.ActiveScopes(db.fleet)).reply.Done?
    requires revision !in db.bundles.revisions
    requires F.Delivers(db.fleet, a, node) && db.fleet.assignments[a].scope == scope
    ensures Given(Rolled(Step(db, Edit(CreateSecret(id, scope, name, sealed))), scope, revision), node, revision, id,
                  Binding(name, 0, 0, 0x100), sealed)
  {
    ReachableConsistent(db);
    var created := Step(db, Edit(CreateSecret(id, scope, name, sealed)));
    EditReachable(db, CreateSecret(id, scope, name, sealed));
    CreateEffect(db.bundles, id, scope, name, sealed, F.ActiveScopes(db.fleet));
    SelectedPublishes(created, id, revision);
    SelectedIsGiven(created, scope, revision, a, node, id);
  }

  lemma EverySecretSelected(db: Db)
    requires Reachable(db)
    ensures Consistent(db.bundles, db.fleet) && AllSelected(db.bundles)
  {
    ReachableConsistent(db);
    var actions :| db == Run(Db(NoBundles(), F.NoFleet()), actions);
    EmptyValid();
    RunSelects(Db(NoBundles(), F.NoFleet()), actions);
  }

  lemma EditReachable(db: Db, r: Request)
    requires Reachable(db)
    ensures Consistent(db.bundles, db.fleet)
    ensures Consistent(Step(db, Edit(r)).bundles, Step(db, Edit(r)).fleet) && Step(db, Edit(r)).fleet == db.fleet
    ensures Step(db, Edit(r)).bundles == After(db.bundles, r, F.ActiveScopes(db.fleet)).state
  {
    ReachableConsistent(db);
    StepConsistent(db, Edit(r));
  }

  /** With a selected secret there is something to publish. */
  lemma SelectedPublishes(db: Db, id: Id, revision: Id)
    requires Consistent(db.bundles, db.fleet) && revision !in db.bundles.revisions && Selected(db.bundles, id).Some?
    ensures After(db.bundles, Publish(db.bundles.secrets[id].scope, revision), F.ActiveScopes(db.fleet)).reply.Done?
  {
    PublishEffect(db.bundles, db.bundles.secrets[id].scope, revision, F.ActiveScopes(db.fleet));
    assert id in db.bundles.drafts[db.bundles.secrets[id].scope].selections;
  }
}
