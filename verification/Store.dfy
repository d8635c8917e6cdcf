/**
  Core's store over both groups of tables, the publish and rollback handlers,
  and the properties that span them. Every method is one transaction: it works
  on a copy of the tables and assigns it back only when it commits.
 */
module Store {
  import opened Common
  import opened Bundles
  import F = Fleet

  datatype Db = Db(bundles: Bundles, fleet: F.Fleet)

  /** Every assignment points at a revision of its own environment. */
  ghost predicate Linked(b: Bundles, f: F.Fleet) {
    forall a :: a in f.assignments ==>
      f.assignments[a].revision in b.revisions && b.revisions[f.assignments[a].revision].scope == f.assignments[a].scope
  }

  ghost predicate Consistent(b: Bundles, f: F.Fleet) {
    Valid(b) && F.Unambiguous(f) && Linked(b, f)
  }

  ghost function Latest(b: Bundles, scope: Scope): Option<Id> {
    if exists r :: IsLatest(b, scope, r) then
      var r :| IsLatest(b, scope, r);
      Some(r)
    else None
  }

  lemma LatestIs(b: Bundles, scope: Scope, r: Id)
    requires Dated(b) && IsLatest(b, scope, r)
    ensures Latest(b, scope) == Some(r)
  {
    LatestUnique(b, scope, r, Latest(b, scope).value);
  }

  /** The guard of the publish handler: the newest revision has the draft's version. */
  ghost predicate NothingToPublish(b: Bundles, scope: Scope)
    requires scope in b.drafts
  {
    var newest := Latest(b, scope);
    newest.Some? && newest.value in b.revisions && b.revisions[newest.value].draftVersion == b.drafts[scope].version
  }

  lemma PublishedIsNewest(b: Bundles, scope: Scope, revision: Id)
    requires Dated(b) && AfterPublish(b, scope, revision).reply.Done?
    ensures var q := AfterPublish(b, scope, revision).state;
      IsLatest(q, scope, revision) && scope in q.drafts && NothingToPublish(q, scope)
  {
    var q := AfterPublish(b, scope, revision).state;
    StepDated(b, Publish(scope, revision), {});
    LatestIs(q, scope, revision);
  }

  /** A request of the fleet tables that needs nothing from the bundle tables. */
  type FleetRequest = r: F.Request | !r.CreateAssignment? && !r.Advance? witness F.Register("")

  /** Advance follows a publish or a rollback, so it names a stored revision and
      that revision's own environment; other actions may come in between. */
  datatype Action =
    | Edit(request: Request)
    | Operate(other: FleetRequest)
    | Assign(id: Id, group: Id, scope: Scope)
    | Advance(revision: Id)

  ghost function Step(db: Db, action: Action): Db {
    match action
    case Edit(r) => db.(bundles := After(db.bundles, r, F.ActiveScopes(db.fleet)).state)
    case Operate(r) => db.(fleet := F.After(db.fleet, r).state)
    case Assign(id, group, scope) => db.(fleet := Assigned(db, id, group, scope).state)
    case Advance(revision) =>
      if revision in db.bundles.revisions
      then db.(fleet := F.AfterAdvance(db.fleet, db.bundles.revisions[revision].scope, revision).state)
      else db
  }

  ghost function Assigned(db: Db, id: Id, group: Id, scope: Scope): F.Effect {
    F.AfterCreateAssignment(db.fleet, id, group, scope, scope in db.bundles.environments, Latest(db.bundles, scope))
  }

  ghost function Run(db: Db, actions: seq<Action>): Db
    decreases |actions|
  {
    if actions == [] then db else Run(Step(db, actions[0]), actions[1..])
  }

  // --- Invariants over every run ----------------------------------------------

  lemma EditKeepsLinks(b: Bundles, f: F.Fleet, r: Request)
    requires Linked(b, f)
    ensures Linked(After(b, r, F.ActiveScopes(f)).state, f)
  {}

  lemma OperateKeepsLinks(b: Bundles, f: F.Fleet, r: FleetRequest)
    requires Linked(b, f)
    ensures Linked(b, F.After(f, r).state)
  {}

  lemma AssignedFollows(db: Db, id: Id, group: Id, scope: Scope)
    requires Consistent(db.bundles, db.fleet)
    ensures Consistent(db.bundles, Assigned(db, id, group, scope).state)
  {
    F.CreateAssignmentUnambiguous(
      db.fleet, id, group, scope, scope in db.bundles.environments, Latest(db.bundles, scope));
  }

  lemma EditConsistent(b: Bundles, f: F.Fleet, r: Request)
    requires Consistent(b, f)
    ensures Consistent(After(b, r, F.ActiveScopes(f)).state, f)
  {
    StepValid(b, r, F.ActiveScopes(f));
    EditKeepsLinks(b, f, r);
  }

  lemma OperateConsistent(b: Bundles, f: F.Fleet, r: FleetRequest)
    requires Consistent(b, f)
    ensures Consistent(b, F.After(f, r).state)
  {
    F.StepUnambiguous(f, r);
    OperateKeepsLinks(b, f, r);
  }

  lemma AdvanceConsistent(b: Bundles, f: F.Fleet, scope: Scope, revision: Id)
    requires Consistent(b, f) && revision in b.revisions && b.revisions[revision].scope == scope
    ensures Consistent(b, F.AfterAdvance(f, scope, revision).state)
  {
    F.StepUnambiguous(f, F.Advance(scope, revision));
  }

  lemma StepConsistent(db: Db, action: Action)
    requires Consistent(db.bundles, db.fleet)
    ensures Consistent(Step(db, action).bundles, Step(db, action).fleet)
  {
    match action {
      case Edit(r) => EditConsistent(db.bundles, db.fleet, r);
      case Operate(r) => OperateConsistent(db.bundles, db.fleet, r);
      case Assign(id, group, scope) => AssignedFollows(db, id, group, scope);
      case Advance(revision) =>
        if revision in db.bundles.revisions {
          AdvanceConsistent(db.bundles, db.fleet, db.bundles.revisions[revision].scope, revision);
        }
    }
  }

  /** Over every run from empty tables: rows resolve, the draft version determines
      the content, and no node gets one environment twice. */
  lemma {:induction false} RunConsistent(db: Db, actions: seq<Action>)
    requires Consistent(db.bundles, db.fleet)
    ensures Consistent(Run(db, actions).bundles, Run(db, actions).fleet)
    decreases |actions|
  {
    if actions != [] {
      StepConsistent(db, actions[0]);
      RunConsistent(Step(db, actions[0]), actions[1..]);
    }
  }

  ghost predicate Reachable(db: Db) {
    exists actions :: db == Run(Db(NoBundles(), F.NoFleet()), actions)
  }

  lemma ReachableConsistent(db: Db)
    requires Reachable(db)
    ensures Consistent(db.bundles, db.fleet)
  {
    var actions :| db == Run(Db(NoBundles(), F.NoFleet()), actions);
    EmptyValid();
    RunConsistent(Db(NoBundles(), F.NoFleet()), actions);
  }

  /** In every reachable state a node gets at most one revision per environment,
      each of them deliverable, and a report about it finds its one assignment. */
  lemma DeliveryIsUnambiguous(db: Db, node: Id, a1: Id, a2: Id)
    requires Reachable(db) && F.Delivers(db.fleet, a1, node) && F.Delivers(db.fleet, a2, node)
    ensures var r1, r2 := db.fleet.assignments[a1].revision, db.fleet.assignments[a2].revision;
      && r1 in db.bundles.revisions && r2 in db.bundles.revisions
      && Deliverable(db.bundles, db.bundles.revisions[r1].files)
      && (db.bundles.revisions[r1].scope == db.bundles.revisions[r2].scope ==> r1 == r2)
      && F.Reported(db.fleet, node, r1) == Some(a1)
  {
    ReachableConsistent(db);
    var r1 := db.fleet.assignments[a1].revision;
    if db.fleet.assignments[a1].scope == db.fleet.assignments[a2].scope {
      F.OneRevisionPerScope(db.fleet, node, a1, a2);
    }
    EveryRevisionDeliverable(db.bundles, r1);
    F.ReportFindsOne(db.fleet, node, r1, a1);
  }

  /** In every reachable state the desired-state query names each environment once,
      and only revisions that are stored. */
  lemma AssignedOncePerScope(db: Db, node: Id, r1: Id, r2: Id)
    requires Reachable(db) && r1 in F.AssignedRevisions(db.fleet, node) && r2 in F.AssignedRevisions(db.fleet, node)
    ensures r1 in db.bundles.revisions && r2 in db.bundles.revisions
    ensures db.bundles.revisions[r1].scope == db.bundles.revisions[r2].scope ==> r1 == r2
  {
    var a1 :| a1 in db.fleet.assignments && F.Delivers(db.fleet, a1, node) && db.fleet.assignments[a1].revision == r1;
    var a2 :| a2 in db.fleet.assignments && F.Delivers(db.fleet, a2, node) && db.fleet.assignments[a2].revision == r2;
    DeliveryIsUnambiguous(db, node, a1, a2);
  }

  /** In every reachable state a publish that the guard refuses would have
      frozen exactly what the newest revision already holds. */
  lemma GuardNeverRefusesAChange(db: Db, scope: Scope)
    requires Reachable(db) && scope in db.bundles.drafts && NothingToPublish(db.bundles, scope)
    ensures var newest := Latest(db.bundles, scope).value;
      && IsLatest(db.bundles, scope, newest)
      && db.bundles.revisions[newest].files == Snapshot(db.bundles.drafts[scope].selections, db.bundles.bindings)
  {
    ReachableConsistent(db);
    GuardIsSound(db.bundles, scope, Latest(db.bundles, scope).value);
  }

  // --- Bundle stability -------------------------------------------------------

  /** The environment has an active assignment before every action of the run. */
  ghost predicate StaysAssigned(db: Db, actions: seq<Action>, scope: Scope)
    decreases |actions|
  {
    actions == [] || (scope in F.ActiveScopes(db.fleet) && StaysAssigned(Step(db, actions[0]), actions[1..], scope))
  }

  lemma StepStable(db: Db, action: Action, revision: Id)
    requires Consistent(db.bundles, db.fleet) && revision in db.bundles.revisions
    requires db.bundles.revisions[revision].scope in F.ActiveScopes(db.fleet)
    ensures var q, files := Step(db, action), db.bundles.revisions[revision].files;
      && revision in q.bundles.revisions && q.bundles.revisions[revision] == db.bundles.revisions[revision]
      && Deliverable(db.bundles, files) && Deliverable(q.bundles, files)
      && Resolve(q.bundles, files) == Resolve(db.bundles, files)
  {
    EveryRevisionDeliverable(db.bundles, revision);
    if action.Edit? {
      AssignedRevisionIsStable(db.bundles, action.request, F.ActiveScopes(db.fleet), revision);
    } else {
      OnlyEditsTouchBundles(db, action);
    }
  }

  lemma OnlyEditsTouchBundles(db: Db, action: Action)
    requires !action.Edit?
    ensures Step(db, action).bundles == db.bundles
  {}

  /** While its environment stays assigned, a revision's rows and the sealed
      bytes a node gets for them cannot change, whatever is edited, published,
      rolled back or deleted meanwhile. */
  lemma {:induction false} AssignedBundleIsStable(db: Db, actions: seq<Action>, revision: Id)
    requires Consistent(db.bundles, db.fleet) && revision in db.bundles.revisions
    requires StaysAssigned(db, actions, db.bundles.revisions[revision].scope)
    ensures var q, files := Run(db, actions), db.bundles.revisions[revision].files;
      && revision in q.bundles.revisions && q.bundles.revisions[revision] == db.bundles.revisions[revision]
      && Deliverable(db.bundles, files) && Deliverable(q.bundles, files)
      && Resolve(q.bundles, files) == Resolve(db.bundles, files)
    decreases |actions|
  {
    EveryRevisionDeliverable(db.bundles, revision);
    if actions != [] {
      StepStable(db, actions[0], revision);
      StepConsistent(db, actions[0]);
      AssignedBundleIsStable(Step(db, actions[0]), actions[1..], revision);
    }
  }

  // --- The store --------------------------------------------------------------

  class Store {
    var bundles: Bundles
    var fleet: F.Fleet

    constructor ()
      ensures bundles == NoBundles() && fleet == F.NoFleet() && Valid()
    {
      bundles := NoBundles();
      fleet := F.NoFleet();
      new;
      EmptyValid();
    }

    ghost predicate Valid()
      reads this
    {
      Consistent(bundles, fleet)
    }

    method Commit(tx: Bundles, r: Request)
      requires Valid() && tx == After(bundles, r, F.ActiveScopes(fleet)).state
      modifies this`bundles
      ensures bundles == tx && Valid()
    {
      EditConsistent(bundles, fleet, r);
      bundles := tx;
    }

    method CreateSecretWithValue(id: Id, scope: Scope, name: string, sealed: Bytes) returns (reply: Reply)
      requires Valid()
      modifies this`bundles
      ensures Valid()
      ensures Outcome(bundles, reply) == AfterCreateSecret(old(bundles), id, scope, name, sealed)
    {
      var tx;
      tx, reply := CreateSecretTx(bundles, id, scope, name, sealed);
      Commit(tx, CreateSecret(id, scope, name, sealed));
    }

    static method CreateSecretTx(before: Bundles, id: Id, scope: Scope, name: string, sealed: Bytes)
      returns (tx: Bundles, reply: Reply)
      ensures Outcome(tx, reply) == AfterCreateSecret(before, id, scope, name, sealed)
    {
      tx := before;
      if scope !in tx.environments { return before, NotFound; }
      if id in tx.secrets || NameTaken(tx, scope, name) { return before, Duplicate; }
      tx := tx.(secrets := tx.secrets[id := Secret(scope, name)]);
      tx := tx.(versions := tx.versions[id := [Version(1, sealed)]]);
      tx := tx.(bindings := tx.bindings[id := Binding(name, 0, 0, DEFAULT_MODE)]);
      if scope !in tx.drafts {
        tx := tx.(drafts := tx.drafts[scope := Draft(0, map[])]);
      }
      var draft := tx.drafts[scope];
      draft := draft.(version := draft.version + 1);
      draft := draft.(selections := draft.selections[id := 1]);
      tx := tx.(drafts := tx.drafts[scope := draft]);
      assert tx.drafts == before.drafts[scope := draft];
      return tx, Done;
    }

    /** The new version number was not in use, and the value is stored under it. */
    method AddSecretVersion(id: Id, sealed: Bytes) returns (reply: Reply, version: int, draftVersion: int)
      requires Valid()
      modifies this`bundles
      ensures Valid()
      ensures Outcome(bundles, reply) == AfterAddVersion(old(bundles), id, sealed)
      ensures reply.Done? ==>
        Find(VersionsOf(bundles, id), version) == Some(sealed) && Find(VersionsOf(old(bundles), id), version) == None
      ensures reply.Done? ==>
        id in bundles.secrets && bundles.secrets[id].scope in bundles.drafts
        && draftVersion == bundles.drafts[bundles.secrets[id].scope].version
    {
      var tx;
      tx, reply, version, draftVersion := AddVersionTx(bundles, id, sealed);
      Commit(tx, AddVersion(id, sealed));
    }

    static method AddVersionTx(before: Bundles, id: Id, sealed: Bytes)
      returns (tx: Bundles, reply: Reply, version: int, draftVersion: int)
      ensures Outcome(tx, reply) == AfterAddVersion(before, id, sealed)
      ensures reply.Done? ==>
        Find(VersionsOf(tx, id), version) == Some(sealed) && Find(VersionsOf(before, id), version) == None
      ensures reply.Done? ==>
        id in tx.secrets && tx.secrets[id].scope in tx.drafts && draftVersion == tx.drafts[tx.secrets[id].scope].version
    {
      tx := before;
      if id !in tx.secrets { return before, NotFound, 0, 0; }
      var scope := tx.secrets[id].scope;
      var rows := VersionsOf(tx, id);
      version := MaxNumber(rows) + 1;
      MaxBounds(rows, version);
      FindAppended(rows, Version(version, sealed), version);
      tx := tx.(versions := tx.versions[id := rows + [Version(version, sealed)]]);
      if scope !in tx.drafts { return before, Failed, 0, 0; }
      var draft := tx.drafts[scope];
      if id in draft.selections {
        draft := draft.(selections := draft.selections[id := version]);
      }
      draft := draft.(version := draft.version + 1);
      tx := tx.(drafts := tx.drafts[scope := draft]);
      return tx, Done, version, draft.version;
    }

    method UpdateFileBinding(id: Id, binding: Binding) returns (reply: Reply)
      requires Valid()
      modifies this`bundles
      ensures Valid()
      ensures Outcome(bundles, reply) == AfterUpdateBinding(old(bundles), id, binding)
    {
      var tx;
      tx, reply := UpdateBindingTx(bundles, id, binding);
      Commit(tx, UpdateBinding(id, binding));
    }

    static method UpdateBindingTx(before: Bundles, id: Id, binding: Binding) returns (tx: Bundles, reply: Reply)
      ensures Outcome(tx, reply) == AfterUpdateBinding(before, id, binding)
    {
      tx := before;
      if id !in tx.secrets { return before, NotFound; }
      var scope := tx.secrets[id].scope;
      if id in tx.bindings {
        tx := tx.(bindings := tx.bindings[id := binding]);
      }
      if scope !in tx.drafts { return before, Failed; }
      tx := tx.(drafts := tx.drafts[scope := tx.drafts[scope].(version := tx.drafts[scope].version + 1)]);
      return tx, Done;
    }

    method UpdateDraftSelections(scope: Scope, expected: int, selections: map<Id, int>) returns (reply: Reply)
      requires Valid()
      modifies this`bundles
      ensures Valid()
      ensures Outcome(bundles, reply) == AfterUpdateDraft(old(bundles), scope, expected, selections)
    {
      var tx;
      tx, reply := UpdateDraftTx(bundles, scope, expected, selections);
      Commit(tx, UpdateDraft(scope, expected, selections));
    }

    /** Checks every selection, then upserts every selection, each in any order. */
    static method UpdateDraftTx(before: Bundles, scope: Scope, expected: int, selections: map<Id, int>)
      returns (tx: Bundles, reply: Reply)
      ensures Outcome(tx, reply) == AfterUpdateDraft(before, scope, expected, selections)
    {
      tx := before;
      if scope !in tx.drafts { return before, NotFound; }
      var draft := tx.drafts[scope];
      if draft.version != expected { return before, Conflict; }
      var known := AllExist(tx, scope, selections);
      if !known { return before, BadPayload; }
      var chosen := Upserted(draft.selections, selections);
      tx := tx.(drafts := tx.drafts[scope := Draft(draft.version + 1, chosen)]);
      return tx, Done;
    }

    static method AllExist(b: Bundles, scope: Scope, selections: map<Id, int>) returns (known: bool)
      ensures known <==> forall id :: id in selections ==> VersionExists(b, scope, id, selections[id])
    {
      var rest := selections.Keys;
      while rest != {}
        invariant rest <= selections.Keys
        invariant forall id :: id in selections && id !in rest ==> VersionExists(b, scope, id, selections[id])
        decreases |rest|
      {
        var id :| id in rest;
        if !VersionExists(b, scope, id, selections[id]) { return false; }
        rest := rest - {id};
      }
      return true;
    }

    static method Upserted(stored: map<Id, int>, selections: map<Id, int>) returns (chosen: map<Id, int>)
      ensures chosen == stored + selections
    {
      chosen := stored;
      var rest := selections.Keys;
      while rest != {}
        invariant rest <= selections.Keys
        invariant chosen.Keys == stored.Keys + (selections.Keys - rest)
        invariant forall id :: id in chosen ==>
          chosen[id] == if id in selections && id !in rest then selections[id] else stored[id]
        decreases |rest|
      {
        var id :| id in rest;
        chosen := chosen[id := selections[id]];
        rest := rest - {id};
      }
    }

    /** The revision returned carries the number of files it froze. */
    method PublishDraft(scope: Scope, revision: Id) returns (reply: Reply, fileCount: int)
      requires Valid()
      modifies this`bundles
      ensures Valid()
      ensures Outcome(bundles, reply) == AfterPublish(old(bundles), scope, revision)
      ensures reply.Done? ==> revision in bundles.revisions && fileCount == |bundles.revisions[revision].files|
    {
      var tx;
      tx, reply, fileCount := PublishTx(bundles, scope, revision);
      if reply.Done? {
        FileCountIsRowCount(bundles, scope);
      }
      Commit(tx, Publish(scope, revision));
    }

    static method PublishTx(before: Bundles, scope: Scope, revision: Id)
      returns (tx: Bundles, reply: Reply, fileCount: int)
      ensures Outcome(tx, reply) == AfterPublish(before, scope, revision)
      ensures reply.Done? ==> fileCount == |before.drafts[scope].selections|
    {
      tx := before;
      if scope !in tx.drafts { return before, NotFound, 0; }
      var draft := tx.drafts[scope];
      fileCount := |draft.selections|;
      if fileCount == 0 { return before, NoSecrets, 0; }
      if revision in tx.revisions { return before, Failed, 0; }
      var row := Revision(scope, draft.version, tx.clock, map[]);
      tx := tx.(revisions := tx.revisions[revision := row], clock := tx.clock + 1);
      row := row.(files := Snapshot(draft.selections, tx.bindings));
      tx := tx.(revisions := tx.revisions[revision := row]);
      assert tx.revisions == before.revisions[revision := row];
      return tx, Done, fileCount;
    }

    method RollbackTo(scope: Scope, revision: Id, source: Id) returns (reply: Reply, fileCount: int)
      requires Valid()
      modifies this`bundles
      ensures Valid()
      ensures Outcome(bundles, reply) == AfterRollback(old(bundles), scope, revision, source)
      ensures reply.Done? ==> revision in bundles.revisions && fileCount == |bundles.revisions[revision].files|
    {
      var tx;
      tx, reply, fileCount := RollbackTx(bundles, scope, revision, source);
      Commit(tx, Rollback(scope, revision, source));
    }

    static method RollbackTx(before: Bundles, scope: Scope, revision: Id, source: Id)
      returns (tx: Bundles, reply: Reply, fileCount: int)
      ensures Outcome(tx, reply) == AfterRollback(before, scope, revision, source)
      ensures reply.Done? ==> fileCount == |before.revisions[source].files|
    {
      tx := before;
      if source !in tx.revisions || tx.revisions[source].scope != scope { return before, NotFound, 0; }
      var from := tx.revisions[source];
      fileCount := |from.files|;
      if fileCount == 0 { return before, NoSecrets, 0; }
      if revision in tx.revisions { return before, Failed, 0; }
      var row := Revision(scope, from.draftVersion, tx.clock, map[]);
      tx := tx.(revisions := tx.revisions[revision := row], clock := tx.clock + 1);
      row := row.(files := tx.revisions[source].files);
      tx := tx.(revisions := tx.revisions[revision := row]);
      assert tx.revisions == before.revisions[revision := row];
      return tx, Done, fileCount;
    }

    /** Refused while the secret's environment has an active assignment. */
    method DeleteSecretById(id: Id) returns (reply: Reply)
      requires Valid()
      modifies this`bundles
      ensures Valid()
      ensures Outcome(bundles, reply) == AfterDeleteSecret(old(bundles), id, F.ActiveScopes(fleet))
    {
      var tx;
      tx, reply := DeleteSecretTx(bundles, id, F.ActiveScopes(fleet));
      Commit(tx, DeleteSecret(id));
    }

    static method DeleteSecretTx(before: Bundles, id: Id, inUse: set<Scope>) returns (tx: Bundles, reply: Reply)
      ensures Outcome(tx, reply) == AfterDeleteSecret(before, id, inUse)
    {
      tx := before;
      if id in tx.secrets && tx.secrets[id].scope in inUse { return before, Conflict; }
      tx := tx.(revisions := WithoutFile(tx.revisions, id));
      if id !in tx.secrets { return before, NotFound; }
      tx := tx.(secrets := tx.secrets - {id});
      tx := tx.(versions := tx.versions - {id}, bindings := tx.bindings - {id}, drafts := WithoutSelection(tx.drafts, id));
      return tx, Done;
    }

    /** The first row of the scope's revisions, newest first. */
    method NewestRevision(scope: Scope) returns (newest: Option<Id>)
      requires Valid()
      ensures newest == Latest(bundles, scope)
    {
      newest := None;
      var rest := bundles.revisions.Keys;
      while rest != {}
        invariant rest <= bundles.revisions.Keys
        invariant newest.Some? ==> newest.value in bundles.revisions && bundles.revisions[newest.value].scope == scope
        invariant forall r :: r in bundles.revisions && r !in rest && bundles.revisions[r].scope == scope ==>
          newest.Some? && bundles.revisions[r].createdAt <= bundles.revisions[newest.value].createdAt
        decreases |rest|
      {
        var r :| r in rest;
        if bundles.revisions[r].scope == scope
           && (newest.None? || bundles.revisions[newest.value].createdAt < bundles.revisions[r].createdAt) {
          newest := Some(r);
        }
        rest := rest - {r};
      }
      if newest.Some? {
        LatestIs(bundles, scope, newest.value);
      }
    }

    method AddGroupMember(group: Id, node: Id) returns (reply: Reply)
      requires Valid()
      modifies this`fleet
      ensures Valid()
      ensures F.Effect(fleet, reply) == F.AfterAddMember(old(fleet), group, node)
    {
      if group !in fleet.groups || node !in fleet.nodes { return NotFound; }
      var tx := fleet;
      tx := tx.(members := tx.members + {F.Member(group, node)});
      if F.MemberConflict(tx, group, node) { return Conflict; }
      OperateConsistent(bundles, fleet, F.AddMember(group, node));
      fleet := tx;
      return Done;
    }

    method RemoveGroupMember(group: Id, node: Id)
      requires Valid()
      modifies this`fleet
      ensures Valid()
      ensures fleet == F.AfterRemoveMember(old(fleet), group, node).state
    {
      OperateConsistent(bundles, fleet, F.RemoveMember(group, node));
      fleet := fleet.(members := fleet.members - {F.Member(group, node)});
    }

    method CreateAssignment(id: Id, group: Id, scope: Scope) returns (reply: Reply)
      requires Valid()
      modifies this`fleet
      ensures Valid()
      ensures F.Effect(fleet, reply) == Assigned(Db(bundles, old(fleet)), id, group, scope)
    {
      if group !in fleet.groups || scope !in bundles.environments { return NotFound; }
      var latest := NewestRevision(scope);
      if latest.None? { return BadPayload; }
      if F.AssignmentConflict(fleet, group, scope) { return Conflict; }
      if id in fleet.assignments || F.ActiveExists(fleet, group, scope) { return Duplicate; }
      AssignedFollows(Db(bundles, fleet), id, group, scope);
      fleet := fleet.(assignments := fleet.assignments[id := F.Assignment(group, scope, latest.value, F.Active)]);
      return Done;
    }

    /** One statement of its own; the database may refuse it. */
    method AdvanceDesiredRevision(scope: Scope, revision: Id) returns (ok: bool)
      requires Valid() && revision in bundles.revisions && bundles.revisions[revision].scope == scope
      modifies this`fleet
      ensures Valid()
      ensures fleet == if ok then F.AfterAdvance(old(fleet), scope, revision).state else old(fleet)
    {
      ok := *;
      if !ok { return; }
      AdvanceConsistent(bundles, fleet, scope, revision);
      var tx := AdvanceTx(fleet, scope, revision);
      fleet := tx;
    }

    static method AdvanceTx(before: F.Fleet, scope: Scope, revision: Id) returns (tx: F.Fleet)
      ensures tx == F.AfterAdvance(before, scope, revision).state
    {
      ghost var goal := F.AfterAdvance(before, scope, revision).state.assignments;
      var rows := before.assignments;
      var rest := rows.Keys;
      while rest != {}
        invariant rest <= before.assignments.Keys && rows.Keys == before.assignments.Keys
        invariant forall a :: a in rest ==> rows[a] == before.assignments[a]
        invariant forall a :: a in rows && a !in rest ==> rows[a] == goal[a]
        decreases |rest|
      {
        var a :| a in rest;
        if rows[a].status == F.Active && rows[a].scope == scope {
          rows := rows[a := rows[a].(revision := revision)];
        }
        rest := rest - {a};
      }
      assert rows == goal;
      tx := before.(assignments := rows);
    }

    method Unassign(id: Id) returns (reply: Reply)
      requires Valid()
      modifies this`fleet
      ensures Valid()
      ensures F.Effect(fleet, reply) == F.AfterUnassign(old(fleet), id)
    {
      if !F.IsActive(fleet, id) { return Conflict; }
      OperateConsistent(bundles, fleet, F.Unassign(id));
      var tx := fleet;
      tx := tx.(assignments := tx.assignments[id := tx.assignments[id].(status := F.Removing)]);
      tx := tx.(tasks := tx.tasks + F.NewTasks(tx, id));
      fleet := tx;
      return Done;
    }

    method ReportCleanupTask(id: Id, node: Id, result: string) returns (reply: Reply)
      requires Valid()
      modifies this`fleet
      ensures Valid()
      ensures F.Effect(fleet, reply) == F.AfterReportCleanup(old(fleet), id, node, result)
    {
      OperateConsistent(bundles, fleet, F.ReportCleanup(id, node, result));
      var tx;
      tx, reply := ReportCleanupTx(fleet, id, node, result);
      fleet := tx;
    }

    static method ReportCleanupTx(before: F.Fleet, id: Id, node: Id, result: string) returns (tx: F.Fleet, reply: Reply)
      ensures F.Effect(tx, reply) == F.AfterReportCleanup(before, id, node, result)
    {
      if result != "cleaned" && result != "failed" { return before, BadPayload; }
      var p := F.Pair(id, node);
      if p !in before.tasks || !F.Open(before.tasks[p]) { return before, NotFound; }
      tx := before.(tasks := before.tasks[p := if result == "cleaned" then F.Cleaned else F.CleanupFailed]);
      return tx, Done;
    }

    method AbandonCleanupConfirmation(id: Id) returns (reply: Reply)
      requires Valid()
      modifies this`fleet
      ensures Valid()
      ensures F.Effect(fleet, reply) == F.AfterAbandon(old(fleet), id)
    {
      var tx, changed := AbandonTx(fleet, id);
      if changed == 0 { return Conflict; }
      OperateConsistent(bundles, fleet, F.Abandon(id));
      fleet := tx;
      return Done;
    }

    /** The guarded update, row by row, with the number of rows it changed. */
    static method AbandonTx(before: F.Fleet, id: Id) returns (tx: F.Fleet, changed: nat)
      ensures changed == 0 <==> F.AfterAbandon(before, id).reply.Conflict?
      ensures tx == F.AfterAbandon(before, id).state
    {
      var rows := before.tasks;
      var rest := rows.Keys;
      changed := 0;
      while rest != {}
        invariant rest <= before.tasks.Keys && rows.Keys == before.tasks.Keys
        invariant forall p :: p in rest ==> rows[p] == before.tasks[p]
        invariant forall p :: p in rows && p !in rest ==>
          rows[p] == if F.Abandonable(before, p, id) then F.Unconfirmed else before.tasks[p]
        invariant changed == 0 ==> rows == before.tasks && forall p :: p in rows && p !in rest ==> !F.Abandonable(before, p, id)
        invariant changed > 0 ==> exists p :: p in before.tasks && F.Abandonable(before, p, id)
        decreases |rest|
      {
        var p :| p in rest;
        if F.Abandonable(before, p, id) {
          rows := rows[p := F.Unconfirmed];
          changed := changed + 1;
        }
        rest := rest - {p};
      }
      tx := before.(tasks := rows);
    }

    /** The report handler: find the assignment, upsert the convergence row. */
    method HandleReport(node: Id, revision: Id, stage: string, result: string, error: string) returns (reply: Reply)
      requires Valid()
      modifies this`fleet
      ensures Valid()
      ensures F.Effect(fleet, reply) == F.AfterReport(old(fleet), node, revision, stage, result, error)
    {
      if node !in fleet.nodes { return NotFound; }
      if result == "" { return BadPayload; }
      var found := AssignmentForNodeRevision(node, revision);
      OperateConsistent(bundles, fleet, F.Report(node, revision, stage, result, error));
      if found.Some? {
        fleet := F.Recorded(fleet, F.Pair(found.value, node), revision, stage, result, error);
      }
      return Done;
    }

    /** Any row that delivers the revision to the node: there is at most one. */
    method AssignmentForNodeRevision(node: Id, revision: Id) returns (found: Option<Id>)
      requires Valid()
      ensures found == F.Reported(fleet, node, revision)
      ensures found.Some? ==> found.value in fleet.assignments
    {
      if exists a :: a in fleet.assignments && F.Reports(fleet, a, node, revision) {
        var a :| a in fleet.assignments && F.Reports(fleet, a, node, revision);
        F.ReportFindsOne(fleet, node, revision, a);
        return Some(a);
      }
      return None;
    }

    /** The publish handler: guard, publish, advance. The advance is a statement of
        its own, so a failure can come after the publish is committed. */
    method HandlePublish(scope: Scope, revision: Id) returns (reply: Reply, fileCount: int)
      requires Valid()
      modifies this
      ensures Valid()
      // Refused exactly for want of a change.
      ensures reply.Conflict? <==>
        scope in old(bundles).environments && scope in old(bundles).drafts && NothingToPublish(old(bundles), scope)
      // Published: every node assigned the environment is now given the draft's snapshot.
      ensures reply.Done? ==>
        && revision !in old(bundles).revisions
        && Outcome(bundles, Done) == AfterPublish(old(bundles), scope, revision)
        && fleet == F.AfterAdvance(old(fleet), scope, revision).state
        && revision in bundles.revisions && fileCount == |bundles.revisions[revision].files|
      // Anything else changes nothing, except a failure of the advance: it leaves the
      // revision published and assigned to nobody, and the next publish is refused.
      ensures !reply.Done? ==> fleet == old(fleet)
      ensures !reply.Done? && bundles != old(bundles) ==>
        && reply.Failed? && revision !in old(bundles).revisions
        && Outcome(bundles, Done) == AfterPublish(old(bundles), scope, revision)
        && scope in bundles.drafts && NothingToPublish(bundles, scope)
    {
      fileCount := 0;
      if scope !in bundles.environments || scope !in bundles.drafts { return NotFound, 0; }
      var newest := NewestRevision(scope);
      if newest.Some? && bundles.revisions[newest.value].draftVersion == bundles.drafts[scope].version {
        return Conflict, 0;
      }
      reply, fileCount := PublishDraft(scope, revision);
      if reply.Done? {
        PublishedIsNewest(old(bundles), scope, revision);
        var ok := AdvanceDesiredRevision(scope, revision);
        if !ok { reply := Failed; }
      }
    }

    /** The rollback handler: copy, advance, with the same gap in between. */
    method HandleRollback(scope: Scope, revision: Id, source: Id) returns (reply: Reply, fileCount: int)
      requires Valid()
      modifies this
      ensures Valid()
      ensures reply.Done? ==>
        && source in old(bundles).revisions && revision !in old(bundles).revisions
        && Outcome(bundles, Done) == AfterRollback(old(bundles), scope, revision, source)
        && fleet == F.AfterAdvance(old(fleet), scope, revision).state
        && fileCount == |old(bundles).revisions[source].files|
      ensures !reply.Done? ==> fleet == old(fleet)
      ensures !reply.Done? && bundles != old(bundles) ==>
        && reply.Failed? && revision !in old(bundles).revisions
        && Outcome(bundles, Done) == AfterRollback(old(bundles), scope, revision, source)
    {
      fileCount := 0;
      if scope !in bundles.environments { return NotFound, 0; }
      reply, fileCount := RollbackTo(scope, revision, source);
      if reply.Done? {
        var ok := AdvanceDesiredRevision(scope, revision);
        if !ok { reply := Failed; }
      }
    }

    /** The lookups of buildEnvelope: no version is ever missing, so only an
        unknown revision fails. */
    method CollectFiles(revision: Id) returns (delivered: Option<map<Id, Delivered>>)
      requires Valid()
      ensures delivered.Some? <==> revision in bundles.revisions
      ensures delivered.Some? ==>
        && Deliverable(bundles, bundles.revisions[revision].files)
        && delivered.value == Resolve(bundles, bundles.revisions[revision].files)
        && |delivered.value| == |bundles.revisions[revision].files|
    {
      if revision !in bundles.revisions { return None; }
      EveryRevisionDeliverable(bundles, revision);
      var files := ResolveFiles(bundles, bundles.revisions[revision].files);
      return Some(files);
    }

    static method ResolveFiles(b: Bundles, files: map<Id, FileRow>) returns (delivered: map<Id, Delivered>)
      requires Deliverable(b, files)
      ensures delivered == Resolve(b, files) && |delivered| == |files|
    {
      delivered := map[];
      var rest := files.Keys;
      while rest != {}
        invariant rest <= files.Keys
        invariant delivered.Keys == files.Keys - rest
        invariant forall id :: id in delivered ==> IsLookup(b, files, id, delivered[id])
        decreases |rest|
      {
        var id :| id in rest;
        var sealed := Find(VersionsOf(b, id), files[id].version);
        delivered := delivered[id := Delivered(files[id].binding, sealed.value)];
        rest := rest - {id};
      }
      AllLookedUp(b, files, delivered);
    }
  }

  lemma AllLookedUp(b: Bundles, files: map<Id, FileRow>, delivered: map<Id, Delivered>)
    requires Deliverable(b, files) && delivered.Keys == files.Keys
    requires forall id :: id in delivered ==> IsLookup(b, files, id, delivered[id])
    ensures delivered == Resolve(b, files) && |delivered| == |files|
  {
    forall id | id in files ensures delivered[id] == Resolve(b, files)[id] {
      assert IsLookup(b, files, id, delivered[id]);
    }
    assert |delivered.Keys| == |delivered| && |files.Keys| == |files|;
  }

  /** `d` is the binding frozen with the secret and the value of its version. */
  ghost predicate IsLookup(b: Bundles, files: map<Id, FileRow>, id: Id, d: Delivered) {
    && id in files && d.binding == files[id].binding
    && Find(VersionsOf(b, id), files[id].version) == Some(d.sealed)
  }

  lemma {:induction false} MaxBounds(rows: seq<Version>, number: int)
    requires number > MaxNumber(rows)
    ensures Find(rows, number) == None
  {
    if rows != [] {
      MaxBounds(rows[1..], number);
    }
  }

  /** After a publish every active assignment of the environment, hence every
      node in its groups, is given the revision just frozen. */
  lemma PublishReachesEveryNode(db: Db, scope: Scope, revision: Id, a: Id, node: Id)
    requires AfterPublish(db.bundles, scope, revision).reply.Done?
    requires F.Delivers(db.fleet, a, node) && db.fleet.assignments[a].scope == scope
    ensures var q := Step(Step(db, Edit(Publish(scope, revision))), Advance(revision));
      && revision in F.AssignedRevisions(q.fleet, node)
      && q.bundles.revisions[revision].files == Snapshot(db.bundles.drafts[scope].selections, db.bundles.bindings)
  {
    F.AdvanceReaches(db.fleet, scope, revision, a, node);
    var published := Step(db, Edit(Publish(scope, revision)));
    assert published.fleet == db.fleet && revision in published.bundles.revisions;
    assert Step(published, Advance(revision)).bundles == published.bundles;
  }
}
