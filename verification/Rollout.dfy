/**
  Do active assignments follow the newest revision of their environment? A
  publish and the advance that follows it are two transactions, and other
  requests can come in between.
 */
module Rollout {
  import opened Common
  import opened Bundles
  import opened Store
  import F = Fleet

  /** Every active assignment is on the newest revision of its environment. */
  ghost predicate Following(b: Bundles, f: F.Fleet) {
    forall a :: a in f.assignments && F.IsActive(f, a) ==> IsLatest(b, f.assignments[a].scope, f.assignments[a].revision)
  }

  /** The environment in which a request stores a new revision. */
  function Extended(b: Bundles, r: Request, inUse: set<Scope>): Option<Scope> {
    match r
    case Publish(scope, _) => if After(b, r, inUse).reply.Done? then Some(scope) else None
    case Rollback(scope, _, _) => if After(b, r, inUse).reply.Done? then Some(scope) else None
    case _ => None
  }

  /** What an action must satisfy: no new revision under an active assignment,
      and no advance of one to a revision that is not the newest. */
  ghost predicate Follows(db: Db, action: Action) {
    var inUse := F.ActiveScopes(db.fleet);
    match action
    case Edit(r) => Extended(db.bundles, r, inUse).None? || Extended(db.bundles, r, inUse).value !in inUse
    case Advance(revision) =>
      revision in db.bundles.revisions ==>
        var scope := db.bundles.revisions[revision].scope;
        scope !in inUse || IsLatest(db.bundles, scope, revision)
    case _ => true
  }

  lemma SameRevisions(b: Bundles, r: Request, inUse: set<Scope>)
    requires Extended(b, r, inUse).None?
    ensures After(b, r, inUse).state.revisions.Keys == b.revisions.Keys
    ensures forall x :: x in b.revisions ==>
      && After(b, r, inUse).state.revisions[x].scope == b.revisions[x].scope
      && After(b, r, inUse).state.revisions[x].createdAt == b.revisions[x].createdAt
  {
    var q := After(b, r, inUse).state;
    if r.DeleteSecret? && q != b {
      assert q.revisions == WithoutFile(b.revisions, r.id);
    } else {
      assert q.revisions == b.revisions;
    }
  }

  lemma EditFollows(b: Bundles, f: F.Fleet, r: Request)
    requires Valid(b) && Following(b, f) && Extended(b, r, F.ActiveScopes(f)).None?
    ensures Following(After(b, r, F.ActiveScopes(f)).state, f)
  {
    var q := After(b, r, F.ActiveScopes(f)).state;
    SameRevisions(b, r, F.ActiveScopes(f));
    forall a | a in f.assignments && F.IsActive(f, a) ensures IsLatest(q, f.assignments[a].scope, f.assignments[a].revision) {
      assert IsLatest(b, f.assignments[a].scope, f.assignments[a].revision);
    }
  }

  /** A new revision is the newest, so nothing assigned its environment follows any more. */
  lemma ExtendFollows(b: Bundles, f: F.Fleet, scope: Scope, revision: Id, draftVersion: int, files: map<Id, FileRow>)
    requires Dated(b) && Following(b, f) && revision !in b.revisions
    requires forall a :: a in f.assignments ==> f.assignments[a].revision in b.revisions
    ensures Following(Inserted(b, revision, scope, draftVersion, files), f) <==> scope !in F.ActiveScopes(f)
  {
    var q := Inserted(b, revision, scope, draftVersion, files);
    if scope in F.ActiveScopes(f) {
      var a :| a in f.assignments && F.IsActive(f, a) && f.assignments[a].scope == scope;
      assert q.revisions[revision].createdAt > q.revisions[f.assignments[a].revision].createdAt;
      assert !IsLatest(q, scope, f.assignments[a].revision);
    } else {
      forall a | a in f.assignments && F.IsActive(f, a) ensures IsLatest(q, f.assignments[a].scope, f.assignments[a].revision) {
        assert IsLatest(b, f.assignments[a].scope, f.assignments[a].revision) && f.assignments[a].scope in F.ActiveScopes(f);
      }
    }
  }

  lemma AdvanceFollows(b: Bundles, f: F.Fleet, scope: Scope, revision: Id)
    requires Dated(b) && Following(b, f) && revision in b.revisions && b.revisions[revision].scope == scope
    ensures Following(b, F.AfterAdvance(f, scope, revision).state) <==>
      scope !in F.ActiveScopes(f) || IsLatest(b, scope, revision)
  {
    var g := F.AfterAdvance(f, scope, revision).state;
    forall a | a in f.assignments && F.IsActive(f, a) ensures
      IsLatest(b, g.assignments[a].scope, g.assignments[a].revision) <==>
      f.assignments[a].scope != scope || IsLatest(b, scope, revision)
    {
      assert IsLatest(b, f.assignments[a].scope, f.assignments[a].revision);
    }
    assert forall a :: a in g.assignments ==> (F.IsActive(g, a) <==> F.IsActive(f, a));
  }

  lemma OperateFollows(b: Bundles, f: F.Fleet, r: FleetRequest)
    requires Following(b, f)
    ensures Following(b, F.After(f, r).state)
  {}

  /** Exactly then an action keeps assignments on the newest revision. */
  lemma StepFollows(db: Db, action: Action)
    requires Consistent(db.bundles, db.fleet) && Following(db.bundles, db.fleet)
    ensures Following(Step(db, action).bundles, Step(db, action).fleet) <==> Follows(db, action)
  {
    match action {
      case Edit(r) =>
        if Extended(db.bundles, r, F.ActiveScopes(db.fleet)).None? {
          EditFollows(db.bundles, db.fleet, r);
        } else if r.Publish? {
          var draft := db.bundles.drafts[r.scope];
          ExtendFollows(db.bundles, db.fleet, r.scope, r.revision, draft.version, Snapshot(draft.selections, db.bundles.bindings));
        } else {
          var from := db.bundles.revisions[r.source];
          ExtendFollows(db.bundles, db.fleet, r.scope, r.revision, from.draftVersion, from.files);
        }
      case Operate(r) => OperateFollows(db.bundles, db.fleet, r);
      case Assign(id, group, scope) => AssignFollows(db, id, group, scope);
      case Advance(revision) =>
        if revision in db.bundles.revisions {
          AdvanceFollows(db.bundles, db.fleet, db.bundles.revisions[revision].scope, revision);
        }
    }
  }

  lemma AssignFollows(db: Db, id: Id, group: Id, scope: Scope)
    requires Following(db.bundles, db.fleet)
    ensures Following(db.bundles, Assigned(db, id, group, scope).state)
  {
    var latest := Latest(db.bundles, scope);
    assert latest.Some? ==> IsLatest(db.bundles, scope, latest.value);
  }

  /** The publish handler, when both of its transactions go through with nothing
      in between, restores what its first one broke. */
  lemma PublishThenAdvanceFollows(db: Db, scope: Scope, revision: Id)
    requires Consistent(db.bundles, db.fleet) && Following(db.bundles, db.fleet)
    requires AfterPublish(db.bundles, scope, revision).reply.Done?
    ensures var q := Step(Step(db, Edit(Publish(scope, revision))), Advance(revision));
      Following(q.bundles, q.fleet)
  {
    PublishStep(db, scope, revision);
    PublishedIsNewest(db.bundles, scope, revision);
    OthersStayNewest(db.bundles, scope, revision);
    AdvanceStep(AfterPublish(db.bundles, scope, revision).state, db.fleet, scope, revision);
    AdvancedToNewest(db.bundles, AfterPublish(db.bundles, scope, revision).state, db.fleet, scope, revision);
  }

  lemma OthersStayNewest(b: Bundles, scope: Scope, revision: Id)
    requires AfterPublish(b, scope, revision).reply.Done?
    ensures forall other, r :: other != scope && IsLatest(b, other, r) ==>
      IsLatest(AfterPublish(b, scope, revision).state, other, r)
  {}

  /** After an advance to the newest revision of one environment everything follows again. */
  lemma AdvancedToNewest(b: Bundles, q: Bundles, f: F.Fleet, scope: Scope, revision: Id)
    requires Following(b, f) && IsLatest(q, scope, revision)
    requires forall other, r :: other != scope && IsLatest(b, other, r) ==> IsLatest(q, other, r)
    ensures Following(q, F.AfterAdvance(f, scope, revision).state)
  {
    var g := F.AfterAdvance(f, scope, revision).state;
    forall a | a in g.assignments && F.IsActive(g, a) ensures IsLatest(q, g.assignments[a].scope, g.assignments[a].revision) {
      assert F.IsActive(f, a) && IsLatest(b, f.assignments[a].scope, f.assignments[a].revision);
    }
  }

  /** Two publishes in a row: the second is the newest, the first is stored too. */
  lemma TwoPublishes(b: Bundles, scope: Scope, r1: Id, r2: Id)
    requires Dated(b) && r1 != r2 && r2 !in b.revisions && AfterPublish(b, scope, r1).reply.Done?
    ensures var b1 := AfterPublish(b, scope, r1).state;
      && AfterPublish(b1, scope, r2).reply.Done?
      && var b2 := AfterPublish(b1, scope, r2).state;
        && r1 in b2.revisions && b2.revisions[r1].scope == scope && !IsLatest(b2, scope, r1)
        && IsLatest(b2, scope, r2) && scope in b2.drafts && NothingToPublish(b2, scope)
  {
    var b1 := AfterPublish(b, scope, r1).state;
    StepDated(b, Publish(scope, r1), {});
    PublishedIsNewest(b1, scope, r2);
    var b2 := AfterPublish(b1, scope, r2).state;
    assert b2.revisions[r1].createdAt < b2.revisions[r2].createdAt;
  }

  lemma TwoAdvances(f: F.Fleet, scope: Scope, r1: Id, r2: Id, a: Id)
    requires F.IsActive(f, a) && f.assignments[a].scope == scope
    ensures var g := F.AfterAdvance(F.AfterAdvance(f, scope, r2).state, scope, r1).state;
      F.IsActive(g, a) && g.assignments[a].scope == scope && g.assignments[a].revision == r1
  {}

  /** Two publishes of one environment whose advances come in the other order:
      every active assignment ends on the older revision, and the guard refuses
      the publish that would repair it. */
  lemma OvertakenAdvance(db: Db, scope: Scope, r1: Id, r2: Id, a: Id)
    requires Consistent(db.bundles, db.fleet) && r1 != r2
    requires AfterPublish(db.bundles, scope, r1).reply.Done? && r2 !in db.bundles.revisions
    requires F.IsActive(db.fleet, a) && db.fleet.assignments[a].scope == scope
    ensures var q := Step(Step(Step(Step(db, Edit(Publish(scope, r1))), Edit(Publish(scope, r2))), Advance(r2)), Advance(r1));
      && F.IsActive(q.fleet, a) && q.fleet.assignments[a].revision == r1
      && IsLatest(q.bundles, scope, r2) && !Following(q.bundles, q.fleet)
      && scope in q.bundles.drafts && NothingToPublish(q.bundles, scope)
  {
    var b1 := AfterPublish(db.bundles, scope, r1).state;
    var b2 := AfterPublish(b1, scope, r2).state;
    TwoPublishes(db.bundles, scope, r1, r2);
    TwoAdvances(db.fleet, scope, r1, r2, a);
    PublishStep(db, scope, r1);
    PublishStep(Db(b1, db.fleet), scope, r2);
    AdvanceStep(b2, db.fleet, scope, r2);
    AdvanceStep(b2, F.AfterAdvance(db.fleet, scope, r2).state, scope, r1);
  }

  lemma AdvanceStep(b: Bundles, f: F.Fleet, scope: Scope, revision: Id)
    requires revision in b.revisions && b.revisions[revision].scope == scope
    ensures Step(Db(b, f), Advance(revision)) == Db(b, F.AfterAdvance(f, scope, revision).state)
  {}

  lemma PublishStep(db: Db, scope: Scope, revision: Id)
    ensures Step(db, Edit(Publish(scope, revision))) == Db(AfterPublish(db.bundles, scope, revision).state, db.fleet)
  {}

  // --- Anything in between --------------------------------------------------------

  /** Every active assignment of one environment is on its newest revision. */
  ghost predicate ScopeFollows(db: Db, scope: Scope) {
    forall a :: a in db.fleet.assignments && F.IsActive(db.fleet, a) && db.fleet.assignments[a].scope == scope ==>
      IsLatest(db.bundles, scope, db.fleet.assignments[a].revision)
  }

  /** The action stores a new revision of the environment. */
  predicate StoresIn(db: Db, action: Action, scope: Scope) {
    action.Edit? && Extended(db.bundles, action.request, F.ActiveScopes(db.fleet)) == Some(scope)
  }

  /** Some action of the run does. */
  ghost predicate RunStoresIn(db: Db, actions: seq<Action>, scope: Scope)
    decreases |actions|
  {
    actions != [] && (StoresIn(db, actions[0], scope) || RunStoresIn(Step(db, actions[0]), actions[1..], scope))
  }

  lemma StoredRevision(b: Bundles, r: Request, inUse: set<Scope>)
    requires Extended(b, r, inUse).Some?
    ensures (r.Publish? || r.Rollback?) && r.revision !in b.revisions && r.scope == Extended(b, r, inUse).value
    ensures exists draftVersion, files :: After(b, r, inUse).state == Inserted(b, r.revision, r.scope, draftVersion, files)
  {
    if r.Publish? {
      var draft := b.drafts[r.scope];
      assert After(b, r, inUse).state == Inserted(b, r.revision, r.scope, draft.version, Snapshot(draft.selections, b.bindings));
    } else {
      var from := b.revisions[r.source];
      assert After(b, r, inUse).state == Inserted(b, r.revision, r.scope, from.draftVersion, from.files);
    }
  }

  lemma InsertedLatest(b: Bundles, revision: Id, scope: Scope, draftVersion: int, files: map<Id, FileRow>)
    requires Dated(b) && revision !in b.revisions
    ensures var q := Inserted(b, revision, scope, draftVersion, files);
      && IsLatest(q, scope, revision)
      && forall other, r :: r in b.revisions && b.revisions[r].scope == other ==>
           (IsLatest(q, other, r) <==> IsLatest(b, other, r) && other != scope)
  {
    var q := Inserted(b, revision, scope, draftVersion, files);
    forall other, r | r in b.revisions && b.revisions[r].scope == other
      ensures IsLatest(q, other, r) <==> IsLatest(b, other, r) && other != scope
    {
      assert q.revisions[revision].createdAt > q.revisions[r].createdAt;
      assert forall o :: o in b.revisions ==> o in q.revisions && q.revisions[o] == b.revisions[o];
    }
  }

  /** A revision stays the newest over an action exactly when the action stores none. */
  lemma StepLatest(db: Db, action: Action, scope: Scope, r: Id)
    requires Consistent(db.bundles, db.fleet)
    requires r in db.bundles.revisions && db.bundles.revisions[r].scope == scope
    ensures var q := Step(db, action).bundles;
      && r in q.revisions && q.revisions[r].scope == scope
      && (IsLatest(q, scope, r) <==> IsLatest(db.bundles, scope, r) && !StoresIn(db, action, scope))
  {
    if action.Edit? {
      var inUse := F.ActiveScopes(db.fleet);
      if Extended(db.bundles, action.request, inUse).Some? {
        StoredRevision(db.bundles, action.request, inUse);
        var draftVersion, files :|
          After(db.bundles, action.request, inUse).state
          == Inserted(db.bundles, action.request.revision, action.request.scope, draftVersion, files);
        InsertedLatest(db.bundles, action.request.revision, action.request.scope, draftVersion, files);
      } else {
        SameRevisions(db.bundles, action.request, inUse);
        SameLatest(db.bundles, After(db.bundles, action.request, inUse).state, scope, r);
      }
    } else {
      OnlyEditsTouchBundles(db, action);
    }
  }

  lemma SameLatest(b: Bundles, q: Bundles, scope: Scope, r: Id)
    requires q.revisions.Keys == b.revisions.Keys
    requires forall x :: x in b.revisions ==>
      q.revisions[x].scope == b.revisions[x].scope && q.revisions[x].createdAt == b.revisions[x].createdAt
    ensures IsLatest(q, scope, r) <==> IsLatest(b, scope, r)
  {
    assert forall x :: x in q.revisions <==> x in b.revisions;
  }

  lemma {:induction false} RunLatest(db: Db, actions: seq<Action>, scope: Scope, r: Id)
    requires Consistent(db.bundles, db.fleet)
    requires r in db.bundles.revisions && db.bundles.revisions[r].scope == scope
    ensures var q := Run(db, actions).bundles;
      && r in q.revisions && q.revisions[r].scope == scope
      && (IsLatest(q, scope, r) <==> IsLatest(db.bundles, scope, r) && !RunStoresIn(db, actions, scope))
    decreases |actions|
  {
    if actions != [] {
      StepLatest(db, actions[0], scope, r);
      StepConsistent(db, actions[0]);
      RunLatest(Step(db, actions[0]), actions[1..], scope, r);
    }
  }

  lemma AdvanceOfScope(b: Bundles, f: F.Fleet, scope: Scope, revision: Id)
    ensures ScopeFollows(Db(b, F.AfterAdvance(f, scope, revision).state), scope) <==>
      scope !in F.ActiveScopes(f) || IsLatest(b, scope, revision)
  {
    var g := F.AfterAdvance(f, scope, revision).state;
    assert forall a :: a in g.assignments ==> (F.IsActive(g, a) <==> F.IsActive(f, a));
    if scope in F.ActiveScopes(f) {
      var a :| a in f.assignments && F.IsActive(f, a) && f.assignments[a].scope == scope;
      assert F.IsActive(g, a) && g.assignments[a].revision == revision && g.assignments[a].scope == scope;
    }
  }

  /**
    A publish or a rollback, whatever happens in between, and then its advance:
    the environment's active assignments end on its newest revision exactly when
    it has none, or nothing in between stored another revision of it.
   */
  lemma AdvanceCatchesUpExactlyWhen(db: Db, r: Request, between: seq<Action>)
    requires Consistent(db.bundles, db.fleet) && Extended(db.bundles, r, F.ActiveScopes(db.fleet)).Some?
    ensures r.Publish? || r.Rollback?
    ensures var stored := Step(db, Edit(r));
      var before := Run(stored, between);
      ScopeFollows(Step(before, Advance(r.revision)), r.scope) <==>
        r.scope !in F.ActiveScopes(before.fleet) || !RunStoresIn(stored, between, r.scope)
  {
    var inUse := F.ActiveScopes(db.fleet);
    StoredRevision(db.bundles, r, inUse);
    var draftVersion, files :| After(db.bundles, r, inUse).state == Inserted(db.bundles, r.revision, r.scope, draftVersion, files);
    InsertedLatest(db.bundles, r.revision, r.scope, draftVersion, files);
    StepConsistent(db, Edit(r));
    var stored := Step(db, Edit(r));
    RunLatest(stored, between, r.scope, r.revision);
    var before := Run(stored, between);
    AdvanceStep(before.bundles, before.fleet, r.scope, r.revision);
    AdvanceOfScope(before.bundles, before.fleet, r.scope, r.revision);
  }
}
