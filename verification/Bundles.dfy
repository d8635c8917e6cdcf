/**
  Core's secrets, drafts and revisions: the tables, the effect of each store
  method as one transaction, and what every reachable state satisfies.
 */
module Bundles {
  import opened Common

  type Id = string

  /** One environment of one application. */
  datatype Scope = Scope(app: Id, environment: Id)

  datatype Secret = Secret(scope: Scope, name: string)

  datatype Binding = Binding(path: string, uid: int, gid: int, mode: nat)

  /** A row of revision_files, keyed by its secret. */
  datatype FileRow = FileRow(binding: Binding, version: int)

  datatype Draft = Draft(version: int, selections: map<Id, int>)

  datatype Revision = Revision(scope: Scope, draftVersion: int, createdAt: int, files: map<Id, FileRow>)

  /** A row of secret_versions. */
  datatype Version = Version(number: int, sealed: Bytes)

  /** `versions` are the rows of each secret in the order of insertion;
      `clock` is later than every creation time so far. */
  datatype Bundles = Bundles(
    environments: set<Scope>,
    secrets: map<Id, Secret>,
    versions: map<Id, seq<Version>>,
    bindings: map<Id, Binding>,
    drafts: map<Scope, Draft>,
    revisions: map<Id, Revision>,
    clock: int)

  datatype Reply = Done | Duplicate | NotFound | Conflict | BadPayload | NoSecrets | Failed

  datatype Outcome = Outcome(state: Bundles, reply: Reply)

  /** The mode 0400 of a new secret's file. */
  const DEFAULT_MODE: nat := 256

  function NoBundles(): Bundles {
    Bundles({}, map[], map[], map[], map[], map[], 0)
  }

  // --- Statements -------------------------------------------------------------

  /** The join of the draft's selections with the file bindings. */
  function Snapshot(selections: map<Id, int>, bindings: map<Id, Binding>): map<Id, FileRow> {
    map id | id in selections && id in bindings :: FileRow(bindings[id], selections[id])
  }

  function MaxNumber(rows: seq<Version>): int {
    if rows == [] then 0
    else
      var rest := MaxNumber(rows[1..]);
      if rows[0].number > rest then rows[0].number else rest
  }

  /** The value stored under a secret's version number. */
  function Find(rows: seq<Version>, number: int): Option<Bytes> {
    if rows == [] then None
    else if rows[0].number == number then Some(rows[0].sealed)
    else Find(rows[1..], number)
  }

  function VersionsOf(b: Bundles, secret: Id): seq<Version> {
    if secret in b.versions then b.versions[secret] else []
  }

  lemma {:induction false} FindAppended(rows: seq<Version>, row: Version, number: int)
    ensures Find(rows + [row], number) ==
      if Find(rows, number).Some? then Find(rows, number) else if row.number == number then Some(row.sealed) else None
  {
    if rows == [] {
      assert [] + [row] == [row];
    } else {
      assert (rows + [row])[1..] == rows[1..] + [row];
      FindAppended(rows[1..], row, number);
    }
  }

  function WithoutFile(revisions: map<Id, Revision>, secret: Id): map<Id, Revision> {
    map r | r in revisions :: revisions[r].(files := revisions[r].files - {secret})
  }

  function WithoutSelection(drafts: map<Scope, Draft>, secret: Id): map<Scope, Draft> {
    map s | s in drafts :: drafts[s].(selections := drafts[s].selections - {secret})
  }

  predicate NameTaken(b: Bundles, scope: Scope, name: string) {
    exists id :: id in b.secrets && b.secrets[id] == Secret(scope, name)
  }

  predicate VersionExists(b: Bundles, scope: Scope, secret: Id, version: int) {
    && secret in b.secrets && b.secrets[secret].scope == scope
    && Find(VersionsOf(b, secret), version).Some?
  }

  // --- What each method does --------------------------------------------------

  function AfterCreateEnvironment(b: Bundles, scope: Scope): Outcome {
    if scope in b.environments then Outcome(b, Duplicate)
    else Outcome(b.(environments := b.environments + {scope}), Done)
  }

  function AfterCreateSecret(b: Bundles, id: Id, scope: Scope, name: string, sealed: Bytes): Outcome {
    if scope !in b.environments then Outcome(b, NotFound)
    else if id in b.secrets || NameTaken(b, scope, name) then Outcome(b, Duplicate)
    else
      var draft := if scope in b.drafts then b.drafts[scope] else Draft(0, map[]);
      Outcome(b.(secrets := b.secrets[id := Secret(scope, name)],
                 versions := b.versions[id := [Version(1, sealed)]],
                 bindings := b.bindings[id := Binding(name, 0, 0, DEFAULT_MODE)],
                 drafts := b.drafts[scope := Draft(draft.version + 1, draft.selections[id := 1])]), Done)
  }

  function AfterAddVersion(b: Bundles, id: Id, sealed: Bytes): Outcome {
    if id !in b.secrets then Outcome(b, NotFound)
    else if b.secrets[id].scope !in b.drafts then Outcome(b, Failed)
    else
      var scope := b.secrets[id].scope;
      var rows := VersionsOf(b, id);
      var version := MaxNumber(rows) + 1;
      var draft := b.drafts[scope];
      var selections := if id in draft.selections then draft.selections[id := version] else draft.selections;
      Outcome(b.(versions := b.versions[id := rows + [Version(version, sealed)]],
                 drafts := b.drafts[scope := Draft(draft.version + 1, selections)]), Done)
  }

  function AfterUpdateBinding(b: Bundles, id: Id, binding: Binding): Outcome {
    if id !in b.secrets then Outcome(b, NotFound)
    else if b.secrets[id].scope !in b.drafts then Outcome(b, Failed)
    else
      var scope := b.secrets[id].scope;
      Outcome(b.(bindings := if id in b.bindings then b.bindings[id := binding] else b.bindings,
                 drafts := b.drafts[scope := b.drafts[scope].(version := b.drafts[scope].version + 1)]), Done)
  }

  function AfterUpdateDraft(b: Bundles, scope: Scope, expected: int, selections: map<Id, int>): Outcome {
    if scope !in b.drafts then Outcome(b, NotFound)
    else if b.drafts[scope].version != expected then Outcome(b, Conflict)
    else if !(forall id :: id in selections ==> VersionExists(b, scope, id, selections[id])) then Outcome(b, BadPayload)
    else
      var draft := b.drafts[scope];
      Outcome(b.(drafts := b.drafts[scope := Draft(draft.version + 1, draft.selections + selections)]), Done)
  }

  function Inserted(b: Bundles, revision: Id, scope: Scope, draftVersion: int, files: map<Id, FileRow>): Bundles {
    b.(revisions := b.revisions[revision := Revision(scope, draftVersion, b.clock, files)], clock := b.clock + 1)
  }

  function AfterPublish(b: Bundles, scope: Scope, revision: Id): Outcome {
    if scope !in b.drafts then Outcome(b, NotFound)
    else if b.drafts[scope].selections == map[] then Outcome(b, NoSecrets)
    else if revision in b.revisions then Outcome(b, Failed)
    else
      var draft := b.drafts[scope];
      Outcome(Inserted(b, revision, scope, draft.version, Snapshot(draft.selections, b.bindings)), Done)
  }

  function AfterRollback(b: Bundles, scope: Scope, revision: Id, source: Id): Outcome {
    if source !in b.revisions || b.revisions[source].scope != scope then Outcome(b, NotFound)
    else if b.revisions[source].files == map[] then Outcome(b, NoSecrets)
    else if revision in b.revisions then Outcome(b, Failed)
    else Outcome(Inserted(b, revision, scope, b.revisions[source].draftVersion, b.revisions[source].files), Done)
  }

  /** `inUse` are the scopes with an active assignment. */
  function AfterDeleteSecret(b: Bundles, id: Id, inUse: set<Scope>): Outcome {
    if id !in b.secrets then Outcome(b, NotFound)
    else if b.secrets[id].scope in inUse then Outcome(b, Conflict)
    else
      Outcome(b.(secrets := b.secrets - {id}, versions := b.versions - {id}, bindings := b.bindings - {id},
                 drafts := WithoutSelection(b.drafts, id), revisions := WithoutFile(b.revisions, id)), Done)
  }

  datatype Request =
    | CreateEnvironment(scope: Scope)
    | CreateSecret(id: Id, scope: Scope, name: string, sealed: Bytes)
    | AddVersion(id: Id, sealed: Bytes)
    | UpdateBinding(id: Id, binding: Binding)
    | UpdateDraft(scope: Scope, expected: int, selections: map<Id, int>)
    | Publish(scope: Scope, revision: Id)
    | Rollback(scope: Scope, revision: Id, source: Id)
    | DeleteSecret(id: Id)

  function After(b: Bundles, r: Request, inUse: set<Scope>): Outcome {
    match r
    case CreateEnvironment(scope) => AfterCreateEnvironment(b, scope)
    case CreateSecret(id, scope, name, sealed) => AfterCreateSecret(b, id, scope, name, sealed)
    case AddVersion(id, sealed) => AfterAddVersion(b, id, sealed)
    case UpdateBinding(id, binding) => AfterUpdateBinding(b, id, binding)
    case UpdateDraft(scope, expected, selections) => AfterUpdateDraft(b, scope, expected, selections)
    case Publish(scope, revision) => AfterPublish(b, scope, revision)
    case Rollback(scope, revision, source) => AfterRollback(b, scope, revision, source)
    case DeleteSecret(id) => AfterDeleteSecret(b, id, inUse)
  }

  // --- Invariant: everything refers to a stored version -----------------------

  /** Version numbers run from 1 without a gap, in the order of insertion. */
  ghost predicate Contiguous(rows: seq<Version>) {
    rows != [] && forall k :: 0 <= k < |rows| ==> rows[k].number == k + 1
  }

  lemma {:induction false} MaxOfRun(rows: seq<Version>, first: int)
    requires first >= 1 && forall k :: 0 <= k < |rows| ==> rows[k].number == first + k
    ensures MaxNumber(rows) == if rows == [] then 0 else first + |rows| - 1
  {
    if rows != [] {
      MaxOfRun(rows[1..], first + 1);
    }
  }

  lemma NextNumberContiguous(rows: seq<Version>, sealed: Bytes)
    requires Contiguous(rows)
    ensures MaxNumber(rows) == |rows| && Contiguous(rows + [Version(MaxNumber(rows) + 1, sealed)])
  {
    MaxOfRun(rows, 1);
  }

  ghost predicate SecretComplete(b: Bundles, id: Id) {
    && id in b.bindings && id in b.versions && Contiguous(b.versions[id])
    && id in b.secrets && b.secrets[id].scope in b.drafts
  }

  ghost predicate SecretsComplete(b: Bundles) {
    && (forall id :: id in b.secrets ==> SecretComplete(b, id))
    && (forall id :: id in b.bindings ==> id in b.secrets)
    && (forall id :: id in b.versions ==> id in b.secrets)
  }

  ghost predicate SelectionsResolve(b: Bundles) {
    forall s, id :: s in b.drafts && id in b.drafts[s].selections ==>
      VersionExists(b, s, id, b.drafts[s].selections[id])
  }

  ghost predicate FilesResolve(b: Bundles) {
    && (forall r :: r in b.revisions ==> b.revisions[r].scope in b.drafts)
    && (forall r, id :: r in b.revisions && id in b.revisions[r].files ==>
          VersionExists(b, b.revisions[r].scope, id, b.revisions[r].files[id].version))
  }

  ghost predicate Resolvable(b: Bundles) {
    SecretsComplete(b) && SelectionsResolve(b) && FilesResolve(b)
  }

  /** Lookups that succeeded still give the same value after a rotation. */
  lemma AddVersionKeeps(b: Bundles, id: Id, sealed: Bytes, secret: Id, number: int)
    requires Find(VersionsOf(b, secret), number).Some?
    ensures Find(VersionsOf(AfterAddVersion(b, id, sealed).state, secret), number) == Find(VersionsOf(b, secret), number)
  {
    FindAppended(VersionsOf(b, id), Version(MaxNumber(VersionsOf(b, id)) + 1, sealed), number);
  }

  lemma AddVersionResolves(b: Bundles, id: Id, sealed: Bytes)
    requires Resolvable(b)
    ensures Resolvable(AfterAddVersion(b, id, sealed).state)
  {
    var q := AfterAddVersion(b, id, sealed).state;
    if q != b {
      assert SecretComplete(b, id);
      NextNumberContiguous(b.versions[id], sealed);
      forall i | i in q.secrets ensures SecretComplete(q, i) {
        assert SecretComplete(b, i);
      }
      forall s, i, v | VersionExists(b, s, i, v) ensures VersionExists(q, s, i, v) {
        AddVersionKeeps(b, id, sealed, i, v);
      }
      var version := MaxNumber(b.versions[id]) + 1;
      FindAppended(b.versions[id], Version(version, sealed), version);
      assert VersionExists(q, b.secrets[id].scope, id, version);
    }
  }

  lemma CreateSecretComplete(b: Bundles, id: Id, scope: Scope, name: string, sealed: Bytes)
    requires SecretsComplete(b)
    ensures SecretsComplete(AfterCreateSecret(b, id, scope, name, sealed).state)
  {
    var q := AfterCreateSecret(b, id, scope, name, sealed).state;
    forall i | i in q.secrets ensures SecretComplete(q, i) {
      assert i in b.secrets ==> SecretComplete(b, i);
    }
  }

  lemma CreateSecretResolves(b: Bundles, id: Id, scope: Scope, name: string, sealed: Bytes)
    requires Resolvable(b)
    ensures Resolvable(AfterCreateSecret(b, id, scope, name, sealed).state)
  {
    CreateSecretComplete(b, id, scope, name, sealed);
    var q := AfterCreateSecret(b, id, scope, name, sealed).state;
    if q != b {
      forall s, i, v | VersionExists(b, s, i, v) ensures VersionExists(q, s, i, v) {
      }
      assert VersionExists(q, scope, id, 1);
    }
  }

  lemma UpdateBindingResolves(b: Bundles, id: Id, binding: Binding)
    requires Resolvable(b)
    ensures Resolvable(AfterUpdateBinding(b, id, binding).state)
  {
    var q := AfterUpdateBinding(b, id, binding).state;
    forall i | i in q.secrets ensures SecretComplete(q, i) {
      assert SecretComplete(b, i);
    }
  }

  lemma UpdateDraftResolves(b: Bundles, scope: Scope, expected: int, selections: map<Id, int>)
    requires Resolvable(b)
    ensures Resolvable(AfterUpdateDraft(b, scope, expected, selections).state)
  {
    var q := AfterUpdateDraft(b, scope, expected, selections).state;
    forall i | i in q.secrets ensures SecretComplete(q, i) {
      assert SecretComplete(b, i);
    }
  }

  lemma InsertResolves(b: Bundles, revision: Id, scope: Scope, draftVersion: int, files: map<Id, FileRow>)
    requires Resolvable(b) && scope in b.drafts
    requires forall id :: id in files ==> VersionExists(b, scope, id, files[id].version)
    ensures Resolvable(Inserted(b, revision, scope, draftVersion, files))
  {
    var q := Inserted(b, revision, scope, draftVersion, files);
    forall i | i in q.secrets ensures SecretComplete(q, i) {
      assert SecretComplete(b, i);
    }
  }

  lemma DeleteSecretResolves(b: Bundles, id: Id, inUse: set<Scope>)
    requires Resolvable(b)
    ensures Resolvable(AfterDeleteSecret(b, id, inUse).state)
  {
    var q := AfterDeleteSecret(b, id, inUse).state;
    forall i | i in q.secrets ensures SecretComplete(q, i) {
      assert SecretComplete(b, i);
    }
    if AfterDeleteSecret(b, id, inUse).reply.Done? {
      DeleteKeepsReferences(b, id, q);
    }
  }

  /** What is left refers to secrets that are left. */
  lemma DeleteKeepsReferences(b: Bundles, id: Id, q: Bundles)
    requires SelectionsResolve(b) && FilesResolve(b)
    requires q == b.(secrets := b.secrets - {id}, versions := b.versions - {id}, bindings := b.bindings - {id},
                     drafts := WithoutSelection(b.drafts, id), revisions := WithoutFile(b.revisions, id))
    ensures SelectionsResolve(q) && FilesResolve(q)
  {}

  lemma StepResolves(b: Bundles, r: Request, inUse: set<Scope>)
    requires Resolvable(b)
    ensures Resolvable(After(b, r, inUse).state)
  {
    match r {
      case CreateEnvironment(scope) =>
        forall i | i in b.secrets ensures SecretComplete(After(b, r, inUse).state, i) {
          assert SecretComplete(b, i);
        }
      case CreateSecret(id, scope, name, sealed) => CreateSecretResolves(b, id, scope, name, sealed);
      case AddVersion(id, sealed) => AddVersionResolves(b, id, sealed);
      case UpdateBinding(id, binding) => UpdateBindingResolves(b, id, binding);
      case UpdateDraft(scope, expected, selections) => UpdateDraftResolves(b, scope, expected, selections);
      case Publish(scope, revision) =>
        if scope in b.drafts {
          InsertResolves(b, revision, scope, b.drafts[scope].version, Snapshot(b.drafts[scope].selections, b.bindings));
        }
      case Rollback(scope, revision, source) =>
        if source in b.revisions {
          InsertResolves(b, revision, b.revisions[source].scope, b.revisions[source].draftVersion, b.revisions[source].files);
        }
      case DeleteSecret(id) => DeleteSecretResolves(b, id, inUse);
    }
  }

  // --- Invariant: the draft version determines the content --------------------

  ghost predicate AgreesWithDraft(b: Bundles, r: Id)
    requires r in b.revisions && b.revisions[r].scope in b.drafts
  {
    var revision, draft := b.revisions[r], b.drafts[b.revisions[r].scope];
    && revision.draftVersion <= draft.version
    && (revision.draftVersion == draft.version ==> revision.files == Snapshot(draft.selections, b.bindings))
  }

  ghost predicate SameVersionSameFiles(r1: Revision, r2: Revision) {
    r1.scope == r2.scope && r1.draftVersion == r2.draftVersion ==> r1.files == r2.files
  }

  ghost predicate VersionDetermines(b: Bundles) {
    && (forall r :: r in b.revisions ==> b.revisions[r].scope in b.drafts && AgreesWithDraft(b, r))
    && (forall r1, r2 :: r1 in b.revisions && r2 in b.revisions ==>
          SameVersionSameFiles(b.revisions[r1], b.revisions[r2]))
  }

  /** A step that only bumps `scope`'s draft, and may change what it selects. */
  lemma BumpDetermines(b: Bundles, q: Bundles, scope: Scope)
    requires VersionDetermines(b) && q.revisions == b.revisions
    requires scope in q.drafts && (scope in b.drafts ==> q.drafts[scope].version > b.drafts[scope].version)
    requires forall s :: s in b.drafts && s != scope ==>
      && s in q.drafts && q.drafts[s].version == b.drafts[s].version
      && Snapshot(q.drafts[s].selections, q.bindings) == Snapshot(b.drafts[s].selections, b.bindings)
    ensures VersionDetermines(q)
  {
    forall r | r in q.revisions ensures q.revisions[r].scope in q.drafts && AgreesWithDraft(q, r) {
      assert AgreesWithDraft(b, r);
    }
  }

  /** Changing one secret's binding leaves every other scope's snapshot alone. */
  lemma OtherSnapshot(selections: map<Id, int>, before: map<Id, Binding>, after: map<Id, Binding>, id: Id)
    requires id !in selections && forall i :: i != id ==> ((i in before <==> i in after) && (i in before ==> before[i] == after[i]))
    ensures Snapshot(selections, before) == Snapshot(selections, after)
  {}

  lemma ForeignSecretNotSelected(b: Bundles, id: Id, scope: Scope)
    requires SelectionsResolve(b) && scope in b.drafts && (id !in b.secrets || b.secrets[id].scope != scope)
    ensures id !in b.drafts[scope].selections
  {
    assert id in b.drafts[scope].selections ==> VersionExists(b, scope, id, b.drafts[scope].selections[id]);
  }

  lemma CreateSecretDetermines(b: Bundles, id: Id, scope: Scope, name: string, sealed: Bytes)
    requires Resolvable(b) && VersionDetermines(b)
    ensures VersionDetermines(AfterCreateSecret(b, id, scope, name, sealed).state)
  {
    var q := AfterCreateSecret(b, id, scope, name, sealed).state;
    if q != b {
      forall s | s in b.drafts && s != scope
        ensures Snapshot(q.drafts[s].selections, q.bindings) == Snapshot(b.drafts[s].selections, b.bindings)
      {
        ForeignSecretNotSelected(b, id, s);
        OtherSnapshot(b.drafts[s].selections, b.bindings, q.bindings, id);
      }
      BumpDetermines(b, q, scope);
    }
  }

  lemma CreateEnvironmentDetermines(b: Bundles, scope: Scope)
    requires VersionDetermines(b)
    ensures VersionDetermines(AfterCreateEnvironment(b, scope).state)
  {
    var q := AfterCreateEnvironment(b, scope).state;
    forall r | r in q.revisions ensures q.revisions[r].scope in q.drafts && AgreesWithDraft(q, r) {
      assert AgreesWithDraft(b, r);
    }
  }

  lemma AddVersionDetermines(b: Bundles, id: Id, sealed: Bytes)
    requires VersionDetermines(b)
    ensures VersionDetermines(AfterAddVersion(b, id, sealed).state)
  {
    var q := AfterAddVersion(b, id, sealed).state;
    if q != b {
      BumpDetermines(b, q, b.secrets[id].scope);
    }
  }

  lemma UpdateDraftDetermines(b: Bundles, scope: Scope, expected: int, selections: map<Id, int>)
    requires VersionDetermines(b)
    ensures VersionDetermines(AfterUpdateDraft(b, scope, expected, selections).state)
  {
    var q := AfterUpdateDraft(b, scope, expected, selections).state;
    if q != b {
      BumpDetermines(b, q, scope);
    }
  }

  lemma UpdateBindingDetermines(b: Bundles, id: Id, binding: Binding)
    requires Resolvable(b) && VersionDetermines(b)
    ensures VersionDetermines(AfterUpdateBinding(b, id, binding).state)
  {
    var q := AfterUpdateBinding(b, id, binding).state;
    if q != b {
      var scope := b.secrets[id].scope;
      forall s | s in b.drafts && s != scope
        ensures Snapshot(q.drafts[s].selections, q.bindings) == Snapshot(b.drafts[s].selections, b.bindings)
      {
        ForeignSecretNotSelected(b, id, s);
        OtherSnapshot(b.drafts[s].selections, b.bindings, q.bindings, id);
      }
      BumpDetermines(b, q, scope);
    }
  }

  lemma InsertDetermines(b: Bundles, revision: Id, scope: Scope, draftVersion: int, files: map<Id, FileRow>)
    requires VersionDetermines(b) && revision !in b.revisions && scope in b.drafts
    requires draftVersion <= b.drafts[scope].version
    requires draftVersion == b.drafts[scope].version ==> files == Snapshot(b.drafts[scope].selections, b.bindings)
    requires forall r :: r in b.revisions && b.revisions[r].scope == scope && b.revisions[r].draftVersion == draftVersion ==>
      b.revisions[r].files == files
    ensures VersionDetermines(Inserted(b, revision, scope, draftVersion, files))
  {
    var q := Inserted(b, revision, scope, draftVersion, files);
    forall r | r in q.revisions ensures q.revisions[r].scope in q.drafts && AgreesWithDraft(q, r) {
      assert r != revision ==> AgreesWithDraft(b, r);
    }
  }

  lemma PublishDetermines(b: Bundles, scope: Scope, revision: Id)
    requires VersionDetermines(b)
    ensures VersionDetermines(AfterPublish(b, scope, revision).state)
  {
    if AfterPublish(b, scope, revision).reply.Done? {
      var draft := b.drafts[scope];
      forall r | r in b.revisions && b.revisions[r].scope == scope && b.revisions[r].draftVersion == draft.version
        ensures b.revisions[r].files == Snapshot(draft.selections, b.bindings)
      {
        assert AgreesWithDraft(b, r);
      }
      InsertDetermines(b, revision, scope, draft.version, Snapshot(draft.selections, b.bindings));
    }
  }

  lemma RollbackDetermines(b: Bundles, scope: Scope, revision: Id, source: Id)
    requires VersionDetermines(b)
    ensures VersionDetermines(AfterRollback(b, scope, revision, source).state)
  {
    if AfterRollback(b, scope, revision, source).reply.Done? {
      assert AgreesWithDraft(b, source);
      forall r | r in b.revisions && b.revisions[r].scope == scope
                 && b.revisions[r].draftVersion == b.revisions[source].draftVersion
        ensures b.revisions[r].files == b.revisions[source].files
      {
        assert SameVersionSameFiles(b.revisions[r], b.revisions[source]);
      }
      InsertDetermines(b, revision, scope, b.revisions[source].draftVersion, b.revisions[source].files);
    }
  }

  /** Deleting a secret does not bump the draft; it strips the draft and every
      revision alike. */
  lemma DeleteSecretDetermines(b: Bundles, id: Id, inUse: set<Scope>)
    requires VersionDetermines(b)
    ensures VersionDetermines(AfterDeleteSecret(b, id, inUse).state)
  {
    var q := AfterDeleteSecret(b, id, inUse).state;
    if q != b {
      forall r | r in q.revisions ensures q.revisions[r].scope in q.drafts && AgreesWithDraft(q, r) {
        assert AgreesWithDraft(b, r);
        var s := b.revisions[r].scope;
        assert Snapshot(q.drafts[s].selections, q.bindings) == Snapshot(b.drafts[s].selections, b.bindings) - {id};
      }
      forall r1, r2 | r1 in q.revisions && r2 in q.revisions
        ensures SameVersionSameFiles(q.revisions[r1], q.revisions[r2])
      {
        assert SameVersionSameFiles(b.revisions[r1], b.revisions[r2]);
      }
    }
  }

  lemma StepDetermines(b: Bundles, r: Request, inUse: set<Scope>)
    requires Resolvable(b) && VersionDetermines(b)
    ensures VersionDetermines(After(b, r, inUse).state)
  {
    match r {
      case CreateEnvironment(scope) => CreateEnvironmentDetermines(b, scope);
      case CreateSecret(id, scope, name, sealed) => CreateSecretDetermines(b, id, scope, name, sealed);
      case AddVersion(id, sealed) => AddVersionDetermines(b, id, sealed);
      case UpdateBinding(id, binding) => UpdateBindingDetermines(b, id, binding);
      case UpdateDraft(scope, expected, selections) => UpdateDraftDetermines(b, scope, expected, selections);
      case Publish(scope, revision) => PublishDetermines(b, scope, revision);
      case Rollback(scope, revision, source) => RollbackDetermines(b, scope, revision, source);
      case DeleteSecret(id) => DeleteSecretDetermines(b, id, inUse);
    }
  }

  // --- Invariant: creation times ----------------------------------------------

  ghost predicate Dated(b: Bundles) {
    && (forall r :: r in b.revisions ==> b.revisions[r].createdAt < b.clock)
    && (forall r1, r2 :: r1 in b.revisions && r2 in b.revisions && r1 != r2 ==>
          b.revisions[r1].createdAt != b.revisions[r2].createdAt)
  }

  lemma StepDated(b: Bundles, r: Request, inUse: set<Scope>)
    requires Dated(b)
    ensures Dated(After(b, r, inUse).state)
  {}

  /** `r` is the first row of the scope's revisions, newest first. */
  ghost predicate IsLatest(b: Bundles, scope: Scope, r: Id) {
    && r in b.revisions && b.revisions[r].scope == scope
    && forall o :: o in b.revisions && b.revisions[o].scope == scope ==>
         b.revisions[o].createdAt <= b.revisions[r].createdAt
  }

  lemma LatestUnique(b: Bundles, scope: Scope, r1: Id, r2: Id)
    requires Dated(b) && IsLatest(b, scope, r1) && IsLatest(b, scope, r2)
    ensures r1 == r2
  {}

  // --- What readers of the tables rely on -------------------------------------

  ghost predicate Valid(b: Bundles) {
    Resolvable(b) && VersionDetermines(b) && Dated(b)
  }

  lemma EmptyValid()
    ensures Valid(NoBundles())
  {}

  lemma StepValid(b: Bundles, r: Request, inUse: set<Scope>)
    requires Valid(b)
    ensures Valid(After(b, r, inUse).state)
  {
    StepResolves(b, r, inUse);
    StepDetermines(b, r, inUse);
    StepDated(b, r, inUse);
  }

  /** The publish guard refuses only when there is nothing to publish: the
      newest revision already holds exactly what the draft would freeze. */
  lemma GuardIsSound(b: Bundles, scope: Scope, newest: Id)
    requires Valid(b) && scope in b.drafts && IsLatest(b, scope, newest)
    requires b.revisions[newest].draftVersion == b.drafts[scope].version
    ensures b.revisions[newest].files == Snapshot(b.drafts[scope].selections, b.bindings)
  {
    assert AgreesWithDraft(b, newest);
  }

  /** What a node gets for a row: its binding and the sealed value. */
  datatype Delivered = Delivered(binding: Binding, sealed: Bytes)

  predicate Deliverable(b: Bundles, files: map<Id, FileRow>) {
    forall id :: id in files ==> Find(VersionsOf(b, id), files[id].version).Some?
  }

  function Resolve(b: Bundles, files: map<Id, FileRow>): map<Id, Delivered>
    requires Deliverable(b, files)
  {
    map id | id in files :: Delivered(files[id].binding, Find(VersionsOf(b, id), files[id].version).value)
  }

  lemma EveryRevisionDeliverable(b: Bundles, r: Id)
    requires Valid(b) && r in b.revisions
    ensures Deliverable(b, b.revisions[r].files)
  {
    forall id | id in b.revisions[r].files
      ensures Find(VersionsOf(b, id), b.revisions[r].files[id].version).Some?
    {
      assert VersionExists(b, b.revisions[r].scope, id, b.revisions[r].files[id].version);
    }
  }

  /** The file count reported by a publish, the number of selections, is the
      number of rows frozen: the join with the bindings loses nothing. */
  lemma FileCountIsRowCount(b: Bundles, scope: Scope)
    requires Valid(b) && scope in b.drafts
    ensures Snapshot(b.drafts[scope].selections, b.bindings).Keys == b.drafts[scope].selections.Keys
    ensures |Snapshot(b.drafts[scope].selections, b.bindings)| == |b.drafts[scope].selections|
  {
    var selections := b.drafts[scope].selections;
    forall id | id in selections ensures id in b.bindings {
      assert VersionExists(b, scope, id, selections[id]);
      assert SecretComplete(b, id);
    }
    var snapshot := Snapshot(selections, b.bindings);
    assert |snapshot.Keys| == |snapshot| && |selections.Keys| == |selections|;
  }

  lemma RowsAreKept(b: Bundles, r: Request, inUse: set<Scope>, revision: Id)
    requires Valid(b) && revision in b.revisions
    requires r.DeleteSecret? ==> b.revisions[revision].scope in inUse
    ensures var q := After(b, r, inUse).state; revision in q.revisions && q.revisions[revision] == b.revisions[revision]
  {
    if r.DeleteSecret? {
      RowsSurviveDelete(b, r.id, inUse, revision);
    } else {
      RevisionsGrow(b, r, inUse, revision);
    }
  }

  lemma RevisionsGrow(b: Bundles, r: Request, inUse: set<Scope>, revision: Id)
    requires !r.DeleteSecret? && revision in b.revisions
    ensures var q := After(b, r, inUse).state; revision in q.revisions && q.revisions[revision] == b.revisions[revision]
  {}

  /** A secret of another environment is in none of the revision's rows. */
  lemma RowsSurviveDelete(b: Bundles, id: Id, inUse: set<Scope>, revision: Id)
    requires Resolvable(b) && revision in b.revisions && b.revisions[revision].scope in inUse
    ensures var q := AfterDeleteSecret(b, id, inUse).state;
      revision in q.revisions && q.revisions[revision] == b.revisions[revision]
  {
    var files := b.revisions[revision].files;
    if AfterDeleteSecret(b, id, inUse).reply.Done? {
      assert id in files ==> VersionExists(b, b.revisions[revision].scope, id, files[id].version);
      assert files - {id} == files;
    }
  }

  lemma ValueIsKept(b: Bundles, r: Request, inUse: set<Scope>, scope: Scope, id: Id, number: int)
    requires VersionExists(b, scope, id, number)
    requires r.DeleteSecret? ==> scope in inUse
    ensures Find(VersionsOf(After(b, r, inUse).state, id), number) == Find(VersionsOf(b, id), number)
  {
    if r.AddVersion? {
      AddVersionKeeps(b, r.id, r.sealed, id, number);
    }
  }

  /** Drafts do nothing until published, publishing and rolling back only add
      revisions, and a delete is refused while the scope is assigned: whatever
      the request, a revision of an assigned scope keeps its rows and the sealed
      bytes behind them. */
  lemma AssignedRevisionIsStable(b: Bundles, r: Request, inUse: set<Scope>, revision: Id)
    requires Valid(b) && revision in b.revisions
    requires r.DeleteSecret? ==> b.revisions[revision].scope in inUse
    ensures var q, files := After(b, r, inUse).state, b.revisions[revision].files;
      && revision in q.revisions && q.revisions[revision] == b.revisions[revision]
      && Deliverable(b, files) && Deliverable(q, files) && Resolve(q, files) == Resolve(b, files)
  {
    var q, files := After(b, r, inUse).state, b.revisions[revision].files;
    RowsAreKept(b, r, inUse, revision);
    EveryRevisionDeliverable(b, revision);
    forall id | id in files
      ensures Find(VersionsOf(q, id), files[id].version) == Find(VersionsOf(b, id), files[id].version)
    {
      assert VersionExists(b, b.revisions[revision].scope, id, files[id].version);
      ValueIsKept(b, r, inUse, b.revisions[revision].scope, id, files[id].version);
    }
  }
}
