/**
  From Core's tables to the node's disk: the rows of an assigned revision, the
  envelopes Core builds of them, opened by the Agent and put through a
  convergence pass.
 */
module EndToEnd {
  import opened Common
  import opened FileTree
  import opened Paths
  import B = Bundles
  import D = Delivery
  import E = Envelope
  import F = Fleet
  import M = Materializer
  import N = Decimal
  import S = Sync
  import V = Convergence
  import Store
  import R = Drafts
  import T = Trust

  /** What Core sends for one assigned revision. */
  datatype Shipment = Shipment(
    revisionId: string, appId: string, envId: string, rows: seq<D.Row>, created: int, expires: int, random: Bytes)

  /** int(mode, 8): None where it raises. */
  type ModeParser = string -> Option<nat>

  /** The law of int(mode, 8) that matters here. */
  ghost predicate ReadsOctal(mode: ModeParser) {
    forall s :: s != "" && N.AllOctal(s) ==> mode(s) == Some(N.ReadOctal(s))
  }

  function ToInstall(f: D.ReceivedFile, mode: ModeParser): M.PayloadFile {
    M.PayloadFile(f.path, mode(f.mode), f.sha256, f.content)
  }

  function AllToInstall(files: seq<D.ReceivedFile>, mode: ModeParser): seq<M.PayloadFile> {
    if files == [] then [] else [ToInstall(files[0], mode)] + AllToInstall(files[1..], mode)
  }

  /** What the pass sees of an envelope: its bundle when it is accepted. */
  ghost function Opened(e: E.Envelope, now: int, k: D.Keys, t: D.Toolkit, mode: ModeParser): S.Incoming {
    match D.Accepted(e, now, k.identity, k.public, t)
    case Ok(received) =>
      S.Incoming(e.revisionId, Some(S.Bundle(received.appId, received.envId, AllToInstall(received.files, mode))))
    case Err(_) => S.Incoming(e.revisionId, None)
  }

  function Sent(nodeId: string, s: Shipment, t: D.Toolkit, k: D.Keys): E.Envelope {
    D.Built(nodeId, s.revisionId, s.appId, s.envId, s.rows, s.created, s.expires, s.random, t, k)
  }

  ghost function AllOpened(nodeId: string, shipments: seq<Shipment>, now: int, k: D.Keys, t: D.Toolkit, mode: ModeParser)
    : seq<S.Incoming>
  {
    seq(|shipments|, i requires 0 <= i < |shipments| => Opened(Sent(nodeId, shipments[i], t, k), now, k, t, mode))
  }

  function BundleOf(s: Shipment, t: D.Toolkit, mode: ModeParser): S.Bundle {
    S.Bundle(s.appId, s.envId, AllToInstall(D.FilesOf(s.rows, t), mode))
  }

  ghost predicate Honest(s: Shipment, now: int, t: D.Toolkit) {
    E.DistinctPaths(D.SpecsOf(s.rows, t)) && now <= s.expires
  }

  lemma HonestShipmentOpens(nodeId: string, s: Shipment, now: int, k: D.Keys, t: D.Toolkit, mode: ModeParser)
    requires D.Lawful(t, k) && Honest(s, now, t)
    ensures Opened(Sent(nodeId, s, t, k), now, k, t, mode) == S.Incoming(s.revisionId, Some(BundleOf(s, t, mode)))
  {
    D.HonestEnvelopeAccepted(nodeId, s.revisionId, s.appId, s.envId, s.rows, s.created, s.expires, s.random, t, k, now);
  }

  /** Honest or not, a shipment that opens gives the bundle of its rows. */
  lemma OpenedIsSent(nodeId: string, s: Shipment, now: int, k: D.Keys, t: D.Toolkit, mode: ModeParser)
    requires D.Lawful(t, k)
    ensures var bundle := Opened(Sent(nodeId, s, t, k), now, k, t, mode).bundle;
      bundle.None? || bundle == Some(BundleOf(s, t, mode))
  {
    D.AcceptedIsSent(nodeId, s.revisionId, s.appId, s.envId, s.rows, s.created, s.expires, s.random, t, k, now);
  }

  lemma {:induction false} FileAt(rows: seq<D.Row>, i: nat, t: D.Toolkit, mode: ModeParser)
    requires i < |rows|
    ensures var files := AllToInstall(D.FilesOf(rows, t), mode);
      && |files| == |rows|
      && files[i] == M.PayloadFile(rows[i].path, mode(rows[i].mode), t.sha256(rows[i].plain), rows[i].plain)
  {
    if i > 0 {
      FileAt(rows[1..], i - 1, t, mode);
    } else if |rows| > 1 {
      FileAt(rows[1..], 0, t, mode);
    }
  }

  // --- From shipments to the disk -------------------------------------------------

  /** A pass over what Core sent, and disk places that do not overlap. */
  ghost predicate Passed(
    states: seq<S.Local>, root: Path, reports: seq<S.Call>, faultFree: bool, nodeId: string, shipments: seq<Shipment>,
    now: int, k: D.Keys, t: D.Toolkit, mode: ModeParser)
  {
    var envelopes := AllOpened(nodeId, shipments, now, k, t, mode);
    && |states| == |shipments| + 1 && |reports| == |shipments|
    && D.Lawful(t, k) && ReadsOctal(mode)
    && S.History(states, root, t.sha256, envelopes, reports, faultFree)
    && V.Separate(states[0].tree, root, S.OpenedFiles(envelopes))
  }

  /** Different shipments are of different environments, under names that never
      share a manifest file. */
  ghost predicate ScopesDiffer(shipments: seq<Shipment>) {
    && (forall i :: 0 <= i < |shipments| ==> '_' !in shipments[i].appId)
    && (forall i, j :: 0 <= i < j < |shipments| ==>
          shipments[i].appId != shipments[j].appId || shipments[i].envId != shipments[j].envId)
  }

  lemma ShipmentNamesDiffer(nodeId: string, shipments: seq<Shipment>, now: int, k: D.Keys, t: D.Toolkit, mode: ModeParser)
    requires D.Lawful(t, k) && ScopesDiffer(shipments)
    ensures V.NamesDiffer(AllOpened(nodeId, shipments, now, k, t, mode))
  {
    var envelopes := AllOpened(nodeId, shipments, now, k, t, mode);
    forall i, j | 0 <= i < j < |envelopes| && envelopes[i].bundle.Some? && envelopes[j].bundle.Some?
      ensures S.ManifestName(envelopes[i].bundle.value.app, envelopes[i].bundle.value.env) !=
              S.ManifestName(envelopes[j].bundle.value.app, envelopes[j].bundle.value.env)
    {
      OpenedIsSent(nodeId, shipments[i], now, k, t, mode);
      OpenedIsSent(nodeId, shipments[j], now, k, t, mode);
      if S.ManifestName(shipments[i].appId, shipments[i].envId) == S.ManifestName(shipments[j].appId, shipments[j].envId) {
        S.ManifestNamesDiffer(shipments[i].appId, shipments[i].envId, shipments[j].appId, shipments[j].envId);
      }
    }
  }

  /**
    Every row of a shipment reported ok is on the node's disk when the pass
    ends, at its path and under its mode, whatever the disk held, whatever was
    cleaned first, and whatever became of the other shipments.
   */
  lemma {:induction false} ReportedRowIsOnDisk(
    states: seq<S.Local>, root: Path, reports: seq<S.Call>, faultFree: bool, nodeId: string, shipments: seq<Shipment>,
    now: int, k: D.Keys, t: D.Toolkit, mode: ModeParser, j: nat, i: nat)
    requires Passed(states, root, reports, faultFree, nodeId, shipments, now, k, t, mode) && ScopesDiffer(shipments)
    requires j < |shipments| && reports[j].ok && i < |shipments[j].rows|
    ensures var row := shipments[j].rows[i];
      var dest, tree := root + Components(row.path), states[|shipments|].tree;
      mode(row.mode).Some? && dest in tree && tree[dest] == Regular(row.plain, mode(row.mode).value)
  {
    var envelopes := AllOpened(nodeId, shipments, now, k, t, mode);
    ShipmentNamesDiffer(nodeId, shipments, now, k, t, mode);
    V.ReportedMeansDelivered(states, root, t.sha256, envelopes, reports, faultFree, j, |envelopes|);
    OpenedIsSent(nodeId, shipments[j], now, k, t, mode);
    assert envelopes[j].bundle == Some(BundleOf(shipments[j], t, mode));
    FileAt(shipments[j].rows, i, t, mode);
    HeldFile(states[|shipments|].tree, root, BundleOf(shipments[j], t, mode).files, i);
  }

  lemma HeldFile(tree: Tree, root: Path, files: seq<M.PayloadFile>, i: nat)
    requires V.InPlace(tree, root, files) && i < |files|
    ensures var dest := root + Components(files[i].path);
      files[i].mode.Some? && dest in tree && tree[dest] == Regular(files[i].content, files[i].mode.value)
  {
    assert M.Dest(root, files[i]) in tree;
  }

  ghost predicate OctalModes(rows: seq<D.Row>) {
    forall i :: 0 <= i < |rows| ==> rows[i].mode != "" && N.AllOctal(rows[i].mode)
  }

  predicate PathsValid(rows: seq<D.Row>) {
    forall i :: 0 <= i < |rows| ==> ValidatePath(rows[i].path).Ok?
  }

  lemma BundleSound(s: Shipment, t: D.Toolkit, mode: ModeParser)
    requires ReadsOctal(mode) && OctalModes(s.rows)
    ensures S.Sound(BundleOf(s, t, mode), t.sha256) <==> PathsValid(s.rows)
  {
    var files := BundleOf(s, t, mode).files;
    if s.rows != [] {
      FileAt(s.rows, 0, t, mode);
    }
    forall i | 0 <= i < |s.rows| ensures
      && |files| == |s.rows| && files[i].mode.Some? && files[i].path == s.rows[i].path
      && t.sha256(files[i].content) == files[i].sha256
    {
      FileAt(s.rows, i, t, mode);
    }
    if S.Sound(BundleOf(s, t, mode), t.sha256) {
      forall i | 0 <= i < |s.rows| ensures ValidatePath(s.rows[i].path).Ok? {
        assert ValidatePath(files[i].path).Ok?;
      }
    }
  }

  /** On a healthy disk with a place for every file, an honest shipment is
      delivered exactly when the Agent accepts its paths. */
  lemma {:induction false} HonestShipmentDelivered(
    states: seq<S.Local>, root: Path, reports: seq<S.Call>, nodeId: string, shipments: seq<Shipment>,
    now: int, k: D.Keys, t: D.Toolkit, mode: ModeParser, j: nat)
    requires Passed(states, root, reports, true, nodeId, shipments, now, k, t, mode)
    requires V.Suited(states[0].tree, root, S.OpenedFiles(AllOpened(nodeId, shipments, now, k, t, mode)))
    requires j < |shipments| && Honest(shipments[j], now, t) && OctalModes(shipments[j].rows)
    ensures reports[j].ok <==> PathsValid(shipments[j].rows)
  {
    var envelopes := AllOpened(nodeId, shipments, now, k, t, mode);
    HonestShipmentOpens(nodeId, shipments[j], now, k, t, mode);
    assert envelopes[j].bundle == Some(BundleOf(shipments[j], t, mode));
    V.OutcomesAreIndependent(states, root, t.sha256, envelopes, reports, j);
    BundleSound(shipments[j], t, mode);
  }

  // --- From the tables to the shipments ---------------------------------------------

  /** A row of revision_files with its sealed value, as buildEnvelope prints it. */
  function RowOf(d: B.Delivered, unseal: Bytes -> Bytes): D.Row {
    D.Row(d.binding.path, N.ModeString(d.binding.mode), N.FormatInt(d.binding.uid), N.FormatInt(d.binding.gid),
          unseal(d.sealed))
  }

  predicate Int64(n: int) {
    N.MIN_INT64 <= n <= N.MAX_INT64
  }

  /** Each text of a row reads back as the value bound. */
  lemma RowReads(d: B.Delivered, unseal: Bytes -> Bytes)
    requires Int64(d.binding.uid) && Int64(d.binding.gid)
    ensures var row := RowOf(d, unseal);
      && row.path == d.binding.path && N.AllOctal(row.mode) && N.ReadOctal(row.mode) == d.binding.mode
      && N.ParseInt(row.uid) == Some(d.binding.uid) && N.ParseInt(row.gid) == Some(d.binding.gid)
      && row.plain == unseal(d.sealed)
  {
    N.ModeStringReads(d.binding.mode);
    N.ParseFormat(d.binding.uid);
    N.ParseFormat(d.binding.gid);
  }

  /** What buildEnvelope puts into the shipment of a revision, its rows in the order of `ids`. */
  ghost predicate ShipmentOf(s: Shipment, db: Store.Db, ids: seq<B.Id>, unseal: Bytes -> Bytes) {
    && s.revisionId in db.bundles.revisions
    && var revision := db.bundles.revisions[s.revisionId];
       && s.appId == revision.scope.app && s.envId == revision.scope.environment
       && B.Deliverable(db.bundles, revision.files)
       && |ids| == |s.rows| && (forall id :: id in ids <==> id in revision.files)
       && forall i :: 0 <= i < |ids| ==> s.rows[i] == RowOf(B.Resolve(db.bundles, revision.files)[ids[i]], unseal)
  }

  /** An answer to the node: a shipment for revisions the desired-state query names,
      none twice. */
  ghost predicate AnswerOf(shipments: seq<Shipment>, db: Store.Db, node: B.Id, orders: seq<seq<B.Id>>, unseal: Bytes -> Bytes) {
    && |shipments| == |orders|
    && (forall i :: 0 <= i < |shipments| ==>
          shipments[i].revisionId in F.AssignedRevisions(db.fleet, node) && ShipmentOf(shipments[i], db, orders[i], unseal))
    && (forall i, j :: 0 <= i < j < |shipments| ==> shipments[i].revisionId != shipments[j].revisionId)
    && (forall i :: 0 <= i < |shipments| ==> '_' !in shipments[i].appId)
  }

  /** And for each of them. */
  ghost predicate Complete(shipments: seq<Shipment>, db: Store.Db, node: B.Id) {
    forall r :: r in F.AssignedRevisions(db.fleet, node) ==> exists i :: 0 <= i < |shipments| && shipments[i].revisionId == r
  }

  /** In a reachable state no two shipments of an answer are of one environment. */
  lemma AnswerScopesDiffer(
    shipments: seq<Shipment>, db: Store.Db, node: B.Id, orders: seq<seq<B.Id>>, unseal: Bytes -> Bytes)
    requires Store.Reachable(db) && AnswerOf(shipments, db, node, orders, unseal)
    ensures ScopesDiffer(shipments)
  {
    forall i, j | 0 <= i < j < |shipments|
      ensures shipments[i].appId != shipments[j].appId || shipments[i].envId != shipments[j].envId
    {
      SameScopeSameShipment(shipments[i], shipments[j], db, node, orders[i], orders[j], unseal);
    }
  }

  lemma SameScopeSameShipment(
    s1: Shipment, s2: Shipment, db: Store.Db, node: B.Id, ids1: seq<B.Id>, ids2: seq<B.Id>, unseal: Bytes -> Bytes)
    requires Store.Reachable(db) && ShipmentOf(s1, db, ids1, unseal) && ShipmentOf(s2, db, ids2, unseal)
    requires s1.revisionId in F.AssignedRevisions(db.fleet, node) && s2.revisionId in F.AssignedRevisions(db.fleet, node)
    ensures s1.appId == s2.appId && s1.envId == s2.envId ==> s1.revisionId == s2.revisionId
  {
    Store.AssignedOncePerScope(db, node, s1.revisionId, s2.revisionId);
  }

  /** A printed mode is always octal. */
  lemma ShipmentOctal(s: Shipment, db: Store.Db, ids: seq<B.Id>, unseal: Bytes -> Bytes)
    requires ShipmentOf(s, db, ids, unseal)
    ensures OctalModes(s.rows)
  {
    var files := db.bundles.revisions[s.revisionId].files;
    forall i | 0 <= i < |s.rows| ensures s.rows[i].mode != "" && N.AllOctal(s.rows[i].mode) {
      assert ids[i] in files;
      N.ModeStringReads(files[ids[i]].binding.mode);
    }
  }

  /**
    From Core to disk: in every reachable state of Core, when the Agent reports a
    revision it was sent ok, every secret of that revision is on the node's disk,
    at the path and under the mode frozen with it, with the value sealed under
    its version.
   */
  lemma {:induction false} StoredSecretIsOnDisk(
    db: Store.Db, node: B.Id, orders: seq<seq<B.Id>>, unseal: Bytes -> Bytes,
    states: seq<S.Local>, root: Path, reports: seq<S.Call>, faultFree: bool, nodeId: string, shipments: seq<Shipment>,
    now: int, k: D.Keys, t: D.Toolkit, mode: ModeParser, j: nat, id: B.Id, row: B.FileRow)
    requires Store.Reachable(db) && AnswerOf(shipments, db, node, orders, unseal)
    requires Passed(states, root, reports, faultFree, nodeId, shipments, now, k, t, mode)
    requires j < |shipments| && reports[j].ok && Frozen(db, shipments[j].revisionId, id, row)
    ensures var sealed := B.Find(B.VersionsOf(db.bundles, id), row.version);
      var dest, tree := root + Components(row.binding.path), states[|shipments|].tree;
      sealed.Some? && dest in tree && tree[dest] == Regular(unseal(sealed.value), row.binding.mode)
  {
    AnswerScopesDiffer(shipments, db, node, orders, unseal);
    var i := RowOfSecret(shipments[j], db, orders[j], unseal, id, row);
    ReportedRowIsOnDisk(states, root, reports, faultFree, nodeId, shipments, now, k, t, mode, j, i);
    N.ModeStringReads(row.binding.mode);
  }

  /** When every envelope of a complete answer is reported ok, every secret of every
      revision the query names for the node is on its disk. */
  lemma {:induction false} EverythingAssignedIsOnDisk(
    db: Store.Db, node: B.Id, orders: seq<seq<B.Id>>, unseal: Bytes -> Bytes,
    states: seq<S.Local>, root: Path, reports: seq<S.Call>, faultFree: bool, nodeId: string, shipments: seq<Shipment>,
    now: int, k: D.Keys, t: D.Toolkit, mode: ModeParser, r: B.Id, id: B.Id, row: B.FileRow)
    requires Store.Reachable(db) && AnswerOf(shipments, db, node, orders, unseal) && Complete(shipments, db, node)
    requires Passed(states, root, reports, faultFree, nodeId, shipments, now, k, t, mode) && S.AllOk(reports)
    requires r in F.AssignedRevisions(db.fleet, node) && Frozen(db, r, id, row)
    ensures var sealed := B.Find(B.VersionsOf(db.bundles, id), row.version);
      var dest, tree := root + Components(row.binding.path), states[|shipments|].tree;
      sealed.Some? && dest in tree && tree[dest] == Regular(unseal(sealed.value), row.binding.mode)
  {
    var j :| 0 <= j < |shipments| && shipments[j].revisionId == r;
    StoredSecretIsOnDisk(db, node, orders, unseal, states, root, reports, faultFree, nodeId, shipments, now, k, t, mode, j, id, row);
  }

  /** While the environment stays assigned, a frozen row and its value stay. */
  lemma FrozenStays(db: Store.Db, later: seq<Store.Action>, r: B.Id, id: B.Id, row: B.FileRow)
    requires Store.Consistent(db.bundles, db.fleet) && Frozen(db, r, id, row)
    requires Store.StaysAssigned(db, later, db.bundles.revisions[r].scope)
    ensures var q := Store.Run(db, later);
      Frozen(q, r, id, row) && B.Find(B.VersionsOf(q.bundles, id), row.version) == B.Find(B.VersionsOf(db.bundles, id), row.version)
  {
    Store.AssignedBundleIsStable(db, later, r);
    var q, files := Store.Run(db, later), db.bundles.revisions[r].files;
    assert B.Resolve(q.bundles, files)[id] == B.Resolve(db.bundles, files)[id];
  }

  /**
    From a request to the disk: what is selected when an environment is published
    is, once a node reports the revision ok, on that node's disk - the selected
    value, at the path and under the mode bound at the time - whatever Core was
    asked to do in between, as long as the environment stays assigned.
   */
  lemma {:induction false} PublishedValueIsOnDisk(
    db: Store.Db, scope: B.Scope, revision: B.Id, later: seq<Store.Action>, id: B.Id,
    node: B.Id, orders: seq<seq<B.Id>>, unseal: Bytes -> Bytes,
    states: seq<S.Local>, root: Path, reports: seq<S.Call>, faultFree: bool, nodeId: string, shipments: seq<Shipment>,
    now: int, k: D.Keys, t: D.Toolkit, mode: ModeParser, j: nat)
    requires Store.Consistent(db.bundles, db.fleet)
    requires B.After(db.bundles, B.Publish(scope, revision), F.ActiveScopes(db.fleet)).reply.Done?
    requires id in db.bundles.secrets && db.bundles.secrets[id].scope == scope && R.Selected(db.bundles, id).Some?
    requires Store.StaysAssigned(R.Rolled(db, scope, revision), later, scope)
    requires var q := Store.Run(R.Rolled(db, scope, revision), later);
      Store.Reachable(q) && AnswerOf(shipments, q, node, orders, unseal)
    requires Passed(states, root, reports, faultFree, nodeId, shipments, now, k, t, mode)
    requires j < |shipments| && shipments[j].revisionId == revision && reports[j].ok
    ensures id in db.bundles.bindings
    ensures var binding := db.bundles.bindings[id];
      var dest, tree := root + Components(binding.path), states[|shipments|].tree;
      dest in tree && tree[dest] == Regular(unseal(R.Selected(db.bundles, id).value), binding.mode)
  {
    var rolled := R.Rolled(db, scope, revision);
    var row := RolledRow(db, scope, revision, id);
    FrozenStays(rolled, later, revision, id, row);
    StoredSecretIsOnDisk(Store.Run(rolled, later), node, orders, unseal, states, root, reports, faultFree, nodeId, shipments,
                         now, k, t, mode, j, id, row);
  }

  lemma RolledRow(db: Store.Db, scope: B.Scope, revision: B.Id, id: B.Id) returns (row: B.FileRow)
    requires Store.Consistent(db.bundles, db.fleet)
    requires B.After(db.bundles, B.Publish(scope, revision), F.ActiveScopes(db.fleet)).reply.Done?
    requires id in db.bundles.secrets && db.bundles.secrets[id].scope == scope && R.Selected(db.bundles, id).Some?
    ensures var q := R.Rolled(db, scope, revision);
      && Store.Consistent(q.bundles, q.fleet) && Frozen(q, revision, id, row) && q.bundles.revisions[revision].scope == scope
      && id in db.bundles.bindings && row.binding == db.bundles.bindings[id]
      && B.Find(B.VersionsOf(q.bundles, id), row.version) == R.Selected(db.bundles, id)
  {
    R.PublishEffect(db.bundles, scope, revision, F.ActiveScopes(db.fleet));
    R.RolledBundles(db, scope, revision);
    Store.StepConsistent(db, Store.Edit(B.Publish(scope, revision)));
    Store.StepConsistent(Store.Step(db, Store.Edit(B.Publish(scope, revision))), Store.Advance(revision));
    row := R.Rolled(db, scope, revision).bundles.revisions[revision].files[id];
  }

  /** On a healthy disk an honest revision is delivered exactly when the Agent
      accepts the path of every file in it: one bad path holds back the others. */
  lemma {:induction false} StoredRevisionDelivered(
    db: Store.Db, ids: seq<B.Id>, unseal: Bytes -> Bytes,
    states: seq<S.Local>, root: Path, reports: seq<S.Call>, nodeId: string, shipments: seq<Shipment>,
    now: int, k: D.Keys, t: D.Toolkit, mode: ModeParser, j: nat)
    requires Passed(states, root, reports, true, nodeId, shipments, now, k, t, mode)
    requires V.Suited(states[0].tree, root, S.OpenedFiles(AllOpened(nodeId, shipments, now, k, t, mode)))
    requires j < |shipments| && Honest(shipments[j], now, t) && ShipmentOf(shipments[j], db, ids, unseal)
    ensures var files := db.bundles.revisions[shipments[j].revisionId].files;
      reports[j].ok <==> forall id :: id in files ==> ValidatePath(files[id].binding.path).Ok?
  {
    ShipmentOctal(shipments[j], db, ids, unseal);
    ShipmentPaths(shipments[j], db, ids, unseal);
    HonestShipmentDelivered(states, root, reports, nodeId, shipments, now, k, t, mode, j);
  }

  lemma ShipmentPaths(s: Shipment, db: Store.Db, ids: seq<B.Id>, unseal: Bytes -> Bytes)
    requires ShipmentOf(s, db, ids, unseal)
    ensures var files := db.bundles.revisions[s.revisionId].files;
      PathsValid(s.rows) <==> forall id :: id in files ==> ValidatePath(files[id].binding.path).Ok?
  {
    var files := db.bundles.revisions[s.revisionId].files;
    forall i | 0 <= i < |ids| ensures ids[i] in files && s.rows[i].path == files[ids[i]].binding.path {}
    if PathsValid(s.rows) {
      forall id | id in files ensures ValidatePath(files[id].binding.path).Ok? {
        var i :| 0 <= i < |ids| && ids[i] == id;
        assert ValidatePath(s.rows[i].path).Ok?;
      }
    }
  }

  /** `row` is what the revision holds for the secret. */
  predicate Frozen(db: Store.Db, r: B.Id, id: B.Id, row: B.FileRow) {
    r in db.bundles.revisions && id in db.bundles.revisions[r].files && db.bundles.revisions[r].files[id] == row
  }

  /** The row of one secret in a shipment. */
  lemma RowOfSecret(s: Shipment, db: Store.Db, ids: seq<B.Id>, unseal: Bytes -> Bytes, id: B.Id, row: B.FileRow)
    returns (i: nat)
    requires ShipmentOf(s, db, ids, unseal) && Frozen(db, s.revisionId, id, row)
    ensures i < |s.rows|
    ensures var sealed := B.Find(B.VersionsOf(db.bundles, id), row.version);
      && sealed.Some? && s.rows[i].path == row.binding.path && s.rows[i].plain == unseal(sealed.value)
      && s.rows[i].mode == N.ModeString(row.binding.mode)
  {
    i :| 0 <= i < |ids| && ids[i] == id;
  }

  /** The path a new secret is bound to is its name, as the handler trimmed it. */
  lemma CreatedSecretPath(b: B.Bundles, id: B.Id, scope: B.Scope, name: string, sealed: Bytes)
    requires DefaultPath(name).Some?
    requires B.AfterCreateSecret(b, id, scope, DefaultPath(name).value, sealed).reply.Done?
    ensures var stripped := Trim(DefaultPath(name).value, PythonSpace);
      var binding := B.AfterCreateSecret(b, id, scope, DefaultPath(name).value, sealed).state.bindings[id];
      ValidatePath(binding.path).Ok? <==> !Dotted(stripped) && !HasControl(stripped)
  {
    DefaultPathAccepted(name);
  }

  // --- Nothing but what Core sent -------------------------------------------------------

  ghost function AnyOpened(envelopes: seq<E.Envelope>, now: int, k: D.Keys, t: D.Toolkit, mode: ModeParser): seq<S.Incoming> {
    seq(|envelopes|, i requires 0 <= i < |envelopes| => Opened(envelopes[i], now, k, t, mode))
  }

  function BundleSent(s: T.Sending, t: D.Toolkit, mode: ModeParser): S.Bundle {
    S.Bundle(s.appId, s.envId, AllToInstall(D.FilesOf(s.rows, t), mode))
  }

  /** Where only Core signs, an envelope from anywhere that the Agent reports ok is the
      bundle of one Core sent, and not expired: a forgery never reaches the disk. */
  lemma {:induction false} OnlyCoresFilesLand(
    sent: iset<T.Sending>, envelopes: seq<E.Envelope>, now: int, k: D.Keys, t: D.Toolkit, mode: ModeParser,
    states: seq<S.Local>, root: Path, reports: seq<S.Call>, faultFree: bool, j: nat)
    returns (s: T.Sending)
    requires D.Opens(t, k) && T.OnlyCoreSigns(sent, t, k)
    requires S.History(states, root, t.sha256, AnyOpened(envelopes, now, k, t, mode), reports, faultFree)
    requires j < |envelopes| && reports[j].ok
    ensures s in sent && now <= s.expires && envelopes[j].revisionId == s.revisionId
    ensures AnyOpened(envelopes, now, k, t, mode)[j].bundle == Some(BundleSent(s, t, mode))
  {
    var incoming := AnyOpened(envelopes, now, k, t, mode);
    assert S.TurnAt(states, root, t.sha256, incoming, reports, faultFree, j);
    assert D.Accepted(envelopes[j], now, k.identity, k.public, t).Ok?;
    s := T.AcceptedIsCores(sent, envelopes[j], now, t, k);
  }

  // --- The tag is saved before the work -----------------------------------------------

  /** Core's answer to a node that presents `saved`. */
  function Answer(saved: string, ids: seq<string>, sha256: Bytes -> string, cleanup: seq<S.Instruction>,
                  envelopes: seq<S.Incoming>): S.Response
  {
    var tag := D.EtagOf(ids, sha256);
    if saved == tag then S.NotModified else S.Desired(tag, cleanup, envelopes)
  }

  /**
    Two passes: whatever failed in the first, the second is answered "not
    modified" - and then does nothing at all - exactly when Core's list of ids
    is the same as before.
   */
  method SyncTwice(agent: S.Agent, ids1: seq<string>, cleanup1: seq<S.Instruction>, envelopes1: seq<S.Incoming>,
                   ids2: seq<string>, cleanup2: seq<S.Instruction>, envelopes2: seq<S.Incoming>)
    returns (failed: nat, between: S.Local, said: seq<S.Call>, retried: bool)
    requires agent.Valid() && D.Injective(agent.sha) && D.AreIds(ids1) && D.AreIds(ids2)
    modifies agent, agent.disk
    ensures agent.Valid()
    ensures retried <==> multiset(ids1) != multiset(ids2)
    ensures agent.etag == D.EtagOf(ids2, agent.sha)
    ensures !retried ==> agent.State() == between && agent.calls == said && agent.etag == D.EtagOf(ids1, agent.sha)
  {
    var changed, revision;
    ghost var gone, reports, states;
    changed, revision, failed, gone, reports, states := agent.SyncOnce(Answer(agent.etag, ids1, agent.sha, cleanup1, envelopes1));
    between, said := agent.State(), agent.calls;
    assert agent.etag == D.EtagOf(ids1, agent.sha);
    D.EtagFaithful(ids1, ids2, agent.sha);
    var second := Answer(agent.etag, ids2, agent.sha, cleanup2, envelopes2);
    retried := second.Desired?;
    var failed2;
    changed, revision, failed2, gone, reports, states := agent.SyncOnce(second);
  }

  /** An envelope that does not open fails once and is not asked for again. */
  method FailureIsNotRetried(agent: S.Agent) returns (calls: seq<S.Call>)
    requires agent.Valid() && agent.calls == [] && agent.etag == ""
    modifies agent, agent.disk
    ensures calls == [S.ActivationReport("r", false)]
  {
    var envelopes := [S.Incoming("r", None)];
    var changed, revision, failed;
    ghost var gone, reports, states;
    changed, revision, failed, gone, reports, states := agent.SyncOnce(Answer(agent.etag, ["r"], agent.sha, [], envelopes));
    assert S.TurnAt(states, agent.root, agent.sha, envelopes, reports, agent.disk.faultFree, 0);
    assert S.CleanupCalls([]) == [] && reports == [S.ActivationReport("r", false)];
    changed, revision, failed, gone, reports, states := agent.SyncOnce(Answer(agent.etag, ["r"], agent.sha, [], envelopes));
    calls := agent.calls;
  }
}
