/**
  Core's node groups, assignments, cleanup tasks and convergence rows: the
  tables, the effect of each store method as one transaction, and what holds
  over every run of them.
 */
module Fleet {
  import opened Common
  import opened Bundles

  datatype Status = Active | Removing

  datatype Assignment = Assignment(group: Id, scope: Scope, revision: Id, status: Status)

  datatype Member = Member(group: Id, node: Id)

  datatype TaskStatus = Pending | Cleaned | CleanupFailed | Offline | Unconfirmed

  /** A node and an assignment: the key of cleanup tasks and convergence rows. */
  datatype Pair = Pair(assignment: Id, node: Id)

  datatype Convergence = Convergence(
    scope: Scope, desired: Id, observed: string, stage: string, result: string, error: string)

  datatype Fleet = Fleet(
    nodes: set<Id>, groups: set<Id>, members: set<Member>,
    assignments: map<Id, Assignment>, tasks: map<Pair, TaskStatus>, convergence: map<Pair, Convergence>)

  datatype Effect = Effect(state: Fleet, reply: Reply)

  function NoFleet(): Fleet {
    Fleet({}, {}, {}, map[], map[], map[])
  }

  // --- Queries ----------------------------------------------------------------

  predicate IsActive(f: Fleet, a: Id) {
    a in f.assignments && f.assignments[a].status == Active
  }

  predicate Delivers(f: Fleet, a: Id, node: Id) {
    IsActive(f, a) && Member(f.assignments[a].group, node) in f.members
  }

  function AssignedRevisions(f: Fleet, node: Id): set<Id> {
    set a | a in f.assignments && Delivers(f, a, node) :: f.assignments[a].revision
  }

  function ActiveScopes(f: Fleet): set<Scope> {
    set a | a in f.assignments && IsActive(f, a) :: f.assignments[a].scope
  }

  /** SelectGroupMemberConflict, after the row was inserted. */
  predicate MemberConflict(f: Fleet, group: Id, node: Id) {
    exists a1, a2 :: a1 in f.assignments && a2 in f.assignments && Clashes(f, a1, a2, group, node)
  }

  predicate Clashes(f: Fleet, a1: Id, a2: Id, group: Id, node: Id) {
    && IsActive(f, a1) && f.assignments[a1].group == group
    && Delivers(f, a2, node) && f.assignments[a2].group != group
    && f.assignments[a1].scope == f.assignments[a2].scope
  }

  /** SelectAssignmentConflict. */
  predicate AssignmentConflict(f: Fleet, group: Id, scope: Scope) {
    exists a, m :: a in f.assignments && m in f.members && Covers(f, a, m, group, scope)
  }

  predicate Covers(f: Fleet, a: Id, m: Member, group: Id, scope: Scope) {
    && IsActive(f, a) && f.assignments[a].scope == scope
    && f.assignments[a].group != group && m.group == f.assignments[a].group
    && Member(group, m.node) in f.members
  }

  predicate ActiveExists(f: Fleet, group: Id, scope: Scope) {
    exists a :: a in f.assignments && IsActive(f, a) && f.assignments[a].group == group && f.assignments[a].scope == scope
  }

  predicate Open(status: TaskStatus) {
    status in {Pending, CleanupFailed, Unconfirmed}
  }

  /** PendingCleanupInstructions: the assignments a node is told to clean up. */
  function Instructed(f: Fleet, node: Id): set<Id> {
    set p | p in f.tasks && p.node == node && Open(f.tasks[p]) :: p.assignment
  }

  function MembersOf(f: Fleet, group: Id): set<Id> {
    set m | m in f.members && m.group == group :: m.node
  }

  predicate Reports(f: Fleet, a: Id, node: Id, revision: Id) {
    Delivers(f, a, node) && f.assignments[a].revision == revision
  }

  /** The row AssignmentForNodeRevision returns under its LIMIT 1. */
  ghost function Reported(f: Fleet, node: Id, revision: Id): Option<Id> {
    if exists a :: Reports(f, a, node, revision) then
      var a :| Reports(f, a, node, revision);
      Some(a)
    else None
  }

  // --- What each method does --------------------------------------------------

  function AfterRegister(f: Fleet, node: Id): Effect {
    if node in f.nodes then Effect(f, Duplicate) else Effect(f.(nodes := f.nodes + {node}), Done)
  }

  function AfterCreateGroup(f: Fleet, group: Id): Effect {
    if group in f.groups then Effect(f, Duplicate) else Effect(f.(groups := f.groups + {group}), Done)
  }

  function AfterAddMember(f: Fleet, group: Id, node: Id): Effect {
    var q := f.(members := f.members + {Member(group, node)});
    if group !in f.groups || node !in f.nodes then Effect(f, NotFound)
    else if MemberConflict(q, group, node) then Effect(f, Conflict)
    else Effect(q, Done)
  }

  function AfterRemoveMember(f: Fleet, group: Id, node: Id): Effect {
    Effect(f.(members := f.members - {Member(group, node)}), Done)
  }

  function AfterCreateAssignment(f: Fleet, id: Id, group: Id, scope: Scope, known: bool, latest: Option<Id>): Effect {
    if group !in f.groups || !known then Effect(f, NotFound)
    else if latest.None? then Effect(f, BadPayload)
    else if AssignmentConflict(f, group, scope) then Effect(f, Conflict)
    else if id in f.assignments || ActiveExists(f, group, scope) then Effect(f, Duplicate)
    else Effect(f.(assignments := f.assignments[id := Assignment(group, scope, latest.value, Active)]), Done)
  }

  function AfterAdvance(f: Fleet, scope: Scope, revision: Id): Effect {
    Effect(f.(assignments := map a | a in f.assignments ::
                 if IsActive(f, a) && f.assignments[a].scope == scope
                 then f.assignments[a].(revision := revision) else f.assignments[a]), Done)
  }

  /** The tasks inserted for every member of the assignment's group. */
  function NewTasks(f: Fleet, id: Id): map<Pair, TaskStatus>
    requires id in f.assignments
  {
    map node | node in MembersOf(f, f.assignments[id].group) :: Pair(id, node) := Pending
  }

  function AfterUnassign(f: Fleet, id: Id): Effect {
    if !IsActive(f, id) then Effect(f, Conflict)
    else
      Effect(f.(assignments := f.assignments[id := f.assignments[id].(status := Removing)],
                 tasks := f.tasks + NewTasks(f, id)), Done)
  }

  function AfterReportCleanup(f: Fleet, id: Id, node: Id, result: string): Effect {
    var p := Pair(id, node);
    if result != "cleaned" && result != "failed" then Effect(f, BadPayload)
    else if p !in f.tasks || !Open(f.tasks[p]) then Effect(f, NotFound)
    else Effect(f.(tasks := f.tasks[p := if result == "cleaned" then Cleaned else CleanupFailed]), Done)
  }

  predicate Abandonable(f: Fleet, p: Pair, id: Id) {
    p in f.tasks && p.assignment == id && f.tasks[p] in {Pending, CleanupFailed, Offline}
  }

  function AfterAbandon(f: Fleet, id: Id): Effect {
    if !(exists p :: p in f.tasks && Abandonable(f, p, id)) then Effect(f, Conflict)
    else
      Effect(f.(tasks := map p | p in f.tasks :: if Abandonable(f, p, id) then Unconfirmed else f.tasks[p]), Done)
  }

  function Recorded(f: Fleet, p: Pair, revision: Id, stage: string, result: string, error: string): Fleet
    requires p.assignment in f.assignments
  {
    var a := f.assignments[p.assignment];
    var observed :=
      if result == "ok" then revision else if p in f.convergence then f.convergence[p].observed else "";
    f.(convergence := f.convergence[p := Convergence(a.scope, a.revision, observed, stage, result, error)])
  }

  ghost function AfterReport(f: Fleet, node: Id, revision: Id, stage: string, result: string, error: string): Effect {
    if node !in f.nodes then Effect(f, NotFound)
    else if result == "" then Effect(f, BadPayload)
    else
      match Reported(f, node, revision)
      case None => Effect(f, Done)
      case Some(a) => Effect(Recorded(f, Pair(a, node), revision, stage, result, error), Done)
  }

  /** `known` and `latest` are what the bundle tables say when an assignment is made. */
  datatype Request =
    | Register(node: Id)
    | CreateGroup(group: Id)
    | AddMember(group: Id, node: Id)
    | RemoveMember(group: Id, node: Id)
    | CreateAssignment(id: Id, group: Id, scope: Scope, known: bool, latest: Option<Id>)
    | Advance(scope: Scope, revision: Id)
    | Unassign(id: Id)
    | ReportCleanup(id: Id, node: Id, result: string)
    | Abandon(id: Id)
    | Report(node: Id, revision: Id, stage: string, result: string, error: string)

  ghost function After(f: Fleet, r: Request): Effect {
    match r
    case Register(node) => AfterRegister(f, node)
    case CreateGroup(group) => AfterCreateGroup(f, group)
    case AddMember(group, node) => AfterAddMember(f, group, node)
    case RemoveMember(group, node) => AfterRemoveMember(f, group, node)
    case CreateAssignment(id, group, scope, known, latest) => AfterCreateAssignment(f, id, group, scope, known, latest)
    case Advance(scope, revision) => AfterAdvance(f, scope, revision)
    case Unassign(id) => AfterUnassign(f, id)
    case ReportCleanup(id, node, result) => AfterReportCleanup(f, id, node, result)
    case Abandon(id) => AfterAbandon(f, id)
    case Report(node, revision, stage, result, error) => AfterReport(f, node, revision, stage, result, error)
  }

  ghost function Run(requests: seq<Request>): Fleet {
    if requests == [] then NoFleet() else After(Run(requests[..|requests| - 1]), requests[|requests| - 1]).state
  }

  // --- No node gets one environment twice -------------------------------------

  ghost predicate Same(f: Fleet, a1: Id, a2: Id) {
    IsActive(f, a1) && IsActive(f, a2) && f.assignments[a1].scope == f.assignments[a2].scope
  }

  /** One active assignment per group and environment, and one per node and environment. */
  ghost predicate Unambiguous(f: Fleet) {
    && (forall a1, a2 :: Same(f, a1, a2) && f.assignments[a1].group == f.assignments[a2].group ==> a1 == a2)
    && (forall a1, a2, node :: Same(f, a1, a2) && Delivers(f, a1, node) && Delivers(f, a2, node) ==> a1 == a2)
  }

  lemma AddMemberUnambiguous(f: Fleet, group: Id, node: Id)
    requires Unambiguous(f)
    ensures Unambiguous(AfterAddMember(f, group, node).state)
  {
    var q := AfterAddMember(f, group, node).state;
    if q != f {
      forall a1, a2, n | Same(q, a1, a2) && Delivers(q, a1, n) && Delivers(q, a2, n) ensures a1 == a2 {
        NewMemberDoesNotClash(f, group, node, a1, a2, n);
      }
      assert forall a1, a2 :: Same(q, a1, a2) ==> Same(f, a1, a2);
    }
  }

  lemma NewMemberDoesNotClash(f: Fleet, group: Id, node: Id, a1: Id, a2: Id, n: Id)
    requires Unambiguous(f)
    requires var q := f.(members := f.members + {Member(group, node)});
      !MemberConflict(q, group, node) && Same(q, a1, a2) && Delivers(q, a1, n) && Delivers(q, a2, n)
    ensures a1 == a2
  {
    var q := f.(members := f.members + {Member(group, node)});
    assert Same(f, a1, a2);
    var joins1, joins2 := n == node && f.assignments[a1].group == group, n == node && f.assignments[a2].group == group;
    assert !joins1 ==> Delivers(f, a1, n);
    assert !joins2 ==> Delivers(f, a2, n);
    assert joins1 && !joins2 ==> !Clashes(q, a1, a2, group, node);
    assert joins2 && !joins1 ==> !Clashes(q, a2, a1, group, node);
  }

  lemma NotCovered(f: Fleet, group: Id, scope: Scope, a: Id, node: Id)
    requires !AssignmentConflict(f, group, scope) && !ActiveExists(f, group, scope)
    ensures !(a in f.assignments && f.assignments[a].scope == scope && Delivers(f, a, node) && Member(group, node) in f.members)
  {
    if a in f.assignments {
      var m := Member(f.assignments[a].group, node);
      assert m in f.members ==> !Covers(f, a, m, group, scope);
    }
  }

  lemma CreateAssignmentUnambiguous(f: Fleet, id: Id, group: Id, scope: Scope, known: bool, latest: Option<Id>)
    requires Unambiguous(f)
    ensures Unambiguous(AfterCreateAssignment(f, id, group, scope, known, latest).state)
  {
    var q := AfterCreateAssignment(f, id, group, scope, known, latest).state;
    if q != f {
      forall a, n
        ensures !(a in f.assignments && f.assignments[a].scope == scope && Delivers(f, a, n) && Member(group, n) in f.members)
      {
        NotCovered(f, group, scope, a, n);
      }
      forall a1, a2, n | Same(q, a1, a2) && Delivers(q, a1, n) && Delivers(q, a2, n) ensures a1 == a2 {
        assert a1 != id ==> Delivers(f, a1, n);
        assert a2 != id ==> Delivers(f, a2, n);
        assert a1 != id && a2 != id ==> Same(f, a1, a2);
      }
      forall a1, a2 | Same(q, a1, a2) && q.assignments[a1].group == q.assignments[a2].group ensures a1 == a2 {
        assert a1 != id && a2 != id ==> Same(f, a1, a2);
      }
    }
  }

  /** A step after which every active assignment was one before, for the same
      group and environment, and every member was one before. */
  lemma FewerUnambiguous(f: Fleet, q: Fleet)
    requires Unambiguous(f) && q.members <= f.members
    requires forall a :: IsActive(q, a) ==>
      IsActive(f, a) && q.assignments[a].group == f.assignments[a].group && q.assignments[a].scope == f.assignments[a].scope
    ensures Unambiguous(q)
  {
    forall a1, a2, n | Same(q, a1, a2) && Delivers(q, a1, n) && Delivers(q, a2, n) ensures a1 == a2 {
      assert Same(f, a1, a2) && Delivers(f, a1, n) && Delivers(f, a2, n);
    }
    forall a1, a2 | Same(q, a1, a2) && q.assignments[a1].group == q.assignments[a2].group ensures a1 == a2 {
      assert Same(f, a1, a2);
    }
  }

  lemma StepUnambiguous(f: Fleet, r: Request)
    requires Unambiguous(f)
    ensures Unambiguous(After(f, r).state)
  {
    match r {
      case AddMember(group, node) => AddMemberUnambiguous(f, group, node);
      case CreateAssignment(id, group, scope, known, latest) =>
        CreateAssignmentUnambiguous(f, id, group, scope, known, latest);
      case _ => FewerUnambiguous(f, After(f, r).state);
    }
  }

  lemma {:induction false} RunUnambiguous(requests: seq<Request>)
    ensures Unambiguous(Run(requests))
  {
    if requests != [] {
      RunUnambiguous(requests[..|requests| - 1]);
      StepUnambiguous(Run(requests[..|requests| - 1]), requests[|requests| - 1]);
    }
  }

  lemma AdvanceReaches(f: Fleet, scope: Scope, revision: Id, a: Id, node: Id)
    requires Delivers(f, a, node) && f.assignments[a].scope == scope
    ensures revision in AssignedRevisions(AfterAdvance(f, scope, revision).state, node)
  {
    var q := AfterAdvance(f, scope, revision).state;
    assert Delivers(q, a, node) && q.assignments[a].revision == revision;
  }

  /** Two assignments that deliver the same revision are for the same environment. */
  ghost predicate RevisionsHaveOneScope(f: Fleet) {
    forall a1, a2 :: a1 in f.assignments && a2 in f.assignments && f.assignments[a1].revision == f.assignments[a2].revision ==>
      f.assignments[a1].scope == f.assignments[a2].scope
  }

  /** A report finds exactly one assignment, whatever row LIMIT 1 picks. */
  lemma ReportFindsOne(f: Fleet, node: Id, revision: Id, a: Id)
    requires Unambiguous(f) && RevisionsHaveOneScope(f) && Reports(f, a, node, revision)
    ensures Reported(f, node, revision) == Some(a)
  {
    var b := Reported(f, node, revision).value;
    assert Reports(f, b, node, revision);
    assert Same(f, a, b);
  }

  /** A node is given at most one revision of each environment. */
  lemma OneRevisionPerScope(f: Fleet, node: Id, a1: Id, a2: Id)
    requires Unambiguous(f) && Delivers(f, a1, node) && Delivers(f, a2, node)
    requires f.assignments[a1].scope == f.assignments[a2].scope
    ensures f.assignments[a1].revision == f.assignments[a2].revision
    ensures {f.assignments[a1].revision, f.assignments[a2].revision} <= AssignedRevisions(f, node)
  {
    assert Same(f, a1, a2);
  }

  lemma OneAssignmentPerScope(f: Fleet, node: Id, a1: Id, a2: Id)
    requires Unambiguous(f) && Delivers(f, a1, node) && Delivers(f, a2, node)
    requires f.assignments[a1].scope == f.assignments[a2].scope
    ensures a1 == a2
  {
    assert Same(f, a1, a2);
  }

  // --- Two-phase unassignment -------------------------------------------------

  /** The members of the group at the moment the assignment was unassigned. */
  ghost function UnassignedFrom(requests: seq<Request>, id: Id): Option<set<Id>> {
    if requests == [] then None
    else
      var before, last := requests[..|requests| - 1], requests[|requests| - 1];
      if last == Unassign(id) && IsActive(Run(before), id)
      then Some(MembersOf(Run(before), Run(before).assignments[id].group))
      else UnassignedFrom(before, id)
  }

  /** The node itself reported the cleanup of an open task as done. */
  ghost predicate CleanedBy(requests: seq<Request>, id: Id, node: Id) {
    requests != [] &&
    var before, last := requests[..|requests| - 1], requests[|requests| - 1];
    || CleanedBy(before, id, node)
    || (last == ReportCleanup(id, node, "cleaned") && Pair(id, node) in Run(before).tasks)
  }

  ghost predicate TasksFollow(f: Fleet, id: Id, unassigned: Option<set<Id>>) {
    match unassigned
    case None =>
      && (id in f.assignments ==> IsActive(f, id))
      && forall p :: p in f.tasks ==> p.assignment != id
    case Some(nodes) =>
      && id in f.assignments && f.assignments[id].status == Removing
      && forall node :: Pair(id, node) in f.tasks <==> node in nodes
  }

  lemma StepTasks(f: Fleet, r: Request, id: Id, unassigned: Option<set<Id>>)
    requires TasksFollow(f, id, unassigned)
    ensures TasksFollow(After(f, r).state, id,
                        if r == Unassign(id) && IsActive(f, id) then Some(MembersOf(f, f.assignments[id].group)) else unassigned)
  {
    var q := After(f, r).state;
    if r.Unassign? && q != f {
      UnassignTasks(f, r.id);
    }
  }

  lemma UnassignTasks(f: Fleet, id: Id)
    requires IsActive(f, id)
    ensures forall p :: p in AfterUnassign(f, id).state.tasks <==>
      p in f.tasks || (p.assignment == id && p.node in MembersOf(f, f.assignments[id].group))
  {
    var added := NewTasks(f, id);
    forall p ensures p in added <==> p.assignment == id && p.node in MembersOf(f, f.assignments[id].group) {
      assert p == Pair(p.assignment, p.node);
    }
  }

  /** An assignment is active until it is unassigned and never again; each node
      in the group at that moment, and no other, has one task for it. */
  lemma {:induction false} TasksFollowMembers(requests: seq<Request>, id: Id)
    ensures TasksFollow(Run(requests), id, UnassignedFrom(requests, id))
  {
    if requests != [] {
      var before := requests[..|requests| - 1];
      TasksFollowMembers(before, id);
      StepTasks(Run(before), requests[|requests| - 1], id, UnassignedFrom(before, id));
    }
  }

  ghost predicate StatusFollows(f: Fleet, p: Pair, cleaned: bool) {
    && (p in f.tasks ==> f.tasks[p] != Offline && (f.tasks[p] == Cleaned <==> cleaned))
    && (cleaned ==> p in f.tasks)
  }

  lemma StepStatus(f: Fleet, r: Request, p: Pair, cleaned: bool)
    requires StatusFollows(f, p, cleaned)
    requires forall q :: q in f.tasks ==> q.assignment in f.assignments && f.assignments[q.assignment].status == Removing
    ensures StatusFollows(After(f, r).state, p, cleaned || (r == ReportCleanup(p.assignment, p.node, "cleaned") && p in f.tasks))
  {
    if r.Unassign? && IsActive(f, r.id) {
      UnassignTasks(f, r.id);
      assert p == Pair(p.assignment, p.node);
    }
  }

  /** A task is cleaned exactly when its own node has reported so; until then,
      abandoned or not, the node keeps being told to clean up. */
  lemma {:induction false} CleanedOnlyByTheNode(requests: seq<Request>, id: Id, node: Id)
    ensures StatusFollows(Run(requests), Pair(id, node), CleanedBy(requests, id, node))
    ensures id in Instructed(Run(requests), node) <==>
      UnassignedFrom(requests, id).Some? && node in UnassignedFrom(requests, id).value && !CleanedBy(requests, id, node)
  {
    var f, p := Run(requests), Pair(id, node);
    if requests != [] {
      var before := requests[..|requests| - 1];
      CleanedOnlyByTheNode(before, id, node);
      forall q | q in Run(before).tasks
        ensures q.assignment in Run(before).assignments && Run(before).assignments[q.assignment].status == Removing
      {
        TasksFollowMembers(before, q.assignment);
      }
      StepStatus(Run(before), requests[|requests| - 1], p, CleanedBy(before, id, node));
    }
    TasksFollowMembers(requests, id);
    InstructedHasTask(f, id, node);
  }

  /** `node` is outside the assignment's group and has no task for it. */
  ghost predicate Away(f: Fleet, id: Id, node: Id) {
    && id in f.assignments && Member(f.assignments[id].group, node) !in f.members
    && Pair(id, node) !in f.tasks
  }

  /** After `k` more requests the node is not a member. */
  ghost predicate StillOut(left: seq<Request>, rest: seq<Request>, group: Id, node: Id, k: nat)
    requires k <= |rest|
  {
    Member(group, node) !in Run(left + rest[..k]).members
  }

  lemma AwayStep(f: Fleet, r: Request, id: Id, node: Id)
    requires Away(f, id, node) && Member(f.assignments[id].group, node) !in After(f, r).state.members
    ensures Away(After(f, r).state, id, node)
    ensures After(f, r).state.assignments[id].group == f.assignments[id].group
  {
    if r.Unassign? && IsActive(f, r.id) {
      UnassignTasks(f, r.id);
    }
  }

  /**
    A node removed from an assigned group is never told to clean up, in no run
    that follows: as long as it is not a member again, the unassignment that
    comes later gives it no task. What it was given stays with it.
   */
  lemma LeaverIsNeverTold(first: seq<Request>, rest: seq<Request>, id: Id, node: Id, group: Id)
    requires IsActive(Run(first), id) && Run(first).assignments[id].group == group
    requires forall k :: 0 <= k <= |rest| ==> StillOut(first + [RemoveMember(group, node)], rest, group, node, k)
    ensures var f := Run(first + [RemoveMember(group, node)] + rest);
      && Away(f, id, node) && f.assignments[id].group == group
      && id !in Instructed(f, node) && !Delivers(f, id, node)
  {
    AwayAtOnce(first, id, node);
    AwayRun(first + [RemoveMember(group, node)], rest, id, node, group);
    InstructedHasTask(Run(first + [RemoveMember(group, node)] + rest), id, node);
  }

  /** Away once, away as long as the node does not become a member. */
  lemma {:induction false} AwayRun(left: seq<Request>, rest: seq<Request>, id: Id, node: Id, group: Id)
    requires Away(Run(left), id, node) && Run(left).assignments[id].group == group
    requires forall k :: 0 <= k <= |rest| ==> StillOut(left, rest, group, node, k)
    ensures Away(Run(left + rest), id, node) && Run(left + rest).assignments[id].group == group
    decreases |rest|
  {
    if rest == [] {
      assert left + rest == left;
    } else {
      var init := rest[..|rest| - 1];
      OutBefore(left, rest, init, group, node);
      AwayRun(left, init, id, node, group);
      RunOnward(left, rest);
      AwayStep(Run(left + init), rest[|rest| - 1], id, node);
    }
  }

  lemma RunOnward(left: seq<Request>, rest: seq<Request>)
    requires rest != []
    ensures Run(left + rest) == After(Run(left + rest[..|rest| - 1]), rest[|rest| - 1]).state
  {
    assert (left + rest)[..|left + rest| - 1] == left + rest[..|rest| - 1];
  }

  lemma AwayAtOnce(first: seq<Request>, id: Id, node: Id)
    requires IsActive(Run(first), id)
    ensures var f := Run(first + [RemoveMember(Run(first).assignments[id].group, node)]);
      Away(f, id, node) && f.assignments[id].group == Run(first).assignments[id].group
  {
    var left := first + [RemoveMember(Run(first).assignments[id].group, node)];
    assert left[..|left| - 1] == first;
    TasksFollowMembers(first, id);
  }

  lemma {:induction false} OutBefore(left: seq<Request>, rest: seq<Request>, init: seq<Request>, group: Id, node: Id)
    requires rest != [] && init == rest[..|rest| - 1]
    requires forall k :: 0 <= k <= |rest| ==> StillOut(left, rest, group, node, k)
    ensures forall k :: 0 <= k <= |init| ==> StillOut(left, init, group, node, k)
    ensures Member(group, node) !in Run(left + rest).members
  {
    forall k | 0 <= k <= |init| ensures StillOut(left, init, group, node, k) {
      assert init[..k] == rest[..k] && StillOut(left, rest, group, node, k);
    }
    assert rest[..|rest|] == rest && StillOut(left, rest, group, node, |rest|);
  }

  lemma InstructedHasTask(f: Fleet, id: Id, node: Id)
    ensures id in Instructed(f, node) <==> Pair(id, node) in f.tasks && Open(f.tasks[Pair(id, node)])
  {
    if id in Instructed(f, node) {
      var p :| p in f.tasks && p.node == node && Open(f.tasks[p]) && p.assignment == id;
      assert p == Pair(id, node);
    }
  }

  // --- Convergence ------------------------------------------------------------

  ghost predicate Observes(f: Fleet, r: Request, p: Pair) {
    r.Report? && r.node == p.node && r.node in f.nodes && r.result != "" && Reported(f, r.node, r.revision) == Some(p.assignment)
  }

  /** The revision of the latest report that found the pair and said ok. */
  ghost function LatestOk(requests: seq<Request>, p: Pair): string {
    if requests == [] then ""
    else
      var before, last := requests[..|requests| - 1], requests[|requests| - 1];
      if Observes(Run(before), last, p) && last.result == "ok" then last.revision else LatestOk(before, p)
  }

  ghost predicate EverReported(requests: seq<Request>, p: Pair) {
    requests != [] &&
    var before, last := requests[..|requests| - 1], requests[|requests| - 1];
    Observes(Run(before), last, p) || EverReported(before, p)
  }

  lemma StepObserved(f: Fleet, r: Request, p: Pair)
    ensures var q := After(f, r).state;
      if Observes(f, r, p) then
        p in q.convergence && q.convergence[p].result == r.result
        && q.convergence[p].desired == r.revision
        && q.convergence[p].observed ==
           (if r.result == "ok" then r.revision else if p in f.convergence then f.convergence[p].observed else "")
      else (p in q.convergence <==> p in f.convergence) && (p in f.convergence ==> q.convergence[p] == f.convergence[p])
  {
    if r.Report? && Reported(f, r.node, r.revision).Some? {
      assert Reports(f, Reported(f, r.node, r.revision).value, r.node, r.revision);
      assert p == Pair(p.assignment, p.node);
    }
  }

  /** The observed revision of a convergence row is the latest one reported ok:
      a failed activation leaves it alone. */
  lemma {:induction false} ObservedIsLatestOk(requests: seq<Request>, p: Pair)
    ensures p in Run(requests).convergence <==> EverReported(requests, p)
    ensures p in Run(requests).convergence ==> Run(requests).convergence[p].observed == LatestOk(requests, p)
    ensures !EverReported(requests, p) ==> LatestOk(requests, p) == ""
  {
    if requests != [] {
      var before := requests[..|requests| - 1];
      ObservedIsLatestOk(before, p);
      StepObserved(Run(before), requests[|requests| - 1], p);
    }
  }
}
