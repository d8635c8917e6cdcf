/**
  What each request does to groups, assignments, tasks and convergence rows, and
  what the queries over them return, said of the tables themselves.
 */
module Groups {
  import opened Common
  import B = Bundles
  import opened Fleet

  // --- Queries ------------------------------------------------------------------------

  /** The desired-state query: the revisions of the active assignments of the groups
      the node is a member of, and nothing else. */
  lemma AssignedExactly(f: Fleet, node: B.Id, r: B.Id)
    ensures r in AssignedRevisions(f, node) <==>
      exists a :: a in f.assignments && f.assignments[a].status == Active && f.assignments[a].revision == r
                  && Member(f.assignments[a].group, node) in f.members
  {
    if a :| a in f.assignments && f.assignments[a].status == Active && f.assignments[a].revision == r
            && Member(f.assignments[a].group, node) in f.members {
      assert Delivers(f, a, node);
    }
  }

  /** A node in no group with an active assignment is given nothing. */
  lemma OutsiderGetsNothing(f: Fleet, node: B.Id)
    requires forall a :: a in f.assignments && f.assignments[a].status == Active ==> Member(f.assignments[a].group, node) !in f.members
    ensures AssignedRevisions(f, node) == {}
  {}

  /** The cleanup query: pending, failed and unconfirmed tasks of the node. */
  lemma InstructedExactly(f: Fleet, node: B.Id, a: B.Id)
    ensures a in Instructed(f, node) <==>
      Pair(a, node) in f.tasks
      && (f.tasks[Pair(a, node)] == Pending || f.tasks[Pair(a, node)] == CleanupFailed || f.tasks[Pair(a, node)] == Unconfirmed)
  {
    InstructedHasTask(f, a, node);
  }

  /** The environments in use: those of active assignments. */
  lemma InUseExactly(f: Fleet, scope: B.Scope)
    ensures scope in ActiveScopes(f) <==>
      exists a :: a in f.assignments && f.assignments[a].status == Active && f.assignments[a].scope == scope
  {
    if a :| a in f.assignments && f.assignments[a].status == Active && f.assignments[a].scope == scope {
      assert IsActive(f, a);
    }
  }

  // --- Nodes, groups, members -----------------------------------------------------------

  lemma RegisterEffect(f: Fleet, node: B.Id)
    ensures var e := After(f, Register(node));
      && (e.reply.Done? <==> node !in f.nodes)
      && e.state == f.(nodes := f.nodes + {node})
  {}

  lemma CreateGroupEffect(f: Fleet, group: B.Id)
    ensures var e := After(f, CreateGroup(group));
      && (e.reply.Done? <==> group !in f.groups)
      && e.state == f.(groups := f.groups + {group})
  {}

  /** With `m` a member too, the node would get the environment of `a1` from the
      group and from that of `a2`. */
  ghost predicate Twice(f: Fleet, a1: B.Id, a2: B.Id, group: B.Id, node: B.Id) {
    && a1 in f.assignments && a2 in f.assignments
    && f.assignments[a1].status == Active && f.assignments[a2].status == Active
    && f.assignments[a1].group == group && f.assignments[a2].group != group
    && Member(f.assignments[a2].group, node) in f.members
    && f.assignments[a1].scope == f.assignments[a2].scope
  }

  /** A node joins a group exactly when both exist and it would get no environment twice. */
  lemma JoinEffect(f: Fleet, group: B.Id, node: B.Id)
    ensures var e := After(f, AddMember(group, node));
      && (e.reply.NotFound? <==> group !in f.groups || node !in f.nodes)
      && (e.reply.Done? <==> group in f.groups && node in f.nodes && !(exists a1, a2 :: Twice(f, a1, a2, group, node)))
      && e.state == if e.reply.Done? then f.(members := f.members + {Member(group, node)}) else f
  {
    var q := f.(members := f.members + {Member(group, node)});
    if a1, a2 :| Twice(f, a1, a2, group, node) {
      assert Clashes(q, a1, a2, group, node);
    }
    if a1, a2 :| a1 in f.assignments && a2 in f.assignments && Clashes(q, a1, a2, group, node) {
      assert Twice(f, a1, a2, group, node);
    }
  }

  lemma LeaveEffect(f: Fleet, group: B.Id, node: B.Id)
    ensures After(f, RemoveMember(group, node)).state == f.(members := f.members - {Member(group, node)})
  {}

  // --- Assignments ------------------------------------------------------------------------

  /** Another group already brings the environment to a node of this one. */
  ghost predicate Shared(f: Fleet, a: B.Id, node: B.Id, group: B.Id, scope: B.Scope) {
    && a in f.assignments && f.assignments[a].status == Active && f.assignments[a].scope == scope
    && f.assignments[a].group != group
    && Member(f.assignments[a].group, node) in f.members && Member(group, node) in f.members
  }

  /** An assignment is made exactly when group, environment and a revision exist, no
      node would get the environment twice, and the group does not have it already. */
  lemma AssignEffect(f: Fleet, id: B.Id, group: B.Id, scope: B.Scope, known: bool, latest: Option<B.Id>)
    ensures var e := After(f, CreateAssignment(id, group, scope, known, latest));
      && (e.reply.Done? <==>
            && group in f.groups && known && latest.Some? && id !in f.assignments
            && !(exists a, node :: Shared(f, a, node, group, scope))
            && !(exists a :: a in f.assignments && f.assignments[a].status == Active
                             && f.assignments[a].group == group && f.assignments[a].scope == scope))
      && (e.reply.NotFound? <==> group !in f.groups || !known)
      && (e.reply.BadPayload? <==> group in f.groups && known && latest.None?)
      && e.state == if e.reply.Done?
                    then f.(assignments := f.assignments[id := Assignment(group, scope, latest.value, Active)]) else f
  {
    if a, node :| Shared(f, a, node, group, scope) {
      assert Member(f.assignments[a].group, node) in f.members;
      assert Covers(f, a, Member(f.assignments[a].group, node), group, scope);
    }
    if a, m :| a in f.assignments && m in f.members && Covers(f, a, m, group, scope) {
      assert m == Member(f.assignments[a].group, m.node) && Shared(f, a, m.node, group, scope);
    }
    if a :| a in f.assignments && f.assignments[a].status == Active && f.assignments[a].group == group && f.assignments[a].scope == scope {
      assert IsActive(f, a);
    }
  }

  /** An advance moves the active assignments of the environment and no other row. */
  lemma AdvanceEffect(f: Fleet, scope: B.Scope, revision: B.Id, a: B.Id)
    requires a in f.assignments
    ensures var e := After(f, Advance(scope, revision));
      && e.state.assignments.Keys == f.assignments.Keys
      && e.state == f.(assignments := e.state.assignments)
      && e.state.assignments[a] ==
         if f.assignments[a].status == Active && f.assignments[a].scope == scope
         then Assignment(f.assignments[a].group, scope, revision, Active) else f.assignments[a]
  {}

  /** An unassignment turns an active row to removing and gives a pending task to each
      member of its group. */
  lemma UnassignEffect(f: Fleet, id: B.Id)
    ensures var e := After(f, Unassign(id));
      && (e.reply.Done? <==> id in f.assignments && f.assignments[id].status == Active)
      && (!e.reply.Done? ==> e.reply.Conflict? && e.state == f)
      && (e.reply.Done? ==>
            && e.state == f.(assignments := f.assignments[id := f.assignments[id].(status := Removing)], tasks := e.state.tasks)
            && forall p: Pair :: if p.assignment == id && Member(f.assignments[id].group, p.node) in f.members
                           then p in e.state.tasks && e.state.tasks[p] == Pending
                           else (p in e.state.tasks <==> p in f.tasks) && (p in f.tasks ==> e.state.tasks[p] == f.tasks[p]))
  {
    if id in f.assignments && f.assignments[id].status == Active {
      var group, q := f.assignments[id].group, After(f, Unassign(id)).state;
      UnassignTasks(f, id);
      forall p: Pair | p.assignment == id && Member(group, p.node) in f.members ensures p in q.tasks && q.tasks[p] == Pending {
        assert p.node in MembersOf(f, group) && p == Pair(id, p.node);
      }
      forall p: Pair | !(p.assignment == id && Member(group, p.node) in f.members)
        ensures (p in q.tasks <==> p in f.tasks) && (p in f.tasks ==> q.tasks[p] == f.tasks[p])
      {
        assert p !in NewTasks(f, id);
      }
    }
  }

  // --- Tasks and reports --------------------------------------------------------------------

  /** A report closes or fails an open task of the reporting node, and nothing else. */
  lemma ReportCleanupEffect(f: Fleet, id: B.Id, node: B.Id, result: string)
    ensures var e, p := After(f, ReportCleanup(id, node, result)), Pair(id, node);
      && (e.reply.Done? <==>
            && (result == "cleaned" || result == "failed") && p in f.tasks
            && (f.tasks[p] == Pending || f.tasks[p] == CleanupFailed || f.tasks[p] == Unconfirmed))
      && (e.reply.BadPayload? <==> result != "cleaned" && result != "failed")
      && e.state == if !e.reply.Done? then f
                    else f.(tasks := f.tasks[p := if result == "cleaned" then Cleaned else CleanupFailed])
  {}

  /** Abandoning gives up on the pending, failed and offline tasks of the assignment. */
  lemma AbandonEffect(f: Fleet, id: B.Id)
    ensures var e := After(f, Abandon(id));
      && (e.reply.Done? <==>
            exists p :: p in f.tasks && p.assignment == id
                        && (f.tasks[p] == Pending || f.tasks[p] == CleanupFailed || f.tasks[p] == Offline))
      && (!e.reply.Done? ==> e.reply.Conflict?)
      && e.state == f.(tasks := e.state.tasks) && e.state.tasks.Keys == f.tasks.Keys
      && forall p :: p in f.tasks ==>
           e.state.tasks[p] == (
             if p.assignment == id && (f.tasks[p] == Pending || f.tasks[p] == CleanupFailed || f.tasks[p] == Offline)
             then Unconfirmed else f.tasks[p])
  {
    if p :| p in f.tasks && p.assignment == id && (f.tasks[p] == Pending || f.tasks[p] == CleanupFailed || f.tasks[p] == Offline) {
      assert Abandonable(f, p, id);
    }
  }

  /** A report of an assignment that delivers the revision to the node records the
      desired revision, and moves the observed one only when it says ok. */
  lemma ReportEffect(f: Fleet, node: B.Id, revision: B.Id, stage: string, result: string, error: string, a: B.Id)
    requires Unambiguous(f) && RevisionsHaveOneScope(f)
    requires a in f.assignments && f.assignments[a].status == Active && f.assignments[a].revision == revision
    requires Member(f.assignments[a].group, node) in f.members && node in f.nodes && result != ""
    ensures var e, p := After(f, Report(node, revision, stage, result, error)), Pair(a, node);
      && e.reply.Done? && e.state == f.(convergence := e.state.convergence)
      && p in e.state.convergence
      && e.state.convergence[p].scope == f.assignments[a].scope && e.state.convergence[p].desired == revision
      && e.state.convergence[p].stage == stage && e.state.convergence[p].result == result
      && e.state.convergence[p].error == error
      && e.state.convergence[p].observed ==
         (if result == "ok" then revision else if p in f.convergence then f.convergence[p].observed else "")
      && forall o :: o != p ==>
           (o in e.state.convergence <==> o in f.convergence)
           && (o in f.convergence ==> e.state.convergence[o] == f.convergence[o])
  {
    assert Delivers(f, a, node) && Reports(f, a, node, revision);
    ReportFindsOne(f, node, revision, a);
  }

  /** A report of a revision the node is not given, or by an unknown node, or without a
      result, records nothing. */
  lemma StrayReport(f: Fleet, node: B.Id, revision: B.Id, stage: string, result: string, error: string)
    requires node !in f.nodes || result == "" || revision !in AssignedRevisions(f, node)
    ensures After(f, Report(node, revision, stage, result, error)).state == f
    ensures After(f, Report(node, revision, stage, result, error)).reply.NotFound? <==> node !in f.nodes
    ensures After(f, Report(node, revision, stage, result, error)).reply.BadPayload? <==> node in f.nodes && result == ""
  {
    if Reported(f, node, revision).Some? {
      assert Reports(f, Reported(f, node, revision).value, node, revision);
    }
  }
}
