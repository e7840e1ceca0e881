/** Which engagement the delegation view shows when the caller names none. */
module Delegation {
  import opened Texts
  import opened Counting

  datatype Engagement = Engagement(id: Text, code: Text, title: Text, status: Text)

  datatype Task = Task(
    id: Text,
    engagementId: Text,
    key: Text,
    priority: int,
    createdAt: int,
    role: Option<Text>,
    status: Text,
    humanGate: bool,
    attempts: nat)

  datatype Verdict = Allow | Deny

  datatype Decision = Decision(engagementId: Option<Text>, taskId: Option<Text>, role: Text, verdict: Verdict)

  /** `value or ""`. */
  function OrEmpty(t: Option<Text>): Text {
    if t.Some? then t.value else []
  }

  function RoleOf(t: Task): Text {
    OrEmpty(t.role)
  }

  /** A role that carries an agent. */
  predicate IsAgentRole(role: Text) {
    var lower := Lower(role);
    lower != [] && lower != Lit("human") && lower != Lit("system") && lower != Lit("deterministic")
  }

  predicate IsStarted(t: Task) {
    t.status != Lit("pending") && t.status != Lit("ready") && t.status != Lit("blocked")
  }

  /** `engagement_of_task.get(id)`: the last task of an id wins. */
  function EngagementOfTask(tasks: seq<Task>, id: Text): Option<Text> {
    if tasks == [] then None
    else
      var last := tasks[|tasks| - 1];
      if last.id == id then Some(last.engagementId) else EngagementOfTask(tasks[..|tasks| - 1], id)
  }

  /** The engagement a decision counts for, directly or through its task; empty when neither is known. */
  function Owner(tasks: seq<Task>, d: Decision): Text {
    if OrEmpty(d.engagementId) != [] then OrEmpty(d.engagementId)
    else OrEmpty(EngagementOfTask(tasks, OrEmpty(d.taskId)))
  }

  function OwnedBy(tasks: seq<Task>, id: Text): Decision -> bool {
    (d: Decision) => Owner(tasks, d) == id && id != []
  }

  function TaskOf(id: Text): Task -> bool {
    (t: Task) => t.engagementId == id
  }

  function StartedTaskOf(id: Text): Task -> bool {
    (t: Task) => t.engagementId == id && IsStarted(t)
  }

  function AgentRolesOf(tasks: seq<Task>, id: Text): set<Text> {
    set t | t in tasks && t.engagementId == id && IsAgentRole(RoleOf(t)) :: RoleOf(t)
  }

  /** Authority exercised, breadth, work run, work planned, identifier. */
  datatype Rank = Rank(decided: bool, roles: nat, executed: nat, planned: nat, id: Text)

  function RankOf(tasks: seq<Task>, decisions: seq<Decision>, e: Engagement): Rank {
    Rank(
      Count(OwnedBy(tasks, e.id), decisions) > 0,
      |AgentRolesOf(tasks, e.id)|,
      Count(StartedTaskOf(e.id), tasks),
      Count(TaskOf(e.id), tasks),
      e.id)
  }

  /** Tuple comparison. */
  predicate RankLe(a: Rank, b: Rank) {
    if a.decided != b.decided then b.decided
    else if a.roles != b.roles then a.roles < b.roles
    else if a.executed != b.executed then a.executed < b.executed
    else if a.planned != b.planned then a.planned < b.planned
    else LexLe(a.id, b.id)
  }

  lemma RankOrder(a: Rank, b: Rank, c: Rank)
    ensures RankLe(a, b) || RankLe(b, a)
    ensures RankLe(a, b) && RankLe(b, c) ==> RankLe(a, c)
    ensures RankLe(a, b) && RankLe(b, a) ==> a == b
  {
    LexTotal(a.id, b.id);
    if LexLe(a.id, b.id) && LexLe(b.id, c.id) {
      LexTransitive(a.id, b.id, c.id);
    }
    if LexLe(a.id, b.id) && LexLe(b.id, a.id) {
      LexAntisymmetric(a.id, b.id);
    }
  }

  /** The engagement no listed one outranks. */
  predicate IsTop(engagements: seq<Engagement>, tasks: seq<Task>, decisions: seq<Decision>, e: Engagement) {
    e in engagements
    && forall other | other in engagements :: RankLe(RankOf(tasks, decisions, other), RankOf(tasks, decisions, e))
  }

  predicate DistinctEngagements(engagements: seq<Engagement>) {
    forall i, j | 0 <= i < j < |engagements| :: engagements[i].id != engagements[j].id
  }

  predicate DistinctTasks(tasks: seq<Task>) {
    forall i, j | 0 <= i < j < |tasks| :: tasks[i].id != tasks[j].id
  }

  function CountAt(m: map<Text, nat>, id: Text): nat {
    if id in m then m[id] else 0
  }

  function RolesAt(m: map<Text, set<Text>>, id: Text): set<Text> {
    if id in m then m[id] else {}
  }

  /** The dict comprehension over the tasks. */
  method MapTasks(tasks: seq<Task>) returns (engagementOfTask: map<Text, Text>)
    ensures forall id: Text ::
      (if id in engagementOfTask then Some(engagementOfTask[id]) else None) == EngagementOfTask(tasks, id)
  {
    engagementOfTask := map[];
    for i := 0 to |tasks|
      invariant forall id: Text ::
        (if id in engagementOfTask then Some(engagementOfTask[id]) else None) == EngagementOfTask(tasks[..i], id)
    {
      assert tasks[..i + 1][..i] == tasks[..i];
      engagementOfTask := engagementOfTask[tasks[i].id := tasks[i].engagementId];
    }
    assert tasks[..|tasks|] == tasks;
  }

  method CountDecisions(tasks: seq<Task>, decisions: seq<Decision>) returns (decided: map<Text, nat>)
    ensures forall id: Text :: CountAt(decided, id) == Count(OwnedBy(tasks, id), decisions)
  {
    var engagementOfTask := MapTasks(tasks);
    decided := map[];
    for i := 0 to |decisions|
      invariant forall id: Text :: CountAt(decided, id) == Count(OwnedBy(tasks, id), decisions[..i])
    {
      var d := decisions[i];
      var owner := OrEmpty(d.engagementId);
      if owner == [] {
        var taskId := OrEmpty(d.taskId);
        owner := if taskId in engagementOfTask then engagementOfTask[taskId] else [];
      }
      assert owner == Owner(tasks, d);
      forall id: Text
        ensures Count(OwnedBy(tasks, id), decisions[..i + 1])
          == Count(OwnedBy(tasks, id), decisions[..i]) + if owner == id && id != [] then 1 else 0
      {
        FilterNext(OwnedBy(tasks, id), decisions, i);
      }
      if owner != [] {
        decided := decided[owner := CountAt(decided, owner) + 1];
      }
    }
    assert decisions[..|decisions|] == decisions;
  }

  method CountTasks(tasks: seq<Task>) returns (counts: map<Text, nat>, executed: map<Text, nat>)
    ensures forall id: Text :: CountAt(counts, id) == Count(TaskOf(id), tasks)
    ensures forall id: Text :: CountAt(executed, id) == Count(StartedTaskOf(id), tasks)
  {
    counts, executed := map[], map[];
    for i := 0 to |tasks|
      invariant forall id: Text :: CountAt(counts, id) == Count(TaskOf(id), tasks[..i])
      invariant forall id: Text :: CountAt(executed, id) == Count(StartedTaskOf(id), tasks[..i])
    {
      var id := tasks[i].engagementId;
      forall other: Text
        ensures Count(TaskOf(other), tasks[..i + 1]) == Count(TaskOf(other), tasks[..i]) + if other == id then 1 else 0
        ensures Count(StartedTaskOf(other), tasks[..i + 1])
          == Count(StartedTaskOf(other), tasks[..i]) + if other == id && IsStarted(tasks[i]) then 1 else 0
      {
        FilterNext(TaskOf(other), tasks, i);
        FilterNext(StartedTaskOf(other), tasks, i);
      }
      counts := counts[id := CountAt(counts, id) + 1];
      if IsStarted(tasks[i]) {
        executed := executed[id := CountAt(executed, id) + 1];
      }
    }
    assert tasks[..|tasks|] == tasks;
  }

  lemma AgentRolesNext(tasks: seq<Task>, t: Task, id: Text)
    ensures AgentRolesOf(tasks + [t], id)
         == AgentRolesOf(tasks, id) + if id == t.engagementId && IsAgentRole(RoleOf(t)) then {RoleOf(t)} else {}
  {
    assert forall x :: x in tasks + [t] <==> x in tasks || x == t;
  }

  method CollectRoles(tasks: seq<Task>) returns (perEngagement: map<Text, set<Text>>)
    ensures forall id: Text :: RolesAt(perEngagement, id) == AgentRolesOf(tasks, id)
  {
    perEngagement := map[];
    for i := 0 to |tasks|
      invariant forall id: Text :: RolesAt(perEngagement, id) == AgentRolesOf(tasks[..i], id)
    {
      var t, before := tasks[i], perEngagement;
      var role := RoleOf(t);
      if IsAgentRole(role) {
        perEngagement := perEngagement[t.engagementId := RolesAt(perEngagement, t.engagementId) + {role}];
      }
      forall id: Text ensures RolesAt(perEngagement, id) == AgentRolesOf(tasks[..i + 1], id) {
        assert RolesAt(before, id) == AgentRolesOf(tasks[..i], id);
        AgentRolesNext(tasks[..i], t, id);
        assert tasks[..i + 1] == tasks[..i] + [t];
      }
    }
    assert tasks[..|tasks|] == tasks;
  }

  /** The tables filled by the loops hold what the ranking reads off the rows. */
  lemma RankFromTables(tasks: seq<Task>, decisions: seq<Decision>, decided: map<Text, nat>, counts: map<Text, nat>,
    executed: map<Text, nat>, perEngagement: map<Text, set<Text>>, e: Engagement)
    requires CountAt(decided, e.id) == Count(OwnedBy(tasks, e.id), decisions)
    requires CountAt(counts, e.id) == Count(TaskOf(e.id), tasks)
    requires CountAt(executed, e.id) == Count(StartedTaskOf(e.id), tasks)
    requires RolesAt(perEngagement, e.id) == AgentRolesOf(tasks, e.id)
    ensures Rank(CountAt(decided, e.id) > 0, |RolesAt(perEngagement, e.id)|, CountAt(executed, e.id),
                 CountAt(counts, e.id), e.id) == RankOf(tasks, decisions, e)
  {
  }

  /** The better of the top so far and the next engagement is the top of both. */
  lemma TopStep(engagements: seq<Engagement>, tasks: seq<Task>, decisions: seq<Decision>, best: Engagement, i: nat)
    requires i < |engagements| && IsTop(engagements[..i], tasks, decisions, best)
    ensures var next := engagements[i];
      IsTop(engagements[..i + 1], tasks, decisions,
            if RankLe(RankOf(tasks, decisions, next), RankOf(tasks, decisions, best)) then best else next)
  {
    hide RankOf, RankLe;
    var next := engagements[i];
    var better := if RankLe(RankOf(tasks, decisions, next), RankOf(tasks, decisions, best)) then best else next;
    assert engagements[..i + 1] == engagements[..i] + [next];
    RankOrder(RankOf(tasks, decisions, next), RankOf(tasks, decisions, best), RankOf(tasks, decisions, next));
    RankOrder(RankOf(tasks, decisions, next), RankOf(tasks, decisions, next), RankOf(tasks, decisions, next));
    forall other | other in engagements[..i + 1]
      ensures RankLe(RankOf(tasks, decisions, other), RankOf(tasks, decisions, better))
    {
      if other in engagements[..i] {
        RankOrder(RankOf(tasks, decisions, other), RankOf(tasks, decisions, best), RankOf(tasks, decisions, better));
      }
    }
  }

  /** `_select_engagement`: the named engagement, or the top of the ranking. */
  method SelectEngagement(engagements: seq<Engagement>, tasks: seq<Task>, decisions: seq<Decision>,
    requested: Option<Text>) returns (selected: Option<Engagement>)
    ensures requested.None? ==> (selected.None? <==> engagements == [])
    ensures requested.None? && selected.Some? ==> IsTop(engagements, tasks, decisions, selected.value)
    ensures requested.Some? ==> (selected.None? <==> forall e | e in engagements :: e.id != requested.value)
    ensures requested.Some? && selected.Some? ==> selected.value in engagements && selected.value.id == requested.value
  {
    if requested.Some? {
      for i := 0 to |engagements|
        invariant forall j | 0 <= j < i :: engagements[j].id != requested.value
      {
        if engagements[i].id == requested.value {
          return Some(engagements[i]);
        }
      }
      return None;
    }
    if engagements == [] {
      return None;
    }
    var decided := CountDecisions(tasks, decisions);
    var counts, executed := CountTasks(tasks);
    var perEngagement := CollectRoles(tasks);
    hide RankOf, RankLe, CountAt, RolesAt, Count, AgentRolesOf;
    var best := engagements[0];
    var bestRank := Rank(CountAt(decided, best.id) > 0, |RolesAt(perEngagement, best.id)|,
                         CountAt(executed, best.id), CountAt(counts, best.id), best.id);
    RankFromTables(tasks, decisions, decided, counts, executed, perEngagement, best);
    RankOrder(bestRank, bestRank, bestRank);
    for i := 1 to |engagements|
      invariant bestRank == RankOf(tasks, decisions, best)
      invariant IsTop(engagements[..i], tasks, decisions, best)
    {
      var id := engagements[i].id;
      var rank := Rank(CountAt(decided, id) > 0, |RolesAt(perEngagement, id)|, CountAt(executed, id),
                       CountAt(counts, id), id);
      RankFromTables(tasks, decisions, decided, counts, executed, perEngagement, engagements[i]);
      TopStep(engagements, tasks, decisions, best, i);
      if !RankLe(rank, bestRank) {
        best, bestRank := engagements[i], rank;
      }
    }
    assert engagements[..|engagements|] == engagements;
    selected := Some(best);
  }

  // -------------------------------------------------- order of the database rows

  lemma {:induction false} EngagementOfTaskMember(tasks: seq<Task>, id: Text)
    ensures var e := EngagementOfTask(tasks, id);
      && (e.None? ==> forall t | t in tasks :: t.id != id)
      && (e.Some? ==> exists t | t in tasks :: t.id == id && t.engagementId == e.value)
  {
    if tasks != [] {
      var front, last := tasks[..|tasks| - 1], tasks[|tasks| - 1];
      assert tasks == front + [last];
      assert last in tasks;
      EngagementOfTaskMember(front, id);
      if last.id != id && EngagementOfTask(front, id).Some? {
        var t :| t in front && t.id == id && t.engagementId == EngagementOfTask(front, id).value;
        assert t in tasks;
      }
    }
  }

  lemma EngagementOfTaskPermuted(a: seq<Task>, b: seq<Task>, id: Text)
    requires multiset(a) == multiset(b) && DistinctTasks(a)
    ensures EngagementOfTask(a, id) == EngagementOfTask(b, id)
  {
    EngagementOfTaskMember(a, id);
    EngagementOfTaskMember(b, id);
    assert forall t :: t in a <==> t in multiset(a);
    assert forall t :: t in b <==> t in multiset(b);
    if EngagementOfTask(a, id).Some? && EngagementOfTask(b, id).Some? {
      var s :| s in a && s.id == id && s.engagementId == EngagementOfTask(a, id).value;
      var t :| t in b && t.id == id && t.engagementId == EngagementOfTask(b, id).value;
      assert t in a;
    }
  }

  lemma RankPermuted(t1: seq<Task>, t2: seq<Task>, d1: seq<Decision>, d2: seq<Decision>, e: Engagement)
    requires multiset(t1) == multiset(t2) && DistinctTasks(t1) && multiset(d1) == multiset(d2)
    ensures RankOf(t1, d1, e) == RankOf(t2, d2, e)
  {
    forall d: Decision ensures Owner(t1, d) == Owner(t2, d) {
      EngagementOfTaskPermuted(t1, t2, OrEmpty(d.taskId));
    }
    FilterSame(OwnedBy(t1, e.id), OwnedBy(t2, e.id), d1);
    FilterPermuted(OwnedBy(t2, e.id), d1, d2);
    FilterPermuted(TaskOf(e.id), t1, t2);
    FilterPermuted(StartedTaskOf(e.id), t1, t2);
    assert forall t :: t in t1 <==> t in multiset(t1);
    assert forall t :: t in t2 <==> t in multiset(t2);
    assert AgentRolesOf(t1, e.id) == AgentRolesOf(t2, e.id);
  }

  /** With identifiers distinct there is one top, whatever order the rows of the three tables arrive in. */
  lemma TopUniqueAndOrderFree(
    e1: seq<Engagement>, e2: seq<Engagement>, t1: seq<Task>, t2: seq<Task>, d1: seq<Decision>, d2: seq<Decision>,
    a: Engagement, b: Engagement)
    requires multiset(e1) == multiset(e2) && multiset(t1) == multiset(t2) && multiset(d1) == multiset(d2)
    requires DistinctEngagements(e1) && DistinctTasks(t1)
    requires IsTop(e1, t1, d1, a) && IsTop(e2, t2, d2, b)
    ensures a == b
  {
    assert b in multiset(e1) && a in multiset(e2);
    RankPermuted(t1, t2, d1, d2, a);
    RankPermuted(t1, t2, d1, d2, b);
    RankOrder(RankOf(t1, d1, a), RankOf(t1, d1, b), RankOf(t1, d1, a));
  }

  /** An engagement on which the gateway decided nothing is shown only when none has a decision. */
  lemma AuthorityFirst(engagements: seq<Engagement>, tasks: seq<Task>, decisions: seq<Decision>, top: Engagement,
    e: Engagement, d: Decision)
    requires IsTop(engagements, tasks, decisions, top) && e in engagements
    requires d in decisions && Owner(tasks, d) == e.id && e.id != []
    ensures exists x | x in decisions :: Owner(tasks, x) == top.id
  {
    FilterMembers(OwnedBy(tasks, e.id), decisions, d);
    assert Count(OwnedBy(tasks, e.id), decisions) > 0;
    assert RankLe(RankOf(tasks, decisions, e), RankOf(tasks, decisions, top));
    var owned := Filter(OwnedBy(tasks, top.id), decisions);
    FilterMembers(OwnedBy(tasks, top.id), decisions, owned[0]);
  }

  // ------------------------------------------ what the ranking reads, in the rows' own fields

  /** The decision carries the engagement, or carries none and its task's last row does. */
  predicate Attributed(tasks: seq<Task>, d: Decision, id: Text) {
    id != []
    && (d.engagementId == Some(id)
        || ((d.engagementId.None? || d.engagementId == Some([]))
            && exists k | 0 <= k < |tasks| :: tasks[k].engagementId == id && LastAt(ThisTask(OrEmpty(d.taskId)), tasks, k)))
  }

  function ThisTask(id: Text): Task -> bool {
    (t: Task) => t.id == id
  }

  lemma {:induction false} LastEngagement(tasks: seq<Task>, id: Text)
    ensures forall k | LastAt(ThisTask(id), tasks, k) :: EngagementOfTask(tasks, id) == Some(tasks[k].engagementId)
    ensures EngagementOfTask(tasks, id).Some? ==> exists k :: LastAt(ThisTask(id), tasks, k)
  {
    if tasks != [] {
      var front := tasks[..|tasks| - 1];
      LastEngagement(front, id);
      forall k ensures LastAt(ThisTask(id), tasks, k)
        <==> if tasks[|front|].id == id then k == |front| else LastAt(ThisTask(id), front, k)
      {
        LastOfFront(ThisTask(id), tasks, k);
      }
      if tasks[|front|].id == id {
        assert LastAt(ThisTask(id), tasks, |front|);
      }
    }
  }

  lemma OwnerMeans(tasks: seq<Task>, d: Decision, id: Text)
    ensures OwnedBy(tasks, id)(d) <==> Attributed(tasks, d, id)
  {
    hide EngagementOfTask;
    LastEngagement(tasks, OrEmpty(d.taskId));
  }

  /** The role is not one of those a person or the runtime carries. */
  predicate CarriesAgent(t: Task) {
    t.role.Some? && t.role.value != []
    && Lower(t.role.value) != Lit("human") && Lower(t.role.value) != Lit("system")
    && Lower(t.role.value) != Lit("deterministic")
  }

  lemma AgentMeans(t: Task)
    ensures IsAgentRole(RoleOf(t)) <==> CarriesAgent(t)
  {
    assert RoleOf(t) == [] <==> Lower(RoleOf(t)) == [];
  }

  /** What an engagement is ranked by. */
  lemma RankMeans(tasks: seq<Task>, decisions: seq<Decision>, e: Engagement)
    ensures var r := RankOf(tasks, decisions, e);
      && (r.decided <==> exists d | d in decisions :: Attributed(tasks, d, e.id))
      && r.roles == |set t | t in tasks && t.engagementId == e.id && CarriesAgent(t) :: t.role|
      && r.executed == Count((t: Task) => t.engagementId == e.id && !(t.status in
           {Lit("pending"), Lit("ready"), Lit("blocked")}), tasks)
      && r.planned == Count((t: Task) => t.engagementId == e.id, tasks)
      && r.id == e.id
  {
    hide Lit, IsAgentRole, CarriesAgent, Attributed, Owner;
    forall d | d in decisions ensures OwnedBy(tasks, e.id)(d) <==> Attributed(tasks, d, e.id) {
      OwnerMeans(tasks, d, e.id);
    }
    CountZero(OwnedBy(tasks, e.id), decisions);
    FilterSame(StartedTaskOf(e.id), (t: Task) => t.engagementId == e.id && !(t.status in
      {Lit("pending"), Lit("ready"), Lit("blocked")}), tasks);
    FilterSame(TaskOf(e.id), (t: Task) => t.engagementId == e.id, tasks);
    RolesMean(tasks, e.id);
  }

  lemma RolesMean(tasks: seq<Task>, id: Text)
    ensures |AgentRolesOf(tasks, id)| == |set t | t in tasks && t.engagementId == id && CarriesAgent(t) :: t.role|
  {
    var names := AgentRolesOf(tasks, id);
    var roles := set t | t in tasks && t.engagementId == id && CarriesAgent(t) :: t.role;
    hide IsAgentRole, Lit;
    forall t: Task ensures IsAgentRole(RoleOf(t)) <==> CarriesAgent(t) {
      AgentMeans(t);
    }
    assert roles == set r | r in names :: Some(r) by {
      forall r | r in names ensures Some(r) in roles {
        var t :| t in tasks && t.engagementId == id && IsAgentRole(RoleOf(t)) && RoleOf(t) == r;
        assert t.role == Some(r);
      }
      forall o | o in roles ensures o.Some? && o.value in names {
        var t :| t in tasks && t.engagementId == id && CarriesAgent(t) && t.role == o;
        assert RoleOf(t) == o.value;
      }
    }
    SomeSize(names);
  }

  lemma {:induction false} SomeSize(names: set<Text>)
    ensures |set r | r in names :: Some(r)| == |names|
  {
    if names != {} {
      var r :| r in names;
      SomeSize(names - {r});
      var rest := set x | x in names - {r} :: Some(x);
      assert (set x | x in names :: Some(x)) == rest + {Some(r)};
    }
  }

  /** The selected engagement is beaten by none: authority, then breadth, work run, work planned and identifier. */
  lemma TopMeans(engagements: seq<Engagement>, tasks: seq<Task>, decisions: seq<Decision>, top: Engagement,
    e: Engagement)
    requires IsTop(engagements, tasks, decisions, top) && e in engagements
    ensures var (x, y) := (RankOf(tasks, decisions, e), RankOf(tasks, decisions, top));
      && (x.decided ==> y.decided)
      && (x.decided == y.decided ==> x.roles <= y.roles)
      && (x.decided == y.decided && x.roles == y.roles ==> x.executed <= y.executed)
      && (x.decided == y.decided && x.roles == y.roles && x.executed == y.executed ==> x.planned <= y.planned)
      && (x.decided == y.decided && x.roles == y.roles && x.executed == y.executed && x.planned == y.planned
          ==> LexLe(e.id, top.id))
  {
    hide LexLe;
    assert RankLe(RankOf(tasks, decisions, e), RankOf(tasks, decisions, top));
  }
}
