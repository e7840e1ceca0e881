/** The delegation view of one engagement: a row per agent role, the handoff and the totals. */
module DelegationRows {
  import opened Texts
  import opened Counting
  import opened Sorting
  import opened Delegation

  datatype Trace = Trace(id: Text, taskId: Option<Text>)

  datatype Finding = Finding(traceId: Text, detector: Text, blocked: bool)

  datatype Row = Row(role: Text, tasks: seq<Task>, executed: nat, allowed: nat, denied: nat, findings: seq<Finding>)

  datatype HandoffStep = HandoffStep(step: nat, task: Task, role: Text)

  datatype Totals = Totals(
    specialists: nat, tasks: nat, humanGates: nat, allowed: nat, denied: nat, blocks: nat)

  // ----------------------------------------------------------------- scoping

  /** The sort key `(priority, created_at, task_key)`. */
  predicate TaskLe(a: Task, b: Task) {
    if a.priority != b.priority then a.priority < b.priority
    else if a.createdAt != b.createdAt then a.createdAt < b.createdAt
    else LexLe(a.key, b.key)
  }

  function ScopedTasks(tasks: seq<Task>, engagement: Text): seq<Task> {
    Sort(TaskLe, Filter(TaskOf(engagement), tasks))
  }

  predicate HasTask(tasks: seq<Task>, id: Option<Text>) {
    id.Some? && exists t | t in tasks :: t.id == id.value
  }

  function InScope(scoped: seq<Task>, engagement: Text): Decision -> bool {
    (d: Decision) => d.engagementId == Some(engagement) || HasTask(scoped, d.taskId)
  }

  /** `task_by_trace.get(id)`: traces without a task are left out, the last of an id wins. */
  function TaskByTrace(traces: seq<Trace>, id: Text): Option<Text> {
    if traces == [] then None
    else
      var last := traces[|traces| - 1];
      if last.id == id && OrEmpty(last.taskId) != [] then last.taskId
      else TaskByTrace(traces[..|traces| - 1], id)
  }

  function FindingInScope(scoped: seq<Task>, traces: seq<Trace>): Finding -> bool {
    (f: Finding) => HasTask(scoped, TaskByTrace(traces, f.traceId))
  }

  // -------------------------------------------------------------------- rows

  /** `dict.fromkeys` over the roles, without those that carry no agent. */
  function RolesInOrder(tasks: seq<Task>): seq<Text> {
    if tasks == [] then []
    else
      var front, role := RolesInOrder(tasks[..|tasks| - 1]), RoleOf(tasks[|tasks| - 1]);
      if IsAgentRole(role) && role !in front then front + [role] else front
  }

  function TaskOfRole(role: Text): Task -> bool {
    (t: Task) => t.role == Some(role)
  }

  function StartedTaskOfRole(role: Text): Task -> bool {
    (t: Task) => t.role == Some(role) && IsStarted(t)
  }

  /** The task of this identifier is assigned to the role. */
  predicate TaskHasRole(tasks: seq<Task>, id: Option<Text>, role: Text) {
    HasTask(Filter(TaskOfRole(role), tasks), id)
  }

  function DecisionOfRole(tasks: seq<Task>, role: Text, v: Verdict): Decision -> bool {
    (d: Decision) => d.verdict == v && (d.role == role || TaskHasRole(tasks, d.taskId, role))
  }

  function FindingOfRole(tasks: seq<Task>, traces: seq<Trace>, role: Text): Finding -> bool {
    (f: Finding) => TaskHasRole(tasks, TaskByTrace(traces, f.traceId), role)
  }

  function RowOf(tasks: seq<Task>, decisions: seq<Decision>, findings: seq<Finding>, traces: seq<Trace>, role: Text): Row {
    Row(
      role,
      Filter(TaskOfRole(role), tasks),
      Count(StartedTaskOfRole(role), tasks),
      Count(DecisionOfRole(tasks, role, Allow), decisions),
      Count(DecisionOfRole(tasks, role, Deny), decisions),
      Filter(FindingOfRole(tasks, traces, role), findings))
  }

  method OrderedRoles(tasks: seq<Task>) returns (roles: seq<Text>)
    ensures roles == RolesInOrder(tasks)
  {
    roles := [];
    for i := 0 to |tasks|
      invariant roles == RolesInOrder(tasks[..i])
    {
      assert tasks[..i + 1][..i] == tasks[..i];
      var role := RoleOf(tasks[i]);
      if IsAgentRole(role) && role !in roles {
        roles := roles + [role];
      }
    }
    assert tasks[..|tasks|] == tasks;
  }

  /** `task_by_trace`: the dict comprehension over the traces that name a task. */
  method MapTraces(traces: seq<Trace>) returns (taskByTrace: map<Text, Text>)
    ensures Leads(taskByTrace, traces)
  {
    taskByTrace := map[];
    for i := 0 to |traces|
      invariant Leads(taskByTrace, traces[..i])
    {
      assert traces[..i + 1][..i] == traces[..i];
      if OrEmpty(traces[i].taskId) != [] {
        taskByTrace := taskByTrace[traces[i].id := traces[i].taskId.value];
      }
    }
    assert traces[..|traces|] == traces;
  }

  ghost predicate Leads(taskByTrace: map<Text, Text>, traces: seq<Trace>) {
    forall id: Text ::
      (if id in taskByTrace then Some(taskByTrace[id]) else None) == TaskByTrace(traces, id)
  }

  /** The decisions of one row and their two counts, and why they are those of the specification. */
  lemma RowDecisions(tasks: seq<Task>, role: Text, ids: set<Text>, decisions: seq<Decision>,
    mine: Decision -> bool, v: Verdict)
    requires forall id :: id in ids <==> HasTask(Filter(TaskOfRole(role), tasks), Some(id))
    requires forall d :: mine(d) <==> d.role == role || (d.taskId.Some? && d.taskId.value in ids)
    ensures Count(WithVerdict(v), Filter(mine, decisions)) == Count(DecisionOfRole(tasks, role, v), decisions)
  {
    hide TaskOfRole;
    forall d | d in decisions ensures DecisionOfRole(tasks, role, v)(d) <==> mine(d) && WithVerdict(v)(d) {
      assert d.taskId.Some? ==> d.taskId == Some(d.taskId.value);
    }
    FilterOfFilter(mine, WithVerdict(v), DecisionOfRole(tasks, role, v), decisions);
  }

  lemma RoleIds(tasks: seq<Task>, role: Text, ids: set<Text>)
    requires ids == set t | t in tasks && t.role == Some(role) :: t.id
    ensures forall id :: id in ids <==> HasTask(Filter(TaskOfRole(role), tasks), Some(id))
  {
    forall t: Task ensures t in Filter(TaskOfRole(role), tasks) <==> t in tasks && t.role == Some(role) {
      FilterMembers(TaskOfRole(role), tasks, t);
    }
  }

  /** `_agents`: one row per role, in the order the roles first appear, each built from the role's own records. */
  method Agents(tasks: seq<Task>, decisions: seq<Decision>, findings: seq<Finding>, taskByTrace: map<Text, Text>,
    ghost traces: seq<Trace>) returns (rows: seq<Row>)
    requires Leads(taskByTrace, traces)
    ensures rows == Rows(tasks, decisions, findings, traces)
  {
    hide RolesInOrder, HasTask, TaskByTrace, Count, Filter;
    var roles := OrderedRoles(tasks);
    var idsByRole := map role | role in roles :: set t | t in tasks && t.role == Some(role) :: t.id;
    rows := [];
    for i := 0 to |roles|
      invariant |rows| == i
      invariant forall j | 0 <= j < i :: rows[j] == RowOf(tasks, decisions, findings, traces, roles[j])
    {
      var role := roles[i];
      var ids := idsByRole[role];
      var roleTasks := Filter((t: Task) => t.role == Some(role), tasks);
      var mine := (d: Decision) => d.role == role || (d.taskId.Some? && d.taskId.value in ids);
      var roleDecisions := Filter(mine, decisions);
      var denials := Filter((d: Decision) => d.verdict == Deny, roleDecisions);
      var executed := Count((t: Task) => IsStarted(t), roleTasks);
      var allowed := Count((d: Decision) => d.verdict == Allow, roleDecisions);
      var found := Filter((f: Finding) => f.traceId in taskByTrace && taskByTrace[f.traceId] in ids, findings);
      RoleIds(tasks, role, ids);
      RowDecisions(tasks, role, ids, decisions, mine, Allow);
      RowDecisions(tasks, role, ids, decisions, mine, Deny);
      FilterSame((d: Decision) => d.verdict == Allow, WithVerdict(Allow), roleDecisions);
      FilterSame((d: Decision) => d.verdict == Deny, WithVerdict(Deny), roleDecisions);
      FilterSame((t: Task) => t.role == Some(role), TaskOfRole(role), tasks);
      RowExecuted(tasks, role, roleTasks, (t: Task) => IsStarted(t));
      RowFindings(tasks, role, ids, findings, taskByTrace, traces,
                  (f: Finding) => f.traceId in taskByTrace && taskByTrace[f.traceId] in ids);
      CountIsLength((d: Decision) => d.verdict == Deny, roleDecisions);
      rows := rows + [Row(role, roleTasks, executed, allowed, |denials|, found)];
    }
  }

  lemma CountIsLength<T>(p: T -> bool, s: seq<T>)
    ensures |Filter(p, s)| == Count(p, s)
  {
  }

  lemma RowExecuted(tasks: seq<Task>, role: Text, roleTasks: seq<Task>, started: Task -> bool)
    requires roleTasks == Filter(TaskOfRole(role), tasks) && forall t :: started(t) <==> IsStarted(t)
    ensures Count(started, roleTasks) == Count(StartedTaskOfRole(role), tasks)
  {
    hide IsStarted;
    FilterOfFilter(TaskOfRole(role), started, StartedTaskOfRole(role), tasks);
  }

  lemma RowFindings(tasks: seq<Task>, role: Text, ids: set<Text>, findings: seq<Finding>,
    taskByTrace: map<Text, Text>, traces: seq<Trace>, mine: Finding -> bool)
    requires forall id :: id in ids <==> HasTask(Filter(TaskOfRole(role), tasks), Some(id))
    requires Leads(taskByTrace, traces)
    requires forall f :: mine(f) <==> f.traceId in taskByTrace && taskByTrace[f.traceId] in ids
    ensures Filter(mine, findings) == Filter(FindingOfRole(tasks, traces, role), findings)
  {
    hide TaskByTrace, TaskOfRole;
    forall f | f in findings ensures mine(f) <==> FindingOfRole(tasks, traces, role)(f) {
      var id := TaskByTrace(traces, f.traceId);
      assert id == if f.traceId in taskByTrace then Some(taskByTrace[f.traceId]) else None;
      assert id.Some? ==> id == Some(id.value);
    }
    FilterSame(mine, FindingOfRole(tasks, traces, role), findings);
  }

  function Rows(tasks: seq<Task>, decisions: seq<Decision>, findings: seq<Finding>, traces: seq<Trace>): seq<Row> {
    var roles := RolesInOrder(tasks);
    seq(|roles|, i requires 0 <= i < |roles| => RowOf(tasks, decisions, findings, traces, roles[i]))
  }

  /** `_handoff`. */
  function Handoff(tasks: seq<Task>): (r: seq<HandoffStep>)
    ensures |r| == |tasks|
  {
    seq(|tasks|, i requires 0 <= i < |tasks| =>
      HandoffStep(i + 1, tasks[i], if RoleOf(tasks[i]) == [] then Lit("orchestrator") else RoleOf(tasks[i])))
  }

  function WithVerdict(v: Verdict): Decision -> bool {
    (d: Decision) => d.verdict == v
  }

  /** `_totals`. */
  function TotalsOf(tasks: seq<Task>, decisions: seq<Decision>, findings: seq<Finding>): Totals {
    Totals(
      |set t | t in tasks && IsAgentRole(RoleOf(t)) :: RoleOf(t)|,
      |tasks|,
      Count((t: Task) => t.humanGate, tasks),
      Count(WithVerdict(Allow), decisions),
      Count(WithVerdict(Deny), decisions),
      Count((f: Finding) => f.blocked, findings))
  }

  function SumTasks(rows: seq<Row>): nat {
    if rows == [] then 0 else |rows[0].tasks| + SumTasks(rows[1..])
  }

  function SumVerdict(rows: seq<Row>, v: Verdict): nat {
    if rows == [] then 0 else (if v.Allow? then rows[0].allowed else rows[0].denied) + SumVerdict(rows[1..], v)
  }

  function SumFindings(rows: seq<Row>): nat {
    if rows == [] then 0 else |rows[0].findings| + SumFindings(rows[1..])
  }

  // ------------------------------------------------------------- conservation

  predicate SomeTaskHas(tasks: seq<Task>, role: Text) {
    exists t | t in tasks :: RoleOf(t) == role
  }

  lemma {:induction false} RolesInOrderFacts(tasks: seq<Task>)
    ensures forall i, j | 0 <= i < j < |RolesInOrder(tasks)| :: RolesInOrder(tasks)[i] != RolesInOrder(tasks)[j]
    ensures forall role: Text :: role in RolesInOrder(tasks) <==> IsAgentRole(role) && SomeTaskHas(tasks, role)
  {
    if tasks != [] {
      var front, last := tasks[..|tasks| - 1], tasks[|tasks| - 1];
      RolesInOrderFacts(front);
      assert tasks == front + [last];
      forall role: Text ensures SomeTaskHas(tasks, role) <==> RoleOf(last) == role || SomeTaskHas(front, role) {
        assert last in tasks;
        if SomeTaskHas(front, role) {
          var t :| t in front && RoleOf(t) == role;
          assert t in tasks;
        }
      }
    }
  }

  lemma {:induction false} DistinctSetSize(s: seq<Text>)
    requires forall i, j | 0 <= i < j < |s| :: s[i] != s[j]
    ensures |set x | x in s| == |s|
  {
    if s != [] {
      DistinctSetSize(s[1..]);
      assert s[0] !in s[1..];
      assert s == [s[0]] + s[1..];
      assert (set x | x in s) == (set x | x in s[1..]) + {s[0]};
    }
  }

  /** As many rows as specialist agents. */
  lemma RowPerSpecialist(tasks: seq<Task>, decisions: seq<Decision>, findings: seq<Finding>, traces: seq<Trace>)
    ensures |Rows(tasks, decisions, findings, traces)| == TotalsOf(tasks, decisions, findings).specialists
  {
    var roles := RolesInOrder(tasks);
    RolesInOrderFacts(tasks);
    DistinctSetSize(roles);
    assert (set r | r in roles) == set t | t in tasks && IsAgentRole(RoleOf(t)) :: RoleOf(t);
  }

  lemma {:induction false} SumTasksRows(roles: seq<Text>, rows: seq<Row>, tasks: seq<Task>, p: (Text, Task) -> bool)
    requires |rows| == |roles|
    requires forall i | 0 <= i < |rows| :: rows[i].tasks == Filter(TaskOfRole(roles[i]), tasks)
    requires forall r, t :: p(r, t) <==> t.role == Some(r)
    ensures SumTasks(rows) == SumRows(p, roles, tasks)
  {
    if rows != [] {
      RowCountFilter(p, TaskOfRole(roles[0]), roles[0], tasks);
      SumTasksRows(roles[1..], rows[1..], tasks, p);
    }
  }

  function AgentTask(): Task -> bool {
    (t: Task) => IsAgentRole(RoleOf(t))
  }

  /** The tasks of the rows and the tasks of no agent are all the tasks. */
  lemma TasksConserved(tasks: seq<Task>, decisions: seq<Decision>, findings: seq<Finding>, traces: seq<Trace>)
    ensures SumTasks(Rows(tasks, decisions, findings, traces)) == Count(AgentTask(), tasks)
    ensures SumTasks(Rows(tasks, decisions, findings, traces)) + Count((t: Task) => !IsAgentRole(RoleOf(t)), tasks)
         == TotalsOf(tasks, decisions, findings).tasks
  {
    var roles, rows := RolesInOrder(tasks), Rows(tasks, decisions, findings, traces);
    var p := (r: Text, t: Task) => t.role == Some(r);
    RolesInOrderFacts(tasks);
    SumTasksRows(roles, rows, tasks, p);
    DoubleCount(p, roles, tasks);
    forall t | t in tasks ensures ColumnCount(p, roles, t) == if AgentTask()(t) then 1 else 0 {
      ColumnOfNames(p, roles, t, if t.role.Some? then {t.role.value} else {});
      var here := set r | r in (if t.role.Some? then {t.role.value} else {}) && r in roles;
      assert here == if IsAgentRole(RoleOf(t)) then {RoleOf(t)} else {};
    }
    SumOfUnits(p, AgentTask(), roles, tasks);
    CountComplement(AgentTask(), (t: Task) => !IsAgentRole(RoleOf(t)), tasks);
  }

  /** The roles of the tasks an identifier names: one at the most, identifiers being distinct. */
  function RolesOfTask(tasks: seq<Task>, id: Option<Text>): set<Text> {
    set t | t in tasks && id == Some(t.id) && t.role.Some? :: t.role.value
  }

  lemma TaskHasRoleMeans(tasks: seq<Task>, id: Option<Text>, role: Text)
    ensures TaskHasRole(tasks, id, role) <==> role in RolesOfTask(tasks, id)
  {
    var mine := Filter(TaskOfRole(role), tasks);
    if TaskHasRole(tasks, id, role) {
      var t :| t in mine && t.id == id.value;
      FilterMembers(TaskOfRole(role), tasks, t);
    }
    if role in RolesOfTask(tasks, id) {
      var t :| t in tasks && id == Some(t.id) && t.role == Some(role);
      FilterMembers(TaskOfRole(role), tasks, t);
    }
  }

  lemma OneRoleOfTask(tasks: seq<Task>, id: Option<Text>)
    requires DistinctTasks(tasks)
    ensures forall a, b | a in RolesOfTask(tasks, id) && b in RolesOfTask(tasks, id) :: a == b
    ensures |RolesOfTask(tasks, id)| <= 1
  {
    var names := RolesOfTask(tasks, id);
    if names != {} {
      var r :| r in names;
      assert names == {r};
    }
  }

  lemma {:induction false} SumFindingsRows(roles: seq<Text>, rows: seq<Row>, tasks: seq<Task>, findings: seq<Finding>,
    traces: seq<Trace>, p: (Text, Finding) -> bool)
    requires |rows| == |roles|
    requires forall i | 0 <= i < |rows| :: rows[i].findings == Filter(FindingOfRole(tasks, traces, roles[i]), findings)
    requires forall r, f :: p(r, f) <==> TaskHasRole(tasks, TaskByTrace(traces, f.traceId), r)
    ensures SumFindings(rows) == SumRows(p, roles, findings)
  {
    if rows != [] {
      RowCountFilter(p, FindingOfRole(tasks, traces, roles[0]), roles[0], findings);
      SumFindingsRows(roles[1..], rows[1..], tasks, findings, traces, p);
    }
  }

  /** The finding's trace leads to a task an agent role carries. */
  function OnAgentTask(tasks: seq<Task>, traces: seq<Trace>): Finding -> bool {
    (f: Finding) => exists r | r in RolesOfTask(tasks, TaskByTrace(traces, f.traceId)) :: IsAgentRole(r)
  }

  lemma RolesOfTaskListed(tasks: seq<Task>, id: Option<Text>)
    ensures forall r | r in RolesOfTask(tasks, id) :: r in RolesInOrder(tasks) <==> IsAgentRole(r)
  {
    RolesInOrderFacts(tasks);
    forall r | r in RolesOfTask(tasks, id) ensures r in RolesInOrder(tasks) <==> IsAgentRole(r) {
      var t :| t in tasks && id == Some(t.id) && t.role == Some(r);
      assert RoleOf(t) == r;
    }
  }

  lemma FindingColumn(tasks: seq<Task>, traces: seq<Trace>, f: Finding, p: (Text, Finding) -> bool)
    requires DistinctTasks(tasks)
    requires forall r :: p(r, f) <==> TaskHasRole(tasks, TaskByTrace(traces, f.traceId), r)
    ensures ColumnCount(p, RolesInOrder(tasks), f) == if OnAgentTask(tasks, traces)(f) then 1 else 0
  {
    hide RolesInOrder, ColumnCount, RolesOfTask, TaskHasRole, TaskByTrace, IsAgentRole;
    var roles := RolesInOrder(tasks);
    RolesInOrderFacts(tasks);
    var id := TaskByTrace(traces, f.traceId);
    var names := RolesOfTask(tasks, id);
    forall r ensures p(r, f) <==> r in names {
      TaskHasRoleMeans(tasks, id, r);
    }
    ColumnOfNames(p, roles, f, names);
    OneRoleOfTask(tasks, id);
    RolesOfTaskListed(tasks, id);
    var here := set r | r in names && r in roles;
    if r :| r in names && IsAgentRole(r) {
      assert here == {r};
    } else {
      assert here == {};
    }
  }

  /** A guardrail finding falls into one row when its task is an agent's, and into none otherwise. */
  lemma FindingsConserved(tasks: seq<Task>, decisions: seq<Decision>, findings: seq<Finding>, traces: seq<Trace>)
    requires DistinctTasks(tasks)
    ensures SumFindings(Rows(tasks, decisions, findings, traces)) == Count(OnAgentTask(tasks, traces), findings)
    ensures forall f | f in findings ::
      ColumnCount((r: Text, g: Finding) => TaskHasRole(tasks, TaskByTrace(traces, g.traceId), r), RolesInOrder(tasks), f)
        == if OnAgentTask(tasks, traces)(f) then 1 else 0
  {
    var roles, rows := RolesInOrder(tasks), Rows(tasks, decisions, findings, traces);
    var p := (r: Text, g: Finding) => TaskHasRole(tasks, TaskByTrace(traces, g.traceId), r);
    SumFindingsRows(roles, rows, tasks, findings, traces, p);
    DoubleCount(p, roles, findings);
    hide RolesInOrder, ColumnCount, TaskHasRole, TaskByTrace, OnAgentTask;
    forall f | f in findings ensures ColumnCount(p, roles, f) == if OnAgentTask(tasks, traces)(f) then 1 else 0 {
      FindingColumn(tasks, traces, f, p);
    }
    SumOfUnits(p, OnAgentTask(tasks, traces), roles, findings);
  }

  /** The names a decision can be filed under: its own role and its task's. */
  function NamesOf(tasks: seq<Task>, d: Decision): set<Text> {
    {d.role} + RolesOfTask(tasks, d.taskId)
  }

  function Filed(tasks: seq<Task>, v: Verdict): Decision -> bool {
    (d: Decision) => d.verdict == v && exists r | r in NamesOf(tasks, d) :: r in RolesInOrder(tasks)
  }

  /** Its own role and its task's are different rows. */
  function FiledTwice(tasks: seq<Task>, v: Verdict): Decision -> bool {
    (d: Decision) =>
      && d.verdict == v && d.role in RolesInOrder(tasks)
      && exists r | r in RolesOfTask(tasks, d.taskId) :: r != d.role && r in RolesInOrder(tasks)
  }

  lemma {:induction false} SumVerdictRows(roles: seq<Text>, rows: seq<Row>, tasks: seq<Task>, decisions: seq<Decision>,
    v: Verdict, p: (Text, Decision) -> bool)
    requires |rows| == |roles|
    requires forall i | 0 <= i < |rows| ::
      rows[i].allowed == Count(DecisionOfRole(tasks, roles[i], Allow), decisions)
      && rows[i].denied == Count(DecisionOfRole(tasks, roles[i], Deny), decisions)
    requires forall r, d :: p(r, d) <==> DecisionOfRole(tasks, r, v)(d)
    ensures SumVerdict(rows, v) == SumRows(p, roles, decisions)
  {
    if rows != [] {
      RowCountFilter(p, DecisionOfRole(tasks, roles[0], v), roles[0], decisions);
      SumVerdictRows(roles[1..], rows[1..], tasks, decisions, v, p);
    }
  }

  /** Of two names, how many are listed. */
  lemma ListedNames(own: Text, theirs: set<Text>, roles: seq<Text>)
    requires forall a, b | a in theirs && b in theirs :: a == b
    ensures var names := {own} + theirs;
      |set r | r in names && r in roles|
        == (if exists r | r in names :: r in roles then 1 else 0)
         + (if own in roles && exists r | r in theirs :: r != own && r in roles then 1 else 0)
  {
    var here := set r | r in {own} + theirs && r in roles;
    if own in roles && exists r | r in theirs :: r != own && r in roles {
      var r :| r in theirs && r != own && r in roles;
      assert here == {own, r};
    } else if r :| r in {own} + theirs && r in roles {
      assert here == {r};
    } else {
      assert here == {};
    }
  }

  lemma DecisionColumn(tasks: seq<Task>, d: Decision, v: Verdict, p: (Text, Decision) -> bool)
    requires DistinctTasks(tasks) && forall r :: p(r, d) <==> DecisionOfRole(tasks, r, v)(d)
    ensures ColumnCount(p, RolesInOrder(tasks), d)
         == (if Filed(tasks, v)(d) then 1 else 0) + (if FiledTwice(tasks, v)(d) then 1 else 0)
  {
    hide RolesInOrder, ColumnCount, RolesOfTask, TaskHasRole;
    var roles := RolesInOrder(tasks);
    RolesInOrderFacts(tasks);
    var theirs := RolesOfTask(tasks, d.taskId);
    var names := if d.verdict == v then {d.role} + theirs else {};
    forall r ensures p(r, d) <==> r in names {
      TaskHasRoleMeans(tasks, d.taskId, r);
    }
    ColumnOfNames(p, roles, d, names);
    OneRoleOfTask(tasks, d.taskId);
    ListedNames(d.role, theirs, roles);
    if d.verdict != v {
      assert (set r | r in names && r in roles) == {};
    }
  }

  /** The rows count every filed decision once, and the doubly filed ones once more. */
  lemma DecisionsCounted(tasks: seq<Task>, decisions: seq<Decision>, findings: seq<Finding>, traces: seq<Trace>, v: Verdict)
    requires DistinctTasks(tasks)
    ensures SumVerdict(Rows(tasks, decisions, findings, traces), v)
         == Count(Filed(tasks, v), decisions) + Count(FiledTwice(tasks, v), decisions)
  {
    var roles, rows := RolesInOrder(tasks), Rows(tasks, decisions, findings, traces);
    var p := (r: Text, d: Decision) => DecisionOfRole(tasks, r, v)(d);
    SumVerdictRows(roles, rows, tasks, decisions, v, p);
    DoubleCount(p, roles, decisions);
    forall d | d in decisions
      ensures ColumnCount(p, roles, d)
           == (if Filed(tasks, v)(d) then 1 else 0) + (if FiledTwice(tasks, v)(d) then 1 else 0)
    {
      DecisionColumn(tasks, d, v, p);
    }
    SumOfOnesAndTwos(p, Filed(tasks, v), FiledTwice(tasks, v), roles, decisions);
  }

  /** Row sums equal the filed decisions exactly when none names one agent on another agent's task. */
  lemma DecisionsConserved(tasks: seq<Task>, decisions: seq<Decision>, findings: seq<Finding>, traces: seq<Trace>, v: Verdict)
    requires DistinctTasks(tasks)
    ensures SumVerdict(Rows(tasks, decisions, findings, traces), v) == Count(Filed(tasks, v), decisions)
      <==> forall d | d in decisions :: !FiledTwice(tasks, v)(d)
  {
    DecisionsCounted(tasks, decisions, findings, traces, v);
    CountZero(FiledTwice(tasks, v), decisions);
  }

  /** The decision's own role is that of its task, where the task is in view and carries one. */
  predicate NamesItsTask(tasks: seq<Task>, d: Decision) {
    forall r | r in RolesOfTask(tasks, d.taskId) :: r == d.role
  }

  /** Decisions that name their own task's role are counted once each, under that role. */
  lemma ConsistentDecisionsConserved(tasks: seq<Task>, decisions: seq<Decision>, findings: seq<Finding>,
    traces: seq<Trace>, v: Verdict)
    requires DistinctTasks(tasks) && forall d | d in decisions :: NamesItsTask(tasks, d)
    ensures SumVerdict(Rows(tasks, decisions, findings, traces), v)
         == Count((d: Decision) => d.verdict == v && d.role in RolesInOrder(tasks), decisions)
  {
    DecisionsConserved(tasks, decisions, findings, traces, v);
    forall d | d in decisions ensures Filed(tasks, v)(d) <==> d.verdict == v && d.role in RolesInOrder(tasks) {
      assert d.role in NamesOf(tasks, d);
    }
    FilterSame(Filed(tasks, v), (d: Decision) => d.verdict == v && d.role in RolesInOrder(tasks), decisions);
  }

  /** One agent's decision recorded on another agent's task is on both their rows. */
  lemma CrossFiledDecision()
    ensures var tasks := [
        Task([1], [9], [1], 101, 0, Some(Lit("skeptic")), Lit("running"), false, 1),
        Task([2], [9], [2], 102, 0, Some(Lit("quality-reviewer")), Lit("running"), false, 1)];
      var decisions := [Decision(Some([9]), Some([2]), Lit("skeptic"), Allow)];
      DistinctTasks(tasks)
      && SumVerdict(Rows(tasks, decisions, [], []), Allow) != Count(Filed(tasks, Allow), decisions)
  {
    var t1 := Task([1], [9], [1], 101, 0, Some(Lit("skeptic")), Lit("running"), false, 1);
    var t2 := Task([2], [9], [2], 102, 0, Some(Lit("quality-reviewer")), Lit("running"), false, 1);
    var d := Decision(Some([9]), Some([2]), Lit("skeptic"), Allow);
    var tasks := [t1, t2];
    hide Lit, IsAgentRole, RolesInOrder, SumVerdict, Rows, Count, Filed;
    TwoAgents();
    assert t1 in tasks && t2 in tasks;
    RolesInOrderFacts(tasks);
    assert SomeTaskHas(tasks, Lit("skeptic")) && SomeTaskHas(tasks, Lit("quality-reviewer")) by {
      assert RoleOf(t1) == Lit("skeptic") && RoleOf(t2) == Lit("quality-reviewer");
    }
    assert Lit("quality-reviewer") in RolesOfTask(tasks, d.taskId);
    assert FiledTwice(tasks, Allow)(d);
    DecisionsConserved(tasks, [d], [], [], Allow);
    assert d in [d];
  }

  lemma TwoAgents()
    ensures IsAgentRole(Lit("skeptic")) && IsAgentRole(Lit("quality-reviewer"))
    ensures Lit("skeptic") != Lit("quality-reviewer")
  {
    assert Lower(Lit("skeptic"))[1] == 107 && Lit("system")[1] == 121;
    assert |Lit("skeptic")| != |Lit("quality-reviewer")|;
  }

  // ----------------------------------------------------------------- handoff

  lemma TaskLePreorder()
    ensures TotalPreorder(TaskLe)
  {
    forall x, y ensures TaskLe(x, y) || TaskLe(y, x) {
      LexTotal(x.key, y.key);
    }
    forall x, y, z | TaskLe(x, y) && TaskLe(y, z) ensures TaskLe(x, z) {
      if LexLe(x.key, y.key) && LexLe(y.key, z.key) {
        LexTransitive(x.key, y.key, z.key);
      }
    }
  }

  /** Task keys are unique within an engagement. */
  predicate DistinctKeysWithin(tasks: seq<Task>) {
    forall a, b | a in tasks && b in tasks && a.engagementId == b.engagementId && a.key == b.key :: a == b
  }

  /** The handoff lists the engagement's tasks, each once, in key order, numbered from one. */
  lemma HandoffLists(tasks: seq<Task>, engagement: Text)
    ensures var h, scoped := Handoff(ScopedTasks(tasks, engagement)), ScopedTasks(tasks, engagement);
      && multiset(scoped) == multiset(Filter(TaskOf(engagement), tasks))
      && Sorted(TaskLe, scoped)
      && forall i | 0 <= i < |h| :: h[i].step == i + 1 && h[i].task == scoped[i]
  {
    TaskLePreorder();
    SortFacts(TaskLe, Filter(TaskOf(engagement), tasks));
  }

  /** The order in which the database returns the tasks never reaches the handoff. */
  lemma ScopedOrderFree(a: seq<Task>, b: seq<Task>, engagement: Text)
    requires multiset(a) == multiset(b) && DistinctKeysWithin(a)
    ensures ScopedTasks(a, engagement) == ScopedTasks(b, engagement)
    ensures Handoff(ScopedTasks(a, engagement)) == Handoff(ScopedTasks(b, engagement))
  {
    var mine := Filter(TaskOf(engagement), a);
    FilterPermuted(TaskOf(engagement), a, b);
    TaskLePreorder();
    forall x, y | x in mine && y in mine && TaskLe(x, y) && TaskLe(y, x) ensures x == y {
      FilterMembers(TaskOf(engagement), a, x);
      FilterMembers(TaskOf(engagement), a, y);
      LexAntisymmetric(x.key, y.key);
    }
    SortOrderFree(TaskLe, mine, Filter(TaskOf(engagement), b));
  }

  // ---------------------------------------------------------------- the view

  datatype View = View(engagement: Option<Engagement>, rows: seq<Row>, handoff: seq<HandoffStep>, totals: Totals)

  /** The view of one engagement: its tasks in order, and what the gateway and the guardrails recorded on them. */
  function ViewOf(e: Engagement, tasks: seq<Task>, decisions: seq<Decision>, findings: seq<Finding>, traces: seq<Trace>)
    : View
  {
    var scoped := ScopedTasks(tasks, e.id);
    var decided, found := Filter(InScope(scoped, e.id), decisions), Filter(FindingInScope(scoped, traces), findings);
    View(Some(e), Rows(scoped, decided, found, traces), Handoff(scoped), TotalsOf(scoped, decided, found))
  }

  const EMPTY_VIEW := View(None, [], [], Totals(0, 0, 0, 0, 0, 0))

  /** `engagement_delegation`, after reading the tables. */
  method EngagementDelegation(engagements: seq<Engagement>, tasks: seq<Task>, decisions: seq<Decision>,
    findings: seq<Finding>, traces: seq<Trace>, requested: Option<Text>) returns (view: View)
    ensures view.engagement.None? ==> view == EMPTY_VIEW
    ensures requested.None? ==> (view.engagement.None? <==> engagements == [])
    ensures requested.Some? ==> (view.engagement.None? <==> forall e | e in engagements :: e.id != requested.value)
    ensures view.engagement.Some? ==> view == ViewOf(view.engagement.value, tasks, decisions, findings, traces)
    ensures view.engagement.Some? && requested.None? ==> IsTop(engagements, tasks, decisions, view.engagement.value)
    ensures view.engagement.Some? && requested.Some? ==>
      view.engagement.value in engagements && view.engagement.value.id == requested.value
  {
    hide IsTop, RolesInOrder, ScopedTasks, RowOf, TotalsOf, Handoff;
    var selected := SelectEngagement(engagements, tasks, decisions, requested);
    if selected.None? {
      return EMPTY_VIEW;
    }
    var taskByTrace := MapTraces(traces);
    var e := selected.value;
    var scoped := ScopedTasks(tasks, e.id);
    var decided, found := Filter(InScope(scoped, e.id), decisions), Filter(FindingInScope(scoped, traces), findings);
    var rows := Agents(scoped, decided, found, taskByTrace, traces);
    view := View(Some(e), rows, Handoff(scoped), TotalsOf(scoped, decided, found));
  }

  lemma ScopedDistinct(tasks: seq<Task>, engagement: Text)
    requires DistinctTasks(tasks)
    ensures DistinctTasks(ScopedTasks(tasks, engagement))
  {
    FilterDistinct(TaskOf(engagement), tasks);
    TaskLePreorder();
    var own := Filter(TaskOf(engagement), tasks);
    SortFacts(TaskLe, own);
    DistinctPermuted(own, Sort(TaskLe, own));
  }

  lemma {:induction false} FilterDistinct(p: Task -> bool, tasks: seq<Task>)
    requires DistinctTasks(tasks)
    ensures DistinctTasks(Filter(p, tasks))
  {
    if tasks != [] {
      FilterDistinct(p, tasks[1..]);
      forall t | t in Filter(p, tasks[1..]) ensures t.id != tasks[0].id {
        FilterMembers(p, tasks[1..], t);
      }
    }
  }

  /** Distinctness of identifiers is a matter of multiplicity alone. */
  lemma DistinctPermuted(a: seq<Task>, b: seq<Task>)
    requires multiset(a) == multiset(b) && DistinctTasks(a)
    ensures DistinctTasks(b)
  {
    forall i, j | 0 <= i < j < |b| ensures b[i].id != b[j].id {
      assert b[i] in multiset(a) && b[j] in multiset(a);
      Multiplicity(a, b[i]);
      if b[i] == b[j] {
        TwicePresent(b, i, j);
      }
    }
  }

  /**
   * The view accounts for everything in scope: a row for each specialist, every task in its role's row
   * or with no agent, every finding in one row or on such a task.
   */
  lemma ViewConserves(e: Engagement, tasks: seq<Task>, decisions: seq<Decision>, findings: seq<Finding>, traces: seq<Trace>)
    requires DistinctTasks(tasks)
    ensures var view, scoped := ViewOf(e, tasks, decisions, findings, traces), ScopedTasks(tasks, e.id);
      var found := Filter(FindingInScope(scoped, traces), findings);
      && |view.rows| == view.totals.specialists
      && SumTasks(view.rows) + Count((t: Task) => !IsAgentRole(RoleOf(t)), scoped) == view.totals.tasks == |view.handoff|
      && SumFindings(view.rows) + Count((f: Finding) => !OnAgentTask(scoped, traces)(f), found) == |found|
  {
    var scoped := ScopedTasks(tasks, e.id);
    var decided, found := Filter(InScope(scoped, e.id), decisions), Filter(FindingInScope(scoped, traces), findings);
    hide ScopedTasks, InScope, FindingInScope, OnAgentTask, Rows, SumTasks, SumFindings;
    ScopedDistinct(tasks, e.id);
    RowPerSpecialist(scoped, decided, found, traces);
    TasksConserved(scoped, decided, found, traces);
    FindingsConserved(scoped, decided, found, traces);
    CountComplement(OnAgentTask(scoped, traces), (f: Finding) => !OnAgentTask(scoped, traces)(f), found);
  }

  lemma RowsPermuted(scoped: seq<Task>, a: seq<Decision>, b: seq<Decision>, findings: seq<Finding>, traces: seq<Trace>)
    requires multiset(a) == multiset(b)
    ensures Rows(scoped, a, findings, traces) == Rows(scoped, b, findings, traces)
    ensures TotalsOf(scoped, a, findings) == TotalsOf(scoped, b, findings)
  {
    forall role: Text ensures RowOf(scoped, a, findings, traces, role) == RowOf(scoped, b, findings, traces, role) {
      FilterPermuted(DecisionOfRole(scoped, role, Allow), a, b);
      FilterPermuted(DecisionOfRole(scoped, role, Deny), a, b);
    }
    FilterPermuted(WithVerdict(Allow), a, b);
    FilterPermuted(WithVerdict(Deny), a, b);
  }

  /** The engagement, task and decision rows may arrive in any order: the whole view is the same. */
  lemma ViewOrderFree(e1: seq<Engagement>, e2: seq<Engagement>, t1: seq<Task>, t2: seq<Task>,
    d1: seq<Decision>, d2: seq<Decision>, findings: seq<Finding>, traces: seq<Trace>, a: Engagement, b: Engagement)
    requires multiset(e1) == multiset(e2) && multiset(t1) == multiset(t2) && multiset(d1) == multiset(d2)
    requires DistinctEngagements(e1) && DistinctTasks(t1) && DistinctKeysWithin(t1)
    requires IsTop(e1, t1, d1, a) && IsTop(e2, t2, d2, b)
    ensures ViewOf(a, t1, d1, findings, traces) == ViewOf(b, t2, d2, findings, traces)
  {
    TopUniqueAndOrderFree(e1, e2, t1, t2, d1, d2, a, b);
    ScopedOrderFree(t1, t2, a.id);
    hide Rows, TotalsOf, IsTop, ScopedTasks, InScope, FindingInScope, DistinctKeysWithin, Handoff;
    var scoped := ScopedTasks(t1, a.id);
    FilterPermuted(InScope(scoped, a.id), d1, d2);
    RowsPermuted(scoped, Filter(InScope(scoped, a.id), d1), Filter(InScope(scoped, a.id), d2),
                 Filter(FindingInScope(scoped, traces), findings), traces);
  }

  // --------------------------------------------- the view, in the raw rows' own fields

  /** The task is this engagement's, and this is its identifier. */
  predicate Names(t: Task, engagement: Text, id: Option<Text>) {
    t.engagementId == engagement && id == Some(t.id)
  }

  /** The decision was recorded on the engagement or on a task of it. */
  function Touches(tasks: seq<Task>, engagement: Text, v: Verdict): Decision -> bool {
    (d: Decision) =>
      d.verdict == v
      && (d.engagementId == Some(engagement) || exists t | t in tasks :: Names(t, engagement, d.taskId))
  }

  /** One of those, by the role itself or on a task of the engagement the role carries. */
  function TouchesRole(tasks: seq<Task>, engagement: Text, v: Verdict, role: Text): Decision -> bool {
    (d: Decision) =>
      Touches(tasks, engagement, v)(d)
      && (d.role == role || exists t | t in tasks :: Names(t, engagement, d.taskId) && t.role == Some(role))
  }

  function NamesATask(id: Text): Trace -> bool {
    (t: Trace) => t.id == id && t.taskId.Some? && t.taskId.value != []
  }

  /** The last trace of the finding's identifier that names a task names this one. */
  predicate TracedTo(traces: seq<Trace>, f: Finding, id: Text) {
    exists k | 0 <= k < |traces| :: LastAt(NamesATask(f.traceId), traces, k) && traces[k].taskId == Some(id)
  }

  function Raised(tasks: seq<Task>, engagement: Text, traces: seq<Trace>): Finding -> bool {
    (f: Finding) => exists t | t in tasks :: t.engagementId == engagement && TracedTo(traces, f, t.id)
  }

  function RaisedOn(tasks: seq<Task>, engagement: Text, traces: seq<Trace>, role: Text): Finding -> bool {
    (f: Finding) =>
      exists t | t in tasks :: t.engagementId == engagement && TracedTo(traces, f, t.id) && t.role == Some(role)
  }

  lemma ScopedMembers(tasks: seq<Task>, engagement: Text, t: Task)
    ensures t in ScopedTasks(tasks, engagement) <==> t in tasks && t.engagementId == engagement
  {
    TaskLePreorder();
    var own := Filter(TaskOf(engagement), tasks);
    SortFacts(TaskLe, own);
    FilterMembers(TaskOf(engagement), tasks, t);
    assert t in own <==> t in multiset(own);
    assert t in ScopedTasks(tasks, engagement) <==> t in multiset(ScopedTasks(tasks, engagement));
  }

  lemma ScopedHas(tasks: seq<Task>, engagement: Text, id: Option<Text>)
    ensures HasTask(ScopedTasks(tasks, engagement), id) <==> exists t | t in tasks :: Names(t, engagement, id)
  {
    hide ScopedTasks;
    forall t: Task ensures t in ScopedTasks(tasks, engagement) <==> t in tasks && t.engagementId == engagement {
      ScopedMembers(tasks, engagement, t);
    }
    if t :| t in tasks && Names(t, engagement, id) {
      assert t in ScopedTasks(tasks, engagement);
    }
  }

  lemma ScopedHasRole(tasks: seq<Task>, engagement: Text, id: Option<Text>, role: Text)
    ensures TaskHasRole(ScopedTasks(tasks, engagement), id, role)
      <==> exists t | t in tasks :: Names(t, engagement, id) && t.role == Some(role)
  {
    hide ScopedTasks, Filter;
    forall t: Task
      ensures t in Filter(TaskOfRole(role), ScopedTasks(tasks, engagement))
        <==> t in tasks && t.engagementId == engagement && t.role == Some(role)
    {
      ScopedMembers(tasks, engagement, t);
      FilterMembers(TaskOfRole(role), ScopedTasks(tasks, engagement), t);
    }
    if t :| t in tasks && Names(t, engagement, id) && t.role == Some(role) {
      assert t in Filter(TaskOfRole(role), ScopedTasks(tasks, engagement));
    }
  }

  lemma {:induction false} TraceMeans(traces: seq<Trace>, f: Finding, id: Text)
    ensures TaskByTrace(traces, f.traceId) == Some(id) <==> TracedTo(traces, f, id)
  {
    if traces != [] {
      var n := |traces| - 1;
      TraceMeans(traces[..n], f, id);
      forall k ensures LastAt(NamesATask(f.traceId), traces, k)
        <==> if NamesATask(f.traceId)(traces[n]) then k == n else LastAt(NamesATask(f.traceId), traces[..n], k)
      {
        LastOfFront(NamesATask(f.traceId), traces, k);
      }
      if TracedTo(traces[..n], f, id) && !NamesATask(f.traceId)(traces[n]) {
        var k :| 0 <= k < n && LastAt(NamesATask(f.traceId), traces[..n], k) && traces[..n][k].taskId == Some(id);
        assert LastAt(NamesATask(f.traceId), traces, k) && traces[k].taskId == Some(id);
      }
      if NamesATask(f.traceId)(traces[n]) {
        assert LastAt(NamesATask(f.traceId), traces, n);
      }
    }
  }

  lemma ScopedTrace(tasks: seq<Task>, engagement: Text, traces: seq<Trace>, f: Finding)
    ensures FindingInScope(ScopedTasks(tasks, engagement), traces)(f) <==> Raised(tasks, engagement, traces)(f)
  {
    hide ScopedTasks, TaskByTrace, TracedTo;
    var id := TaskByTrace(traces, f.traceId);
    ScopedHas(tasks, engagement, id);
    forall t: Task ensures id == Some(t.id) <==> TracedTo(traces, f, t.id) {
      TraceMeans(traces, f, t.id);
    }
    if t :| t in tasks && t.engagementId == engagement && TracedTo(traces, f, t.id) {
      assert Names(t, engagement, id);
    }
  }

  lemma ScopedTraceRole(tasks: seq<Task>, engagement: Text, traces: seq<Trace>, f: Finding, role: Text)
    ensures FindingOfRole(ScopedTasks(tasks, engagement), traces, role)(f) <==> RaisedOn(tasks, engagement, traces, role)(f)
  {
    hide ScopedTasks, TaskByTrace, TracedTo, TaskHasRole;
    var id := TaskByTrace(traces, f.traceId);
    ScopedHasRole(tasks, engagement, id, role);
    forall t: Task ensures id == Some(t.id) <==> TracedTo(traces, f, t.id) {
      TraceMeans(traces, f, t.id);
    }
    if t :| t in tasks && t.engagementId == engagement && TracedTo(traces, f, t.id) && t.role == Some(role) {
      assert Names(t, engagement, id) && t.role == Some(role);
    }
  }

  lemma VerdictsMean(tasks: seq<Task>, engagement: Text, decisions: seq<Decision>, v: Verdict)
    ensures Count(WithVerdict(v), Filter(InScope(ScopedTasks(tasks, engagement), engagement), decisions))
         == Count(Touches(tasks, engagement, v), decisions)
  {
    hide ScopedTasks, HasTask;
    forall d | d in decisions
      ensures Touches(tasks, engagement, v)(d)
        <==> InScope(ScopedTasks(tasks, engagement), engagement)(d) && WithVerdict(v)(d)
    {
      ScopedHas(tasks, engagement, d.taskId);
    }
    FilterOfFilter(InScope(ScopedTasks(tasks, engagement), engagement), WithVerdict(v),
                   Touches(tasks, engagement, v), decisions);
  }

  lemma RoleVerdictsMean(tasks: seq<Task>, engagement: Text, decisions: seq<Decision>, v: Verdict, role: Text)
    ensures var scoped := ScopedTasks(tasks, engagement);
      Count(DecisionOfRole(scoped, role, v), Filter(InScope(scoped, engagement), decisions))
        == Count(TouchesRole(tasks, engagement, v, role), decisions)
  {
    hide ScopedTasks, HasTask, TaskHasRole;
    var scoped := ScopedTasks(tasks, engagement);
    forall d | d in decisions
      ensures TouchesRole(tasks, engagement, v, role)(d)
        <==> InScope(scoped, engagement)(d) && DecisionOfRole(scoped, role, v)(d)
    {
      ScopedHas(tasks, engagement, d.taskId);
      ScopedHasRole(tasks, engagement, d.taskId, role);
      assert Touches(tasks, engagement, v)(d) <==> d.verdict == v && InScope(scoped, engagement)(d);
      assert TouchesRole(tasks, engagement, v, role)(d)
        <==> Touches(tasks, engagement, v)(d) && (d.role == role || TaskHasRole(scoped, d.taskId, role));
    }
    FilterOfFilter(InScope(scoped, engagement), DecisionOfRole(scoped, role, v),
                   TouchesRole(tasks, engagement, v, role), decisions);
  }

  lemma FindingsMean(tasks: seq<Task>, engagement: Text, findings: seq<Finding>, traces: seq<Trace>)
    ensures Filter(FindingInScope(ScopedTasks(tasks, engagement), traces), findings)
         == Filter(Raised(tasks, engagement, traces), findings)
  {
    hide ScopedTasks, FindingInScope, Raised;
    forall f | f in findings
      ensures FindingInScope(ScopedTasks(tasks, engagement), traces)(f) <==> Raised(tasks, engagement, traces)(f)
    {
      ScopedTrace(tasks, engagement, traces, f);
    }
    FilterSame(FindingInScope(ScopedTasks(tasks, engagement), traces), Raised(tasks, engagement, traces), findings);
  }

  lemma RoleFindingsMean(tasks: seq<Task>, engagement: Text, findings: seq<Finding>, traces: seq<Trace>, role: Text)
    ensures var scoped := ScopedTasks(tasks, engagement);
      Filter(FindingOfRole(scoped, traces, role), Filter(FindingInScope(scoped, traces), findings))
        == Filter(RaisedOn(tasks, engagement, traces, role), findings)
  {
    hide ScopedTasks, FindingInScope, FindingOfRole;
    var scoped := ScopedTasks(tasks, engagement);
    forall f | f in findings
      ensures RaisedOn(tasks, engagement, traces, role)(f)
        <==> FindingInScope(scoped, traces)(f) && FindingOfRole(scoped, traces, role)(f)
    {
      ScopedTrace(tasks, engagement, traces, f);
      ScopedTraceRole(tasks, engagement, traces, f, role);
    }
    FilterOfFilter(FindingInScope(scoped, traces), FindingOfRole(scoped, traces, role),
                   RaisedOn(tasks, engagement, traces, role), findings);
  }

  /** The totals count what the raw rows record on the engagement and on its tasks. */
  lemma TotalsMean(e: Engagement, tasks: seq<Task>, decisions: seq<Decision>, findings: seq<Finding>, traces: seq<Trace>)
    ensures var totals := ViewOf(e, tasks, decisions, findings, traces).totals;
      && totals.specialists == |set t | t in tasks && t.engagementId == e.id && CarriesAgent(t) :: t.role|
      && totals.tasks == Count((t: Task) => t.engagementId == e.id, tasks)
      && totals.humanGates == Count((t: Task) => t.engagementId == e.id && t.humanGate, tasks)
      && totals.allowed == Count(Touches(tasks, e.id, Allow), decisions)
      && totals.denied == Count(Touches(tasks, e.id, Deny), decisions)
      && totals.blocks == Count((f: Finding) => Raised(tasks, e.id, traces)(f) && f.blocked, findings)
  {
    hide ScopedTasks, InScope, FindingInScope, Raised, Touches, CarriesAgent, IsAgentRole;
    VerdictsMean(tasks, e.id, decisions, Allow);
    VerdictsMean(tasks, e.id, decisions, Deny);
    FindingsMean(tasks, e.id, findings, traces);
    FilterOfFilter(Raised(tasks, e.id, traces), (f: Finding) => f.blocked,
                   (f: Finding) => Raised(tasks, e.id, traces)(f) && f.blocked, findings);
    ScopedCounts(tasks, e.id);
  }

  lemma ScopedCounts(tasks: seq<Task>, engagement: Text)
    ensures var scoped := ScopedTasks(tasks, engagement);
      && |scoped| == Count((t: Task) => t.engagementId == engagement, tasks)
      && Count((t: Task) => t.humanGate, scoped)
      == Count((t: Task) => t.engagementId == engagement && t.humanGate, tasks)
      && |set t | t in scoped && IsAgentRole(RoleOf(t)) :: RoleOf(t)|
      == |set t | t in tasks && t.engagementId == engagement && CarriesAgent(t) :: t.role|
  {
    hide IsAgentRole, CarriesAgent, Sort;
    TaskLePreorder();
    var own, scoped := Filter(TaskOf(engagement), tasks), ScopedTasks(tasks, engagement);
    SortFacts(TaskLe, own);
    FilterPermuted((t: Task) => t.humanGate, own, scoped);
    FilterOfFilter(TaskOf(engagement), (t: Task) => t.humanGate,
                   (t: Task) => t.engagementId == engagement && t.humanGate, tasks);
    FilterSame(TaskOf(engagement), (t: Task) => t.engagementId == engagement, tasks);
    RolesMean(tasks, engagement);
    forall t: Task ensures t in scoped <==> t in tasks && t.engagementId == engagement {
      ScopedMembers(tasks, engagement, t);
    }
    assert (set t | t in scoped && IsAgentRole(RoleOf(t)) :: RoleOf(t)) == AgentRolesOf(tasks, engagement);
  }

  /** A row holds its role's tasks in order and counts what the raw rows record of the role. */
  lemma RowMeans(e: Engagement, tasks: seq<Task>, decisions: seq<Decision>, findings: seq<Finding>,
    traces: seq<Trace>, i: nat)
    requires i < |ViewOf(e, tasks, decisions, findings, traces).rows|
    ensures var row := ViewOf(e, tasks, decisions, findings, traces).rows[i];
      && (exists t | t in tasks :: t.engagementId == e.id && t.role == Some(row.role) && CarriesAgent(t))
      && row.tasks == Filter((t: Task) => t.role == Some(row.role), ScopedTasks(tasks, e.id))
      && row.executed == Count((t: Task) => t.engagementId == e.id && t.role == Some(row.role) && !(t.status in
           {Lit("pending"), Lit("ready"), Lit("blocked")}), tasks)
      && row.allowed == Count(TouchesRole(tasks, e.id, Allow, row.role), decisions)
      && row.denied == Count(TouchesRole(tasks, e.id, Deny, row.role), decisions)
      && row.findings == Filter(RaisedOn(tasks, e.id, traces, row.role), findings)
  {
    var scoped := ScopedTasks(tasks, e.id);
    var role := RolesInOrder(scoped)[i];
    hide ScopedTasks, InScope, FindingInScope, RaisedOn, TouchesRole, CarriesAgent, IsAgentRole, Lit, FindingOfRole,
      DecisionOfRole, Filter, Count, RolesInOrder;
    RoleVerdictsMean(tasks, e.id, decisions, Allow, role);
    RoleVerdictsMean(tasks, e.id, decisions, Deny, role);
    RoleFindingsMean(tasks, e.id, findings, traces, role);
    FilterSame(TaskOfRole(role), (t: Task) => t.role == Some(role), scoped);
    StartedMeans(tasks, e.id, role);
    RolesInOrderFacts(scoped);
    RoleHeld(tasks, e.id, role);
  }

  lemma RoleHeld(tasks: seq<Task>, engagement: Text, role: Text)
    requires IsAgentRole(role) && SomeTaskHas(ScopedTasks(tasks, engagement), role)
    ensures exists t | t in tasks :: t.engagementId == engagement && t.role == Some(role) && CarriesAgent(t)
  {
    hide ScopedTasks, IsAgentRole, CarriesAgent;
    var t :| t in ScopedTasks(tasks, engagement) && RoleOf(t) == role;
    ScopedMembers(tasks, engagement, t);
    AgentMeans(t);
    assert t.role == Some(role) by {
      NoAgentWithoutRole();
    }
  }

  lemma NoAgentWithoutRole()
    ensures !IsAgentRole([])
  {
  }

  lemma StartedMeans(tasks: seq<Task>, engagement: Text, role: Text)
    ensures Count(StartedTaskOfRole(role), ScopedTasks(tasks, engagement))
         == Count((t: Task) => t.engagementId == engagement && t.role == Some(role) && !(t.status in
              {Lit("pending"), Lit("ready"), Lit("blocked")}), tasks)
  {
    hide Lit, Sort;
    TaskLePreorder();
    var own := Filter(TaskOf(engagement), tasks);
    SortFacts(TaskLe, own);
    FilterPermuted(StartedTaskOfRole(role), own, ScopedTasks(tasks, engagement));
    FilterOfFilter(TaskOf(engagement), StartedTaskOfRole(role),
      (t: Task) => t.engagementId == engagement && t.role == Some(role) && !(t.status in
        {Lit("pending"), Lit("ready"), Lit("blocked")}), tasks);
  }

  /** A handoff step shows its task's role, or the orchestrator where none is assigned. */
  lemma HandoffRoles(tasks: seq<Task>, i: nat)
    requires i < |tasks|
    ensures var step := Handoff(tasks)[i];
      step.role == if tasks[i].role.Some? && tasks[i].role.value != [] then tasks[i].role.value else Lit("orchestrator")
  {
    hide Lit;
  }

  /** In the handoff a task comes first by priority, then by creation, then by key. */
  lemma HandoffInOrder(tasks: seq<Task>, engagement: Text, i: int, j: int)
    requires 0 <= i < j < |ScopedTasks(tasks, engagement)|
    ensures var (a, b) := (ScopedTasks(tasks, engagement)[i], ScopedTasks(tasks, engagement)[j]);
      && a.priority <= b.priority
      && (a.priority == b.priority ==> a.createdAt <= b.createdAt)
      && (a.priority == b.priority && a.createdAt == b.createdAt ==> LexLe(a.key, b.key))
  {
    hide LexLe;
    HandoffLists(tasks, engagement);
    hide ScopedTasks;
    assert TaskLe(ScopedTasks(tasks, engagement)[i], ScopedTasks(tasks, engagement)[j]);
  }
}
