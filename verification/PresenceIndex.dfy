// The workspace presence index (packages/core/agents/derive-presence.ts): one pass over the
// tasks and runtimes gives what searching them again for every agent would give.
module PresenceIndex {
  import opened Options

  datatype Agent = Agent(id: string, runtimeId: string, archived: bool, maxConcurrentTasks: int)

  datatype Health = Online | RecentlyLost | HealthOffline | LongOffline

  // `health` is what deriveRuntimeHealth gives for the runtime at the moment of the call.
  datatype Runtime = Runtime(id: string, health: Health)

  datatype TaskStatus = Running | Queued | Dispatched | WaitingLocalDirectory | Completed | TaskFailed | TaskCancelled

  datatype Task = Task(agentId: string, status: TaskStatus)

  datatype Availability = Available | Unstable | Offline | Archived

  datatype Workload = Working | Waiting | Idle

  datatype Detail = Detail(
    availability: Availability, workload: Workload, runningCount: nat, queuedCount: nat, capacity: int)

  predicate OnQueue(status: TaskStatus) { status in {Queued, Dispatched, WaitingLocalDirectory} }

  predicate Active(task: Task) { task.status == Running || OnQueue(task.status) }

  function DeriveAvailability(runtime: Option<Runtime>): Availability {
    match runtime
    case None => Offline
    case Some(r) => match r.health case Online => Available case RecentlyLost => Unstable case _ => Offline
  }

  function DeriveWorkload(runningCount: nat, queuedCount: nat): Workload {
    if runningCount > 0 then Working else if queuedCount > 0 then Waiting else Idle
  }

  function Count(tasks: seq<Task>, wanted: Task -> bool): nat {
    if tasks == [] then 0 else Count(tasks[..|tasks| - 1], wanted) + if wanted(tasks[|tasks| - 1]) then 1 else 0
  }

  predicate IsRunning(task: Task) { task.status == Running }

  predicate IsQueued(task: Task) { OnQueue(task.status) }

  function DetailOf(agent: Agent, runtime: Option<Runtime>, tasks: seq<Task>): Detail {
    if agent.archived then Detail(Archived, Idle, 0, 0, agent.maxConcurrentTasks)
    else
      var running, queued := Count(tasks, IsRunning), Count(tasks, IsQueued);
      Detail(DeriveAvailability(runtime), DeriveWorkload(running, queued), running, queued, agent.maxConcurrentTasks)
  }

  method DeriveAgentPresenceDetail(agent: Agent, runtime: Option<Runtime>, tasks: seq<Task>) returns (detail: Detail)
    ensures detail == DetailOf(agent, runtime, tasks)
  {
    if agent.archived { return Detail(Archived, Idle, 0, 0, agent.maxConcurrentTasks); }
    var runningCount, queuedCount: nat := 0, 0;
    for i := 0 to |tasks|
      invariant runningCount == Count(tasks[..i], IsRunning) && queuedCount == Count(tasks[..i], IsQueued)
    {
      assert tasks[..i + 1][..i] == tasks[..i];
      if tasks[i].status == Running {
        runningCount := runningCount + 1;
      } else if OnQueue(tasks[i].status) {
        queuedCount := queuedCount + 1;
      }
    }
    assert tasks[..|tasks|] == tasks;
    return Detail(DeriveAvailability(runtime), DeriveWorkload(runningCount, queuedCount), runningCount, queuedCount,
                  agent.maxConcurrentTasks);
  }

  // ---------------------------------------------------------------- searching per agent

  // `runtimes.find(r => r.id === id)`
  function FindRuntime(runtimes: seq<Runtime>, id: string): Option<Runtime> {
    if runtimes == [] then None
    else if runtimes[0].id == id then Some(runtimes[0])
    else FindRuntime(runtimes[1..], id)
  }

  // `snapshot.filter(t => t.agent_id === id)`
  function TasksOf(snapshot: seq<Task>, id: string): seq<Task> {
    if snapshot == [] then []
    else
      var rest := TasksOf(snapshot[..|snapshot| - 1], id);
      if snapshot[|snapshot| - 1].agentId == id then rest + [snapshot[|snapshot| - 1]] else rest
  }

  function DetailFor(agent: Agent, runtimes: seq<Runtime>, snapshot: seq<Task>): Detail {
    DetailOf(agent, FindRuntime(runtimes, agent.runtimeId), TasksOf(snapshot, agent.id))
  }

  predicate DistinctRuntimes(runtimes: seq<Runtime>) {
    forall i, j :: 0 <= i < j < |runtimes| ==> runtimes[i].id != runtimes[j].id
  }

  predicate DistinctAgents(agents: seq<Agent>) {
    forall i, j :: 0 <= i < j < |agents| ==> agents[i].id != agents[j].id
  }

  lemma {:induction false} FindLast(runtimes: seq<Runtime>, last: Runtime, id: string)
    requires DistinctRuntimes(runtimes + [last])
    ensures FindRuntime(runtimes + [last], id) ==
      if last.id == id then Some(last) else FindRuntime(runtimes, id)
  {
    var all := runtimes + [last];
    if runtimes != [] {
      assert all[0] == runtimes[0] && all[1..] == runtimes[1..] + [last] && all[|runtimes|] == last;
      assert DistinctRuntimes(runtimes[1..] + [last]) by {
        assert forall i :: 0 <= i < |all[1..]| ==> all[1..][i] == all[i + 1];
      }
      FindLast(runtimes[1..], last, id);
    } else {
      assert all == [last] && [last][1..] == [];
    }
  }

  method IndexRuntimes(runtimes: seq<Runtime>) returns (runtimesById: map<string, Runtime>)
    requires DistinctRuntimes(runtimes)
    ensures forall id :: Lookup(runtimesById, id) == FindRuntime(runtimes, id)
  {
    runtimesById := map[];
    for i := 0 to |runtimes|
      invariant forall id :: Lookup(runtimesById, id) == FindRuntime(runtimes[..i], id)
    {
      ghost var before := runtimesById;
      runtimesById := runtimesById[runtimes[i].id := runtimes[i]];
      forall id ensures Lookup(runtimesById, id) == FindRuntime(runtimes[..i + 1], id) {
        assert runtimes[..i + 1] == runtimes[..i] + [runtimes[i]];
        FindLast(runtimes[..i], runtimes[i], id);
        assert Lookup(before, id) == FindRuntime(runtimes[..i], id);
      }
    }
    assert runtimes[..|runtimes|] == runtimes;
  }

  method GroupTasks(snapshot: seq<Task>) returns (tasksByAgent: map<string, seq<Task>>)
    ensures forall id :: Lookup(tasksByAgent, id).GetOr([]) == TasksOf(snapshot, id)
  {
    tasksByAgent := map[];
    for i := 0 to |snapshot|
      invariant forall id :: Lookup(tasksByAgent, id).GetOr([]) == TasksOf(snapshot[..i], id)
    {
      var t := snapshot[i];
      assert snapshot[..i + 1][..i] == snapshot[..i];
      var list := Lookup(tasksByAgent, t.agentId).GetOr([]);
      tasksByAgent := tasksByAgent[t.agentId := list + [t]];
    }
    assert snapshot[..|snapshot|] == snapshot;
  }

  // The one-pass index has exactly the agents as keys and gives each the detail that a
  // search of the runtimes and the snapshot for this one agent gives.
  method BuildPresenceMap(agents: seq<Agent>, runtimes: seq<Runtime>, snapshot: seq<Task>)
    returns (out: map<string, Detail>)
    requires DistinctAgents(agents) && DistinctRuntimes(runtimes)
    ensures forall id :: id in out <==> exists i :: 0 <= i < |agents| && agents[i].id == id
    ensures forall i :: 0 <= i < |agents| ==> out[agents[i].id] == DetailFor(agents[i], runtimes, snapshot)
    ensures Plates(agents, out) == Held(agents, snapshot)
  {
    out := map[];
    var runtimesById := IndexRuntimes(runtimes);
    var tasksByAgent := GroupTasks(snapshot);
    for i := 0 to |agents|
      invariant forall id :: id in out <==> exists j :: 0 <= j < i && agents[j].id == id
      invariant forall j :: 0 <= j < i ==> out[agents[j].id] == DetailFor(agents[j], runtimes, snapshot)
    {
      var agent := agents[i];
      var runtime := Lookup(runtimesById, agent.runtimeId);
      var tasks := Lookup(tasksByAgent, agent.id).GetOr([]);
      var detail := DeriveAgentPresenceDetail(agent, runtime, tasks);
      out := out[agent.id := detail];
    }
    CountsAddUp(agents, runtimes, snapshot, out);
  }

  // ---------------------------------------------------------------- conservation

  // Running and queued tasks that the map shows for the agents.
  function Plates(agents: seq<Agent>, details: map<string, Detail>): nat {
    if agents == [] then 0
    else
      var rest := Plates(agents[1..], details);
      if agents[0].id in details then
        details[agents[0].id].runningCount + details[agents[0].id].queuedCount + rest
      else rest
  }

  // The counts that a search for each agent alone gives.
  function Searched(agents: seq<Agent>, runtimes: seq<Runtime>, snapshot: seq<Task>): nat {
    if agents == [] then 0
    else
      var detail := DetailFor(agents[0], runtimes, snapshot);
      detail.runningCount + detail.queuedCount + Searched(agents[1..], runtimes, snapshot)
  }

  lemma {:induction false} PlatesAreSearched(
    agents: seq<Agent>, runtimes: seq<Runtime>, snapshot: seq<Task>, details: map<string, Detail>)
    requires forall i :: 0 <= i < |agents| ==>
      agents[i].id in details && details[agents[i].id] == DetailFor(agents[i], runtimes, snapshot)
    ensures Plates(agents, details) == Searched(agents, runtimes, snapshot)
  {
    if agents != [] {
      assert forall i :: 0 <= i < |agents[1..]| ==> agents[1..][i] == agents[i + 1];
      PlatesAreSearched(agents[1..], runtimes, snapshot, details);
    }
  }

  predicate Belongs(agents: seq<Agent>, task: Task) {
    exists i :: 0 <= i < |agents| && !agents[i].archived && agents[i].id == task.agentId
  }

  // Active tasks of unarchived agents.
  function Held(agents: seq<Agent>, snapshot: seq<Task>): nat {
    if snapshot == [] then 0
    else
      var last := snapshot[|snapshot| - 1];
      Held(agents, snapshot[..|snapshot| - 1]) + if Active(last) && Belongs(agents, last) then 1 else 0
  }

  lemma {:induction false} SearchedNone(agents: seq<Agent>, runtimes: seq<Runtime>)
    ensures Searched(agents, runtimes, []) == 0
  {
    if agents != [] { SearchedNone(agents[1..], runtimes); }
  }

  lemma {:induction false} SearchedGrow(
    agents: seq<Agent>, runtimes: seq<Runtime>, snapshot: seq<Task>, task: Task)
    requires DistinctAgents(agents)
    ensures Searched(agents, runtimes, snapshot + [task]) ==
      Searched(agents, runtimes, snapshot) + if Active(task) && Belongs(agents, task) then 1 else 0
  {
    var more := snapshot + [task];
    assert more[..|snapshot|] == snapshot;
    if agents != [] {
      var agent, rest := agents[0], agents[1..];
      SearchedGrow(rest, runtimes, snapshot, task);
      assert forall i :: 0 <= i < |rest| ==> rest[i] == agents[i + 1];
      var tasks := TasksOf(snapshot, agent.id);
      assert (tasks + [task])[..|tasks|] == tasks;
      if Belongs(rest, task) {
        var i :| 0 <= i < |rest| && !rest[i].archived && rest[i].id == task.agentId;
        assert agents[i + 1].id == task.agentId && !agents[i + 1].archived;
      }
    }
  }

  lemma {:induction false} SearchedAddUp(agents: seq<Agent>, runtimes: seq<Runtime>, snapshot: seq<Task>)
    requires DistinctAgents(agents)
    ensures Searched(agents, runtimes, snapshot) == Held(agents, snapshot)
  {
    if snapshot == [] {
      SearchedNone(agents, runtimes);
    } else {
      var before, last := snapshot[..|snapshot| - 1], snapshot[|snapshot| - 1];
      assert snapshot == before + [last];
      SearchedAddUp(agents, runtimes, before);
      SearchedGrow(agents, runtimes, before, last);
    }
  }

  // The running and queued counts of the map add up to the active tasks of the snapshot that
  // belong to an unarchived agent: no task is counted twice and none is missed.
  lemma CountsAddUp(agents: seq<Agent>, runtimes: seq<Runtime>, snapshot: seq<Task>, details: map<string, Detail>)
    requires DistinctAgents(agents)
    requires forall i :: 0 <= i < |agents| ==>
      agents[i].id in details && details[agents[i].id] == DetailFor(agents[i], runtimes, snapshot)
    ensures Plates(agents, details) == Held(agents, snapshot)
  {
    PlatesAreSearched(agents, runtimes, snapshot, details);
    SearchedAddUp(agents, runtimes, snapshot);
  }

  // ---------------------------------------------------------------- one agent

  // The positions of the running tasks, and of those that wait to run.
  function RunningAt(tasks: seq<Task>): set<int> {
    set i | 0 <= i < |tasks| && tasks[i].status == Running
  }

  function QueuedAt(tasks: seq<Task>): set<int> {
    set i | 0 <= i < |tasks|
      && (tasks[i].status == Queued || tasks[i].status == Dispatched || tasks[i].status == WaitingLocalDirectory)
  }

  lemma PositionsGrow(tasks: seq<Task>, last: Task)
    ensures var n := |tasks|;
      && RunningAt(tasks + [last]) == RunningAt(tasks) + (if last.status == Running then {n} else {})
      && QueuedAt(tasks + [last]) == QueuedAt(tasks) + (if IsQueued(last) then {n} else {})
  {
    var all := tasks + [last];
    assert all[|tasks|] == last && forall i :: 0 <= i < |tasks| ==> all[i] == tasks[i];
  }

  lemma {:induction false} CountsAre(tasks: seq<Task>)
    ensures Count(tasks, IsRunning) == |RunningAt(tasks)| && Count(tasks, IsQueued) == |QueuedAt(tasks)|
  {
    if tasks != [] {
      var n := |tasks| - 1;
      CountsAre(tasks[..n]);
      PositionsGrow(tasks[..n], tasks[n]);
      assert tasks == tasks[..n] + [tasks[n]];
    }
  }

  // An agent that is not archived is as available as its runtime is healthy; it works if a task
  // runs, waits if none runs and some are queued, and is idle otherwise.
  lemma DetailShows(agent: Agent, runtime: Option<Runtime>, tasks: seq<Task>)
    ensures var d, running, queued := DetailOf(agent, runtime, tasks), |RunningAt(tasks)|, |QueuedAt(tasks)|;
      && d.capacity == agent.maxConcurrentTasks
      && (agent.archived ==>
            d.availability == Archived && d.workload == Idle && d.runningCount == 0 && d.queuedCount == 0)
      && (!agent.archived ==>
            && d.runningCount == running && d.queuedCount == queued
            && (d.workload == Working <==> running > 0)
            && (d.workload == Waiting <==> running == 0 && queued > 0)
            && (d.workload == Idle <==> running == 0 && queued == 0)
            && (d.availability == Available <==> runtime.Some? && runtime.value.health == Online)
            && (d.availability == Unstable <==> runtime.Some? && runtime.value.health == RecentlyLost)
            && d.availability != Archived)
  {
    CountsAre(tasks);
  }
}
