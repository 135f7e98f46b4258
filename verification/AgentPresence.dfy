/** What the interface shows about each agent, derived from its runtime and from the tasks on its plate. */
module AgentPresence {
  import opened Basics
  import opened Grouping

  const FIVE_MINUTES_MS := 5 * 60 * 1000
  const ABOUT_TO_GC_THRESHOLD_MS := 6 * 24 * 3600 * 1000

  datatype Runtime = Runtime(id: string, online: bool, lastSeenAt: Option<int>)
  datatype Health = HealthOnline | RecentlyLost | HealthOffline | AboutToGc

  datatype TaskStatus = Queued | Dispatched | WaitingLocalDirectory | Running | Completed | Failed | Cancelled
  datatype Task = Task(agentId: string, status: TaskStatus)

  datatype Agent = Agent(id: string, runtimeId: string, archived: bool, maxConcurrentTasks: int)

  datatype Availability = Online | Unstable | Offline | Archived
  datatype Workload = Working | Waiting | Idle
  datatype Detail = Detail(availability: Availability, workload: Workload, runningCount: nat, queuedCount: nat,
                           capacity: int)

  // ----- availability

  function RuntimeHealth(r: Runtime, now: int): Health {
    if r.online then HealthOnline
    else
      var offlineFor := now - r.lastSeenAt.GetOr(0);
      if offlineFor < FIVE_MINUTES_MS then RecentlyLost
      else if offlineFor > ABOUT_TO_GC_THRESHOLD_MS then AboutToGc
      else HealthOffline
  }

  function AvailabilityOf(runtime: Option<Runtime>, now: int): Availability {
    if runtime.None? then Offline
    else
      match RuntimeHealth(runtime.value, now)
      case HealthOnline => Online
      case RecentlyLost => Unstable
      case _ => Offline
  }

  /** With no new server data, an unreachable agent only ever turns from unstable to offline, five minutes after it was
      last seen, and stays offline. */
  lemma AvailabilityDecays(r: Runtime, now: int, later: int)
    requires now <= later
    ensures AvailabilityOf(Some(r), now) == Unstable <==> !r.online && now < r.lastSeenAt.GetOr(0) + FIVE_MINUTES_MS
    ensures AvailabilityOf(Some(r), now) == AvailabilityOf(Some(r), later)
            || (AvailabilityOf(Some(r), now) == Unstable && AvailabilityOf(Some(r), later) == Offline)
  {
  }

  // ----- workload

  predicate IsQueued(s: TaskStatus) {
    s == Queued || s == Dispatched || s == WaitingLocalDirectory
  }

  function RunningIn(tasks: seq<Task>): nat {
    if tasks == [] then 0
    else RunningIn(tasks[..|tasks| - 1]) + if tasks[|tasks| - 1].status == Running then 1 else 0
  }

  function QueuedIn(tasks: seq<Task>): nat {
    if tasks == [] then 0
    else QueuedIn(tasks[..|tasks| - 1]) + if IsQueued(tasks[|tasks| - 1].status) then 1 else 0
  }

  function WorkloadOf(running: nat, queued: nat): Workload {
    if running > 0 then Working else if queued > 0 then Waiting else Idle
  }

  method DeriveWorkloadDetail(tasks: seq<Task>) returns (w: Workload, runningCount: nat, queuedCount: nat)
    ensures runningCount == RunningIn(tasks) && queuedCount == QueuedIn(tasks)
    ensures w == Working <==> exists t :: t in tasks && t.status == Running
    ensures w == Idle <==> forall t :: t in tasks ==> t.status != Running && !IsQueued(t.status)
    ensures w == WorkloadOf(runningCount, queuedCount)
  {
    runningCount, queuedCount := 0, 0;
    for i := 0 to |tasks|
      invariant runningCount == RunningIn(tasks[..i]) && queuedCount == QueuedIn(tasks[..i])
      invariant runningCount == 0 <==> forall t :: t in tasks[..i] ==> t.status != Running
      invariant queuedCount == 0 <==> forall t :: t in tasks[..i] ==> !IsQueued(t.status)
    {
      assert tasks[..i + 1][..i] == tasks[..i];
      assert tasks[..i + 1] == tasks[..i] + [tasks[i]];
      if tasks[i].status == Running {
        runningCount := runningCount + 1;
      } else if IsQueued(tasks[i].status) {
        queuedCount := queuedCount + 1;
      }
    }
    assert tasks[..|tasks|] == tasks;
    w := WorkloadOf(runningCount, queuedCount);
  }

  // ----- one agent

  function DetailOf(agent: Agent, runtime: Option<Runtime>, tasks: seq<Task>, now: int): Detail {
    if agent.archived then Detail(Archived, Idle, 0, 0, agent.maxConcurrentTasks)
    else Detail(AvailabilityOf(runtime, now), WorkloadOf(RunningIn(tasks), QueuedIn(tasks)),
                RunningIn(tasks), QueuedIn(tasks), agent.maxConcurrentTasks)
  }

  method DeriveAgentPresenceDetail(agent: Agent, runtime: Option<Runtime>, tasks: seq<Task>, now: int)
      returns (d: Detail)
    ensures d == DetailOf(agent, runtime, tasks, now)
  {
    if agent.archived {
      return Detail(Archived, Idle, 0, 0, agent.maxConcurrentTasks);
    }
    var availability := AvailabilityOf(runtime, now);
    var w, running, queued := DeriveWorkloadDetail(tasks);
    d := Detail(availability, w, running, queued, agent.maxConcurrentTasks);
  }

  function AgentIdOf(t: Task): string {
    t.agentId
  }

  function TasksOf(snapshot: seq<Task>, agentId: string): seq<Task> {
    Select(snapshot, AgentIdOf, agentId)
  }

  /** `find`: the first match. */
  function FindRuntime(runtimes: seq<Runtime>, id: string): Option<Runtime> {
    if runtimes == [] then None
    else if runtimes[0].id == id then Some(runtimes[0])
    else FindRuntime(runtimes[1..], id)
  }

  function FindAgent(agents: seq<Agent>, id: string): Option<Agent> {
    if agents == [] then None
    else if agents[0].id == id then Some(agents[0])
    else FindAgent(agents[1..], id)
  }

  /** The hook for a single agent, once its queries have answered. */
  function SingleDetail(agents: seq<Agent>, runtimes: seq<Runtime>, snapshot: seq<Task>, id: string, now: int): Detail {
    var agent := FindAgent(agents, id);
    if agent.None? then Detail(Offline, Idle, 0, 0, 0)
    else DetailOf(agent.value, FindRuntime(runtimes, agent.value.runtimeId), TasksOf(snapshot, id), now)
  }

  // ----- the whole workspace in one pass

  /** Setting each row of a list in a map by id leaves the last row of every id. */
  function LastRuntime(runtimes: seq<Runtime>, id: string): Option<Runtime> {
    if runtimes == [] then None
    else if runtimes[|runtimes| - 1].id == id then Some(runtimes[|runtimes| - 1])
    else LastRuntime(runtimes[..|runtimes| - 1], id)
  }

  function LastAgent(agents: seq<Agent>, id: string): Option<Agent> {
    if agents == [] then None
    else if agents[|agents| - 1].id == id then Some(agents[|agents| - 1])
    else LastAgent(agents[..|agents| - 1], id)
  }

  function BatchDetail(agent: Agent, runtimes: seq<Runtime>, snapshot: seq<Task>, now: int): Detail {
    DetailOf(agent, LastRuntime(runtimes, agent.runtimeId), TasksOf(snapshot, agent.id), now)
  }

  method BuildPresenceMap(agents: seq<Agent>, runtimes: seq<Runtime>, snapshot: seq<Task>, now: int)
      returns (out: map<string, Detail>)
    ensures forall id :: id in out <==> LastAgent(agents, id).Some?
    ensures forall id :: id in out ==> out[id] == BatchDetail(LastAgent(agents, id).value, runtimes, snapshot, now)
  {
    out := map[];
    var runtimesById := IndexRuntimes(runtimes);
    var tasksByAgent := GroupBy(snapshot, AgentIdOf);
    for i := 0 to |agents|
      invariant forall id :: id in out <==> LastAgent(agents[..i], id).Some?
      invariant forall id :: id in out
                  ==> out[id] == BatchDetail(LastAgent(agents[..i], id).value, runtimes, snapshot, now)
    {
      var agent := agents[i];
      assert agents[..i + 1][..i] == agents[..i];
      var runtime := if agent.runtimeId in runtimesById then Some(runtimesById[agent.runtimeId]) else None;
      var tasks := if agent.id in tasksByAgent then tasksByAgent[agent.id] else [];
      var d := DeriveAgentPresenceDetail(agent, runtime, tasks, now);
      out := out[agent.id := d];
    }
    assert agents[..|agents|] == agents;
  }

  method IndexRuntimes(runtimes: seq<Runtime>) returns (byId: map<string, Runtime>)
    ensures forall id :: (if id in byId then Some(byId[id]) else None) == LastRuntime(runtimes, id)
  {
    byId := map[];
    for i := 0 to |runtimes|
      invariant forall id :: (if id in byId then Some(byId[id]) else None) == LastRuntime(runtimes[..i], id)
    {
      assert runtimes[..i + 1][..i] == runtimes[..i];
      byId := byId[runtimes[i].id := runtimes[i]];
    }
    assert runtimes[..|runtimes|] == runtimes;
  }

  ghost predicate DistinctAgents(agents: seq<Agent>) {
    forall i, j :: 0 <= i < j < |agents| ==> agents[i].id != agents[j].id
  }

  ghost predicate DistinctRuntimes(runtimes: seq<Runtime>) {
    forall i, j :: 0 <= i < j < |runtimes| ==> runtimes[i].id != runtimes[j].id
  }

  lemma {:induction false} FoundRuntime(runtimes: seq<Runtime>, id: string, i: nat)
    requires DistinctRuntimes(runtimes) && i < |runtimes| && runtimes[i].id == id
    ensures FindRuntime(runtimes, id) == Some(runtimes[i]) == LastRuntime(runtimes, id)
    decreases |runtimes|
  {
    if i > 0 {
      FoundRuntime(runtimes[1..], id, i - 1);
    }
    if i < |runtimes| - 1 {
      FoundRuntime(runtimes[..|runtimes| - 1], id, i);
    }
  }

  lemma {:induction false} MissingRuntime(runtimes: seq<Runtime>, id: string)
    requires forall r :: r in runtimes ==> r.id != id
    ensures FindRuntime(runtimes, id) == None == LastRuntime(runtimes, id)
    decreases |runtimes|
  {
    if runtimes != [] {
      MissingRuntime(runtimes[1..], id);
      MissingRuntime(runtimes[..|runtimes| - 1], id);
    }
  }

  lemma {:induction false} FoundAgent(agents: seq<Agent>, id: string, i: nat)
    requires DistinctAgents(agents) && i < |agents| && agents[i].id == id
    ensures FindAgent(agents, id) == Some(agents[i]) == LastAgent(agents, id)
    decreases |agents|
  {
    if i > 0 {
      FoundAgent(agents[1..], id, i - 1);
    }
    if i < |agents| - 1 {
      FoundAgent(agents[..|agents| - 1], id, i);
    }
  }

  lemma {:induction false} MissingAgent(agents: seq<Agent>, id: string)
    requires forall a :: a in agents ==> a.id != id
    ensures FindAgent(agents, id) == None == LastAgent(agents, id)
    decreases |agents|
  {
    if agents != [] {
      MissingAgent(agents[1..], id);
      MissingAgent(agents[..|agents| - 1], id);
    }
  }

  /** With distinct ids the batch map holds, for every agent and no other id, what the single-agent hook derives. */
  lemma BatchAgrees(agents: seq<Agent>, runtimes: seq<Runtime>, snapshot: seq<Task>, id: string, now: int)
    requires DistinctAgents(agents) && DistinctRuntimes(runtimes)
    ensures LastAgent(agents, id).Some? <==> exists a :: a in agents && a.id == id
    ensures LastAgent(agents, id).Some? ==>
              BatchDetail(LastAgent(agents, id).value, runtimes, snapshot, now)
              == SingleDetail(agents, runtimes, snapshot, id, now)
  {
    if i :| 0 <= i < |agents| && agents[i].id == id {
      FoundAgent(agents, id, i);
      RuntimesAgree(runtimes, agents[i].runtimeId);
    } else {
      MissingAgent(agents, id);
    }
  }

  lemma RuntimesAgree(runtimes: seq<Runtime>, id: string)
    requires DistinctRuntimes(runtimes)
    ensures FindRuntime(runtimes, id) == LastRuntime(runtimes, id)
  {
    if i :| 0 <= i < |runtimes| && runtimes[i].id == id {
      FoundRuntime(runtimes, id, i);
    } else {
      MissingRuntime(runtimes, id);
    }
  }

  // ----- conservation

  function LiveRunning(agents: seq<Agent>, runtimes: seq<Runtime>, snapshot: seq<Task>, now: int): nat {
    if agents == [] then 0
    else LiveRunning(agents[..|agents| - 1], runtimes, snapshot, now)
         + BatchDetail(agents[|agents| - 1], runtimes, snapshot, now).runningCount
  }

  predicate IsLive(agents: seq<Agent>, id: string) {
    exists a :: a in agents && a.id == id && !a.archived
  }

  /** The running tasks of agents that are not archived. */
  function RunningOfLive(agents: seq<Agent>, snapshot: seq<Task>): nat {
    if snapshot == [] then 0
    else
      var t := snapshot[|snapshot| - 1];
      RunningOfLive(agents, snapshot[..|snapshot| - 1])
      + if t.status == Running && IsLive(agents, t.agentId) then 1 else 0
  }

  lemma {:induction false} NoneLive(snapshot: seq<Task>)
    ensures RunningOfLive([], snapshot) == 0
  {
    if snapshot != [] {
      NoneLive(snapshot[..|snapshot| - 1]);
    }
  }

  lemma {:induction false} OneMoreLive(agents: seq<Agent>, a: Agent, snapshot: seq<Task>)
    requires forall b :: b in agents ==> b.id != a.id
    ensures RunningOfLive(agents + [a], snapshot)
         == RunningOfLive(agents, snapshot) + if a.archived then 0 else RunningIn(TasksOf(snapshot, a.id))
  {
    if snapshot != [] {
      var init, t := snapshot[..|snapshot| - 1], snapshot[|snapshot| - 1];
      OneMoreLive(agents, a, init);
      assert IsLive(agents + [a], t.agentId) <==> IsLive(agents, t.agentId) || (t.agentId == a.id && !a.archived) by {
        assert a in agents + [a];
        assert forall b :: b in agents + [a] <==> b in agents || b == a;
      }
      if t.agentId == a.id {
        assert TasksOf(snapshot, a.id) == TasksOf(init, a.id) + [t];
        assert (TasksOf(init, a.id) + [t])[..|TasksOf(init, a.id)|] == TasksOf(init, a.id);
      }
    }
  }

  /** The running counts shown over a workspace add up to the running tasks of its live agents: each once, and the
      tasks of archived or unknown agents never. */
  lemma {:induction false} RunningCountsAddUp(agents: seq<Agent>, runtimes: seq<Runtime>, snapshot: seq<Task>, now: int)
    requires DistinctAgents(agents)
    ensures LiveRunning(agents, runtimes, snapshot, now) == RunningOfLive(agents, snapshot)
  {
    if agents == [] {
      NoneLive(snapshot);
    } else {
      var init, a := agents[..|agents| - 1], agents[|agents| - 1];
      RunningCountsAddUp(init, runtimes, snapshot, now);
      OneMoreLive(init, a, snapshot);
      assert init + [a] == agents;
    }
  }

  // ----- what is shown, case by case

  /** Archived comes first and hides everything else; otherwise online is the runtime's own word, unstable means seen in
      the last five minutes, and everything else, a missing runtime included, is offline. */
  lemma AvailabilityExactly(agent: Agent, runtime: Option<Runtime>, tasks: seq<Task>, now: int)
    ensures var shown := DetailOf(agent, runtime, tasks, now).availability;
            && (shown == Archived <==> agent.archived)
            && (shown == Online <==> !agent.archived && runtime.Some? && runtime.value.online)
            && (shown == Unstable <==>
                !agent.archived && runtime.Some? && !runtime.value.online
                && now < runtime.value.lastSeenAt.GetOr(0) + 300000)
  {
  }

  /** The counts shown are those of the tasks, none for an archived agent, and the capacity is the agent's own. */
  lemma CountsExactly(agent: Agent, runtime: Option<Runtime>, tasks: seq<Task>, now: int)
    ensures var d := DetailOf(agent, runtime, tasks, now);
            && d.capacity == agent.maxConcurrentTasks
            && d.runningCount == (if agent.archived then 0 else |RunningTasks(tasks)|)
            && d.queuedCount == (if agent.archived then 0 else |QueuedTasks(tasks)|)
            && (d.workload == Working <==> d.runningCount > 0)
            && (d.workload == Idle <==> d.runningCount == 0 && d.queuedCount == 0)
  {
    RunningSize(tasks);
    QueuedSize(tasks);
  }

  /** The places of the running tasks, and of those that still wait for something. */
  function RunningTasks(tasks: seq<Task>): set<int> {
    set i | 0 <= i < |tasks| && tasks[i].status == Running
  }

  function QueuedTasks(tasks: seq<Task>): set<int> {
    set i | 0 <= i < |tasks| && tasks[i].status in {Queued, Dispatched, WaitingLocalDirectory}
  }

  lemma {:induction false} RunningSize(tasks: seq<Task>)
    ensures RunningIn(tasks) == |RunningTasks(tasks)|
  {
    if tasks != [] {
      var n := |tasks| - 1;
      RunningSize(tasks[..n]);
      assert RunningTasks(tasks) == RunningTasks(tasks[..n]) + if tasks[n].status == Running then {n} else {};
    }
  }

  lemma {:induction false} QueuedSize(tasks: seq<Task>)
    ensures QueuedIn(tasks) == |QueuedTasks(tasks)|
  {
    if tasks != [] {
      var n := |tasks| - 1;
      QueuedSize(tasks[..n]);
      assert QueuedTasks(tasks) == QueuedTasks(tasks[..n]) + if IsQueued(tasks[n].status) then {n} else {};
    }
  }

  /** An agent that is not in the list is shown offline and idle. */
  lemma UnknownIsOffline(agents: seq<Agent>, runtimes: seq<Runtime>, snapshot: seq<Task>, id: string, now: int)
    requires forall a :: a in agents ==> a.id != id
    ensures SingleDetail(agents, runtimes, snapshot, id, now) == Detail(Offline, Idle, 0, 0, 0)
  {
    MissingAgent(agents, id);
  }
}
