/** Parallel connection to tool servers, and the registry of tools under mangled
    names. A schedule says which connection task runs next. */
module McpTools {
  import opened Wrappers

  const SEPARATOR := "__"

  datatype Transport = StreamableHttp | Stdio | ServerSentEvents | Unknown

  /** `hasEndpoint`: the URL or command the transport needs is configured. */
  datatype Server = Server(id: string, transport: Transport, hasEndpoint: bool, filter: seq<string>)

  /** `schema`: the input schema, in the server's own words. */
  datatype Tool = Tool(name: string, description: string, schema: string)

  /** How a server behaves: whether the client can be entered, and its tool list,
      None when listing fails. */
  datatype Behaviour = Behaviour(enters: bool, listing: Option<seq<Tool>>)

  datatype Registered =
    Registered(name: string, original: string, serverId: string, description: string, schema: string)

  type Registry = map<string, Registered>

  function FullName(id: string, tool: string): string {
    id + SEPARATOR + tool
  }

  function RegisterTool(tools: Registry, id: string, t: Tool): Registry {
    var description := if t.description == "" then "MCP tool: " + t.name else t.description;
    tools[FullName(id, t.name) := Registered(FullName(id, t.name), t.name, id, description, t.schema)]
  }

  /** The filter of the first configured server with this id; empty lets all pass. */
  function FilterFor(servers: seq<Server>, id: string): seq<string> {
    if |servers| == 0 then []
    else if servers[0].id == id then servers[0].filter
    else FilterFor(servers[1..], id)
  }

  predicate Passes(filter: seq<string>, t: Tool) {
    |filter| == 0 || t.name in filter
  }

  function RegisterAll(tools: Registry, id: string, filter: seq<string>, ts: seq<Tool>): Registry
    decreases |ts|
  {
    if |ts| == 0 then tools
    else RegisterAll(if Passes(filter, ts[0]) then RegisterTool(tools, id, ts[0]) else tools, id, filter, ts[1..])
  }

  predicate CanEnter(s: Server, b: Behaviour) {
    !s.transport.Unknown? && s.hasEndpoint && b.enters
  }

  datatype Phase = Connecting | Discovering | Succeeded | Failed

  /** A server id in `sessions` has a connected session. */
  datatype Service = Service(tools: Registry, sessions: set<string>, phases: seq<Phase>)

  /** Servers with their behaviour. */
  type World = seq<(Server, Behaviour)>

  function ServersOf(w: World): seq<Server> {
    if |w| == 0 then [] else [w[0].0] + ServersOf(w[1..])
  }

  function Discovered(w: World, i: nat, tools: Registry): Registry
    requires i < |w|
  {
    match w[i].1.listing
    case None => tools
    case Some(ts) => RegisterAll(tools, w[i].0.id, FilterFor(ServersOf(w), w[i].0.id), ts)
  }

  /** The next step of task `i`, up to its next await. */
  function Advance(w: World, s: Service, i: nat): Service
    requires |s.phases| == |w|
  {
    if i >= |w| then s
    else match s.phases[i]
      case Connecting =>
        if CanEnter(w[i].0, w[i].1)
        then s.(sessions := s.sessions + {w[i].0.id}, phases := s.phases[i := Discovering])
        else s.(phases := s.phases[i := Failed])
      case Discovering => s.(tools := Discovered(w, i, s.tools), phases := s.phases[i := Succeeded])
      case _ => s
  }

  function Run(w: World, s: Service, schedule: seq<nat>): (r: Service)
    requires |s.phases| == |w|
    ensures |r.phases| == |w|
    decreases |schedule|
  {
    if |schedule| == 0 then s else Run(w, Advance(w, s, schedule[0]), schedule[1..])
  }

  predicate Finished(s: Service) {
    forall i :: 0 <= i < |s.phases| ==> s.phases[i].Succeeded? || s.phases[i].Failed?
  }

  /** `connect_all` clears the tools but not the sessions. */
  function Begin(w: World, sessions: set<string>): (s: Service)
    ensures |s.phases| == |w|
  {
    Service(map[], sessions, seq(|w|, _ => Connecting))
  }

  /** The reported results; a later server with the same id overwrites an earlier one. */
  function Results(w: World, phases: seq<Phase>): map<string, bool>
    requires |phases| == |w|
  {
    if |w| == 0 then map[]
    else Results(w[..|w| - 1], phases[..|w| - 1])[w[|w| - 1].0.id := phases[|w| - 1].Succeeded?]
  }

  lemma {:induction false} NoTasks(w: World, s: Service, schedule: seq<nat>)
    requires |w| == 0 && |s.phases| == 0
    ensures Run(w, s, schedule) == s
    decreases |schedule|
  {
    if |schedule| > 0 {
      NoTasks(w, s, schedule[1..]);
    }
  }

  datatype Invocation = NotFound | NotConnected | Called(serverId: string, original: string)

  class MCPService {
    var tools: Registry
    var sessions: set<string>
    var connected: bool

    constructor ()
      ensures tools == map[] && sessions == {} && !connected
    {
      tools, sessions, connected := map[], {}, false;
    }

    method DisconnectAll()
      modifies this
      ensures tools == map[] && sessions == {} && !connected
    {
      tools, sessions, connected := map[], {}, false;
    }

    method DiscoverTools(w: World, i: nat)
      requires i < |w|
      modifies this`tools
      ensures tools == Discovered(w, i, old(tools))
    {
      match w[i].1.listing
      case None =>
      case Some(ts) =>
        var id := w[i].0.id;
        var filter := FilterFor(ServersOf(w), id);
        for k := 0 to |ts|
          invariant RegisterAll(tools, id, filter, ts[k..]) == RegisterAll(old(tools), id, filter, ts)
        {
          assert ts[k..][1..] == ts[k + 1..];
          if Passes(filter, ts[k]) {
            tools := RegisterTool(tools, id, ts[k]);
          }
        }
    }

    /** All connection tasks, interleaved as the schedule says. */
    method ConnectAll(w: World, schedule: seq<nat>) returns (results: map<string, bool>)
      requires Finished(Run(w, Begin(w, sessions), schedule))
      modifies this
      ensures var end := Run(w, Begin(w, old(sessions)), schedule);
              && tools == end.tools && sessions == end.sessions
              && results == Results(w, end.phases)
              && connected == (if |w| == 0 then old(connected) else exists id :: id in results && results[id])
    {
      ghost var start := Begin(w, sessions);
      tools := map[];
      if |w| == 0 {
        NoTasks(w, start, schedule);
        return map[];
      }
      var phases: seq<Phase> := seq(|w|, _ => Connecting);
      for k := 0 to |schedule|
        invariant |phases| == |w|
        invariant Run(w, Service(tools, sessions, phases), schedule[k..]) == Run(w, start, schedule)
      {
        assert schedule[k..][1..] == schedule[k + 1..];
        var i := schedule[k];
        if i < |w| {
          match phases[i]
          case Connecting =>
            if CanEnter(w[i].0, w[i].1) {
              sessions, phases := sessions + {w[i].0.id}, phases[i := Discovering];
            } else {
              phases := phases[i := Failed];
            }
          case Discovering =>
            DiscoverTools(w, i);
            phases := phases[i := Succeeded];
          case _ =>
        }
      }
      results := map[];
      for i := 0 to |w|
        invariant results == Results(w[..i], phases[..i])
        invariant Service(tools, sessions, phases) == Run(w, start, schedule)
      {
        assert w[..i + 1][..i] == w[..i] && phases[..i + 1][..i] == phases[..i];
        results := results[w[i].0.id := phases[i].Succeeded?];
      }
      assert w[..|w|] == w && phases[..|w|] == phases;
      connected := exists id :: id in results && results[id];
    }

    method Refresh(w: World, schedule: seq<nat>) returns (results: map<string, bool>)
      requires Finished(Run(w, Begin(w, {}), schedule))
      modifies this
      ensures var end := Run(w, Begin(w, {}), schedule);
              && tools == end.tools && sessions == end.sessions && results == Results(w, end.phases)
              && connected == (|w| > 0 && exists id :: id in results && results[id])
    {
      DisconnectAll();
      results := ConnectAll(w, schedule);
    }

    method InvokeTool(name: string) returns (r: Invocation)
      ensures r == Invoke(tools, sessions, name)
      ensures r.NotFound? <==> name !in tools
      ensures r.NotConnected? <==> name in tools && tools[name].serverId !in sessions
      ensures r.Called? ==> r.serverId == tools[name].serverId && r.original == tools[name].original
    {
      if name !in tools {
        return NotFound;
      }
      var tool := tools[name];
      if tool.serverId !in sessions {
        return NotConnected;
      }
      r := Called(tool.serverId, tool.original);
    }
  }

  function Invoke(tools: Registry, sessions: set<string>, name: string): Invocation {
    if name !in tools then NotFound
    else if tools[name].serverId !in sessions then NotConnected
    else Called(tools[name].serverId, tools[name].original)
  }

  // ------------------------------------------------------------------ mangling

  predicate IsPrefix(a: string, b: string) {
    |a| <= |b| && b[..|a|] == a
  }

  /** Some tools of the two servers get the same full name. */
  ghost predicate Clash(x: string, y: string) {
    exists t, u :: FullName(x, t) == FullName(y, u)
  }

  /** Two ids can clash exactly when one, with its separator, starts the other. */
  lemma ClashExactlyWhen(x: string, y: string)
    ensures Clash(x, y) <==> IsPrefix(x + SEPARATOR, y + SEPARATOR) || IsPrefix(y + SEPARATOR, x + SEPARATOR)
  {
    var a, b := x + SEPARATOR, y + SEPARATOR;
    if t, u :| FullName(x, t) == FullName(y, u) {
      var w := FullName(x, t);
      assert w[..|a|] == a && w[..|b|] == b;
      if |a| <= |b| {
        assert w[..|b|][..|a|] == a;
      } else {
        assert w[..|a|][..|b|] == b;
      }
    }
    if IsPrefix(a, b) {
      assert FullName(x, b[|a|..]) == FullName(y, "");
    } else if IsPrefix(b, a) {
      assert FullName(x, "") == FullName(y, a[|b|..]);
    }
  }

  /** An id without the separator in it or an underscore at its end. */
  predicate SafeId(id: string) {
    && (forall k :: 0 <= k < |id| - 1 ==> !(id[k] == '_' && id[k + 1] == '_'))
    && (|id| > 0 ==> id[|id| - 1] != '_')
  }

  lemma SafeIdsDoNotClash(x: string, y: string)
    requires SafeId(x) && SafeId(y) && x != y
    ensures !Clash(x, y)
  {
    ClashExactlyWhen(x, y);
    NotPrefix(x, y);
    NotPrefix(y, x);
  }

  lemma NotPrefix(x: string, y: string)
    requires SafeId(y) && x != y
    ensures !IsPrefix(x + SEPARATOR, y + SEPARATOR)
  {
    var a, b := x + SEPARATOR, y + SEPARATOR;
    if |x| < |y| {
      assert a[|x|] == '_' && a[|x| + 1] == '_';
      assert b[..|a|][|x|] == b[|x|] && b[..|a|][|x| + 1] == b[|x| + 1];
      if |x| + 1 == |y| {
        assert b[|x|] == y[|y| - 1];
      } else {
        assert b[|x|] == y[|x|] && b[|x| + 1] == y[|x| + 1];
      }
    } else if |x| == |y| {
      assert a[..|x|] == x && b[..|y|] == y;
    }
  }

  // ------------------------------------------------------------ every schedule

  predicate Enters(w: World, i: nat) {
    i < |w| && CanEnter(w[i].0, w[i].1)
  }

  /** The tools server `i` contributes. */
  function OwnTools(w: World, i: nat): Registry
    requires i < |w|
  {
    Discovered(w, i, map[])
  }

  /** The server lists the tool, and the filter configured for its id lets it pass. */
  predicate Offers(w: World, i: nat, t: Tool) {
    i < |w| && w[i].1.listing.Some? && t in w[i].1.listing.value
    && Passes(FilterFor(ServersOf(w), w[i].0.id), t)
  }

  lemma {:induction false} RegisterAllAdds(tools: Registry, id: string, filter: seq<string>, ts: seq<Tool>)
    ensures RegisterAll(tools, id, filter, ts) == tools + RegisterAll(map[], id, filter, ts)
    decreases |ts|
  {
    if |ts| > 0 {
      if Passes(filter, ts[0]) {
        RegisterAllAdds(RegisterTool(tools, id, ts[0]), id, filter, ts[1..]);
        RegisterAllAdds(RegisterTool(map[], id, ts[0]), id, filter, ts[1..]);
        assert RegisterTool(tools, id, ts[0]) == tools + RegisterTool(map[], id, ts[0]);
      } else {
        RegisterAllAdds(tools, id, filter, ts[1..]);
      }
    }
  }

  lemma DiscoveredAdds(w: World, i: nat, tools: Registry)
    requires i < |w|
    ensures Discovered(w, i, tools) == tools + OwnTools(w, i)
  {
    if w[i].1.listing.Some? {
      RegisterAllAdds(tools, w[i].0.id, FilterFor(ServersOf(w), w[i].0.id), w[i].1.listing.value);
    }
  }

  ghost predicate Owned(m: Registry, id: string) {
    forall n :: n in m ==> m[n].name == n && m[n].serverId == id && n == FullName(id, m[n].original)
  }

  lemma {:induction false} RegisterAllOwned(tools: Registry, id: string, filter: seq<string>, ts: seq<Tool>)
    requires Owned(tools, id)
    ensures Owned(RegisterAll(tools, id, filter, ts), id)
    decreases |ts|
  {
    if |ts| > 0 {
      var rest := if Passes(filter, ts[0]) then RegisterTool(tools, id, ts[0]) else tools;
      RegisterAllOwned(rest, id, filter, ts[1..]);
    }
  }

  lemma OwnToolsOwned(w: World, i: nat)
    requires i < |w|
    ensures Owned(OwnTools(w, i), w[i].0.id)
  {
    if w[i].1.listing.Some? {
      RegisterAllOwned(map[], w[i].0.id, FilterFor(ServersOf(w), w[i].0.id), w[i].1.listing.value);
    }
  }

  lemma {:induction false} RegisterAllHolds(
      tools: Registry, id: string, filter: seq<string>, ts: seq<Tool>, n: string)
    ensures n in RegisterAll(tools, id, filter, ts)
            <==> n in tools || exists t :: t in ts && Passes(filter, t) && n == FullName(id, t.name)
    decreases |ts|
  {
    if |ts| > 0 {
      hide FullName;
      var rest := if Passes(filter, ts[0]) then RegisterTool(tools, id, ts[0]) else tools;
      RegisterAllHolds(rest, id, filter, ts[1..], n);
      assert ts == [ts[0]] + ts[1..];
      assert n in rest <==> n in tools || (Passes(filter, ts[0]) && n == FullName(id, ts[0].name));
    }
  }

  lemma OwnToolsHold(w: World, i: nat, n: string)
    requires i < |w|
    ensures n in OwnTools(w, i) <==> exists t :: Offers(w, i, t) && n == FullName(w[i].0.id, t.name)
  {
    if w[i].1.listing.Some? {
      hide FullName, Passes, FilterFor, ServersOf;
      var id, filter, ts := w[i].0.id, FilterFor(ServersOf(w), w[i].0.id), w[i].1.listing.value;
      RegisterAllHolds(map[], id, filter, ts, n);
      if t :| t in ts && Passes(filter, t) && n == FullName(id, t.name) {
        assert Offers(w, i, t);
      }
    }
  }

  /** A phase says what has happened to its server so far; other sessions are older. */
  ghost predicate PhaseInv(w: World, s: Service, before: set<string>)
    requires |s.phases| == |w|
  {
    && (forall i: nat :: i < |w| && (s.phases[i].Succeeded? || s.phases[i].Discovering?) ==>
          Enters(w, i) && w[i].0.id in s.sessions)
    && (forall i: nat :: i < |w| && s.phases[i].Failed? ==> !Enters(w, i))
    && before <= s.sessions
    && (forall id :: id in s.sessions && id !in before ==>
          exists i: nat :: i < |w| && w[i].0.id == id && (s.phases[i].Succeeded? || s.phases[i].Discovering?))
  }

  lemma AdvanceKeepsPhases(w: World, s: Service, i: nat, before: set<string>)
    requires |s.phases| == |w| && PhaseInv(w, s, before)
    ensures PhaseInv(w, Advance(w, s, i), before)
  {
    hide CanEnter, Discovered;
    var s' := Advance(w, s, i);
    forall id | id in s'.sessions && id !in before
      ensures exists k: nat :: k < |w| && w[k].0.id == id && (s'.phases[k].Succeeded? || s'.phases[k].Discovering?)
    {
      if id in s.sessions {
        var k: nat :| k < |w| && w[k].0.id == id && (s.phases[k].Succeeded? || s.phases[k].Discovering?);
        assert s'.phases[k].Succeeded? || s'.phases[k].Discovering?;
      } else {
        assert s'.phases[i].Discovering?;
      }
    }
  }

  predicate From(w: World, s: Service, i: nat, n: string)
    requires |s.phases| == |w|
  {
    i < |w| && s.phases[i].Succeeded? && n in OwnTools(w, i)
  }

  /** Every registered tool comes from a finished server, and every tool of a finished
      server has its name registered. */
  ghost predicate SourceInv(w: World, s: Service)
    requires |s.phases| == |w|
  {
    && (forall n :: n in s.tools ==> exists i: nat :: From(w, s, i, n) && OwnTools(w, i)[n] == s.tools[n])
    && (forall n, i: nat :: From(w, s, i, n) ==> n in s.tools)
  }

  lemma AdvanceKeepsSource(w: World, s: Service, i: nat)
    requires |s.phases| == |w| && SourceInv(w, s)
    ensures SourceInv(w, Advance(w, s, i))
  {
    hide OwnTools, Discovered, CanEnter;
    var s' := Advance(w, s, i);
    if i < |w| && s.phases[i].Discovering? {
      DiscoveredAdds(w, i, s.tools);
      forall n | n in s'.tools ensures exists k: nat :: From(w, s', k, n) && OwnTools(w, k)[n] == s'.tools[n] {
        if n in OwnTools(w, i) {
          assert From(w, s', i, n);
        } else {
          var k: nat :| From(w, s, k, n) && OwnTools(w, k)[n] == s.tools[n];
          assert From(w, s', k, n);
        }
      }
      forall n, k: nat | From(w, s', k, n) ensures n in s'.tools {
        assert k != i ==> From(w, s, k, n);
      }
    } else {
      assert forall n, k: nat :: From(w, s', k, n) <==> From(w, s, k, n);
    }
  }

  /** No two servers that can be entered register one name differently. */
  ghost predicate Agree(w: World) {
    forall i: nat, k: nat, n :: Enters(w, i) && Enters(w, k) && n in OwnTools(w, i) && n in OwnTools(w, k) ==>
      OwnTools(w, i)[n] == OwnTools(w, k)[n]
  }

  lemma {:induction false} RunKeeps(w: World, s: Service, schedule: seq<nat>, before: set<string>)
    requires |s.phases| == |w| && PhaseInv(w, s, before) && SourceInv(w, s)
    ensures PhaseInv(w, Run(w, s, schedule), before) && SourceInv(w, Run(w, s, schedule))
    decreases |schedule|
  {
    hide PhaseInv, SourceInv, Advance;
    if |schedule| > 0 {
      AdvanceKeepsPhases(w, s, schedule[0], before);
      AdvanceKeepsSource(w, s, schedule[0]);
      AdvanceKeepsCount(w, s, schedule[0]);
      RunKeeps(w, Advance(w, s, schedule[0]), schedule[1..], before);
    }
  }

  lemma AdvanceKeepsCount(w: World, s: Service, i: nat)
    requires |s.phases| == |w|
    ensures |Advance(w, s, i).phases| == |w|
  {
  }

  function End(w: World, before: set<string>, schedule: seq<nat>): (s: Service)
    ensures |s.phases| == |w|
  {
    Run(w, Begin(w, before), schedule)
  }

  lemma EndInv(w: World, before: set<string>, schedule: seq<nat>)
    ensures PhaseInv(w, End(w, before, schedule), before) && SourceInv(w, End(w, before, schedule))
  {
    RunKeeps(w, Begin(w, before), schedule, before);
  }

  /** After all tasks, exactly the servers that can be entered have succeeded. */
  lemma SucceededAreEntered(w: World, before: set<string>, schedule: seq<nat>, i: nat)
    requires Finished(End(w, before, schedule)) && i < |w|
    ensures End(w, before, schedule).phases[i].Succeeded? <==> Enters(w, i)
  {
    hide End, SourceInv, CanEnter;
    EndInv(w, before, schedule);
    var end := End(w, before, schedule);
    assert end.phases[i].Succeeded? || end.phases[i].Failed?;
  }

  /** Whatever the order, the registered names are exactly those of the tools that the
      servers which can be entered offer. */
  lemma RegistryHoldsExactly(w: World, before: set<string>, schedule: seq<nat>, n: string)
    requires Finished(End(w, before, schedule))
    ensures n in End(w, before, schedule).tools <==>
            exists i: nat, t :: Enters(w, i) && Offers(w, i, t) && n == FullName(w[i].0.id, t.name)
  {
    hide End, OwnTools, CanEnter, Offers, FullName, PhaseInv, Finished;
    EndInv(w, before, schedule);
    var end := End(w, before, schedule);
    if n in end.tools {
      var i: nat :| From(w, end, i, n) && OwnTools(w, i)[n] == end.tools[n];
      SucceededAreEntered(w, before, schedule, i);
      OwnToolsHold(w, i, n);
    }
    if i: nat, t :| Enters(w, i) && Offers(w, i, t) && n == FullName(w[i].0.id, t.name) {
      SucceededAreEntered(w, before, schedule, i);
      OwnToolsHold(w, i, n);
      assert From(w, end, i, n);
    }
  }

  lemma SameRegistry(w: World, before: set<string>, first: seq<nat>, second: seq<nat>)
    requires Agree(w) && Finished(End(w, before, first)) && Finished(End(w, before, second))
    ensures forall n :: n in End(w, before, first).tools ==>
              n in End(w, before, second).tools && End(w, before, first).tools[n] == End(w, before, second).tools[n]
  {
    hide End, OwnTools, CanEnter, PhaseInv, Finished;
    EndInv(w, before, first);
    EndInv(w, before, second);
    var a, b := End(w, before, first), End(w, before, second);
    forall n | n in a.tools ensures n in b.tools && a.tools[n] == b.tools[n] {
      var i: nat :| From(w, a, i, n) && OwnTools(w, i)[n] == a.tools[n];
      SucceededAreEntered(w, before, first, i);
      SucceededAreEntered(w, before, second, i);
      assert From(w, b, i, n);
      var k: nat :| From(w, b, k, n) && OwnTools(w, k)[n] == b.tools[n];
      SucceededAreEntered(w, before, second, k);
    }
  }

  lemma AgreeingIsIndependent(w: World, before: set<string>, first: seq<nat>, second: seq<nat>)
    requires Agree(w) && Finished(End(w, before, first)) && Finished(End(w, before, second))
    ensures End(w, before, first).tools == End(w, before, second).tools
  {
    hide End, Agree, Finished;
    SameRegistry(w, before, first, second);
    SameRegistry(w, before, second, first);
    assert End(w, before, first).tools.Keys == End(w, before, second).tools.Keys;
  }

  // ------------------------------------------- one connection after the other

  /** Each server in turn runs through both its steps. */
  function OneByOne(order: seq<nat>): seq<nat>
    decreases |order|
  {
    if |order| == 0 then [] else OneByOne(order[..|order| - 1]) + [order[|order| - 1], order[|order| - 1]]
  }

  lemma {:induction false} RunAppend(w: World, s: Service, a: seq<nat>, b: seq<nat>)
    requires |s.phases| == |w|
    ensures Run(w, s, a + b) == Run(w, Run(w, s, a), b)
    decreases |a|
  {
    if |a| == 0 {
      assert a + b == b;
    } else {
      assert (a + b)[0] == a[0] && (a + b)[1..] == a[1..] + b;
      AdvanceKeepsCount(w, s, a[0]);
      RunAppend(w, Advance(w, s, a[0]), a[1..], b);
    }
  }

  lemma TwoSteps(w: World, s: Service, i: nat)
    requires |s.phases| == |w|
    ensures |Advance(w, s, i).phases| == |w|
    ensures Run(w, s, [i, i]) == Advance(w, Advance(w, s, i), i)
  {
    var s' := Advance(w, s, i);
    assert [i][1..] == [] && Run(w, s', [i]) == Run(w, Advance(w, s', i), []);
    assert [i, i][1..] == [i];
  }

  predicate IsDone(p: Phase) {
    p.Succeeded? || p.Failed?
  }

  lemma OneByOneUnfold(w: World, before: set<string>, order: seq<nat>)
    requires |order| > 0
    ensures var i := order[|order| - 1];
            var s := End(w, before, OneByOne(order[..|order| - 1]));
            |Advance(w, s, i).phases| == |w| && End(w, before, OneByOne(order)) == Advance(w, Advance(w, s, i), i)
  {
    var i, init := order[|order| - 1], OneByOne(order[..|order| - 1]);
    RunAppend(w, Begin(w, before), init, [i, i]);
    TwoSteps(w, End(w, before, init), i);
  }

  /** Then exactly the servers in the order are done, and the others have not begun. */
  lemma {:induction false} OneByOneDone(w: World, before: set<string>, order: seq<nat>, i: nat)
    requires i < |w|
    ensures i in order ==> IsDone(End(w, before, OneByOne(order)).phases[i])
    ensures i !in order ==> End(w, before, OneByOne(order)).phases[i].Connecting?
    decreases |order|
  {
    if |order| > 0 {
      var init, last := order[..|order| - 1], order[|order| - 1];
      OneByOneDone(w, before, init, i);
      OneByOneUnfold(w, before, order);
      assert i in order <==> i in init || i == last;
      hide End, OneByOne, CanEnter, Discovered;
    }
  }

  /** The last server to come writes its tools over everything before. */
  lemma LastWins(w: World, before: set<string>, order: seq<nat>, n: string)
    requires |order| > 0 && order[|order| - 1] !in order[..|order| - 1]
    requires var i := order[|order| - 1]; Enters(w, i) && n in OwnTools(w, i)
    ensures var i := order[|order| - 1];
            var tools := End(w, before, OneByOne(order)).tools;
            n in tools && tools[n] == OwnTools(w, i)[n]
  {
    var i, init := order[|order| - 1], order[..|order| - 1];
    OneByOneDone(w, before, init, i);
    OneByOneUnfold(w, before, order);
    hide End, OneByOne, OwnTools, Discovered;
    DiscoveredAdds(w, i, End(w, before, OneByOne(init)).tools);
  }

  function Others(m: nat, i: nat, k: nat): seq<nat> {
    if m == 0 then []
    else if m - 1 == i || m - 1 == k then Others(m - 1, i, k)
    else Others(m - 1, i, k) + [m - 1]
  }

  lemma {:induction false} OthersAre(m: nat, i: nat, k: nat)
    ensures forall j: nat :: j in Others(m, i, k) <==> j < m && j != i && j != k
  {
    if m > 0 {
      OthersAre(m - 1, i, k);
    }
  }

  /** Everyone else first, then `i`, then `k`: all tasks finish, and `k` has the last word. */
  lemma LastWord(w: World, before: set<string>, i: nat, k: nat, n: string) returns (schedule: seq<nat>)
    requires i < |w| && i != k && Enters(w, k) && n in OwnTools(w, k)
    ensures Finished(End(w, before, schedule))
    ensures n in End(w, before, schedule).tools && End(w, before, schedule).tools[n] == OwnTools(w, k)[n]
  {
    hide End, OneByOne, OwnTools, CanEnter;
    var first := Others(|w|, i, k) + [i];
    var order := first + [k];
    OthersAre(|w|, i, k);
    assert order[..|order| - 1] == first && k !in first;
    LastWins(w, before, order, n);
    schedule := OneByOne(order);
    forall j: nat | j < |w| ensures IsDone(End(w, before, schedule).phases[j]) {
      assert j in order;
      OneByOneDone(w, before, order, j);
    }
  }

  /** Every order of connection gives the same registry exactly when no two servers
      that can be entered register one name differently. */
  lemma OrderIrrelevantExactlyWhen(w: World, before: set<string>)
    ensures (forall a, b :: Finished(End(w, before, a)) && Finished(End(w, before, b)) ==>
               End(w, before, a).tools == End(w, before, b).tools)
            <==> Agree(w)
  {
    hide End, Finished, OwnTools, CanEnter;
    if Agree(w) {
      forall a, b | Finished(End(w, before, a)) && Finished(End(w, before, b))
        ensures End(w, before, a).tools == End(w, before, b).tools
      {
        AgreeingIsIndependent(w, before, a, b);
      }
    } else {
      var i: nat, k: nat, n :| Enters(w, i) && Enters(w, k) && n in OwnTools(w, i) && n in OwnTools(w, k)
        && OwnTools(w, i)[n] != OwnTools(w, k)[n];
      var a := LastWord(w, before, i, k, n);
      var b := LastWord(w, before, k, i, n);
      assert End(w, before, a).tools[n] != End(w, before, b).tools[n];
    }
  }

  /** One name is never offered under two ids. */
  ghost predicate NamesApart(w: World) {
    forall i: nat, k: nat, n :: Enters(w, i) && Enters(w, k) && n in OwnTools(w, i) && n in OwnTools(w, k) ==>
      w[i].0.id == w[k].0.id
  }

  /** Calling the tool reaches the server, under the tool's own name. */
  ghost predicate Reaches(w: World, before: set<string>, schedule: seq<nat>, i: nat, t: Tool)
    requires i < |w|
  {
    var end := End(w, before, schedule);
    Invoke(end.tools, end.sessions, FullName(w[i].0.id, t.name)) == Called(w[i].0.id, t.name)
  }

  lemma FullNameInjective(id: string, t: string, u: string)
    requires FullName(id, t) == FullName(id, u)
    ensures t == u
  {
    var p := id + SEPARATOR;
    assert (p + t)[|p|..] == t && (p + u)[|p|..] == u;
  }

  lemma ApartReaches(w: World, before: set<string>, schedule: seq<nat>, i: nat, t: Tool)
    requires NamesApart(w) && Finished(End(w, before, schedule)) && Enters(w, i) && Offers(w, i, t)
    ensures Reaches(w, before, schedule, i, t)
  {
    hide End, OwnTools, CanEnter, Offers, FullName, Finished;
    var end, n := End(w, before, schedule), FullName(w[i].0.id, t.name);
    EndInv(w, before, schedule);
    OwnToolsHold(w, i, n);
    SucceededAreEntered(w, before, schedule, i);
    assert From(w, end, i, n);
    var k: nat :| From(w, end, k, n) && OwnTools(w, k)[n] == end.tools[n];
    SucceededAreEntered(w, before, schedule, k);
    OwnToolsOwned(w, k);
    FullNameInjective(w[i].0.id, t.name, end.tools[n].original);
  }

  /** Every tool of every connected server is reached under every order exactly when
      one name is never offered under two ids. */
  lemma RoutesExactlyWhen(w: World, before: set<string>)
    ensures (forall schedule, i: nat, t :: Finished(End(w, before, schedule)) && Enters(w, i) && Offers(w, i, t) ==>
               Reaches(w, before, schedule, i, t))
            <==> NamesApart(w)
  {
    hide End, Finished, OwnTools, CanEnter, Offers, Reaches, FullName;
    if NamesApart(w) {
      hide NamesApart;
      forall schedule, i: nat, t | Finished(End(w, before, schedule)) && Enters(w, i) && Offers(w, i, t)
        ensures Reaches(w, before, schedule, i, t)
      {
        ApartReaches(w, before, schedule, i, t);
      }
    } else {
      var i: nat, k: nat, n :| Enters(w, i) && Enters(w, k) && n in OwnTools(w, i) && n in OwnTools(w, k)
        && w[i].0.id != w[k].0.id;
      var schedule := LastWord(w, before, i, k, n);
      OwnToolsHold(w, i, n);
      var t :| Offers(w, i, t) && n == FullName(w[i].0.id, t.name);
      OwnToolsOwned(w, k);
      TakenOver(w, before, schedule, i, k, t);
    }
  }

  lemma TakenOver(w: World, before: set<string>, schedule: seq<nat>, i: nat, k: nat, t: Tool)
    requires i < |w| && k < |w| && w[i].0.id != w[k].0.id
    requires var n := FullName(w[i].0.id, t.name);
             n in End(w, before, schedule).tools && End(w, before, schedule).tools[n].serverId == w[k].0.id
    ensures !Reaches(w, before, schedule, i, t)
  {
    hide End, FullName;
  }

  // ------------------------------------------------------ what ids guarantee this

  ghost predicate DistinctIds(w: World) {
    forall i, k :: 0 <= i < k < |w| ==> w[i].0.id != w[k].0.id
  }

  /** With distinct ids, agreeing means that no name is offered twice. */
  lemma AgreeExactlyWhen(w: World)
    requires DistinctIds(w)
    ensures Agree(w) <==>
            forall i: nat, k: nat, n :: Enters(w, i) && Enters(w, k) && i != k ==>
              !(n in OwnTools(w, i) && n in OwnTools(w, k))
  {
    hide OwnTools, CanEnter;
    forall i: nat, k: nat, n | Enters(w, i) && Enters(w, k) && i != k && n in OwnTools(w, i) && n in OwnTools(w, k)
      ensures OwnTools(w, i)[n] != OwnTools(w, k)[n]
    {
      OwnToolsOwned(w, i);
      OwnToolsOwned(w, k);
      assert w[i].0.id != w[k].0.id;
    }
  }

  /** Distinct ids without a double underscore and without a final underscore make
      the registry independent of the order and every tool reachable. */
  lemma SafeIdsSuffice(w: World)
    requires DistinctIds(w) && forall i :: 0 <= i < |w| ==> SafeId(w[i].0.id)
    ensures Agree(w) && NamesApart(w)
  {
    hide OwnTools, SafeId, CanEnter;
    forall i: nat, k: nat, n | Enters(w, i) && Enters(w, k) && n in OwnTools(w, i) && n in OwnTools(w, k)
      ensures i == k
    {
      OwnToolsOwned(w, i);
      OwnToolsOwned(w, k);
      if i != k {
        SafeIdsDoNotClash(w[i].0.id, w[k].0.id);
      }
    }
  }

  /** Whatever the order in which the connections complete, the registry is the same
      and holds every tool under its own server. */
  lemma RegistryIndependentOfOrder(w: World, before: set<string>, first: seq<nat>, second: seq<nat>)
    requires DistinctIds(w) && forall i :: 0 <= i < |w| ==> SafeId(w[i].0.id)
    requires Finished(End(w, before, first)) && Finished(End(w, before, second))
    ensures End(w, before, first).tools == End(w, before, second).tools
    ensures forall i: nat, t :: Enters(w, i) && Offers(w, i, t) ==> Reaches(w, before, first, i, t)
  {
    hide End, Agree, NamesApart, Finished, SafeId, Enters, Offers, Reaches;
    SafeIdsSuffice(w);
    OrderIrrelevantExactlyWhen(w, before);
    RoutesExactlyWhen(w, before);
  }

  lemma {:induction false} ResultsAre(w: World, phases: seq<Phase>, i: nat)
    requires |phases| == |w| && i < |w|
    requires forall i, k :: 0 <= i < k < |w| ==> w[i].0.id != w[k].0.id
    ensures w[i].0.id in Results(w, phases) && Results(w, phases)[w[i].0.id] == phases[i].Succeeded?
  {
    if i < |w| - 1 {
      ResultsAre(w[..|w| - 1], phases[..|w| - 1], i);
    }
  }

  /** After connecting, a server has a session exactly if it reports success or had
      one before. So after a refresh, which drops all sessions first, success is
      reported exactly for the connected servers. */
  lemma SuccessExactlyWhenConnected(w: World, before: set<string>, schedule: seq<nat>, i: nat)
    requires i < |w| && Finished(End(w, before, schedule)) && DistinctIds(w)
    ensures var end := End(w, before, schedule);
            var id := w[i].0.id;
            && id in Results(w, end.phases)
            && (id in end.sessions <==> Results(w, end.phases)[id] || id in before)
            && (Results(w, end.phases)[id] <==> Enters(w, i))
  {
    hide End, CanEnter, Results, Finished, SourceInv;
    EndInv(w, before, schedule);
    var end := End(w, before, schedule);
    ResultsAre(w, end.phases, i);
    SucceededAreEntered(w, before, schedule, i);
    var id := w[i].0.id;
    if id in end.sessions && id !in before {
      var k: nat :| k < |w| && w[k].0.id == id && (end.phases[k].Succeeded? || end.phases[k].Discovering?);
      assert k == i;
    }
  }
}
