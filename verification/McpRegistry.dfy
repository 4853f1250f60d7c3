/** What the tool registry and the sessions hold after all servers have been connected,
    in whatever order: entry by entry, from the servers' configuration and listings. */
module McpRegistry {
  import opened Wrappers
  import opened McpTools

  /** The server has a known transport with the endpoint it needs, and lets the client in. */
  predicate Connectable(w: World, i: nat) {
    i < |w| && w[i].0.transport != Unknown && w[i].0.hasEndpoint && w[i].1.enters
  }

  /** The filter in force for an id is that of the first server with the id; it lets a name
      pass when it is empty or lists the name. */
  ghost predicate LetsPass(w: World, id: string, name: string) {
    exists f: nat ::
      && f < |w| && w[f].0.id == id && (forall g :: 0 <= g < f ==> w[g].0.id != id)
      && (w[f].0.filter == [] || name in w[f].0.filter)
  }

  /** Position `p` of server `i`'s listing, when listing works. */
  predicate Lists(w: World, i: nat, p: nat) {
    i < |w| && w[i].1.listing.Some? && p < |w[i].1.listing.value|
  }

  function ToolAt(w: World, i: nat, p: nat): Tool
    requires Lists(w, i, p)
  {
    w[i].1.listing.value[p]
  }

  /** The tool at position `p` of server `i` is to be registered: the server can be
      connected and its filter lets the tool pass. */
  ghost predicate Contributes(w: World, i: nat, p: nat) {
    Connectable(w, i) && Lists(w, i, p) && LetsPass(w, w[i].0.id, ToolAt(w, i, p).name)
  }

  /** No later position of the same listing has the name. */
  predicate LastOfName(w: World, i: nat, p: nat)
    requires Lists(w, i, p)
  {
    forall q :: p < q < |w[i].1.listing.value| ==> w[i].1.listing.value[q].name != ToolAt(w, i, p).name
  }

  /** The entry of the tool, field by field. */
  predicate IsEntryOf(r: Registered, id: string, t: Tool) {
    && r.name == id + "__" + t.name
    && r.original == t.name && r.serverId == id && r.schema == t.schema
    && r.description == (if t.description != "" then t.description else "MCP tool: " + t.name)
  }

  lemma EntersIsConnectable(w: World, i: nat)
    ensures Enters(w, i) <==> Connectable(w, i)
  {
  }

  lemma {:induction false} FilterIsFirst(servers: seq<Server>, f: nat, id: string)
    requires f < |servers| && servers[f].id == id && forall g :: 0 <= g < f ==> servers[g].id != id
    ensures FilterFor(servers, id) == servers[f].filter
  {
    if f > 0 {
      FilterIsFirst(servers[1..], f - 1, id);
    }
  }

  lemma {:induction false} ServersAt(w: World)
    ensures |ServersOf(w)| == |w| && forall i :: 0 <= i < |w| ==> ServersOf(w)[i] == w[i].0
  {
    if |w| > 0 {
      ServersAt(w[1..]);
    }
  }

  lemma {:induction false} FirstOfId(w: World, i: nat) returns (f: nat)
    requires i < |w|
    ensures f <= i && w[f].0.id == w[i].0.id && forall g :: 0 <= g < f ==> w[g].0.id != w[i].0.id
  {
    if g :| 0 <= g < i && w[g].0.id == w[i].0.id {
      f := FirstOfId(w, g);
    } else {
      f := i;
    }
  }

  lemma PassesExactlyWhen(w: World, i: nat, t: Tool)
    requires i < |w|
    ensures Passes(FilterFor(ServersOf(w), w[i].0.id), t) <==> LetsPass(w, w[i].0.id, t.name)
  {
    hide FilterFor, ServersOf;
    ServersAt(w);
    var f := FirstOfId(w, i);
    FilterIsFirst(ServersOf(w), f, w[i].0.id);
    if g: nat :| g < |w| && w[g].0.id == w[i].0.id && forall h :: 0 <= h < g ==> w[h].0.id != w[i].0.id {
      assert f == g;
    }
  }

  /** Of several tools with one name the last one listed is registered. */
  lemma {:induction false} LastListedStays(tools: Registry, id: string, filter: seq<string>, ts: seq<Tool>, n: string)
    ensures var r := RegisterAll(tools, id, filter, ts);
            n in r ==>
              || (n in tools && r[n] == tools[n]
                  && forall q :: 0 <= q < |ts| && Passes(filter, ts[q]) ==> FullName(id, ts[q].name) != n)
              || exists p: nat :: LastPassing(id, filter, ts, p, n) && r[n] == RegisteredAs(id, ts[p])
    decreases |ts|
  {
    if |ts| > 0 {
      hide FullName, RegisteredAs, Passes;
      var first, rest := ts[0], ts[1..];
      var next := if Passes(filter, first) then RegisterTool(tools, id, first) else tools;
      var r := RegisterAll(tools, id, filter, ts);
      LastListedStays(next, id, filter, rest, n);
      RegisterIs(tools, id, first);
      if n in r {
        if p: nat :| LastPassing(id, filter, rest, p, n) && r[n] == RegisteredAs(id, rest[p]) {
          assert LastPassing(id, filter, ts, p + 1, n);
          assert ts[p + 1] == rest[p];
        } else {
          assert forall q :: 0 < q < |ts| ==> ts[q] == rest[q - 1];
          if Passes(filter, first) && FullName(id, first.name) == n {
            assert LastPassing(id, filter, ts, 0, n);
          }
        }
      }
    }
  }

  ghost predicate LastPassing(id: string, filter: seq<string>, ts: seq<Tool>, p: nat, n: string) {
    && p < |ts| && Passes(filter, ts[p]) && FullName(id, ts[p].name) == n
    && forall q :: p < q < |ts| && Passes(filter, ts[q]) ==> FullName(id, ts[q].name) != n
  }

  function RegisteredAs(id: string, t: Tool): Registered {
    var full := id + "__" + t.name;
    Registered(full, t.name, id, if t.description != "" then t.description else "MCP tool: " + t.name, t.schema)
  }

  lemma RegisterIs(tools: Registry, id: string, t: Tool)
    ensures RegisterTool(tools, id, t) == tools[FullName(id, t.name) := RegisteredAs(id, t)]
  {
  }

  lemma OwnEntry(w: World, i: nat, n: string) returns (p: nat)
    requires i < |w| && n in OwnTools(w, i)
    ensures Lists(w, i, p) && LastOfName(w, i, p) && LetsPass(w, w[i].0.id, ToolAt(w, i, p).name)
    ensures OwnTools(w, i)[n] == RegisteredAs(w[i].0.id, ToolAt(w, i, p))
    ensures n == FullName(w[i].0.id, ToolAt(w, i, p).name)
  {
    hide LetsPass, RegisteredAs, FilterFor, ServersOf, RegisterAll;
    var id, filter, ts := w[i].0.id, FilterFor(ServersOf(w), w[i].0.id), w[i].1.listing.value;
    LastListedStays(map[], id, filter, ts, n);
    p :| LastPassing(id, filter, ts, p, n) && OwnTools(w, i)[n] == RegisteredAs(id, ts[p]);
    PassesExactlyWhen(w, i, ts[p]);
    forall q | p < q < |ts| ensures ts[q].name != ts[p].name {
      assert !(Passes(filter, ts[q]) && FullName(id, ts[q].name) == n);
    }
  }

  /** Every registered name belongs to a tool that is to be registered, the last of its
      name in its server's listing, and the entry is that tool's. */
  lemma EveryEntryIsATool(w: World, before: set<string>, schedule: seq<nat>, n: string) returns (i: nat, p: nat)
    requires Finished(End(w, before, schedule)) && n in End(w, before, schedule).tools
    ensures Contributes(w, i, p) && LastOfName(w, i, p)
    ensures n == w[i].0.id + "__" + ToolAt(w, i, p).name
    ensures IsEntryOf(End(w, before, schedule).tools[n], w[i].0.id, ToolAt(w, i, p))
  {
    hide End, OwnTools, Finished, LetsPass, CanEnter, PhaseInv;
    EndInv(w, before, schedule);
    var end := End(w, before, schedule);
    i :| From(w, end, i, n) && OwnTools(w, i)[n] == end.tools[n];
    SucceededAreEntered(w, before, schedule, i);
    p := OwnEntry(w, i, n);
    EntersIsConnectable(w, i);
  }

  /** And every tool that is to be registered has its name registered. */
  lemma EveryToolHasAnEntry(w: World, before: set<string>, schedule: seq<nat>, i: nat, p: nat)
    requires Finished(End(w, before, schedule)) && Contributes(w, i, p)
    ensures w[i].0.id + "__" + ToolAt(w, i, p).name in End(w, before, schedule).tools
  {
    hide End, Finished, LetsPass, CanEnter, Passes, FilterFor, ServersOf;
    var t := ToolAt(w, i, p);
    PassesExactlyWhen(w, i, t);
    EntersIsConnectable(w, i);
    assert Offers(w, i, t);
    RegistryHoldsExactly(w, before, schedule, w[i].0.id + "__" + t.name);
  }

  /** There is a session for an id exactly when there was one before or some server with
      the id can be connected. */
  lemma SessionsAre(w: World, before: set<string>, schedule: seq<nat>, id: string)
    requires Finished(End(w, before, schedule))
    ensures id in End(w, before, schedule).sessions
            <==> id in before || exists i: nat :: Connectable(w, i) && w[i].0.id == id
  {
    hide End, Finished, CanEnter, SourceInv;
    EndInv(w, before, schedule);
    var end := End(w, before, schedule);
    if id in end.sessions && id !in before {
      var i: nat :| i < |w| && w[i].0.id == id && (end.phases[i].Succeeded? || end.phases[i].Discovering?);
      EntersIsConnectable(w, i);
    }
    if i: nat :| Connectable(w, i) && w[i].0.id == id {
      EntersIsConnectable(w, i);
      SucceededAreEntered(w, before, schedule, i);
    }
  }

  lemma {:induction false} ResultsOfLast(w: World, phases: seq<Phase>, i: nat)
    requires |phases| == |w| && i < |w| && forall k :: i < k < |w| ==> w[k].0.id != w[i].0.id
    ensures w[i].0.id in Results(w, phases) && Results(w, phases)[w[i].0.id] == phases[i].Succeeded?
  {
    if i < |w| - 1 {
      ResultsOfLast(w[..|w| - 1], phases[..|w| - 1], i);
    }
  }

  lemma {:induction false} ResultsHaveIds(w: World, phases: seq<Phase>, id: string)
    requires |phases| == |w|
    ensures id in Results(w, phases) <==> exists i :: 0 <= i < |w| && w[i].0.id == id
  {
    if |w| > 0 {
      ResultsHaveIds(w[..|w| - 1], phases[..|w| - 1], id);
    }
  }

  /** The report has one entry for each id, saying whether the last server with the id
      could be connected. */
  lemma ReportIs(w: World, before: set<string>, schedule: seq<nat>)
    requires Finished(End(w, before, schedule))
    ensures var results := Results(w, End(w, before, schedule).phases);
            && (forall id :: id in results <==> exists i :: 0 <= i < |w| && w[i].0.id == id)
            && forall i :: 0 <= i < |w| && (forall k :: i < k < |w| ==> w[k].0.id != w[i].0.id) ==>
                 w[i].0.id in results && results[w[i].0.id] == Connectable(w, i)
  {
    hide End, Finished, Results, CanEnter;
    var phases := End(w, before, schedule).phases;
    forall id ensures id in Results(w, phases) <==> exists i :: 0 <= i < |w| && w[i].0.id == id {
      ResultsHaveIds(w, phases, id);
    }
    forall i | 0 <= i < |w| && (forall k :: i < k < |w| ==> w[k].0.id != w[i].0.id)
      ensures w[i].0.id in Results(w, phases) && Results(w, phases)[w[i].0.id] == Connectable(w, i)
    {
      ResultsOfLast(w, phases, i);
      SucceededAreEntered(w, before, schedule, i);
      EntersIsConnectable(w, i);
    }
  }
}
