/**
 * The message router of Agent/NetAgent/NetAgent.go: a directory of agent
 * nodes joined by directed edges, one bounded mailbox per node, target
 * resolution and delivery, the pull-style drain, the routing precedence
 * with its broadcast fallback, one turn of a node's loop and the argument
 * handling of the "send" tool. Goroutines are not modelled: every
 * operation runs to completion on its own.
 */
module Network {
  import opened Wrappers
  import opened Text
  import opened Messages
  import opened Routing
  import opened Edges

  /** The buffer size of every node's InputChan. */
  const MailboxCapacity: nat := 10

  /** The *agent.Agent a node wraps; the router only needs to tell agents apart. */
  type AgentRef = nat

  datatype Error =
    | NodeIdRequired
    | AgentRequired
    | NodeExists(id: string)
    | EndpointsRequired
    | FromNodeNotFound(id: string)
    | ToNodeNotFound(id: string)
    | NodeNotFound(id: string)
    | NoEdge(from: string, to: string)
    | NoTargets
    | MailboxFull(id: string)
    | MessagesRequired

  /** AgentNode: an immutable id, the wrapped agent and the mailbox (InputChan) as a FIFO of batches. */
  class AgentNode {
    const id: string
    const agent: AgentRef
    var inbox: seq<Batch>

    constructor (id: string, agent: AgentRef)
      ensures this.id == id && this.agent == agent && inbox == []
    {
      this.id := id;
      this.agent := agent;
      inbox := [];
    }

    /** A non-blocking send on the mailbox: the batch is queued unless the buffer is full. */
    method Offer(batch: Batch) returns (accepted: bool)
      modifies this
      ensures accepted <==> |old(inbox)| < MailboxCapacity
      ensures inbox == if accepted then old(inbox) + [batch] else old(inbox)
    {
      accepted := |inbox| < MailboxCapacity;
      if accepted {
        inbox := inbox + [batch];
      }
    }

    /**
     * The draining part of recv with a zero timeout: take the head batch if
     * there is one, then whole batches while fewer than `max` messages are
     * gathered and the mailbox is not empty. `taken` counts the batches.
     */
    method Drain(max: int) returns (results: Batch, ghost taken: nat)
      requires |inbox| > 0 ==> max >= 0
      modifies this
      ensures taken <= |old(inbox)| && (taken == 0 <==> |old(inbox)| == 0)
      ensures results == Concat(old(inbox)[..taken]) && inbox == old(inbox)[taken..]
      ensures taken < |old(inbox)| ==> |results| >= max
      ensures forall j :: 1 <= j < taken ==> |Concat(old(inbox)[..j])| < max
    {
      if |inbox| == 0 {
        assert inbox[..0] == [];
        return [], 0;
      }
      ghost var before := inbox;
      var first := inbox[0];
      inbox := inbox[1..];
      results := first;
      taken := 1;
      assert before[..1][..0] == [];
      while |results| < max
        invariant 1 <= taken <= |before|
        invariant inbox == before[taken..]
        invariant results == Concat(before[..taken])
        invariant forall j :: 1 <= j < taken ==> |Concat(before[..j])| < max
        decreases |before| - taken
      {
        if |inbox| == 0 {
          break;
        }
        var next := inbox[0];
        inbox := inbox[1..];
        assert before[..taken + 1][..taken] == before[..taken];
        results := results + next;
        taken := taken + 1;
      }
    }
  }

  /** `order` lists the ids of `s`, each once, in some order. */
  ghost predicate Enumerates(order: seq<string>, s: set<string>) {
    && (forall i, j :: 0 <= i < j < |order| ==> order[i] != order[j])
    && (forall i :: 0 <= i < |order| ==> order[i] in s)
    && (forall k :: k in s ==> k in order)
  }

  lemma {:induction false} EnumerationSize(order: seq<string>, s: set<string>)
    requires Enumerates(order, s)
    ensures |order| == |s|
    decreases |order|
  {
    if |order| > 0 {
      var last := order[|order| - 1];
      var init := order[..|order| - 1];
      assert Enumerates(init, s - {last}) by {
        forall k | k in s - {last} ensures k in init {
          var i :| 0 <= i < |order| && order[i] == k;
          assert i != |order| - 1;
          assert init[i] == k;
        }
      }
      EnumerationSize(init, s - {last});
    }
  }

  /** The ids of a list of nodes. */
  ghost function IdsOf(ns: seq<AgentNode>): set<string> {
    set i | 0 <= i < |ns| :: ns[i].id
  }

  lemma IdsOfAppend(ns: seq<AgentNode>, n: AgentNode)
    ensures IdsOf(ns + [n]) == IdsOf(ns) + {n.id}
  {
    assert (ns + [n])[|ns|] == n;
    forall k | k in IdsOf(ns) ensures k in IdsOf(ns + [n]) {
      var i :| 0 <= i < |ns| && ns[i].id == k;
      assert (ns + [n])[i] == ns[i];
    }
  }

  /** A set holding the ids of exactly the first `n` nodes of a list without repeated ids has `n` elements. */
  lemma {:induction false} PrefixCount(ns: seq<AgentNode>, n: nat, s: set<string>)
    requires n <= |ns|
    requires forall i, j :: 0 <= i < j < |ns| ==> ns[i].id != ns[j].id
    requires forall i :: 0 <= i < |ns| ==> (ns[i].id in s <==> i < n)
    requires s <= IdsOf(ns)
    ensures |s| == n
    decreases n
  {
    if n == 0 {
      assert s == {} by {
        forall k | k in IdsOf(ns) ensures k !in s {
          var i :| 0 <= i < |ns| && ns[i].id == k;
        }
      }
    } else {
      var last := ns[n - 1].id;
      forall i | 0 <= i < |ns| ensures ns[i].id in s - {last} <==> i < n - 1 {
        if i != n - 1 {
          assert ns[i].id != last;
        }
      }
      PrefixCount(ns, n - 1, s - {last});
    }
  }

  /** The ids named in `toIDs` with blanks skipped, failing at the first one that is not a neighbour. */
  function ExplicitTargets(neighbours: set<string>, fromID: string, toIDs: seq<string>): Result<set<string>, Error>
    decreases |toIDs|
  {
    if |toIDs| == 0 then Ok({})
    else
      match ExplicitTargets(neighbours, fromID, toIDs[..|toIDs| - 1])
      case Err(e) => Err(e)
      case Ok(s) =>
        var id := toIDs[|toIDs| - 1];
        if id == "" then Ok(s)
        else if id !in neighbours then Err(NoEdge(fromID, id))
        else Ok(s + {id})
  }

  /** The non-blank ids of a list, duplicates collapsed. */
  function NonBlankIds(ids: seq<string>): set<string> {
    set i | 0 <= i < |ids| && ids[i] != "" :: ids[i]
  }

  /** The explicit list resolves exactly when each non-blank id is a neighbour, and then to the set of those ids. */
  lemma {:induction false} ExplicitTargetsOk(neighbours: set<string>, fromID: string, toIDs: seq<string>)
    ensures ExplicitTargets(neighbours, fromID, toIDs).Ok? <==>
      forall i :: 0 <= i < |toIDs| && toIDs[i] != "" ==> toIDs[i] in neighbours
    ensures ExplicitTargets(neighbours, fromID, toIDs).Ok? ==>
      ExplicitTargets(neighbours, fromID, toIDs).value == NonBlankIds(toIDs)
    decreases |toIDs|
  {
    if |toIDs| > 0 {
      var init := toIDs[..|toIDs| - 1];
      ExplicitTargetsOk(neighbours, fromID, init);
      assert forall i :: 0 <= i < |init| ==> init[i] == toIDs[i];
      var id := toIDs[|toIDs| - 1];
      if ExplicitTargets(neighbours, fromID, toIDs).Ok? {
        assert NonBlankIds(toIDs) == NonBlankIds(init) + (if id == "" then {} else {id});
      }
    }
  }

  /** A failure names the first non-blank id of the list that is not a neighbour. */
  lemma {:induction false} ExplicitTargetsErr(neighbours: set<string>, fromID: string, toIDs: seq<string>)
    requires ExplicitTargets(neighbours, fromID, toIDs).Err?
    ensures exists i :: (0 <= i < |toIDs| && toIDs[i] != "" && toIDs[i] !in neighbours
      && ExplicitTargets(neighbours, fromID, toIDs).error == NoEdge(fromID, toIDs[i])
      && forall j :: 0 <= j < i ==> toIDs[j] == "" || toIDs[j] in neighbours)
    decreases |toIDs|
  {
    var init := toIDs[..|toIDs| - 1];
    assert forall i :: 0 <= i < |init| ==> init[i] == toIDs[i];
    if ExplicitTargets(neighbours, fromID, init).Err? {
      ExplicitTargetsErr(neighbours, fromID, init);
      var i :| 0 <= i < |init| && init[i] != "" && init[i] !in neighbours
        && ExplicitTargets(neighbours, fromID, init).error == NoEdge(fromID, init[i])
        && forall j :: 0 <= j < i ==> init[j] == "" || init[j] in neighbours;
      assert toIDs[i] == init[i];
    } else {
      ExplicitTargetsOk(neighbours, fromID, init);
      assert forall j :: 0 <= j < |toIDs| - 1 ==> toIDs[j] == "" || toIDs[j] in neighbours;
    }
  }

  /** Once a prefix of the list has failed, the whole list fails the same way. */
  lemma {:induction false} ExplicitTargetsErrSticks(neighbours: set<string>, fromID: string, toIDs: seq<string>, n: nat)
    requires n <= |toIDs|
    requires ExplicitTargets(neighbours, fromID, toIDs[..n]).Err?
    ensures ExplicitTargets(neighbours, fromID, toIDs) == ExplicitTargets(neighbours, fromID, toIDs[..n])
    decreases |toIDs|
  {
    if n < |toIDs| {
      var init := toIDs[..|toIDs| - 1];
      assert init[..n] == toIDs[..n];
      ExplicitTargetsErrSticks(neighbours, fromID, init, n);
    } else {
      assert toIDs[..n] == toIDs;
    }
  }

  /**
   * resolveTargets on a snapshot of the directory: an unknown sender fails;
   * no ids means every out-neighbour; otherwise the explicit ids, each of
   * which needs an edge; an empty outcome fails.
   */
  function ResolveTargetIds(known: set<string>, outEdges: Adjacency, fromID: string, toIDs: seq<string>): Result<set<string>, Error> {
    if fromID !in known then Err(FromNodeNotFound(fromID))
    else
      var neighbours := Neighbours(outEdges, fromID);
      var chosen := if |toIDs| == 0 then Ok(neighbours) else ExplicitTargets(neighbours, fromID, toIDs);
      match chosen
      case Err(e) => Err(e)
      case Ok(s) => if s == {} then Err(NoTargets) else Ok(s)
  }

  /** Resolved targets are always a non-empty set of out-neighbours; with no ids they are all of them. */
  lemma ResolveTargetIdsSpec(known: set<string>, outEdges: Adjacency, fromID: string, toIDs: seq<string>)
    ensures var r := ResolveTargetIds(known, outEdges, fromID, toIDs);
      && (r.Ok? ==> r.value != {} && r.value <= Neighbours(outEdges, fromID) && fromID in known)
      && (|toIDs| == 0 && fromID in known ==>
            r == if Neighbours(outEdges, fromID) == {} then Err(NoTargets) else Ok(Neighbours(outEdges, fromID)))
      && (|toIDs| > 0 && fromID in known && r.Ok? ==> r.value == NonBlankIds(toIDs))
      && (r.Err? ==> r.error.FromNodeNotFound? || r.error.NoEdge? || r.error.NoTargets?)
  {
    if fromID in known && |toIDs| > 0 {
      var nb := Neighbours(outEdges, fromID);
      ExplicitTargetsOk(nb, fromID, toIDs);
      if ExplicitTargets(nb, fromID, toIDs).Err? {
        ExplicitTargetsErr(nb, fromID, toIDs);
      }
      if ExplicitTargets(nb, fromID, toIDs).Ok? {
        forall k | k in NonBlankIds(toIDs) ensures k in nb {
          var i :| 0 <= i < |toIDs| && toIDs[i] != "" && toIDs[i] == k;
        }
      }
    }
  }

  /** Listing every neighbour explicitly resolves to the same set as the empty list does. */
  lemma ResolveNeighbourList(known: set<string>, outEdges: Adjacency, fromID: string, ids: seq<string>)
    requires fromID in known
    requires "" !in Neighbours(outEdges, fromID)
    requires Enumerates(ids, Neighbours(outEdges, fromID)) && |ids| > 0
    ensures ResolveTargetIds(known, outEdges, fromID, ids) == Ok(Neighbours(outEdges, fromID))
  {
    var nb := Neighbours(outEdges, fromID);
    ExplicitTargetsOk(nb, fromID, ids);
    assert NonBlankIds(ids) == nb by {
      forall k | k in nb ensures k in NonBlankIds(ids) {
        var i :| 0 <= i < |ids| && ids[i] == k;
      }
    }
  }

  /** Scenario: with nodes A, B and the edge A to B only, A's broadcast reaches B and B has nowhere to send. */
  lemma TwoNodeScenario()
    ensures ResolveTargetIds({"A", "B"}, map["A" := {"B"}, "B" := {}], "A", []) == Ok({"B"})
    ensures ResolveTargetIds({"A", "B"}, map["A" := {"B"}, "B" := {}], "B", []) == Err(NoTargets)
  {
  }

  /**
   * A turn triggered by a sender that is not an out-neighbour, such as a
   * virtual "seed" id injected from outside the graph: SmartRouter sends the
   * reply back to that id, and resolution fails for want of an edge.
   */
  lemma SmartReplyToStrangerFails(known: set<string>, outEdges: Adjacency, selfID: string, sender: string, input: Batch, reply: string)
    requires selfID in known
    requires sender != "" && sender != selfID && sender !in Neighbours(outEdges, selfID)
    requires !IsBlank(reply) && !Contains(reply, DeliveryMarker)
    ensures var d := SmartRouter(selfID, sender, input, reply);
      !d.stop && ResolveTargetIds(known, outEdges, selfID, d.nextIDs) == Err(NoEdge(selfID, sender))
  {
    var d := SmartRouter(selfID, sender, input, reply);
    assert d.nextIDs == [sender];
    assert [sender][..0] == [];
    assert ExplicitTargets(Neighbours(outEdges, selfID), selfID, [sender]) == Err(NoEdge(selfID, sender));
  }

  /** The text the send tool returns after a complete delivery: "delivered to %d node(s)". */
  function DeliveryReceipt(count: nat): string {
    DeliveryMarker + " " + NatToString(count) + " node(s)"
  }

  /** A send tool receipt, echoed as the agent's reply, stops SmartRouter: the delivery is not forwarded again. */
  lemma ReceiptStopsSmartRouter(count: nat, selfID: string, replyToID: string, input: Batch)
    ensures SmartRouter(selfID, replyToID, input, DeliveryReceipt(count)).stop
    ensures !DefaultRoute(selfID, replyToID, input, DeliveryReceipt(count)).stop
  {
    assert DeliveryReceipt(count) == DeliveryMarker + (" " + NatToString(count) + " node(s)");
    DeliveryReportStopsSmartOnly(selfID, replyToID, input, " " + NatToString(count) + " node(s)");
  }

  /** The parsed arguments of the "send" tool. */
  datatype SendArgs = SendArgs(toID: string, toIDs: seq<string>, messages: Batch, content: string)

  /** The tool's targets: ToIDs, with ToID appended when it is set. */
  function ToolTargets(args: SendArgs): (r: seq<string>)
    ensures args.toID != "" ==> |r| == |args.toIDs| + 1 && r[|r| - 1] == args.toID
    ensures |r| >= |args.toIDs| && r[..|args.toIDs|] == args.toIDs
    ensures args.toID == "" ==> r == args.toIDs
  {
    if args.toID != "" then args.toIDs + [args.toID] else args.toIDs
  }

  /** The tool's batch: Messages, or a single user message made of Content when Messages is empty. */
  function ToolMessages(args: SendArgs): (r: Batch)
    ensures |r| == 0 <==> |args.messages| == 0 && args.content == ""
    ensures |args.messages| > 0 ==> r == args.messages
    ensures |args.messages| == 0 && args.content != "" ==> r == [Plain("user", args.content)]
  {
    if |args.messages| == 0 && args.content != "" then [Plain("user", args.content)] else args.messages
  }

  /** What happened in one turn of a node loop; the source only logs it. */
  datatype TurnOutcome =
    | Skipped
    | InvokeFailed(reason: string)
    | Halted
    | Dispatched(delivered: nat, err: Option<Error>)

  /** The input handed to the agent: the content prefixed with the sender's id. */
  function Prompted(senderID: string, content: string): string {
    "[Message from " + senderID + "]: " + content
  }

  /** The routing precedence ends the turn: the policy stopped, or it named no target and there is no neighbour. */
  predicate RouteStops(d: Decision, neighbours: set<string>) {
    d.stop || (|d.nextIDs| == 0 && neighbours == {})
  }

  /** The targets a turn delivers to: the policy's explicit ids, resolved, or every neighbour. */
  function TurnTargets(d: Decision, known: set<string>, outEdges: Adjacency, selfID: string): Result<set<string>, Error> {
    if |d.nextIDs| > 0 then ResolveTargetIds(known, outEdges, selfID, d.nextIDs)
    else Ok(Neighbours(outEdges, selfID))
  }

  /**
   * The counters of a send against its resolved targets: on a resolution
   * error nothing is served; otherwise `served`, the targets that got the
   * batch, numbers `delivered`, and is all of them unless the mailbox of
   * the target named by the error was full.
   */
  ghost predicate SendReport(spec: Result<set<string>, Error>, delivered: nat, err: Option<Error>, served: set<string>) {
    match spec
    case Err(e) => delivered == 0 && err == Some(e) && served == {}
    case Ok(s) =>
      && served <= s
      && |served| == delivered
      && (err.None? <==> served == s)
      && (err.Some? ==> err.value.MailboxFull? && err.value.id in s - served)
  }

  /** Every node is filed under its own id. */
  ghost predicate FiledUnderIds(nodes: map<string, AgentNode>) {
    forall id :: id in nodes ==> nodes[id].id == id
  }

  /** The directory as plain values: no blank id, every node filed under its own id, and the edge index over exactly those ids. */
  ghost predicate Directory(nodes: map<string, AgentNode>, inEdges: Adjacency, outEdges: Adjacency) {
    && "" !in nodes
    && FiledUnderIds(nodes)
    && Indexed(nodes.Keys, inEdges, outEdges)
  }

  /** AddNode keeps the directory: the new node is filed under its id with no edges. */
  lemma DirectoryAddNode(nodes: map<string, AgentNode>, inEdges: Adjacency, outEdges: Adjacency, id: string, node: AgentNode)
    requires Directory(nodes, inEdges, outEdges) && id != "" && id !in nodes && node.id == id
    ensures Directory(nodes[id := node], inEdges[id := {}], outEdges[id := {}])
  {
    IndexAddNode(nodes.Keys, inEdges, outEdges, id);
    assert nodes[id := node].Keys == nodes.Keys + {id};
  }

  /** AddEdge keeps the directory, and adding an edge already there changes nothing. */
  lemma DirectoryAddEdge(nodes: map<string, AgentNode>, inEdges: Adjacency, outEdges: Adjacency, from: string, to: string)
    requires Directory(nodes, inEdges, outEdges) && from in nodes && to in nodes
    ensures Directory(nodes, inEdges[to := Neighbours(inEdges, to) + {from}], outEdges[from := Neighbours(outEdges, from) + {to}])
    ensures to in Neighbours(outEdges, from) ==>
      inEdges[to := Neighbours(inEdges, to) + {from}] == inEdges && outEdges[from := Neighbours(outEdges, from) + {to}] == outEdges
  {
    IndexAddEdge(nodes.Keys, inEdges, outEdges, from, to);
    if to in outEdges[from] {
      AddPresentEdge(nodes.Keys, inEdges, outEdges, from, to);
    }
  }

  /** DeleteEdge keeps the directory, and deleting an edge that is not there changes nothing. */
  lemma DirectoryDeleteEdge(nodes: map<string, AgentNode>, inEdges: Adjacency, outEdges: Adjacency, from: string, to: string)
    requires Directory(nodes, inEdges, outEdges)
    ensures Directory(nodes, DropEdge(inEdges, to, from), DropEdge(outEdges, from, to))
    ensures to !in Neighbours(outEdges, from) ==>
      DropEdge(inEdges, to, from) == inEdges && DropEdge(outEdges, from, to) == outEdges
  {
    IndexDeleteEdge(nodes.Keys, inEdges, outEdges, from, to);
    if to !in Neighbours(outEdges, from) {
      DeleteAbsentEdge(nodes.Keys, inEdges, outEdges, from, to);
    }
  }

  /** DeleteNode keeps the directory, and deleting an unknown id changes nothing. */
  lemma DirectoryDeleteNode(nodes: map<string, AgentNode>, inEdges: Adjacency, outEdges: Adjacency, id: string)
    requires Directory(nodes, inEdges, outEdges)
    ensures Directory(nodes - {id}, RemoveId(inEdges, id), RemoveId(outEdges, id))
    ensures id !in nodes ==> nodes - {id} == nodes && RemoveId(inEdges, id) == inEdges && RemoveId(outEdges, id) == outEdges
  {
    IndexDeleteNode(nodes.Keys, inEdges, outEdges, id);
    assert (nodes - {id}).Keys == nodes.Keys - {id};
    if id !in nodes {
      RemoveAbsentId(nodes.Keys, inEdges, outEdges, id);
      assert nodes - {id} == nodes;
    }
  }

  /** Deleting an edge just added restores both views. */
  lemma AddThenDeleteEdge(nodes: map<string, AgentNode>, inEdges: Adjacency, outEdges: Adjacency, from: string, to: string)
    requires Directory(nodes, inEdges, outEdges) && from in nodes && to in nodes
    requires to !in Neighbours(outEdges, from)
    ensures DropEdge(outEdges[from := Neighbours(outEdges, from) + {to}], from, to) == outEdges
    ensures DropEdge(inEdges[to := Neighbours(inEdges, to) + {from}], to, from) == inEdges
  {
    Mirror(nodes.Keys, inEdges, outEdges, from, to);
    assert Neighbours(outEdges, from) + {to} - {to} == outEdges[from];
    assert Neighbours(inEdges, to) + {from} - {from} == inEdges[to];
  }

  /** Deleting a node just added restores the directory. */
  lemma AddThenDeleteNode(nodes: map<string, AgentNode>, inEdges: Adjacency, outEdges: Adjacency, id: string, node: AgentNode)
    requires Directory(nodes, inEdges, outEdges) && id !in nodes
    ensures nodes[id := node] - {id} == nodes
    ensures RemoveId(inEdges[id := {}], id) == inEdges && RemoveId(outEdges[id := {}], id) == outEdges
  {
    RemoveAbsentId(nodes.Keys, inEdges, outEdges, id);
    assert RemoveId(inEdges[id := {}], id) == RemoveId(inEdges, id);
    assert RemoveId(outEdges[id := {}], id) == RemoveId(outEdges, id);
  }

  class NetAgent {
    var nodes: map<string, AgentNode>
    var inEdges: Adjacency
    var outEdges: Adjacency
    var router: Option<Router>
    var started: bool
    var cancelled: bool

    /** Every node is filed under its own id. */
    ghost predicate Filed()
      reads this
    {
      FiledUnderIds(nodes)
    }

    /** The directory: no blank id, every node filed under its own id, and the edge index over exactly those ids. */
    ghost predicate Wired()
      reads this
    {
      Directory(nodes, inEdges, outEdges)
    }

    /** No mailbox holds more batches than its capacity. */
    ghost predicate Bounded()
      reads this, nodes.Values
    {
      forall id :: id in nodes ==> |nodes[id].inbox| <= MailboxCapacity
    }

    ghost predicate Valid()
      reads this, nodes.Values
    {
      Wired() && Bounded()
    }

    /** The mailboxes are as they were. */
    twostate predicate InboxesUnchanged()
      reads this, nodes.Values
    {
      && nodes == old(nodes)
      && forall k :: k in nodes ==> nodes[k].inbox == old(nodes[k].inbox)
    }

    /**
     * Each node in `served` gained `batch` at the tail of its mailbox and
     * every other mailbox is as it was; a mailbox a failure names was full.
     */
    twostate predicate DeliveredTo(served: set<string>, err: Option<Error>, batch: Batch)
      reads this, nodes.Values
    {
      && nodes == old(nodes)
      && (forall k :: k in nodes ==>
            nodes[k].inbox == if k in served then old(nodes[k].inbox) + [batch] else old(nodes[k].inbox))
      && (err.Some? && err.value.MailboxFull? && err.value.id in nodes ==>
            |old(nodes[err.value.id].inbox)| == MailboxCapacity)
    }

    /** NewNetAgent: an empty directory with no router, not started. */
    constructor ()
      ensures Valid()
      ensures nodes == map[] && inEdges == map[] && outEdges == map[]
      ensures router == None && !started && !cancelled
    {
      nodes, inEdges, outEdges := map[], map[], map[];
      router, started, cancelled := None, false, false;
    }

    method AddNode(id: string, agent: Option<AgentRef>) returns (r: Result<AgentNode, Error>)
      requires Valid()
      modifies this
      ensures Valid()
      ensures id == "" ==> r == Err(NodeIdRequired)
      ensures id != "" && agent.None? ==> r == Err(AgentRequired)
      ensures id != "" && agent.Some? && id in old(nodes) ==> r == Err(NodeExists(id))
      ensures r.Ok? <==> id != "" && agent.Some? && id !in old(nodes)
      ensures r.Err? ==> nodes == old(nodes) && inEdges == old(inEdges) && outEdges == old(outEdges)
      ensures r.Ok? ==> fresh(r.value) && r.value.id == id && r.value.agent == agent.value && r.value.inbox == []
      ensures r.Ok? ==> nodes == old(nodes)[id := r.value]
      ensures r.Ok? ==> inEdges == old(inEdges)[id := {}] && outEdges == old(outEdges)[id := {}]
      ensures router == old(router) && started == old(started) && cancelled == old(cancelled)
    {
      if id == "" {
        return Err(NodeIdRequired);
      }
      if agent.None? {
        return Err(AgentRequired);
      }
      if id in nodes {
        return Err(NodeExists(id));
      }
      var node := new AgentNode(id, agent.value);
      DirectoryAddNode(nodes, inEdges, outEdges, id, node);
      nodes, inEdges, outEdges := nodes[id := node], inEdges[id := {}], outEdges[id := {}];
      return Ok(node);
    }

    method DeleteNode(id: string)
      requires Valid()
      modifies this
      ensures Valid()
      ensures id !in old(nodes) ==> nodes == old(nodes) && inEdges == old(inEdges) && outEdges == old(outEdges)
      ensures nodes == old(nodes) - {id}
      ensures inEdges == RemoveId(old(inEdges), id) && outEdges == RemoveId(old(outEdges), id)
      ensures router == old(router) && started == old(started) && cancelled == old(cancelled)
    {
      DirectoryDeleteNode(nodes, inEdges, outEdges, id);
      if id !in nodes {
        return;
      }
      var ins, outs := RemoveNodeEdges(nodes.Keys, inEdges, outEdges, id);
      inEdges, outEdges, nodes := ins, outs, nodes - {id};
    }

    method AddEdge(fromID: string, toID: string) returns (err: Option<Error>)
      requires Valid()
      modifies this
      ensures Valid()
      ensures fromID == "" || toID == "" ==> err == Some(EndpointsRequired)
      ensures fromID != "" && toID != "" && fromID !in old(nodes) ==> err == Some(FromNodeNotFound(fromID))
      ensures fromID != "" && toID != "" && fromID in old(nodes) && toID !in old(nodes) ==> err == Some(ToNodeNotFound(toID))
      ensures err.None? <==> fromID != "" && toID != "" && fromID in old(nodes) && toID in old(nodes)
      ensures err.Some? ==> inEdges == old(inEdges) && outEdges == old(outEdges)
      ensures err.None? ==> outEdges == old(outEdges)[fromID := old(outEdges)[fromID] + {toID}]
      ensures err.None? ==> inEdges == old(inEdges)[toID := old(inEdges)[toID] + {fromID}]
      ensures err.None? && toID in old(outEdges)[fromID] ==> inEdges == old(inEdges) && outEdges == old(outEdges)
      ensures nodes == old(nodes) && router == old(router) && started == old(started) && cancelled == old(cancelled)
    {
      if fromID == "" || toID == "" {
        return Some(EndpointsRequired);
      }
      if fromID !in nodes {
        return Some(FromNodeNotFound(fromID));
      }
      if toID !in nodes {
        return Some(ToNodeNotFound(toID));
      }
      DirectoryAddEdge(nodes, inEdges, outEdges, fromID, toID);
      outEdges, inEdges := outEdges[fromID := Neighbours(outEdges, fromID) + {toID}], inEdges[toID := Neighbours(inEdges, toID) + {fromID}];
      return None;
    }

    method DeleteEdge(fromID: string, toID: string)
      requires Valid()
      modifies this
      ensures Valid()
      ensures outEdges == DropEdge(old(outEdges), fromID, toID)
      ensures inEdges == DropEdge(old(inEdges), toID, fromID)
      ensures toID !in Neighbours(old(outEdges), fromID) ==> inEdges == old(inEdges) && outEdges == old(outEdges)
      ensures nodes == old(nodes) && router == old(router) && started == old(started) && cancelled == old(cancelled)
    {
      DirectoryDeleteEdge(nodes, inEdges, outEdges, fromID, toID);
      outEdges, inEdges := DropEdge(outEdges, fromID, toID), DropEdge(inEdges, toID, fromID);
    }

    function GetNode(id: string): (r: Option<AgentNode>)
      requires Valid()
      reads this, nodes.Values
      ensures r.Some? <==> id in nodes
      ensures r.Some? ==> r.value.id == id && r.value in nodes.Values
    {
      if id in nodes then Some(nodes[id]) else None
    }

    /** A list of directory nodes, each filed under its id, without repeats. */
    ghost predicate Listed(ns: seq<AgentNode>)
      reads this
    {
      && (forall i :: 0 <= i < |ns| ==> ns[i].id in nodes && nodes[ns[i].id] == ns[i])
      && (forall i, j :: 0 <= i < j < |ns| ==> ns[i] != ns[j])
    }

    /** The nodes whose ids are in `ids`, each once, in an unspecified order. */
    method CollectNodes(ids: set<string>) returns (ns: seq<AgentNode>)
      requires Valid()
      ensures Listed(ns) && IdsOf(ns) == ids * nodes.Keys
    {
      ns := [];
      var rest := ids;
      while rest != {}
        invariant rest <= ids
        invariant Listed(ns)
        invariant forall i :: 0 <= i < |ns| ==> ns[i].id !in rest
        invariant IdsOf(ns) == (ids - rest) * nodes.Keys
        decreases rest
      {
        var k :| k in rest;
        if k in nodes {
          IdsOfAppend(ns, nodes[k]);
          ns := ns + [nodes[k]];
        }
        rest := rest - {k};
      }
    }

    /** GetInNodes: the nodes with an edge into `id`, or not found. */
    method GetInNodes(id: string) returns (ns: seq<AgentNode>, found: bool)
      requires Valid()
      ensures found <==> id in nodes
      ensures !found ==> ns == []
      ensures found ==> Listed(ns) && IdsOf(ns) == inEdges[id]
      ensures found ==> forall k :: k in IdsOf(ns) <==> k in nodes && id in outEdges[k]
    {
      if id !in nodes {
        return [], false;
      }
      ns := CollectNodes(inEdges[id]);
      found := true;
    }

    /** GetOutNodes: the nodes that `id` has an edge to, or not found. */
    method GetOutNodes(id: string) returns (ns: seq<AgentNode>, found: bool)
      requires Valid()
      ensures found <==> id in nodes
      ensures !found ==> ns == []
      ensures found ==> Listed(ns) && IdsOf(ns) == outEdges[id]
      ensures found ==> forall k :: k in IdsOf(ns) <==> k in nodes && id in inEdges[k]
    {
      if id !in nodes {
        return [], false;
      }
      ns := CollectNodes(outEdges[id]);
      found := true;
      forall k ensures k in IdsOf(ns) <==> k in nodes && id in inEdges[k] {
        Mirror(nodes.Keys, inEdges, outEdges, id, k);
      }
    }

    method SetRouter(r: Option<Router>)
      modifies this
      ensures router == r
      ensures nodes == old(nodes) && inEdges == old(inEdges) && outEdges == old(outEdges)
      ensures started == old(started) && cancelled == old(cancelled)
    {
      router := r;
    }

    /** Start: idempotent; the first call starts the shared lifecycle (the node loops are not modelled). */
    method Start()
      modifies this
      ensures old(started) ==> started && cancelled == old(cancelled)
      ensures !old(started) ==> started && !cancelled
      ensures nodes == old(nodes) && inEdges == old(inEdges) && outEdges == old(outEdges) && router == old(router)
    {
      if started {
        return;
      }
      started := true;
      cancelled := false;
    }

    /** Stop: a no-op when not started; otherwise cancels the lifecycle. `started` stays set, so a later Start does nothing. */
    method Stop()
      modifies this
      ensures !old(started) ==> !started && cancelled == old(cancelled)
      ensures old(started) ==> started && cancelled
      ensures nodes == old(nodes) && inEdges == old(inEdges) && outEdges == old(outEdges) && router == old(router)
    {
      if !started {
        return;
      }
      cancelled := true;
    }

    /** resolveTargets: the nodes of the resolved target set, each once, in an unspecified order. */
    method ResolveTargets(fromID: string, toIDs: seq<string>) returns (r: Result<seq<AgentNode>, Error>)
      requires Valid()
      ensures var spec := ResolveTargetIds(nodes.Keys, outEdges, fromID, toIDs);
        && (r.Err? <==> spec.Err?)
        && (r.Err? ==> r.error == spec.error)
        && (r.Ok? ==> Listed(r.value) && IdsOf(r.value) == spec.value)
    {
      if fromID !in nodes {
        return Err(FromNodeNotFound(fromID));
      }
      var neighbours := Neighbours(outEdges, fromID);
      var targetSet: set<string> := {};
      if |toIDs| == 0 {
        targetSet := neighbours;
      } else {
        var i := 0;
        while i < |toIDs|
          invariant 0 <= i <= |toIDs|
          invariant ExplicitTargets(neighbours, fromID, toIDs[..i]) == Ok(targetSet)
        {
          var id := toIDs[i];
          assert toIDs[..i + 1][..i] == toIDs[..i];
          if id != "" {
            if id !in neighbours {
              ExplicitTargetsErrSticks(neighbours, fromID, toIDs, i + 1);
              return Err(NoEdge(fromID, id));
            }
            targetSet := targetSet + {id};
          }
          i := i + 1;
        }
        assert toIDs[..i] == toIDs;
      }
      if targetSet == {} {
        return Err(NoTargets);
      }
      var ns := CollectNodes(targetSet);
      ResolveTargetIdsSpec(nodes.Keys, outEdges, fromID, toIDs);
      assert targetSet <= nodes.Keys;
      return Ok(ns);
    }

    /**
     * send: resolve the targets, stamp every message with the sender, then
     * offer the batch to each target's mailbox without blocking. A full
     * mailbox stops the delivery with an error; targets already served keep
     * the batch. `order` is the order the targets were tried in.
     */
    method Send(fromID: string, toIDs: seq<string>, messages: Batch) returns (delivered: nat, err: Option<Error>, ghost served: set<string>)
      requires Valid()
      modifies nodes.Values
      ensures Valid()
      ensures SendReport(ResolveTargetIds(nodes.Keys, outEdges, fromID, toIDs), delivered, err, served)
      ensures DeliveredTo(served, err, Stamped(messages, fromID))
    {
      var r := ResolveTargets(fromID, toIDs);
      if r.Err? {
        ResolveTargetIdsSpec(nodes.Keys, outEdges, fromID, toIDs);
        return 0, Some(r.error), {};
      }
      var targets := r.value;
      var batch := Stamp(messages, fromID);
      delivered, err, served := Deliver(targets, batch);
      ServedCount(targets, delivered, served);
      if err.None? {
        assert served == IdsOf(targets);
      }
    }

    /**
     * send's delivery loop: offer the batch to each target's mailbox in
     * turn without blocking, and stop at the first full one.
     */
    method Deliver(targets: seq<AgentNode>, batch: Batch) returns (delivered: nat, err: Option<Error>, ghost served: set<string>)
      requires Filed() && Bounded() && Listed(targets)
      modifies nodes.Values
      ensures Bounded()
      ensures delivered <= |targets| && served <= IdsOf(targets)
      ensures forall i :: 0 <= i < |targets| ==> (targets[i].id in served <==> i < delivered)
      ensures err.None? <==> delivered == |targets|
      ensures err.Some? ==> delivered < |targets| && err == Some(MailboxFull(targets[delivered].id))
      ensures DeliveredTo(served, err, batch)
    {
      ghost var before := map k | k in nodes :: nodes[k].inbox;
      served := {};
      delivered := 0;
      while delivered < |targets|
        invariant delivered <= |targets| && served <= IdsOf(targets)
        invariant forall i :: 0 <= i < delivered ==> targets[i].id in served
        invariant forall i :: delivered <= i < |targets| ==> targets[i].id !in served
        invariant Bounded()
        invariant forall k :: k in nodes ==> nodes[k].inbox == if k in served then before[k] + [batch] else before[k]
      {
        var node := targets[delivered];
        var accepted := OfferAt(node.id, batch);
        if accepted {
          forall i | delivered < i < |targets| ensures targets[i].id != node.id {
            assert targets[i] != node;
          }
          served := served + {node.id};
          delivered := delivered + 1;
        } else {
          return delivered, Some(MailboxFull(node.id)), served;
        }
      }
      err := None;
    }

    /** The targets served first, as Deliver reports them, number `n`. */
    lemma ServedCount(targets: seq<AgentNode>, n: nat, served: set<string>)
      requires Listed(targets) && n <= |targets| && served <= IdsOf(targets)
      requires forall i :: 0 <= i < |targets| ==> (targets[i].id in served <==> i < n)
      ensures |served| == n
    {
      forall i, j | 0 <= i < j < |targets| ensures targets[i].id != targets[j].id {
        assert targets[i] != targets[j];
      }
      PrefixCount(targets, n, served);
    }

    /** One step of send's delivery loop: a non-blocking send on the mailbox of the node filed under `id`. */
    method OfferAt(id: string, batch: Batch) returns (accepted: bool)
      requires Filed() && Bounded() && id in nodes
      modifies nodes[id]
      ensures Bounded()
      ensures accepted <==> |old(nodes[id].inbox)| < MailboxCapacity
      ensures forall k :: k in nodes ==>
        nodes[k].inbox == if accepted && k == id then old(nodes[k].inbox) + [batch] else old(nodes[k].inbox)
    {
      var node := nodes[id];
      accepted := node.Offer(batch);
      forall k | k in nodes && k != id ensures nodes[k] != node {
      }
    }

    /**
     * The zero-timeout path of recv: take the head batch, then keep taking
     * whole batches while fewer than `max` messages are collected and the
     * mailbox is not empty. `taken` counts the batches consumed.
     */
    method Recv(nodeID: string, max: int) returns (r: Result<Batch, Error>, ghost taken: nat)
      requires Valid()
      requires nodeID in nodes && |nodes[nodeID].inbox| > 0 ==> max >= 0
      modifies nodes.Values
      ensures Valid()
      ensures nodeID !in nodes ==> r == Err(NodeNotFound(nodeID)) && taken == 0
      ensures nodes == old(nodes)
      ensures forall k :: k in nodes && k != nodeID ==> nodes[k].inbox == old(nodes[k].inbox)
      ensures nodeID in nodes ==>
        var before := old(nodes[nodeID].inbox);
        && r.Ok? && taken <= |before|
        && (taken == 0 <==> |before| == 0)
        && r.value == Concat(before[..taken])
        && nodes[nodeID].inbox == before[taken..]
        && (taken < |before| ==> |r.value| >= max)
        && (forall j :: 1 <= j < taken ==> |Concat(before[..j])| < max)
    {
      if nodeID !in nodes {
        return Err(NodeNotFound(nodeID)), 0;
      }
      var node := nodes[nodeID];
      var results;
      results, taken := node.Drain(max);
      forall k | k in nodes && k != nodeID ensures nodes[k] != node {
      }
      return Ok(results), taken;
    }

    /**
     * route: the policy's decision first (the default route when none is
     * set); a stop or an explicit target list ends it; otherwise every
     * out-neighbour, and a stop when there is none.
     */
    method Route(selfID: string, replyToID: string, input: Batch, reply: string)
      returns (nextIDs: seq<string>, outMessages: Batch, stop: bool)
      requires Valid()
      ensures var d := Decide(router, selfID, replyToID, input, reply);
        && outMessages == d.outMessages
        && (stop <==> RouteStops(d, Neighbours(outEdges, selfID)))
        && (|d.nextIDs| > 0 || d.stop ==> nextIDs == d.nextIDs)
        && (|d.nextIDs| == 0 && !d.stop ==> Enumerates(nextIDs, Neighbours(outEdges, selfID)))
        && (|d.nextIDs| == 0 && !d.stop ==> |nextIDs| == |Neighbours(outEdges, selfID)|)
    {
      var d := Decide(router, selfID, replyToID, input, reply);
      if d.stop {
        return d.nextIDs, d.outMessages, true;
      }
      if |d.nextIDs| > 0 {
        return d.nextIDs, d.outMessages, false;
      }
      var rest := Neighbours(outEdges, selfID);
      nextIDs := [];
      while rest != {}
        invariant rest <= Neighbours(outEdges, selfID)
        invariant Enumerates(nextIDs, Neighbours(outEdges, selfID) - rest)
        decreases rest
      {
        var id :| id in rest;
        nextIDs := nextIDs + [id];
        rest := rest - {id};
      }
      assert Neighbours(outEdges, selfID) - {} == Neighbours(outEdges, selfID);
      EnumerationSize(nextIDs, Neighbours(outEdges, selfID));
      if |nextIDs| > 0 {
        assert nextIDs[0] in Neighbours(outEdges, selfID);
      }
      return nextIDs, d.outMessages, |nextIDs| == 0;
    }

    /**
     * One turn of nodeLoop for the node `selfID` once it has taken `msgs`
     * from its mailbox: skip an empty batch or one with no content; ask the
     * agent (`invoke` stands for its Invoke) with the content prefixed by the
     * sender of the last message; route the reply; unless routing stops,
     * send the policy's messages, or the wrapped reply when it gave none.
     */
    method ProcessBatch(selfID: string, msgs: Batch, invoke: string -> Result<string, string>)
      returns (outcome: TurnOutcome, ghost served: set<string>, ghost batch: Batch)
      requires Valid()
      modifies nodes.Values
      ensures Valid()
      ensures |msgs| == 0 || Latest(msgs) == "" ==> outcome == Skipped && InboxesUnchanged()
      ensures |msgs| > 0 && Latest(msgs) != "" ==>
        var sender := msgs[|msgs| - 1].fromNodeId;
        var answer := invoke(Prompted(sender, Latest(msgs)));
        && (answer.Err? ==> outcome == InvokeFailed(answer.error) && InboxesUnchanged())
        && (answer.Ok? ==>
              var d := Decide(router, selfID, sender, msgs, answer.value);
              && (RouteStops(d, Neighbours(outEdges, selfID)) ==> outcome == Halted && InboxesUnchanged())
              && (!RouteStops(d, Neighbours(outEdges, selfID)) ==>
                    && outcome.Dispatched?
                    && batch == Stamped(Outbound(selfID, answer.value, d), selfID)
                    && SendReport(TurnTargets(d, nodes.Keys, outEdges, selfID), outcome.delivered, outcome.err, served)
                    && DeliveredTo(served, outcome.err, batch)))
    {
      served, batch := {}, [];
      if |msgs| == 0 {
        return Skipped, served, batch;
      }
      var sender := msgs[|msgs| - 1].fromNodeId;
      var content := LatestContent(msgs);
      if content == "" {
        return Skipped, served, batch;
      }
      var answer := invoke(Prompted(sender, content));
      if answer.Err? {
        return InvokeFailed(answer.error), served, batch;
      }
      var reply := answer.value;
      var nextIDs, outMessages, stop := Route(selfID, sender, msgs, reply);
      if stop {
        return Halted, served, batch;
      }
      ghost var d := Decide(router, selfID, sender, msgs, reply);
      if |outMessages| == 0 {
        outMessages := [UserMessage(reply, selfID)];
      } else {
        outMessages := FillIn(outMessages, selfID);
      }
      if |d.nextIDs| == 0 {
        var nb := Neighbours(outEdges, selfID);
        assert nb != {} && selfID in nodes.Keys;
        assert "" !in nb;
        assert nextIDs[0] in nb by {
          var k :| k in nb;
        }
        ResolveNeighbourList(nodes.Keys, outEdges, selfID, nextIDs);
      }
      var delivered, err;
      delivered, err, served := Send(selfID, nextIDs, outMessages);
      batch := Stamped(outMessages, selfID);
      outcome := Dispatched(delivered, err);
    }

    /**
     * The "send" tool's handler once its JSON arguments are parsed: the
     * targets are ToIDs plus ToID; the batch is Messages, or Content as one
     * user message; an empty batch is refused; a complete delivery answers
     * with the receipt, any failure with send's error.
     */
    method SendTool(nodeID: string, args: SendArgs) returns (r: Result<string, Error>, delivered: nat, ghost served: set<string>)
      requires Valid()
      modifies nodes.Values
      ensures Valid()
      ensures ToolMessages(args) == [] ==> r == Err(MessagesRequired) && delivered == 0 && InboxesUnchanged()
      ensures ToolMessages(args) != [] ==>
        var err := if r.Ok? then None else Some(r.error);
        && SendReport(ResolveTargetIds(nodes.Keys, outEdges, nodeID, ToolTargets(args)), delivered, err, served)
        && (r.Ok? ==> r.value == DeliveryReceipt(delivered))
        && DeliveredTo(served, err, Stamped(ToolMessages(args), nodeID))
    {
      var msgs := ToolMessages(args);
      if |msgs| == 0 {
        return Err(MessagesRequired), 0, {};
      }
      var err;
      delivered, err, served := Send(nodeID, ToolTargets(args), msgs);
      if err.Some? {
        return Err(err.value), delivered, served;
      }
      r := Ok(DeliveryReceipt(delivered));
    }
  }
}
