# Go_Agent message router, modelled in Dafny

Go_Agent joins LLM agents into a directed graph (`Agent/NetAgent/NetAgent.go`). Each agent node has a bounded mailbox. A node's loop takes a batch of messages from its mailbox, asks its agent for a reply, and then lets a routing policy decide where the reply goes:

- back to the sender (`SmartRouter`);
- to every out-neighbour (the broadcast fallback);
- nowhere (a stop).

Agents can also address neighbours themselves through a `send` tool. `Agent/prompt.go` assembles the system and user messages an agent sends to the chat model.

The model has one Dafny module per concern:

| file | module | models |
|---|---|---|
| `wrappers.dfy` | `Wrappers` | `Option` and `Result`, used for Go's `nil` results and error returns |
| `text.dfy` | `Text` | `strings.TrimSpace` (over `unicode.IsSpace`), `strings.Contains`, `strings.Join`, and the decimal `%d` rendering |
| `messages.dfy` | `Messages` | the `Message` envelope; `latestContent`; how `send` and the node loop set provenance (`FromNodeID`) |
| `routing.dfy` | `Routing` | `defaultRoute`, `SmartRouter`, which policy is in force, and the batch a turn hands to `send` |
| `edges.dfy` | `Edges` | the two edge maps as a transposed pair, and the map surgery of `DeleteNode`/`DeleteEdge` |
| `network.dfy` | `Network` | `AgentNode` and `NetAgent` as classes: the graph directory, target resolution, `send`, the zero-timeout `recv`, `route`, one turn of `nodeLoop`, the `send` tool handler, `Start`/`Stop` |
| `prompt.dfy` | `Prompt` | `PromptWrapper` as a class: its constructors, the `Add*` methods, `WrapMessages` |

## How the source is modelled

- **NetAgent** is a `class` with the fields the Go struct updates:
  - `nodes`: a map from id to `AgentNode`;
  - `inEdges` and `outEdges`: maps from id to a set of ids;
  - `router`;
  - `started`, plus `cancelled`, which stands for the context's cancel.
- **The invariant `Valid()`**, defined through the value-level predicate `Directory`, requires that:
  - no node has a blank id;
  - every node is filed under its own id;
  - both edge maps are keyed by exactly the node ids;
  - no edge names an unknown node;
  - `inEdges` is exactly the transpose of `outEdges`;
  - no mailbox holds more than `MailboxCapacity` (10) batches.

  Every directory operation is proved to keep it.
- **AgentNode** is a `class` with a constant id and agent. Its `InputChan` is the field `inbox: seq<Batch>`. A non-blocking channel send is `Offer`, and draining the channel without waiting is `Drain`.
- **Go map iteration order is unspecified.** Every `range` whose result can depend on iteration order is a loop that picks an arbitrary remaining element (`:|`), so each property is proved for every possible order. Two ranges are exceptions. The copy of the out-neighbours into the target set in resolveTargets (`Agent/NetAgent/NetAgent.go:519-521`) does not depend on order, and is modelled as a set assignment. The range over the nodes in `Start` (`Agent/NetAgent/NetAgent.go:196-198`) only starts the node loops, which are not modelled.
- **A function value as router.** `SetRouter` takes `Router = Default | Smart | Custom(f)`. A nil router means `defaultRoute`. `Custom` carries any pure `RouteFunc`.
- **The agent.** Its `Invoke` is a parameter of `ProcessBatch`: a function from the prompt to a reply or an error.

## Model

| member | source | states |
|---|---|---|
| `Messages.LatestSpec` | Agent/NetAgent/NetAgent.go:357-364 | the latest content is "" exactly when every content in the batch is blank; otherwise it is the content of a non-blank message after which every message is blank |
| `Messages.LatestContent` | Agent/NetAgent/NetAgent.go:357-364 | the backward scan returns the latest non-blank content, or "" |
| `Messages.Plain` | Agent/NetAgent/NetAgent.go:388 | a message literal with only a role and a content: every other field is empty, provenance included |
| `Messages.UserMessage` | Agent/NetAgent/NetAgent.go:257-261 | the `user` message literal with a content and a provenance and nothing else, as also built at lines 326-330 and 349-353 |
| `Messages.Latest` | Agent/NetAgent/NetAgent.go:357-364 | the reference definition of the latest content: the last message's content when it is not blank, else the latest content of the batch without it; "" for an empty batch |
| `Messages.Concat` | Agent/NetAgent/NetAgent.go:494-500 | the messages of a list of batches, appended in mailbox order, as recv gathers them |
| `Messages.Stamped` | Agent/NetAgent/NetAgent.go:453-455 | every message of the batch gets provenance `from`; everything else in every message, and the batch length, are kept |
| `Messages.Stamp` | Agent/NetAgent/NetAgent.go:453-455 | the stamping loop produces exactly `Stamped(msgs, from)` |
| `Messages.FilledIn` | Agent/NetAgent/NetAgent.go:262-267 | provenance is set to the node's id only where it was unset; other fields and set provenance are kept; none is left unset unless the node id is "" |
| `Messages.FillIn` | Agent/NetAgent/NetAgent.go:262-267 | the fill-in loop produces exactly `FilledIn(msgs, self)` |
| `Messages.StampAbsorbsFill` | Agent/NetAgent/NetAgent.go:262-267 | filling in provenance and then stamping with the same id equals stamping alone, so the node loop's fill-in is invisible once `send` stamps |
| `Messages.StampedTwice` | Agent/NetAgent/NetAgent.go:453-455 | stamping twice equals stamping once with the later id |
| `Routing.DefaultRoute` | Agent/NetAgent/NetAgent.go:344-355 | stops exactly on a blank reply; never names targets; otherwise returns the reply as one user message from the node |
| `Routing.SmartRouter` | Agent/NetAgent/NetAgent.go:311-342 | stops exactly when the reply contains "delivered to" or is blank, with no targets or messages; otherwise routes to the sender alone when the sender is set and is not the node; otherwise returns nothing, leaving it to the fallback |
| `Routing.Decide` | Agent/NetAgent/NetAgent.go:278-288 | the policy in force: a nil router and `Default` run `defaultRoute`, `Smart` runs `SmartRouter`, `Custom(f)` runs `f` on the same arguments |
| `Routing.Outbound` | Agent/NetAgent/NetAgent.go:256-268 | the batch a turn sends is never empty: the wrapped reply when the policy gave no messages, else the policy's messages with only provenance changed |
| `Routing.BuiltInPoliciesNeverTargetSelf` | Agent/NetAgent/NetAgent.go:311-355 | neither built-in policy names the node itself or a blank id as a target |
| `Routing.BlankReplyStops` | Agent/NetAgent/NetAgent.go:318-320 | both built-in policies stop on a blank reply, whatever the sender |
| `Routing.DeliveryReportStopsSmartOnly` | Agent/NetAgent/NetAgent.go:318-320 | a reply starting with "delivered to" stops SmartRouter but not defaultRoute |
| `Routing.SmartWithoutSenderIsDefault` | Agent/NetAgent/NetAgent.go:324-341 | with no usable sender and no delivery marker, SmartRouter and defaultRoute agree on stop and targets, and lead to the same outbound batch |
| `Routing.BuiltInTurnForwardsReply` | Agent/NetAgent/NetAgent.go:256-268 | under a built-in policy, a turn that goes on forwards exactly the non-blank reply, as one user message from the node |
| `Text.TrimSpace` | Agent/NetAgent/NetAgent.go:312 | the result is the slice of the input between a blank prefix and a blank suffix; it is "" exactly when the input is all white space, and has no white space at either end |
| `Text.TrimSpaceIdempotent` | Agent/NetAgent/NetAgent.go:312 | trimming twice is trimming once |
| `Text.IsSpace` | Agent/NetAgent/NetAgent.go:312 | `unicode.IsSpace`: the ASCII white space, U+0085, U+00A0 and the other Unicode White_Space code points |
| `Text.Contains` | Agent/NetAgent/NetAgent.go:318 | `strings.Contains`: the substring is a prefix of the string or of one of its suffixes |
| `Text.ContainsIff` | Agent/NetAgent/NetAgent.go:318 | `Contains` holds exactly when the substring occurs at some offset |
| `Text.Join` | Agent/prompt.go:81-82 | `strings.Join`: the parts in order with the separator between neighbours; "" for no parts, the part itself for one |
| `Text.NatToString` | Agent/NetAgent/NetAgent.go:397 | the `%d` rendering of a count: at least one character, and only decimal digits |
| `Text.JoinBlank` | Agent/prompt.go:81-82 | a join with a white-space separator is blank exactly when every part is |
| `Text.NatToStringRoundTrip` | Agent/NetAgent/NetAgent.go:397 | the decimal digits of the delivered count read back as that count |
| `Prompt.Assemble` | Agent/prompt.go:84-91 | a system message exactly when its text is non-empty, then a user message exactly when its text is non-empty, each carrying that text |
| `Prompt.PromptWrapper.Default` | Agent/prompt.go:18-20 | every segment list starts empty |
| `Prompt.PromptWrapper.ReAct` | Agent/prompt.go:22-27 | exactly one system prompt and one tool-usage segment, both with the fixed ReAct texts |
| `Prompt.Header` | Agent/prompt.go:64-66 | the agent header: "Agent Name: ", the name, a newline, "Agent Description: " and the description |
| `Prompt.MemoryPart` | Agent/prompt.go:67-69 | "Memory:" and a newline, then the memory segments joined by newlines |
| `Prompt.ToolUsagePart` | Agent/prompt.go:70-72 | "Tool Usage:" and a newline, then the tool-usage segments joined by newlines |
| `Prompt.PromptWrapper.SystemParts` | Agent/prompt.go:63-75 | the system parts in order: the header when name or description is set, the memory part when there is memory, the tool-usage part when there is tool usage, then every system prompt |
| `Prompt.PromptWrapper.AddSystemPrompt` | Agent/prompt.go:30-35 | a blank prompt is ignored, any other is appended; the other lists are untouched; a wrapper holding only non-blank segments keeps that property |
| `Prompt.PromptWrapper.AddUserPrompt` | Agent/prompt.go:38-43 | a blank prompt is ignored, any other is appended; the other lists are untouched; a wrapper holding only non-blank segments keeps that property |
| `Prompt.PromptWrapper.AddMemory` | Agent/prompt.go:46-51 | a blank segment is ignored, any other is appended; the other lists are untouched; a wrapper holding only non-blank segments keeps that property |
| `Prompt.PromptWrapper.AddToolUsage` | Agent/prompt.go:54-59 | a blank segment is ignored, any other is appended; the other lists are untouched; a wrapper holding only non-blank segments keeps that property |
| `Prompt.PromptWrapper.SystemText` | Agent/prompt.go:81 | the system text is trimmed |
| `Prompt.PromptWrapper.UserText` | Agent/prompt.go:82 | the user text is trimmed |
| `Prompt.PromptWrapper.WrapMessages` | Agent/prompt.go:62-92 | at most two messages, each non-empty and trimmed, and a system message always comes before a user message |
| `Prompt.PromptWrapper.WrapMessagesContent` | Agent/prompt.go:62-92 | one message per kind that has content; the first is the system text when there is system content; the last is the user text when there is user content |
| `Prompt.PromptWrapper.SystemTextPresence` | Agent/prompt.go:63-81 | the system text is non-empty exactly when a name or description is given, memory or tool usage is stored, or some system prompt is non-blank |
| `Prompt.PromptWrapper.UserTextPresence` | Agent/prompt.go:77-82 | the user text is non-empty exactly when some user prompt is non-blank |
| `Prompt.PromptWrapper.SystemPartsOrder` | Agent/prompt.go:63-75 | the parts are, in order: header, memory, tool usage, then the raw system prompts; each optional part appears exactly when its condition holds |
| `Prompt.PromptWrapper.ValidUserContent` | Agent/prompt.go:38-43 | with every stored prompt non-blank, there is user content exactly when a user prompt was added |
| `Prompt.PromptWrapper.ValidUserMessage` | Agent/prompt.go:78-91 | with every stored prompt non-blank, the list ends in a user message exactly when a user prompt was added |
| `Edges.Mirror` | Agent/NetAgent/NetAgent.go:126-127 | an in-edge is exactly a mirrored out-edge |
| `Edges.RemoveId` | Agent/NetAgent/NetAgent.go:96-104 | removing an id drops its entry and leaves no set naming it |
| `Edges.IndexAddNode` | Agent/NetAgent/NetAgent.go:80-82 | a new node with two empty edge sets keeps the index |
| `Edges.IndexAddEdge` | Agent/NetAgent/NetAgent.go:119-127 | adding the edge to both views keeps the index |
| `Edges.AddPresentEdge` | Agent/NetAgent/NetAgent.go:126-127 | adding an edge that is already there changes neither view |
| `Edges.IndexDeleteEdge` | Agent/NetAgent/NetAgent.go:133-138 | deleting the edge from both views, where the entries exist, keeps the index |
| `Edges.DropEdge` | Agent/NetAgent/NetAgent.go:133-138 | one half of DeleteEdge: the other id leaves the entry's set where the entry exists; a missing entry is left missing |
| `Edges.DeleteAbsentEdge` | Agent/NetAgent/NetAgent.go:133-138 | deleting an edge that is not there changes neither view |
| `Edges.RemoveAbsentId` | Agent/NetAgent/NetAgent.go:93-95 | removing an id that is not a node changes neither view |
| `Edges.IndexDeleteNode` | Agent/NetAgent/NetAgent.go:96-104 | removing a node and every edge that names it keeps the index |
| `Edges.RemoveFromEach` | Agent/NetAgent/NetAgent.go:96-101 | one pass removes the id from exactly the entries of the given keys; the keys of the map are kept |
| `Edges.DeletePasses` | Agent/NetAgent/NetAgent.go:96-104 | the two passes, the second over the already-updated out-set, then dropping the id's own entries, give exactly `RemoveId` on both views |
| `Edges.RemoveNodeEdges` | Agent/NetAgent/NetAgent.go:96-103 | the edge half of DeleteNode yields `RemoveId` of both views |
| `Network.AgentNode.constructor` | Agent/NetAgent/NetAgent.go:32-39 | a node with the given id and agent and an empty mailbox |
| `Network.AgentNode.Offer` | Agent/NetAgent/NetAgent.go:458-466 | the batch is queued exactly when the mailbox holds fewer than 10 batches; otherwise the mailbox is unchanged |
| `Network.AgentNode.Drain` | Agent/NetAgent/NetAgent.go:486-503 | takes a prefix of the mailbox: nothing exactly when it is empty; the result is the concatenation of the batches taken; it stops early only once `max` messages are gathered, and never before |
| `Network.EnumerationSize` | Agent/NetAgent/NetAgent.go:298-300 | a list that names each neighbour once has one entry per neighbour |
| `Network.ExplicitTargetsOk` | Agent/NetAgent/NetAgent.go:522-530 | an explicit list resolves exactly when every non-blank id is a neighbour, and then to the set of its non-blank ids |
| `Network.ExplicitTargetsErr` | Agent/NetAgent/NetAgent.go:526-528 | a failure names the first non-blank id that is not a neighbour |
| `Network.ExplicitTargetsErrSticks` | Agent/NetAgent/NetAgent.go:526-528 | once a prefix of the list fails, the whole list fails with the same error, before any later id is looked at |
| `Network.ExplicitTargets` | Agent/NetAgent/NetAgent.go:522-531 | the explicit-id loop: blank ids are skipped, the first id with no edge from the sender is a NoEdge error, else the set of the ids named |
| `Network.ResolveTargetIds` | Agent/NetAgent/NetAgent.go:511-535 | resolveTargets as a set of ids: an unknown sender is an error; otherwise the explicit ids when some are given, else every out-neighbour; an empty result is NoTargets |
| `Network.ResolveTargetIdsSpec` | Agent/NetAgent/NetAgent.go:511-543 | resolved targets are a non-empty set of out-neighbours; with no ids they are all of them, or `NoTargets`; with ids they are the non-blank ids; the only errors are unknown sender, missing edge or no targets |
| `Network.ResolveNeighbourList` | Agent/NetAgent/NetAgent.go:518-530 | listing every neighbour explicitly resolves to the same targets as the empty list |
| `Network.TwoNodeScenario` | Agent/NetAgent/NetAgent.go:511-543 | with A to B only, A's broadcast reaches exactly B, and B has no targets |
| `Network.SmartReplyToStrangerFails` | Agent/NetAgent/NetAgent.go:324-334 | a turn whose sender is not an out-neighbour (such as the test's external "seed") is answered by SmartRouter and then fails with a missing-edge error |
| `Network.ReceiptStopsSmartRouter` | Agent/NetAgent/NetAgent.go:397 | the tool's receipt, echoed as a reply, stops SmartRouter but not defaultRoute |
| `Network.ToolTargets` | Agent/NetAgent/NetAgent.go:382-385 | the targets are ToIDs, with ToID appended last when it is set |
| `Network.ToolMessages` | Agent/NetAgent/NetAgent.go:386-389 | the batch is Messages when non-empty, else one user message of Content when that is set, else empty |
| `Network.DeliveryReceipt` | Agent/NetAgent/NetAgent.go:397 | the send tool's receipt: "delivered to ", the decimal count, " node(s)" |
| `Network.Prompted` | Agent/NetAgent/NetAgent.go:242 | the agent's input: "[Message from ", the sender id, "]: ", then the latest content |
| `Network.RouteStops` | Agent/NetAgent/NetAgent.go:290-306 | route's verdict that the turn ends: the policy stopped, or it named no target and the node has no out-neighbour |
| `Network.TurnTargets` | Agent/NetAgent/NetAgent.go:290-307 | the targets of a turn that goes on: the policy's explicit ids resolved as `send` resolves them, else every out-neighbour |
| `Network.DirectoryAddNode` | Agent/NetAgent/NetAgent.go:67-88 | adding an unknown, non-blank id keeps the directory invariant |
| `Network.DirectoryAddEdge` | Agent/NetAgent/NetAgent.go:107-128 | adding an edge between known nodes keeps the invariant; re-adding one changes nothing |
| `Network.DirectoryDeleteEdge` | Agent/NetAgent/NetAgent.go:130-139 | deleting an edge keeps the invariant; deleting an absent one changes nothing |
| `Network.DirectoryDeleteNode` | Agent/NetAgent/NetAgent.go:90-105 | deleting a node keeps the invariant; deleting an unknown id changes nothing |
| `Network.AddThenDeleteEdge` | Agent/NetAgent/NetAgent.go:107-139 | deleting an edge just added restores both views |
| `Network.AddThenDeleteNode` | Agent/NetAgent/NetAgent.go:67-105 | deleting a node just added restores the directory |
| `Network.NetAgent.constructor` | Agent/NetAgent/NetAgent.go:58-65 | an empty, valid directory with no router, not started |
| `Network.NetAgent.AddNode` | Agent/NetAgent/NetAgent.go:67-88 | errors in the source's order (blank id, no agent, duplicate) with nothing changed; otherwise a fresh node with an empty mailbox, filed under its id, with empty edge sets |
| `Network.NetAgent.DeleteNode` | Agent/NetAgent/NetAgent.go:90-105 | the node and every edge naming it are gone and nothing else changes; an unknown id is a no-op |
| `Network.NetAgent.AddEdge` | Agent/NetAgent/NetAgent.go:107-128 | errors in the source's order (blank endpoint, unknown from, unknown to) with nothing changed; otherwise the edge is in both views; re-adding one changes nothing |
| `Network.NetAgent.DeleteEdge` | Agent/NetAgent/NetAgent.go:130-139 | the edge is removed from both views where the entries exist; an absent edge is a no-op |
| `Network.NetAgent.GetNode` | Agent/NetAgent/NetAgent.go:141-146 | found exactly for a known id, and then the node filed under it |
| `Network.NetAgent.CollectNodes` | Agent/NetAgent/NetAgent.go:155-160 | the directory nodes whose ids are in the set, each once; unknown ids are skipped |
| `Network.NetAgent.GetInNodes` | Agent/NetAgent/NetAgent.go:148-162 | not found for an unknown id; otherwise each in-neighbour once, that is, exactly the nodes with an out-edge to the id |
| `Network.NetAgent.GetOutNodes` | Agent/NetAgent/NetAgent.go:164-178 | not found for an unknown id; otherwise each out-neighbour once, that is, exactly the nodes with an in-edge from the id |
| `Network.NetAgent.SetRouter` | Agent/NetAgent/NetAgent.go:180-184 | only the router changes |
| `Network.NetAgent.Start` | Agent/NetAgent/NetAgent.go:187-204 | idempotent: the first call starts a fresh, uncancelled lifecycle; later calls change nothing |
| `Network.NetAgent.Stop` | Agent/NetAgent/NetAgent.go:207-216 | a no-op when not started; otherwise cancels; `started` stays set |
| `Network.NetAgent.ResolveTargets` | Agent/NetAgent/NetAgent.go:511-543 | the loop returns the same error as `ResolveTargetIds`, or the nodes of its target set, each once |
| `Network.NetAgent.Send` | Agent/NetAgent/NetAgent.go:448-469 | a resolution error delivers nothing; otherwise the stamped batch reaches a set of targets the size of the count, and no other mailbox changes; there is no error exactly when all targets are served, else a full mailbox that was not served |
| `Network.NetAgent.Deliver` | Agent/NetAgent/NetAgent.go:456-468 | targets in list order: the first `delivered` got the batch at the tail of their mailbox; it stops at the first full mailbox and names it; nothing else changes |
| `Network.NetAgent.ServedCount` | Agent/NetAgent/NetAgent.go:456-468 | the targets served number the delivered count |
| `Network.NetAgent.OfferAt` | Agent/NetAgent/NetAgent.go:458-466 | only the mailbox of the named node can change, by the offered batch, exactly when it was not full |
| `Network.NetAgent.Recv` | Agent/NetAgent/NetAgent.go:471-509 | unknown node is an error; otherwise the node's mailbox is drained as `Drain` states, and no other mailbox changes |
| `Network.NetAgent.Route` | Agent/NetAgent/NetAgent.go:277-308 | the policy's messages pass through; it stops exactly when the policy stops, or when it names no target and there is no neighbour; explicit targets pass unchanged; otherwise every neighbour, once each |
| `Network.NetAgent.ProcessBatch` | Agent/NetAgent/NetAgent.go:232-272 | an empty batch or one with no content is skipped; otherwise the agent is asked with the sender-prefixed content; after an agent error, or a route that stops, the turn's own send changes no mailbox; otherwise the stamped outbound batch goes to the turn's targets as `Send` reports it |
| `Network.NetAgent.SendTool` | Agent/NetAgent/NetAgent.go:382-397 | an empty batch is refused with nothing delivered; otherwise `send` runs on ToIDs plus ToID; the receipt is returned exactly on a complete delivery, and any error passes through |

## Left out

- Goroutines, `sync.RWMutex`, `sync.WaitGroup` and `context` are left out, because each operation runs to completion on its own. `Start` and `Stop` keep only the `started` flag and whether the lifecycle was cancelled, and `AddNode` does not start a loop even when the directory is started.
- The `select` over `ctx.Done()` and `InputChan` in `nodeLoop` is not modelled. `ProcessBatch` is the body of one iteration, after a batch has been received.
- Recv: the `timeout > 0` branch, which waits on a timer, is not modelled, because clocks are outside the model. Only the zero-timeout path is.
- `Network.NetAgent.Recv`: requires `max >= 0` only when the node is known and its mailbox holds a batch. Only then does the source reach `make([]Message, 0, max)`, which panics for a negative capacity. An unknown node and an empty mailbox are answered before that, with any `max`.
- `Network.AgentNode.Drain`: requires `max >= 0` only when the mailbox holds a batch, for the same reason.
- `Network.NetAgent.SendTool`: JSON parsing of the tool arguments and its "parse args" error are left out, because encoding is outside the model. The handler starts from the parsed `SendArgs`.
- Tool registration through `RegisterToolFunc`, its schema, and the commented-out `recv` tool are left out, because they are configuration of the agent library.
- `OutputChan` is left out: the source creates it and never reads or writes it.
- `Network.NetAgent.ProcessBatch`: deliveries that the agent's own `send` tool calls make inside `Invoke` are not part of the modelled turn, because `Invoke` is a pure parameter. In the source, `Invoke` runs the registered tool handlers, and the `send` handler changes mailboxes even when `Invoke` then fails or the route stops. The "delivered to" stop exists for that case. The model's "changes no mailbox" covers only the turn's own `send`.
- The agent (`Agent/agent.go`), the chat model and the `openai` message types are left out, because they call external services. The agent's `Invoke` is a parameter of `ProcessBatch`. A chat message is reduced to its role and text.
- `tools.Tool` inside a `Message` is reduced to its name, description and kind.
- Logging (`log.Printf`, `fmt.Printf`) is left out: it has no effect on state.
- The context argument of `RouteFunc` is dropped, because the policies never read it.
- `Network.NetAgent.Send`: `send` stamps the caller's message slice in place, so the router's or the tool's slice is changed too. The model gives every mailbox its own copy of the batch. In the source, a `Custom` policy that returns messages from its input batch returns the very slice an upstream `send` queued in each of its targets. The fill-in and the stamp then rewrite the `FromNodeID` those other targets later read as the sender. In the model, a custom policy that forwards its input does not change the provenance other targets see.
- Go map iteration order does not appear in any contract. Every property holds for every order, and the order targets are tried in is existentially chosen.

## Notes on the source

- **An externally seeded turn is answered, not broadcast.** The test seeds A with `FromNodeID: "seed"` (`Agent/NetAgent/netagent_test.go:69-73`), so `SmartRouter` routes a reply that is not blank and does not contain "delivered to" back to "seed" (otherwise it stops), and `send` fails because there is no edge to that id (`Network.SmartReplyToStrangerFails`). The broadcast fallback (`Agent/NetAgent/NetAgent.go:336-341`) is reached only when the sender is "" or the node itself.
- **Stop never clears `started`.** So a `Start` after a `Stop` does nothing. The model keeps this, as `Network.NetAgent.Start` and `Network.NetAgent.Stop` state.
- **A deleted node's loop keeps running.** `ProcessBatch` for an id no longer in the directory has no neighbours. Its turn halts, unless the policy names explicit targets, in which case `send` fails because the sender is unknown.
