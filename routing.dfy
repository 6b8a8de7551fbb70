/**
 * The routing policies of Agent/NetAgent/NetAgent.go: after a node has
 * produced a reply, a policy decides the explicit next targets, the
 * messages to send and whether to stop. The policies are pure.
 */
module Routing {
  import opened Wrappers
  import opened Text
  import opened Messages

  /** The triple (nextIDs, outMessages, stop) a RouteFunc returns; nil slices are empty sequences. */
  datatype Decision = Decision(nextIDs: seq<string>, outMessages: Batch, stop: bool)

  /** RouteFunc(selfID, replyToID, input, reply); the context argument is not modelled. */
  type RouteFunc = (string, string, Batch, string) -> Decision

  /** The policies a NetAgent can be given with SetRouter. */
  datatype Router = Default | Smart | Custom(decide: RouteFunc)

  /** The text that the send tool's result starts with. */
  const DeliveryMarker: string := "delivered to"

  /** defaultRoute: stop on a blank reply, otherwise wrap it and leave the targets to the broadcast fallback. */
  function DefaultRoute(selfID: string, replyToID: string, input: Batch, reply: string): (d: Decision)
    ensures d.stop <==> IsBlank(reply)
    ensures d.nextIDs == []
    ensures d.stop ==> d.outMessages == []
    ensures !d.stop ==> |d.outMessages| == 1 && d.outMessages[0] == UserMessage(reply, selfID)
  {
    if IsBlank(reply) then Decision([], [], true)
    else Decision([], [UserMessage(reply, selfID)], false)
  }

  /**
   * SmartRouter: stop when the reply reports an explicit delivery or is
   * blank; otherwise answer the sender when it is known and is not this
   * node; otherwise defer to the broadcast fallback.
   */
  function SmartRouter(selfID: string, replyToID: string, input: Batch, reply: string): (d: Decision)
    ensures d.stop <==> Contains(reply, DeliveryMarker) || IsBlank(reply)
    ensures d.stop ==> d.nextIDs == [] && d.outMessages == []
    ensures !d.stop && replyToID != "" && replyToID != selfID ==>
      d.nextIDs == [replyToID] && d.outMessages == [UserMessage(reply, selfID)]
    ensures !d.stop && (replyToID == "" || replyToID == selfID) ==> d.nextIDs == [] && d.outMessages == []
  {
    if Contains(reply, DeliveryMarker) || IsBlank(reply) then Decision([], [], true)
    else if replyToID != "" && replyToID != selfID then
      Decision([replyToID], [UserMessage(reply, selfID)], false)
    else Decision([], [], false)
  }

  /** The policy in force: a nil router means defaultRoute. */
  function Decide(router: Option<Router>, selfID: string, replyToID: string, input: Batch, reply: string): Decision {
    match router
    case None => DefaultRoute(selfID, replyToID, input, reply)
    case Some(Default) => DefaultRoute(selfID, replyToID, input, reply)
    case Some(Smart) => SmartRouter(selfID, replyToID, input, reply)
    case Some(Custom(f)) => f(selfID, replyToID, input, reply)
  }

  /** The batch the node loop hands to send: a wrapped reply when the policy gave none, else the policy's messages with provenance filled in. */
  function Outbound(selfID: string, reply: string, d: Decision): (r: Batch)
    ensures |r| >= 1
    ensures |d.outMessages| == 0 ==> r == [UserMessage(reply, selfID)]
    ensures |d.outMessages| > 0 ==> |r| == |d.outMessages|
    ensures |d.outMessages| > 0 ==>
      forall i :: 0 <= i < |r| ==> r[i].(fromNodeId := d.outMessages[i].fromNodeId) == d.outMessages[i]
  {
    if |d.outMessages| == 0 then [UserMessage(reply, selfID)] else FilledIn(d.outMessages, selfID)
  }

  /** Neither built-in policy ever addresses the node itself or an empty id. */
  lemma BuiltInPoliciesNeverTargetSelf(selfID: string, replyToID: string, input: Batch, reply: string)
    ensures var d := SmartRouter(selfID, replyToID, input, reply);
      forall i :: 0 <= i < |d.nextIDs| ==> d.nextIDs[i] != selfID && d.nextIDs[i] != ""
    ensures DefaultRoute(selfID, replyToID, input, reply).nextIDs == []
  {
  }

  /** Both built-in policies stop on a blank reply, whatever the sender. */
  lemma BlankReplyStops(selfID: string, replyToID: string, input: Batch, reply: string)
    requires IsBlank(reply)
    ensures DefaultRoute(selfID, replyToID, input, reply).stop
    ensures SmartRouter(selfID, replyToID, input, reply).stop
  {
  }

  /** A reply that starts with the delivery marker stops SmartRouter but not defaultRoute. */
  lemma DeliveryReportStopsSmartOnly(selfID: string, replyToID: string, input: Batch, rest: string)
    ensures SmartRouter(selfID, replyToID, input, DeliveryMarker + rest).stop
    ensures !DefaultRoute(selfID, replyToID, input, DeliveryMarker + rest).stop
  {
    ContainsPrefix(DeliveryMarker, rest);
    assert (DeliveryMarker + rest)[0] == 'd';
  }

  /**
   * With no known sender (empty, or the node itself), SmartRouter and
   * defaultRoute lead to the same delivery: no explicit targets, and the
   * same outbound batch, unless the reply reports a delivery.
   */
  lemma SmartWithoutSenderIsDefault(selfID: string, replyToID: string, input: Batch, reply: string)
    requires replyToID == "" || replyToID == selfID
    requires !Contains(reply, DeliveryMarker)
    ensures var s := SmartRouter(selfID, replyToID, input, reply);
            var d := DefaultRoute(selfID, replyToID, input, reply);
      && s.stop == d.stop && s.nextIDs == d.nextIDs
      && (!s.stop ==> Outbound(selfID, reply, s) == Outbound(selfID, reply, d))
  {
    var d := DefaultRoute(selfID, replyToID, input, reply);
    if !d.stop {
      assert FilledIn(d.outMessages, selfID)[0] == d.outMessages[0];
    }
  }

  /** Under a built-in policy, a turn that goes on forwards exactly the non-blank reply, as one user message from the node. */
  lemma BuiltInTurnForwardsReply(router: Option<Router>, selfID: string, replyToID: string, input: Batch, reply: string)
    requires router == None || router == Some(Default) || router == Some(Smart)
    requires !Decide(router, selfID, replyToID, input, reply).stop
    ensures !IsBlank(reply)
    ensures Outbound(selfID, reply, Decide(router, selfID, replyToID, input, reply)) == [UserMessage(reply, selfID)]
  {
    var d := Decide(router, selfID, replyToID, input, reply);
    if |d.outMessages| > 0 {
      assert FilledIn(d.outMessages, selfID)[0] == d.outMessages[0];
    }
  }
}
