/**
 * The message envelope exchanged between nodes (Agent/NetAgent/NetAgent.go)
 * and the two pure operations on a batch of messages: finding the latest
 * non-blank content and setting provenance.
 */
module Messages {
  import opened Text

  /** tools.Tool as it travels in a message; its JSON schema and handler are not modelled. */
  datatype ToolCall = ToolCall(name: string, description: string, kind: string)

  /** The envelope; `fromNodeId` is the provenance, "" when unset. */
  datatype Message = Message(
    role: string,
    content: string,
    name: string,
    description: string,
    toolCallId: string,
    toolCalls: seq<ToolCall>,
    fromNodeId: string)

  /** One mailbox entry: the messages handed over by a single send. */
  type Batch = seq<Message>

  /** Message{Role: role, Content: content} with all other fields left at their zero value. */
  function Plain(role: string, content: string): (m: Message)
    ensures m.role == role && m.content == content && m.fromNodeId == ""
  {
    Message(role, content, "", "", "", [], "")
  }

  /** Message{Role: "user", Content: content, FromNodeID: from}: a reply forwarded to a neighbour. */
  function UserMessage(content: string, from: string): (m: Message)
    ensures m == Plain("user", content).(fromNodeId := from)
  {
    Message("user", content, "", "", "", [], from)
  }

  /** The content of the last message whose content is not blank, or "" if there is none. */
  function Latest(msgs: Batch): string
    decreases |msgs|
  {
    if |msgs| == 0 then ""
    else if !IsBlank(msgs[|msgs| - 1].content) then msgs[|msgs| - 1].content
    else Latest(msgs[..|msgs| - 1])
  }

  /** Latest is "" exactly when every content is blank, and otherwise is the content of the last non-blank message. */
  lemma {:induction false} LatestSpec(msgs: Batch)
    ensures Latest(msgs) == "" <==> forall i :: 0 <= i < |msgs| ==> IsBlank(msgs[i].content)
    ensures Latest(msgs) != "" ==>
      exists i :: 0 <= i < |msgs| && Latest(msgs) == msgs[i].content && !IsBlank(msgs[i].content) &&
        forall j :: i < j < |msgs| ==> IsBlank(msgs[j].content)
    decreases |msgs|
  {
    if |msgs| > 0 {
      var last := |msgs| - 1;
      var init := msgs[..last];
      if IsBlank(msgs[last].content) {
        LatestSpec(init);
        assert forall i :: 0 <= i < last ==> msgs[i] == init[i];
        if Latest(msgs) != "" {
          var i :| 0 <= i < |init| && Latest(init) == init[i].content && !IsBlank(init[i].content) &&
            forall j :: i < j < |init| ==> IsBlank(init[j].content);
          assert msgs[i] == init[i];
        }
      } else {
        assert msgs[last].content != "";
      }
    }
  }

  /** latestContent: scans the batch backward for the first non-blank content. */
  method LatestContent(msgs: Batch) returns (content: string)
    ensures content == Latest(msgs)
  {
    var i: int := |msgs| - 1;
    assert msgs[..i + 1] == msgs;
    while i >= 0
      invariant -1 <= i < |msgs|
      invariant Latest(msgs) == Latest(msgs[..i + 1])
    {
      if !IsBlank(msgs[i].content) {
        assert msgs[..i + 1][i] == msgs[i];
        return msgs[i].content;
      }
      assert msgs[..i + 1][..i] == msgs[..i];
      i := i - 1;
    }
    return "";
  }

  /** The messages of consecutive batches, in order, as recv appends them. */
  function Concat(batches: seq<Batch>): (r: Batch)
    decreases |batches|
  {
    if |batches| == 0 then [] else Concat(batches[..|batches| - 1]) + batches[|batches| - 1]
  }

  /** Every message with its provenance set to `from`, as send does before delivery. */
  function Stamped(msgs: Batch, from: string): (r: Batch)
    ensures |r| == |msgs|
    ensures forall i :: 0 <= i < |r| ==> r[i].fromNodeId == from
    ensures forall i :: 0 <= i < |r| ==> r[i].(fromNodeId := msgs[i].fromNodeId) == msgs[i]
  {
    seq(|msgs|, i requires 0 <= i < |msgs| => msgs[i].(fromNodeId := from))
  }

  /** send's stamping loop: every message of the batch, in place, gets the sender's id. */
  method Stamp(msgs: Batch, from: string) returns (r: Batch)
    ensures r == Stamped(msgs, from)
  {
    r := msgs;
    for i := 0 to |r|
      invariant |r| == |msgs|
      invariant forall j :: 0 <= j < i ==> r[j] == msgs[j].(fromNodeId := from)
      invariant forall j :: i <= j < |r| ==> r[j] == msgs[j]
    {
      r := r[i := r[i].(fromNodeId := from)];
    }
  }

  /** Provenance filled in only where it is unset, as the node loop does with router-supplied messages. */
  function FilledIn(msgs: Batch, self: string): (r: Batch)
    ensures |r| == |msgs|
    ensures forall i :: 0 <= i < |r| ==> r[i].fromNodeId == (if msgs[i].fromNodeId == "" then self else msgs[i].fromNodeId)
    ensures forall i :: 0 <= i < |r| ==> r[i].(fromNodeId := msgs[i].fromNodeId) == msgs[i]
    ensures forall i :: 0 <= i < |r| ==> r[i].fromNodeId != ""  || self == ""
  {
    seq(|msgs|, i requires 0 <= i < |msgs| => if msgs[i].fromNodeId == "" then msgs[i].(fromNodeId := self) else msgs[i])
  }

  /** Filling in provenance is invisible once send stamps the batch: send's stamp wins. */
  lemma StampAbsorbsFill(msgs: Batch, self: string)
    ensures Stamped(FilledIn(msgs, self), self) == Stamped(msgs, self)
  {
    var a := Stamped(FilledIn(msgs, self), self);
    var b := Stamped(msgs, self);
    forall i | 0 <= i < |msgs| ensures a[i] == b[i] {
      assert a[i].(fromNodeId := msgs[i].fromNodeId) == msgs[i];
    }
  }

  /** The node loop's pass over router-supplied messages: unset provenance becomes the node's own id. */
  method FillIn(msgs: Batch, self: string) returns (r: Batch)
    ensures r == FilledIn(msgs, self)
  {
    r := msgs;
    for i := 0 to |r|
      invariant |r| == |msgs|
      invariant forall j :: 0 <= j < i ==> r[j] == if msgs[j].fromNodeId == "" then msgs[j].(fromNodeId := self) else msgs[j]
      invariant forall j :: i <= j < |r| ==> r[j] == msgs[j]
    {
      if r[i].fromNodeId == "" {
        r := r[i := r[i].(fromNodeId := self)];
      }
    }
  }

  /** Stamping twice is stamping once with the later id. */
  lemma StampedTwice(msgs: Batch, a: string, b: string)
    ensures Stamped(Stamped(msgs, a), b) == Stamped(msgs, b)
  {
  }
}
