/**
 * The prompt wrapper of the agent package (Agent/prompt.go): it collects
 * non-blank prompt segments and assembles them into at most one system
 * message and one user message for the chat-completion request.
 */
module Prompt {
  import opened Text

  /** openai.SystemMessage / openai.UserMessage, reduced to their text. */
  datatype ChatMessage = Sys(text: string) | Usr(text: string)

  const ReActSystemPrompt: string := "You are a ReAct-style agent."
  const ReActToolUsage: string :=
    "Use tools when needed. " +
    "Think about whether a tool is required, call it with structured arguments, then produce the final answer."

  /** The header naming the agent, printed with "Agent Name: %s\nAgent Description: %s". */
  function Header(name: string, desc: string): string {
    "Agent Name: " + name + "\nAgent Description: " + desc
  }

  function MemoryPart(memory: seq<string>): string {
    "Memory:\n" + Join(memory, "\n")
  }

  function ToolUsagePart(toolUsage: seq<string>): string {
    "Tool Usage:\n" + Join(toolUsage, "\n")
  }

  /** The message list: the system text if non-empty, then the user text if non-empty. */
  function Assemble(sys: string, usr: string): (r: seq<ChatMessage>)
    requires Trimmed(sys) && Trimmed(usr)
    ensures |r| == (if sys != "" then 1 else 0) + (if usr != "" then 1 else 0)
    ensures sys != "" ==> r[0] == Sys(sys)
    ensures usr != "" ==> r[|r| - 1] == Usr(usr)
    ensures forall i :: 0 <= i < |r| ==> r[i].text != "" && Trimmed(r[i].text)
  {
    if sys != "" && usr != "" then [Sys(sys), Usr(usr)]
    else if sys != "" then [Sys(sys)]
    else if usr != "" then [Usr(usr)]
    else []
  }

  class PromptWrapper {
    var memory: seq<string>
    var toolUsage: seq<string>
    var systemPrompts: seq<string>
    var userPrompts: seq<string>

    /** Every stored segment is non-blank: the Add methods never store a blank one. */
    ghost predicate Valid()
      reads this
    {
      && (forall i :: 0 <= i < |memory| ==> !IsBlank(memory[i]))
      && (forall i :: 0 <= i < |toolUsage| ==> !IsBlank(toolUsage[i]))
      && (forall i :: 0 <= i < |systemPrompts| ==> !IsBlank(systemPrompts[i]))
      && (forall i :: 0 <= i < |userPrompts| ==> !IsBlank(userPrompts[i]))
    }

    /** DefaultPromptWrapper: the zero value, every list empty. */
    constructor Default()
      ensures Valid()
      ensures memory == [] && toolUsage == [] && systemPrompts == [] && userPrompts == []
    {
      memory, toolUsage, systemPrompts, userPrompts := [], [], [], [];
    }

    /** ReActPromptWrapper: one system prompt and one tool-usage segment. */
    constructor ReAct()
      ensures Valid()
      ensures systemPrompts == [ReActSystemPrompt] && toolUsage == [ReActToolUsage]
      ensures memory == [] && userPrompts == []
    {
      memory, toolUsage, systemPrompts, userPrompts := [], [], [], [];
      new;
      assert ReActSystemPrompt[0] == 'Y' && !IsSpace(ReActSystemPrompt[0]);
      assert ReActToolUsage[0] == "Use tools when needed. "[0] == 'U';
      AddSystemPrompt(ReActSystemPrompt);
      AddToolUsage(ReActToolUsage);
    }

    method AddSystemPrompt(prompt: string)
      modifies this
      ensures old(Valid()) ==> Valid()
      ensures systemPrompts == if IsBlank(prompt) then old(systemPrompts) else old(systemPrompts) + [prompt]
      ensures memory == old(memory) && toolUsage == old(toolUsage) && userPrompts == old(userPrompts)
    {
      if IsBlank(prompt) {
        return;
      }
      systemPrompts := systemPrompts + [prompt];
    }

    method AddUserPrompt(prompt: string)
      modifies this
      ensures old(Valid()) ==> Valid()
      ensures userPrompts == if IsBlank(prompt) then old(userPrompts) else old(userPrompts) + [prompt]
      ensures memory == old(memory) && toolUsage == old(toolUsage) && systemPrompts == old(systemPrompts)
    {
      if IsBlank(prompt) {
        return;
      }
      userPrompts := userPrompts + [prompt];
    }

    method AddMemory(segment: string)
      modifies this
      ensures old(Valid()) ==> Valid()
      ensures memory == if IsBlank(segment) then old(memory) else old(memory) + [segment]
      ensures toolUsage == old(toolUsage) && systemPrompts == old(systemPrompts) && userPrompts == old(userPrompts)
    {
      if IsBlank(segment) {
        return;
      }
      memory := memory + [segment];
    }

    method AddToolUsage(segment: string)
      modifies this
      ensures old(Valid()) ==> Valid()
      ensures toolUsage == if IsBlank(segment) then old(toolUsage) else old(toolUsage) + [segment]
      ensures memory == old(memory) && systemPrompts == old(systemPrompts) && userPrompts == old(userPrompts)
    {
      if IsBlank(segment) {
        return;
      }
      toolUsage := toolUsage + [segment];
    }

    /** The system-message parts: header, memory, tool usage, then the raw system prompts. */
    function SystemParts(name: string, desc: string): seq<string>
      reads this
    {
      (if name != "" || desc != "" then [Header(name, desc)] else []) +
      (if |memory| > 0 then [MemoryPart(memory)] else []) +
      (if |toolUsage| > 0 then [ToolUsagePart(toolUsage)] else []) +
      systemPrompts
    }

    function SystemText(name: string, desc: string): (r: string)
      reads this
      ensures Trimmed(r)
    {
      TrimSpace(Join(SystemParts(name, desc), "\n\n"))
    }

    function UserText(): (r: string)
      reads this
      ensures Trimmed(r)
    {
      TrimSpace(Join(userPrompts, "\n\n"))
    }

    /** Some stored segment or the agent's identity gives the system message something to say. */
    predicate HasSystemContent(name: string, desc: string)
      reads this
    {
      name != "" || desc != "" || |memory| > 0 || |toolUsage| > 0 ||
      exists i :: 0 <= i < |systemPrompts| && !IsBlank(systemPrompts[i])
    }

    predicate HasUserContent()
      reads this
    {
      exists i :: 0 <= i < |userPrompts| && !IsBlank(userPrompts[i])
    }

    /** WrapMessages: at most one system message, then at most one user message, none blank. */
    function WrapMessages(name: string, desc: string): (r: seq<ChatMessage>)
      reads this
      ensures |r| <= 2
      ensures forall i :: 0 <= i < |r| ==> r[i].text != "" && Trimmed(r[i].text)
      ensures |r| == 2 ==> r[0].Sys? && r[1].Usr?
    {
      var sys := SystemText(name, desc);
      var usr := UserText();
      Assemble(sys, usr)
    }

    /** Each message is present exactly when its text has content, and carries that text. */
    lemma WrapMessagesContent(name: string, desc: string)
      ensures var r := WrapMessages(name, desc);
        && |r| == (if HasSystemContent(name, desc) then 1 else 0) + (if HasUserContent() then 1 else 0)
        && (HasSystemContent(name, desc) ==> r[0] == Sys(SystemText(name, desc)))
        && (HasUserContent() ==> r[|r| - 1] == Usr(UserText()))
    {
      SystemTextPresence(name, desc);
      UserTextPresence();
    }

    /** The system text is non-empty exactly when there is system content. */
    lemma SystemTextPresence(name: string, desc: string)
      ensures SystemText(name, desc) != "" <==> HasSystemContent(name, desc)
    {
      var parts := SystemParts(name, desc);
      var pre := (if name != "" || desc != "" then [Header(name, desc)] else []) +
                 (if |memory| > 0 then [MemoryPart(memory)] else []) +
                 (if |toolUsage| > 0 then [ToolUsagePart(toolUsage)] else []);
      assert parts == pre + systemPrompts;
      assert IsBlank("\n\n");
      JoinBlank(parts, "\n\n");
      forall i | 0 <= i < |pre| ensures !IsBlank(pre[i]) {
        assert !IsSpace(pre[i][0]);
      }
      if HasSystemContent(name, desc) {
        if |pre| > 0 {
          assert !IsBlank(parts[0]);
        } else {
          var i :| 0 <= i < |systemPrompts| && !IsBlank(systemPrompts[i]);
          assert parts[i] == systemPrompts[i];
        }
      } else {
        assert pre == [];
        forall i | 0 <= i < |parts| ensures IsBlank(parts[i]) {
          assert parts[i] == systemPrompts[i];
        }
      }
    }

    /** The user text is non-empty exactly when some user prompt is non-blank. */
    lemma UserTextPresence()
      ensures UserText() != "" <==> HasUserContent()
    {
      assert IsBlank("\n\n");
      JoinBlank(userPrompts, "\n\n");
    }

    /** The parts keep their documented order: header first, raw system prompts last. */
    lemma SystemPartsOrder(name: string, desc: string)
      ensures var parts := SystemParts(name, desc);
        && |parts| == (if name != "" || desc != "" then 1 else 0) + (if |memory| > 0 then 1 else 0)
                      + (if |toolUsage| > 0 then 1 else 0) + |systemPrompts|
        && ((name != "" || desc != "") ==> parts[0] == Header(name, desc))
        && parts[|parts| - |systemPrompts|..] == systemPrompts
        && (|memory| > 0 ==> parts[if name != "" || desc != "" then 1 else 0] == MemoryPart(memory))
        && (|toolUsage| > 0 ==> parts[|parts| - |systemPrompts| - 1] == ToolUsagePart(toolUsage))
    {
    }

    /** For a wrapper built by the Add methods, there is user content exactly when a user prompt was added. */
    lemma ValidUserContent()
      requires Valid()
      ensures HasUserContent() <==> |userPrompts| > 0
    {
      if |userPrompts| > 0 {
        assert !IsBlank(userPrompts[0]);
      }
    }

    /** For a wrapper built by the Add methods, a user message appears exactly when a user prompt was added. */
    lemma ValidUserMessage(name: string, desc: string)
      requires Valid()
      ensures var r := WrapMessages(name, desc); (|r| > 0 && r[|r| - 1].Usr?) <==> |userPrompts| > 0
    {
      WrapMessagesContent(name, desc);
      ValidUserContent();
      var r := WrapMessages(name, desc);
      if !HasUserContent() && |r| > 0 {
        assert r[0] == Sys(SystemText(name, desc));
      }
    }
  }
}
