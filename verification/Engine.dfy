/** The plan and tool-loop engine: one decision loop, at most one loop per plan step, one summary, all
    over a transcript that only grows. The model may answer anything at any time. */
module Engine {
  import opened Wrappers

  datatype Role = System | User | Assistant | Tool

  datatype ToolCall = ToolCall(id: string, name: string, arguments: string)

  datatype Message = Message(role: Role, content: string, calls: seq<ToolCall>, toolCallId: string)

  /** What one model request comes to, after the client's own retries. */
  datatype Reply = CallFails | Says(msg: Message)

  datatype SearchArgs = SearchArgs(pattern: string, subdir: string, contextChars: Option<int>)

  /** JSON, the two file layers and the wording of the prompts, all left open. A decoded plan is None
      when the arguments carry no step list or a null one. */
  datatype Host = Host(
    parseList: string -> Result<string, string>,
    parseRead: string -> Result<string, string>,
    parseSearch: string -> Result<SearchArgs, string>,
    parsePlan: string -> Result<Option<seq<string>>, string>,
    list: string -> Result<string, string>,
    read: string -> Result<string, string>,
    search: (string, string, int) -> Result<string, string>,
    stepPrompt: (int, int, string) -> string,
    summaryPrompt: string)

  datatype ToolResult = ToolResult(text: string, steps: Option<seq<string>>, isPlan: bool)

  const LIST_MARKDOWN := "list_md_files"
  const READ_MARKDOWN := "read_md_file"
  const SEARCH_MARKDOWN := "search_md_files"
  const SUBMIT_PLAN := "submit_plan"
  const DEFAULT_SEARCH_CONTEXT_CHARS := 200

  const STEP_TOOLS := [LIST_MARKDOWN, READ_MARKDOWN, SEARCH_MARKDOWN]
  const DECISION_TOOLS := [LIST_MARKDOWN, READ_MARKDOWN, SEARCH_MARKDOWN, SUBMIT_PLAN]

  function TextOr(r: Result<string, string>, failure: string): ToolResult {
    match r
    case Ok(text) => ToolResult(text, None, false)
    case Err(e) => ToolResult(failure + e, None, false)
  }

  const BAD_ARGUMENTS := "参数解析失败: "

  function ExecuteToolCall(h: Host, tc: ToolCall): (r: ToolResult)
    ensures r.isPlan <==> tc.name == SUBMIT_PLAN && h.parsePlan(tc.arguments).Ok?
    ensures r.steps.Some? ==> r.isPlan
  {
    if tc.name == LIST_MARKDOWN then
      match h.parseList(tc.arguments)
      case Err(e) => ToolResult(BAD_ARGUMENTS + e, None, false)
      case Ok(subdir) => TextOr(h.list(subdir), "列出文件失败: ")
    else if tc.name == READ_MARKDOWN then
      match h.parseRead(tc.arguments)
      case Err(e) => ToolResult(BAD_ARGUMENTS + e, None, false)
      case Ok(path) => TextOr(h.read(path), "读取文件失败: ")
    else if tc.name == SEARCH_MARKDOWN then
      match h.parseSearch(tc.arguments)
      case Err(e) => ToolResult(BAD_ARGUMENTS + e, None, false)
      case Ok(a) =>
        var contextChars := match a.contextChars case Some(n) => n case None => DEFAULT_SEARCH_CONTEXT_CHARS;
        TextOr(h.search(a.pattern, a.subdir, contextChars), "搜索失败: ")
    else if tc.name == SUBMIT_PLAN then
      match h.parsePlan(tc.arguments)
      case Err(e) => ToolResult(BAD_ARGUMENTS + e, None, false)
      case Ok(steps) => ToolResult("计划已收到", steps, true)
    else ToolResult("未知工具: " + tc.name, None, false)
  }

  // ---------------------------------------------------------------- one round of tool calls

  function ToolReply(h: Host, tc: ToolCall): Message {
    Message(Tool, ExecuteToolCall(h, tc).text, [], tc.id)
  }

  function ToolReplies(h: Host, calls: seq<ToolCall>): seq<Message> {
    seq(|calls|, i requires 0 <= i < |calls| => ToolReply(h, calls[i]))
  }

  /** The plan a message submits: that of its last accepted submission, even an absent one. */
  function PlanOf(h: Host, calls: seq<ToolCall>): Option<seq<string>> {
    if calls == [] then None
    else
      var r := ExecuteToolCall(h, calls[|calls| - 1]);
      if r.isPlan then r.steps else PlanOf(h, calls[..|calls| - 1])
  }

  /** The last accepted submission of a message decides; one without steps withdraws earlier ones. */
  lemma {:induction false} LastPlanWins(h: Host, calls: seq<ToolCall>, k: nat)
    requires k < |calls| && ExecuteToolCall(h, calls[k]).isPlan
    requires forall j :: k < j < |calls| ==> !ExecuteToolCall(h, calls[j]).isPlan
    ensures calls[k].name == SUBMIT_PLAN && h.parsePlan(calls[k].arguments) == Ok(PlanOf(h, calls))
  {
    var n := |calls| - 1;
    if k < n {
      assert !ExecuteToolCall(h, calls[n]).isPlan;
      LastPlanWins(h, calls[..n], k);
    }
  }

  // ---------------------------------------------------------------- the loop, as a function

  /** One request to the model; no tools at all in the last round of a loop. */
  datatype Request = Request(messages: seq<Message>, tools: Option<seq<string>>)

  /** How a loop ends. */
  datatype End = Text(text: string) | Plan(steps: seq<string>) | ModelFailed | TooManyRounds

  /** asked counts the requests made; transcript is the conversation afterwards. */
  datatype Looped = Looped(end: End, transcript: seq<Message>, asked: seq<Request>)

  /** What the model answers to its n-th request; a script that runs out stands for a failure. */
  function ReplyAt(replies: seq<Reply>, n: nat): Reply {
    if n < |replies| then replies[n] else CallFails
  }

  function Loop(h: Host, replies: seq<Reply>, transcript: seq<Message>, tools: seq<string>, asked: seq<Request>,
                round: nat, maxRounds: nat): Looped
    decreases maxRounds + 1 - round
  {
    if round > maxRounds then Looped(TooManyRounds, transcript, asked)
    else
      var asked' := asked + [Request(transcript, if round == maxRounds then None else Some(tools))];
      match ReplyAt(replies, |asked|)
      case CallFails => Looped(ModelFailed, transcript, asked')
      case Says(msg) =>
        if msg.calls == [] then Looped(Text(msg.content), transcript, asked')
        else
          var transcript' := transcript + [msg] + ToolReplies(h, msg.calls);
          match PlanOf(h, msg.calls)
          case Some(steps) => Looped(Plan(steps), transcript', asked')
          case None => Loop(h, replies, transcript', tools, asked', round + 1, maxRounds)
  }

  /** The text a loop hands over: a plan hands over none. */
  function TextOf(end: End): string {
    if end.Text? then end.text else ""
  }

  datatype Failure = DecisionFailed | StepFailed(i: nat) | NotifyFailed(i: nat) | SummaryFailed

  datatype Answer = Answer(finalAnswer: string, direct: bool, stepsExecuted: nat, stepsTruncated: bool)

  /** asked and sent are everything asked of the model and sent to the notifier. */
  datatype Outcome = Outcome(r: Result<Answer, Failure>, asked: seq<Request>, sent: seq<string>)

  /** Whom to notify: nobody, or someone whose answers are given in order; silence is a failure. */
  datatype Notifier = Nobody | Someone(accepts: seq<bool>)

  function Accepts(n: Notifier, i: nat): bool {
    n.Nobody? || (i < |n.accepts| && n.accepts[i])
  }

  function UserMessage(text: string): Message { Message(User, text, [], "") }

  function AssistantMessage(text: string): Message { Message(Assistant, text, [], "") }

  /** The steps from i on, then the summary. */
  function Steps(h: Host, replies: seq<Reply>, n: Notifier, transcript: seq<Message>, steps: seq<string>, i: nat,
                 truncated: bool, asked: seq<Request>, sent: seq<string>, maxRounds: nat): Outcome
    requires i <= |steps|
    decreases |steps| - i
  {
    if i == |steps| then
      var asked' := asked + [Request(transcript + [UserMessage(h.summaryPrompt)], None)];
      match ReplyAt(replies, |asked|)
      case CallFails => Outcome(Err(SummaryFailed), asked', sent)
      case Says(msg) => Outcome(Ok(Answer(msg.content, false, |steps|, truncated)), asked', sent)
    else
      var prompted := transcript + [UserMessage(h.stepPrompt(i + 1, |steps|, steps[i]))];
      var l := Loop(h, replies, prompted, STEP_TOOLS, asked, 0, maxRounds);
      if l.end.ModelFailed? || l.end.TooManyRounds? then Outcome(Err(StepFailed(i)), l.asked, sent)
      else
        var text := TextOf(l.end);
        var sent' := if n.Nobody? then sent else sent + [text];
        if !Accepts(n, i) then Outcome(Err(NotifyFailed(i)), l.asked, sent')
        else Steps(h, replies, n, l.transcript + [AssistantMessage(text)], steps, i + 1, truncated, l.asked, sent',
                   maxRounds)
  }

  function Start(system: string, user: string): seq<Message> {
    [Message(System, system, [], ""), UserMessage(user)]
  }

  /** The part of a plan that is carried out. */
  function Kept(plan: seq<string>, maxPlanSteps: nat): seq<string> {
    if |plan| > maxPlanSteps then plan[..maxPlanSteps] else plan
  }

  function Outcomes(h: Host, replies: seq<Reply>, n: Notifier, system: string, user: string, maxPlanSteps: nat,
                    maxRounds: nat): Outcome {
    var l := Loop(h, replies, Start(system, user), DECISION_TOOLS, [], 0, maxRounds);
    match l.end
    case Text(text) => Outcome(Ok(Answer(text, true, 0, false)), l.asked, [])
    case Plan(plan) =>
      Steps(h, replies, n, l.transcript, Kept(plan, maxPlanSteps), 0, |plan| > maxPlanSteps, l.asked, [], maxRounds)
    case _ => Outcome(Err(DecisionFailed), l.asked, [])
  }

  // ---------------------------------------------------------------- the source's loops

  /** The model as the engine sees it: it answers from a script, and what it was asked is kept. */
  class Model {
    const replies: seq<Reply>
    var asked: seq<Request>

    constructor (replies: seq<Reply>)
      ensures this.replies == replies && asked == []
    {
      this.replies, asked := replies, [];
    }

    method CreateChatCompletion(messages: seq<Message>, tools: Option<seq<string>>) returns (r: Reply)
      modifies this
      ensures asked == old(asked) + [Request(messages, tools)]
      ensures r == ReplyAt(replies, |old(asked)|)
    {
      r := if |asked| < |replies| then replies[|asked|] else CallFails;
      asked := asked + [Request(messages, tools)];
    }
  }

  class Progress {
    const accepts: seq<bool>
    var sent: seq<string>

    constructor (accepts: seq<bool>)
      ensures this.accepts == accepts && sent == []
    {
      this.accepts, sent := accepts, [];
    }

    method Notify(text: string) returns (ok: bool)
      modifies this
      ensures sent == old(sent) + [text]
      ensures ok == (|old(sent)| < |accepts| && accepts[|old(sent)|])
    {
      ok := |sent| < |accepts| && accepts[|sent|];
      sent := sent + [text];
    }
  }

  class Engine {
    const ai: Model
    const fs: Host
    const maxPlanSteps: nat
    const maxToolCallsPerStep: nat

    /** Every limit is at least one, and the one given where that is possible. */
    constructor (ai: Model, fs: Host, maxPlanSteps: int, maxToolCallsPerStep: int)
      ensures this.ai == ai && this.fs == fs
      ensures this.maxPlanSteps >= 1 && this.maxPlanSteps >= maxPlanSteps
      ensures this.maxPlanSteps == 1 || this.maxPlanSteps == maxPlanSteps
      ensures this.maxToolCallsPerStep >= 1 && this.maxToolCallsPerStep >= maxToolCallsPerStep
      ensures this.maxToolCallsPerStep == 1 || this.maxToolCallsPerStep == maxToolCallsPerStep
    {
      this.ai, this.fs := ai, fs;
      this.maxPlanSteps := if maxPlanSteps <= 0 then 1 else maxPlanSteps;
      this.maxToolCallsPerStep := if maxToolCallsPerStep <= 0 then 1 else maxToolCallsPerStep;
    }

    method ToolLoop(transcript: seq<Message>, tools: seq<string>) returns (end: End, updated: seq<Message>)
      modifies ai
      ensures Looped(end, updated, ai.asked) ==
              Loop(fs, ai.replies, transcript, tools, old(ai.asked), 0, maxToolCallsPerStep)
    {
      updated := transcript;
      for round := 0 to maxToolCallsPerStep + 1
        invariant Loop(fs, ai.replies, transcript, tools, old(ai.asked), 0, maxToolCallsPerStep) ==
                  Loop(fs, ai.replies, updated, tools, ai.asked, round, maxToolCallsPerStep)
      {
        var roundTools := Some(tools);
        if round == maxToolCallsPerStep {
          roundTools := None;
        }
        var reply := ai.CreateChatCompletion(updated, roundTools);
        if reply.CallFails? {
          return ModelFailed, updated;
        }
        var msg := reply.msg;
        if |msg.calls| == 0 {
          return Text(msg.content), updated;
        }
        var gotSteps, replied := AnswerCalls(msg.calls);
        updated := updated + [msg] + replied;
        if gotSteps.Some? {
          return Plan(gotSteps.value), updated;
        }
      }
      return TooManyRounds, updated;
    }

    method AnswerCalls(calls: seq<ToolCall>) returns (gotSteps: Option<seq<string>>, replied: seq<Message>)
      ensures gotSteps == PlanOf(fs, calls) && replied == ToolReplies(fs, calls)
    {
      gotSteps, replied := None, [];
      for i := 0 to |calls|
        invariant gotSteps == PlanOf(fs, calls[..i]) && replied == ToolReplies(fs, calls[..i])
      {
        var tc := calls[i];
        var r := ExecuteToolCall(fs, tc);
        replied := replied + [Message(Tool, r.text, [], tc.id)];
        if r.isPlan {
          gotSteps := r.steps;
        }
        assert calls[..i + 1][..i] == calls[..i];
      }
      assert calls[..|calls|] == calls;
    }

    method Run(system: string, user: string, notify: Progress?) returns (r: Result<Answer, Failure>)
      requires ai.asked == [] && (notify != null ==> notify.sent == [])
      modifies ai, notify
      ensures Outcome(r, ai.asked, SentBy(notify)) ==
              Outcomes(fs, ai.replies, NotifierOf(notify), system, user, maxPlanSteps, maxToolCallsPerStep)
      ensures |ai.asked| <= (maxPlanSteps + 1) * (maxToolCallsPerStep + 1) + 1 && AllChained(ai.asked)
      ensures |SentBy(notify)| <= maxPlanSteps
    {
      TranscriptsAndCost(fs, ai.replies, NotifierOf(notify), system, user, maxPlanSteps, maxToolCallsPerStep,
                         Outcomes(fs, ai.replies, NotifierOf(notify), system, user, maxPlanSteps, maxToolCallsPerStep));
      var transcript := [Message(System, system, [], ""), UserMessage(user)];
      var end, updated := ToolLoop(transcript, DECISION_TOOLS);
      match end
      case ModelFailed => return Err(DecisionFailed);
      case TooManyRounds => return Err(DecisionFailed);
      case Text(text) => return Ok(Answer(text, true, 0, false));
      case Plan(plan) =>
        var steps, truncated := plan, false;
        if |steps| > maxPlanSteps {
          steps, truncated := steps[..maxPlanSteps], true;
        }
        r := RunSteps(updated, steps, truncated, notify);
    }

    method RunSteps(transcript0: seq<Message>, steps: seq<string>, truncated: bool, notify: Progress?)
      returns (r: Result<Answer, Failure>)
      requires notify != null ==> notify.sent == []
      modifies ai, notify
      ensures Outcome(r, ai.asked, SentBy(notify)) ==
              Steps(fs, ai.replies, NotifierOf(notify), transcript0, steps, 0, truncated, old(ai.asked), [],
                    maxToolCallsPerStep)
    {
      var transcript := transcript0;
      ghost var all := Steps(fs, ai.replies, NotifierOf(notify), transcript0, steps, 0, truncated, old(ai.asked), [],
                             maxToolCallsPerStep);
      for i := 0 to |steps|
        invariant notify != null ==> |notify.sent| == i
        invariant all ==
                  Steps(fs, ai.replies, NotifierOf(notify), transcript, steps, i, truncated, ai.asked, SentBy(notify),
                               maxToolCallsPerStep)
      {
        var prompt := fs.stepPrompt(i + 1, |steps|, steps[i]);
        transcript := transcript + [UserMessage(prompt)];
        var end, updated := ToolLoop(transcript, STEP_TOOLS);
        if end.ModelFailed? || end.TooManyRounds? {
          return Err(StepFailed(i));
        }
        var stepText := TextOf(end);
        transcript := updated + [AssistantMessage(stepText)];
        if notify != null {
          var ok := notify.Notify(stepText);
          if !ok {
            return Err(NotifyFailed(i));
          }
        }
      }
      transcript := transcript + [UserMessage(fs.summaryPrompt)];
      var reply := ai.CreateChatCompletion(transcript, None);
      if reply.CallFails? {
        return Err(SummaryFailed);
      }
      return Ok(Answer(reply.msg.content, false, |steps|, truncated));
    }
  }

  function SentBy(notify: Progress?): seq<string>
    reads notify
  {
    if notify == null then [] else notify.sent
  }

  function NotifierOf(notify: Progress?): Notifier {
    if notify == null then Nobody else Someone(notify.accepts)
  }

  // ---------------------------------------------------------------- transcripts

  predicate AnswersCalls(replies: seq<Message>, calls: seq<ToolCall>) {
    && |replies| == |calls|
    && forall i :: 0 <= i < |calls| ==>
         replies[i].role == Tool && replies[i].calls == [] && replies[i].toolCallId == calls[i].id
  }

  /** Each message with tool calls is followed at once by one tool reply per call, in the calls' order;
      tool replies appear nowhere else. */
  predicate WellFormed(t: seq<Message>) {
    |t| > 0 ==>
      var n := |t[0].calls|;
      if n > 0 then n < |t| && AnswersCalls(t[1..n + 1], t[0].calls) && WellFormed(t[n + 1..])
      else t[0].role != Tool && WellFormed(t[1..])
  }

  lemma ConcatParts(a: seq<Message>, b: seq<Message>, n: nat)
    requires n < |a|
    ensures (a + b)[0] == a[0] && (a + b)[1..n + 1] == a[1..n + 1] && (a + b)[n + 1..] == a[n + 1..] + b
  {}

  lemma {:induction false} WellFormedConcat(a: seq<Message>, b: seq<Message>)
    requires WellFormed(a) && WellFormed(b)
    ensures WellFormed(a + b)
  {
    if |a| == 0 {
      assert a + b == b;
    } else {
      var n := |a[0].calls|;
      ConcatParts(a, b, n);
      WellFormedConcat(a[n + 1..], b);
      if n > 0 {
        assert AnswersCalls((a + b)[1..n + 1], a[0].calls);
        assert WellFormed((a + b)[n + 1..]);
      } else {
        assert WellFormed((a + b)[1..]);
      }
    }
  }

  /** A message with calls and the replies the engine makes up for it. */
  lemma RoundWellFormed(h: Host, t: seq<Message>, msg: Message)
    requires WellFormed(t) && |msg.calls| > 0
    ensures WellFormed(t + [msg] + ToolReplies(h, msg.calls))
  {
    var replies := ToolReplies(h, msg.calls);
    var block := [msg] + replies;
    assert block[1..|msg.calls| + 1] == replies && block[|msg.calls| + 1..] == [];
    WellFormedConcat(t, block);
    assert t + [msg] + replies == t + block;
  }

  lemma PlainWellFormed(t: seq<Message>, m: Message)
    requires WellFormed(t) && m.calls == [] && m.role != Tool
    ensures WellFormed(t + [m])
  {
    assert [m][1..] == [];
    WellFormedConcat(t, [m]);
  }

  /** All requests so far are well-formed, each an extension of the one before, and t of the last. */
  predicate Chained(asked: seq<Request>, t: seq<Message>) {
    && WellFormed(t)
    && (forall i :: 0 <= i < |asked| ==> WellFormed(asked[i].messages) && asked[i].messages <= t)
    && (forall i, j :: 0 <= i < j < |asked| ==> asked[i].messages <= asked[j].messages)
  }

  lemma AskChained(asked: seq<Request>, t: seq<Message>, tools: Option<seq<string>>)
    requires Chained(asked, t)
    ensures Chained(asked + [Request(t, tools)], t)
  {}

  lemma GrowChained(asked: seq<Request>, t: seq<Message>, t': seq<Message>)
    requires Chained(asked, t) && WellFormed(t') && t <= t'
    ensures Chained(asked, t')
  {}

  lemma {:induction false} LoopChained(h: Host, replies: seq<Reply>, t: seq<Message>, tools: seq<string>,
                                       asked: seq<Request>, round: nat, maxRounds: nat, l: Looped)
    requires Chained(asked, t) && round <= maxRounds + 1 && l == Loop(h, replies, t, tools, asked, round, maxRounds)
    ensures Chained(l.asked, l.transcript) && t <= l.transcript && asked <= l.asked
    ensures |l.asked| <= |asked| + (maxRounds + 1 - round)
    decreases maxRounds + 1 - round
  {
    if round <= maxRounds {
      var request := Request(t, if round == maxRounds then None else Some(tools));
      AskChained(asked, t, request.tools);
      var reply := ReplyAt(replies, |asked|);
      if reply.Says? && |reply.msg.calls| > 0 {
        var t' := t + [reply.msg] + ToolReplies(h, reply.msg.calls);
        RoundWellFormed(h, t, reply.msg);
        GrowChained(asked + [request], t, t');
        if PlanOf(h, reply.msg.calls).None? {
          LoopChained(h, replies, t', tools, asked + [request], round + 1, maxRounds, l);
        }
      }
    }
  }

  /** Requests still possible from step i on. */
  function StepBudget(left: nat, maxRounds: nat): nat {
    left * (maxRounds + 1) + 1
  }

  lemma BudgetStep(left: nat, maxRounds: nat)
    requires left > 0
    ensures StepBudget(left, maxRounds) == (maxRounds + 1) + StepBudget(left - 1, maxRounds)
  {}

  lemma BudgetGrows(a: nat, b: nat, maxRounds: nat)
    requires a <= b
    ensures StepBudget(a, maxRounds) <= StepBudget(b, maxRounds)
  {
    assert (b - a) * (maxRounds + 1) >= 0;
  }

  predicate AllChained(asked: seq<Request>) {
    && (forall i :: 0 <= i < |asked| ==> WellFormed(asked[i].messages))
    && (forall i, j :: 0 <= i < j < |asked| ==> asked[i].messages <= asked[j].messages)
  }

  /** One step: its prompt, its loop and its conclusion. */
  lemma StepChained(h: Host, replies: seq<Reply>, t: seq<Message>, prompt: Message, asked: seq<Request>, maxRounds: nat,
                    l: Looped, text: string)
    requires Chained(asked, t) && prompt.calls == [] && prompt.role == User
    requires l == Loop(h, replies, t + [prompt], STEP_TOOLS, asked, 0, maxRounds)
    ensures Chained(l.asked, l.transcript) && t + [prompt] <= l.transcript && |l.asked| <= |asked| + maxRounds + 1
    ensures Chained(l.asked, l.transcript + [AssistantMessage(text)])
  {
    PlainWellFormed(t, prompt);
    GrowChained(asked, t, t + [prompt]);
    LoopChained(h, replies, t + [prompt], STEP_TOOLS, asked, 0, maxRounds, l);
    PlainWellFormed(l.transcript, AssistantMessage(text));
    GrowChained(l.asked, l.transcript, l.transcript + [AssistantMessage(text)]);
  }

  lemma {:induction false} StepsChained(h: Host, replies: seq<Reply>, n: Notifier, t: seq<Message>, steps: seq<string>,
      i: nat, truncated: bool, asked: seq<Request>, sent: seq<string>, maxRounds: nat, o: Outcome)
    requires i <= |steps| && Chained(asked, t)
    requires o == Steps(h, replies, n, t, steps, i, truncated, asked, sent, maxRounds)
    ensures AllChained(o.asked)
    ensures |o.asked| <= |asked| + StepBudget(|steps| - i, maxRounds)
    ensures |o.sent| <= |sent| + |steps| - i
    decreases |steps| - i
  {
    if i == |steps| {
      var prompted := t + [UserMessage(h.summaryPrompt)];
      PlainWellFormed(t, UserMessage(h.summaryPrompt));
      GrowChained(asked, t, prompted);
      AskChained(asked, prompted, None);
    } else {
      var prompt := UserMessage(h.stepPrompt(i + 1, |steps|, steps[i]));
      var l := Loop(h, replies, t + [prompt], STEP_TOOLS, asked, 0, maxRounds);
      StepChained(h, replies, t, prompt, asked, maxRounds, l, TextOf(l.end));
      BudgetStep(|steps| - i, maxRounds);
      if !(l.end.ModelFailed? || l.end.TooManyRounds?) && Accepts(n, i) {
        StepsChained(h, replies, n, l.transcript + [AssistantMessage(TextOf(l.end))], steps, i + 1, truncated, l.asked,
                     if n.Nobody? then sent else sent + [TextOf(l.end)], maxRounds, o);
      }
    }
  }

  lemma StartChained(system: string, user: string)
    ensures Chained([], Start(system, user))
  {
    assert WellFormed([]);
    PlainWellFormed([], Message(System, system, [], ""));
    PlainWellFormed([] + [Message(System, system, [], "")], UserMessage(user));
    assert Start(system, user) == [] + [Message(System, system, [], "")] + [UserMessage(user)];
  }

  /** Whatever the model answers, in every phase and however the run ends: each transcript it is shown
      extends the one before and is well-formed, it is asked at most (P + 1)(M + 1) + 1 times, and no
      more than P notifications are sent. */
  lemma TranscriptsAndCost(h: Host, replies: seq<Reply>, n: Notifier, system: string, user: string,
                           maxPlanSteps: nat, maxRounds: nat, o: Outcome)
    requires o == Outcomes(h, replies, n, system, user, maxPlanSteps, maxRounds)
    ensures AllChained(o.asked)
    ensures |o.asked| <= (maxPlanSteps + 1) * (maxRounds + 1) + 1 && |o.sent| <= maxPlanSteps
  {
    StartChained(system, user);
    var l := Loop(h, replies, Start(system, user), DECISION_TOOLS, [], 0, maxRounds);
    LoopChained(h, replies, Start(system, user), DECISION_TOOLS, [], 0, maxRounds, l);
    BudgetStep(maxPlanSteps + 1, maxRounds);
    BudgetGrows(0, maxPlanSteps, maxRounds);
    if l.end.Plan? {
      var steps := Kept(l.end.steps, maxPlanSteps);
      BudgetGrows(|steps|, maxPlanSteps, maxRounds);
      StepsChained(h, replies, n, l.transcript, steps, 0, |l.end.steps| > maxPlanSteps, l.asked, [], maxRounds, o);
    }
  }

  // ---------------------------------------------------------------- a planned run that succeeds

  /** Step i is put to the model at p and concluded at q, with this text. */
  predicate StepAt(h: Host, t: seq<Message>, from: nat, p: nat, q: nat, steps: seq<string>, i: nat, text: string)
    requires i < |steps|
  {
    && from <= p < q < |t|
    && t[p] == Message(User, h.stepPrompt(i + 1, |steps|, steps[i]), [], "")
    && t[q] == Message(Assistant, text, [], "")
  }

  /** The conversation carries the steps from i on in plan order, each prompt before its conclusion, and
      the conclusions are the texts sent. */
  ghost predicate Chronicle(h: Host, t: seq<Message>, from: nat, steps: seq<string>, i: nat, sent: seq<string>)
    requires i <= |steps|
    decreases |steps| - i
  {
    if i == |steps| then sent == []
    else |sent| > 0 && exists p: nat, q: nat ::
           StepAt(h, t, from, p, q, steps, i, sent[0]) && Chronicle(h, t, q + 1, steps, i + 1, sent[1..])
  }

  function Last(asked: seq<Request>): seq<Message> {
    if |asked| == 0 then [] else asked[|asked| - 1].messages
  }

  lemma StepIsAt(h: Host, t: seq<Message>, l: Looped, final: seq<Message>, steps: seq<string>, i: nat)
    requires i < |steps|
    requires t + [UserMessage(h.stepPrompt(i + 1, |steps|, steps[i]))] <= l.transcript
    requires l.transcript + [AssistantMessage(TextOf(l.end))] <= final
    ensures StepAt(h, final, |t|, |t|, |l.transcript|, steps, i, TextOf(l.end))
  {
    var prompted := t + [UserMessage(h.stepPrompt(i + 1, |steps|, steps[i]))];
    assert final[|t|] == prompted[|t|];
  }

  lemma NotesSplit(sent: seq<string>, text: string, all: seq<string>)
    requires sent + [text] <= all
    ensures |all[|sent|..]| > 0 && all[|sent|..][0] == text && all[|sent|..][1..] == all[|sent + [text]|..]
  {
    assert (sent + [text])[|sent|] == all[|sent|];
  }

  lemma ChronicleStep(h: Host, t: seq<Message>, p: nat, q: nat, steps: seq<string>, i: nat, notes: seq<string>)
    requires i < |steps| && |notes| > 0
    requires StepAt(h, t, p, p, q, steps, i, notes[0]) && Chronicle(h, t, q + 1, steps, i + 1, notes[1..])
    ensures Chronicle(h, t, p, steps, i, notes)
  {}

  lemma {:induction false} StepsSucceed(h: Host, replies: seq<Reply>, n: Notifier, t: seq<Message>, steps: seq<string>,
      i: nat, truncated: bool, asked: seq<Request>, sent: seq<string>, maxRounds: nat, o: Outcome)
    requires i <= |steps| && Chained(asked, t) && n.Someone?
    requires o == Steps(h, replies, n, t, steps, i, truncated, asked, sent, maxRounds) && o.r.Ok?
    ensures !o.r.value.direct && o.r.value.stepsExecuted == |steps| && o.r.value.stepsTruncated == truncated
    ensures t <= Last(o.asked) && sent <= o.sent && |o.sent| == |sent| + |steps| - i
    ensures Chronicle(h, Last(o.asked), |t|, steps, i, o.sent[|sent|..])
    decreases |steps| - i
  {
    if i < |steps| {
      var prompt := UserMessage(h.stepPrompt(i + 1, |steps|, steps[i]));
      var l := Loop(h, replies, t + [prompt], STEP_TOOLS, asked, 0, maxRounds);
      var text := TextOf(l.end);
      StepChained(h, replies, t, prompt, asked, maxRounds, l, text);
      StepsSucceed(h, replies, n, l.transcript + [AssistantMessage(text)], steps, i + 1, truncated, l.asked,
                   sent + [text], maxRounds, o);
      StepIsAt(h, t, l, Last(o.asked), steps, i);
      NotesSplit(sent, text, o.sent);
      ChronicleStep(h, Last(o.asked), |t|, |l.transcript|, steps, i, o.sent[|sent|..]);
    }
  }

  /** The plan the decision loop ends on, if it does. */
  function Decision(h: Host, replies: seq<Reply>, system: string, user: string, maxRounds: nat): End {
    Loop(h, replies, Start(system, user), DECISION_TOOLS, [], 0, maxRounds).end
  }

  /** A run that succeeds by a plan notifies exactly once for each of the first P steps, in plan order,
      with that step's conclusion, and reports how many there were and whether any were cut off. */
  lemma PlannedRun(h: Host, replies: seq<Reply>, n: Notifier, system: string, user: string,
                   maxPlanSteps: nat, maxRounds: nat, o: Outcome)
    requires o == Outcomes(h, replies, n, system, user, maxPlanSteps, maxRounds)
    requires n.Someone? && o.r.Ok? && !o.r.value.direct
    ensures Decision(h, replies, system, user, maxRounds).Plan?
    ensures var plan := Decision(h, replies, system, user, maxRounds).steps;
            && |o.sent| == (if |plan| < maxPlanSteps then |plan| else maxPlanSteps) == o.r.value.stepsExecuted
            && (o.r.value.stepsTruncated <==> |plan| > maxPlanSteps)
            && Chronicle(h, Last(o.asked), 2, plan[..|o.sent|], 0, o.sent)
  {
    StartChained(system, user);
    var l := Loop(h, replies, Start(system, user), DECISION_TOOLS, [], 0, maxRounds);
    LoopChained(h, replies, Start(system, user), DECISION_TOOLS, [], 0, maxRounds, l);
    var kept := Kept(l.end.steps, maxPlanSteps);
    StepsSucceed(h, replies, n, l.transcript, kept, 0, |l.end.steps| > maxPlanSteps, l.asked, [], maxRounds, o);
    assert o.sent[0..] == o.sent;
    assert kept == l.end.steps[..|o.sent|];
    EarlierChronicle(h, Last(o.asked), 2, |l.transcript|, kept, 0, o.sent);
  }

  lemma EarlierChronicle(h: Host, t: seq<Message>, from: nat, later: nat, steps: seq<string>, i: nat, sent: seq<string>)
    requires i <= |steps| && from <= later && Chronicle(h, t, later, steps, i, sent)
    ensures Chronicle(h, t, from, steps, i, sent)
  {
    if i < |steps| {
      var p: nat, q: nat :|
        StepAt(h, t, later, p, q, steps, i, sent[0]) && Chronicle(h, t, q + 1, steps, i + 1, sent[1..]);
      assert StepAt(h, t, from, p, q, steps, i, sent[0]);
    }
  }

  /** A direct answer notifies nobody; a run that fails has notified for no more than the steps begun. */
  lemma DirectRun(h: Host, replies: seq<Reply>, n: Notifier, system: string, user: string,
                  maxPlanSteps: nat, maxRounds: nat, o: Outcome)
    requires o == Outcomes(h, replies, n, system, user, maxPlanSteps, maxRounds)
    ensures Decision(h, replies, system, user, maxRounds).Text? <==> o.r.Ok? && o.r.value.direct
    ensures o.r.Ok? && o.r.value.direct ==>
              && o.sent == [] && o.r.value.stepsExecuted == 0 && !o.r.value.stepsTruncated
              && o.r.value.finalAnswer == Decision(h, replies, system, user, maxRounds).text
  {
    var l := Loop(h, replies, Start(system, user), DECISION_TOOLS, [], 0, maxRounds);
    if l.end.Plan? {
      NeverDirect(h, replies, n, l.transcript, Kept(l.end.steps, maxPlanSteps), 0, |l.end.steps| > maxPlanSteps,
                  l.asked, [], maxRounds);
    }
  }

  /** A run that tells nobody is the run that tells somebody who takes every message. */
  lemma QuietRun(h: Host, replies: seq<Reply>, accepts: seq<bool>, system: string, user: string,
                 maxPlanSteps: nat, maxRounds: nat, o: Outcome, quiet: Outcome)
    requires |accepts| >= maxPlanSteps && forall k :: 0 <= k < maxPlanSteps ==> accepts[k]
    requires o == Outcomes(h, replies, Someone(accepts), system, user, maxPlanSteps, maxRounds)
    requires quiet == Outcomes(h, replies, Nobody, system, user, maxPlanSteps, maxRounds)
    ensures quiet == o.(sent := [])
  {
    var l := Loop(h, replies, Start(system, user), DECISION_TOOLS, [], 0, maxRounds);
    if l.end.Plan? {
      QuietSteps(h, replies, accepts, l.transcript, Kept(l.end.steps, maxPlanSteps), 0,
                 |l.end.steps| > maxPlanSteps, l.asked, [], [], maxRounds);
    }
  }

  lemma {:induction false} QuietSteps(h: Host, replies: seq<Reply>, accepts: seq<bool>, t: seq<Message>,
      steps: seq<string>, i: nat, truncated: bool, asked: seq<Request>, sent: seq<string>, unsent: seq<string>,
      maxRounds: nat)
    requires i <= |steps| <= |accepts| && forall k :: 0 <= k < |steps| ==> accepts[k]
    ensures Steps(h, replies, Nobody, t, steps, i, truncated, asked, unsent, maxRounds) ==
            Steps(h, replies, Someone(accepts), t, steps, i, truncated, asked, sent, maxRounds).(sent := unsent)
    decreases |steps| - i
  {
    if i < |steps| {
      var prompt := UserMessage(h.stepPrompt(i + 1, |steps|, steps[i]));
      var l := Loop(h, replies, t + [prompt], STEP_TOOLS, asked, 0, maxRounds);
      var text := TextOf(l.end);
      QuietSteps(h, replies, accepts, l.transcript + [AssistantMessage(text)], steps, i + 1, truncated, l.asked,
                 sent + [text], unsent, maxRounds);
    }
  }

  lemma {:induction false} NeverDirect(h: Host, replies: seq<Reply>, n: Notifier, t: seq<Message>, steps: seq<string>,
      i: nat, truncated: bool, asked: seq<Request>, sent: seq<string>, maxRounds: nat)
    requires i <= |steps|
    ensures var o := Steps(h, replies, n, t, steps, i, truncated, asked, sent, maxRounds); o.r.Ok? ==> !o.r.value.direct
    decreases |steps| - i
  {
    if i < |steps| {
      var prompt := UserMessage(h.stepPrompt(i + 1, |steps|, steps[i]));
      var l := Loop(h, replies, t + [prompt], STEP_TOOLS, asked, 0, maxRounds);
      var text := TextOf(l.end);
      NeverDirect(h, replies, n, l.transcript + [AssistantMessage(text)], steps, i + 1, truncated, l.asked,
                  if n.Nobody? then sent else sent + [text], maxRounds);
    }
  }

  // ---------------------------------------------------------------- a plan submitted inside a step

  /** The model's n-th answer is tool calls that submit no plan: the loop goes on. */
  predicate GoesOn(h: Host, replies: seq<Reply>, n: nat) {
    var r := ReplyAt(replies, n);
    r.Says? && r.msg.calls != [] && PlanOf(h, r.msg.calls).None?
  }

  /** The model's n-th answer submits a plan. */
  predicate Submits(h: Host, replies: seq<Reply>, n: nat) {
    var r := ReplyAt(replies, n);
    r.Says? && PlanOf(h, r.msg.calls).Some?
  }

  /** Within the rounds left, the first answer that does not let the loop go on submits a plan. */
  ghost predicate PlanComes(h: Host, replies: seq<Reply>, n: nat, rounds: nat) {
    exists k :: n <= k < n + rounds && Submits(h, replies, k) && forall j :: n <= j < k ==> GoesOn(h, replies, j)
  }

  lemma PlanComesLater(h: Host, replies: seq<Reply>, n: nat, rounds: nat)
    requires rounds > 0 && GoesOn(h, replies, n)
    ensures PlanComes(h, replies, n, rounds) <==> PlanComes(h, replies, n + 1, rounds - 1)
  {
    if PlanComes(h, replies, n + 1, rounds - 1) {
      var k :|
        n + 1 <= k < n + rounds && Submits(h, replies, k) && forall j :: n + 1 <= j < k ==> GoesOn(h, replies, j);
      assert Submits(h, replies, k);
    }
  }

  /** A loop ends in a plan exactly when the model submits one before it answers in text, fails or runs
      out of rounds, whatever tools it was offered. */
  lemma {:induction false} EndsInPlan(h: Host, replies: seq<Reply>, t: seq<Message>, tools: seq<string>,
                                      asked: seq<Request>, round: nat, maxRounds: nat)
    requires round <= maxRounds + 1
    ensures Loop(h, replies, t, tools, asked, round, maxRounds).end.Plan? <==>
            PlanComes(h, replies, |asked|, maxRounds + 1 - round)
    decreases maxRounds + 1 - round
  {
    if round <= maxRounds {
      var n := |asked|;
      if Submits(h, replies, n) {
        assert PlanComes(h, replies, n, maxRounds + 1 - round);
      } else if GoesOn(h, replies, n) {
        var msg := ReplyAt(replies, n).msg;
        var request := Request(t, if round == maxRounds then None else Some(tools));
        EndsInPlan(h, replies, t + [msg] + ToolReplies(h, msg.calls), tools, asked + [request], round + 1, maxRounds);
        PlanComesLater(h, replies, n, maxRounds + 1 - round);
      }
    }
  }

  lemma {:induction false} SentGrows(h: Host, replies: seq<Reply>, n: Notifier, t: seq<Message>, steps: seq<string>,
      i: nat, truncated: bool, asked: seq<Request>, sent: seq<string>, maxRounds: nat)
    requires i <= |steps|
    ensures sent <= Steps(h, replies, n, t, steps, i, truncated, asked, sent, maxRounds).sent
    decreases |steps| - i
  {
    if i < |steps| {
      var prompt := UserMessage(h.stepPrompt(i + 1, |steps|, steps[i]));
      var l := Loop(h, replies, t + [prompt], STEP_TOOLS, asked, 0, maxRounds);
      var text := TextOf(l.end);
      SentGrows(h, replies, n, l.transcript + [AssistantMessage(text)], steps, i + 1, truncated, l.asked,
                if n.Nobody? then sent else sent + [text], maxRounds);
    }
  }

  /** In every step the model may submit a plan although it was not offered the tool. The step then counts
      as done, its empty text is what the user is sent, and nothing of the plan is carried out. */
  lemma PlanInStep(h: Host, replies: seq<Reply>, n: Notifier, t: seq<Message>, steps: seq<string>, i: nat,
      truncated: bool, asked: seq<Request>, sent: seq<string>, maxRounds: nat, l: Looped, o: Outcome)
    requires i < |steps| && n.Someone?
    requires o == Steps(h, replies, n, t, steps, i, truncated, asked, sent, maxRounds)
    requires l == Loop(h, replies, t + [UserMessage(h.stepPrompt(i + 1, |steps|, steps[i]))], STEP_TOOLS, asked, 0,
                       maxRounds)
    requires PlanComes(h, replies, |asked|, maxRounds + 1)
    ensures |o.sent| > |sent| && o.sent[|sent|] == ""
    ensures !Accepts(n, i) ==> o.r == Err(NotifyFailed(i))
    ensures Accepts(n, i) ==>
              o == Steps(h, replies, n, l.transcript + [AssistantMessage("")], steps, i + 1, truncated, l.asked,
                         sent + [""], maxRounds)
  {
    var prompted := t + [UserMessage(h.stepPrompt(i + 1, |steps|, steps[i]))];
    EndsInPlan(h, replies, prompted, STEP_TOOLS, asked, 0, maxRounds);
    if Accepts(n, i) {
      SentGrows(h, replies, n, l.transcript + [AssistantMessage("")], steps, i + 1, truncated, l.asked, sent + [""],
                maxRounds);
      assert (sent + [""])[|sent|] == o.sent[|sent|];
    }
  }

  /** An input: the model submits a plan of one step, submits a plan again inside that step, and then sums
      up. The run succeeds, and the one progress message the user gets is empty. */
  lemma EmptyProgress() returns (h: Host, replies: seq<Reply>, o: Outcome)
    ensures o == Outcomes(h, replies, Someone([true]), "", "", 1, 1)
    ensures o.r == Ok(Answer("done", false, 1, false)) && o.sent == [""]
  {
    h := Host(_ => Err(""), _ => Err(""), _ => Err(""), _ => Ok(Some(["look it up"])), _ => Err(""), _ => Err(""),
              (pattern, subdir, contextChars) => Err(""), (i, n, step) => step, "");
    var submit := Message(Assistant, "", [ToolCall("1", SUBMIT_PLAN, "")], "");
    replies := [Says(submit), Says(submit), Says(AssistantMessage("done"))];
    var plan := ["look it up"];
    OnePlan(h, submit.calls, plan);
    var l := Loop(h, replies, Start("", ""), DECISION_TOOLS, [], 0, 1);
    assert l.end == Plan(plan) && |l.asked| == 1;
    var prompted := l.transcript + [UserMessage(h.stepPrompt(1, 1, plan[0]))];
    var l1 := Loop(h, replies, prompted, STEP_TOOLS, l.asked, 0, 1);
    assert l1.end == Plan(plan) && |l1.asked| == 2;
    o := Steps(h, replies, Someone([true]), l.transcript, plan, 0, false, l.asked, [], 1);
    assert o == Steps(h, replies, Someone([true]), l1.transcript + [AssistantMessage("")], plan, 1, false, l1.asked,
                      [] + [""], 1);
  }

  lemma OnePlan(h: Host, calls: seq<ToolCall>, plan: seq<string>)
    requires |calls| == 1 && calls[0].name == SUBMIT_PLAN && h.parsePlan(calls[0].arguments) == Ok(Some(plan))
    ensures PlanOf(h, calls) == Some(plan)
  {
    LastPlanWins(h, calls, 0);
  }

  // ---------------------------------------------------------------- what the model is shown, and what comes of it

  /** m answers the call with what the host's file layers said, or with the reason why they were not asked
      or had nothing to say. */
  predicate ToolAnswer(h: Host, tc: ToolCall, m: Message) {
    && m.role == Tool && m.calls == [] && m.toolCallId == tc.id
    && (tc.name == "list_md_files" ==>
          match h.parseList(tc.arguments)
          case Err(e) => m.content == "参数解析失败: " + e
          case Ok(subdir) =>
            match h.list(subdir)
            case Ok(text) => m.content == text
            case Err(e) => m.content == "列出文件失败: " + e)
    && (tc.name == "read_md_file" ==>
          match h.parseRead(tc.arguments)
          case Err(e) => m.content == "参数解析失败: " + e
          case Ok(path) =>
            match h.read(path)
            case Ok(text) => m.content == text
            case Err(e) => m.content == "读取文件失败: " + e)
    && (tc.name == "search_md_files" ==>
          match h.parseSearch(tc.arguments)
          case Err(e) => m.content == "参数解析失败: " + e
          case Ok(SearchArgs(pattern, subdir, Some(width))) => SearchAnswer(h.search(pattern, subdir, width), m.content)
          case Ok(SearchArgs(pattern, subdir, None)) => SearchAnswer(h.search(pattern, subdir, 200), m.content))
    && (tc.name == "submit_plan" ==>
          match h.parsePlan(tc.arguments)
          case Err(e) => m.content == "参数解析失败: " + e
          case Ok(_) => m.content == "计划已收到")
    && (tc.name !in ["list_md_files", "read_md_file", "search_md_files", "submit_plan"] ==>
          m.content == "未知工具: " + tc.name)
  }

  predicate SearchAnswer(r: Result<string, string>, content: string) {
    match r
    case Ok(text) => content == text
    case Err(e) => content == "搜索失败: " + e
  }

  lemma ToolAnswers(h: Host, tc: ToolCall)
    ensures ToolAnswer(h, tc, ToolReply(h, tc))
  {}

  /** From one request to the next: the model's message with its calls, then an answer to each of them. */
  predicate Follows(h: Host, r: Reply, before: seq<Message>, after: seq<Message>) {
    && r.Says? && r.msg.calls != [] && before + [r.msg] <= after
    && |after| == |before| + 1 + |r.msg.calls|
    && forall i :: 0 <= i < |r.msg.calls| ==> ToolAnswer(h, r.msg.calls[i], after[|before| + 1 + i])
  }

  lemma RoundFollows(h: Host, msg: Message, t: seq<Message>, t': seq<Message>)
    requires msg.calls != [] && t' == t + [msg] + ToolReplies(h, msg.calls)
    ensures Follows(h, Says(msg), t, t')
  {
    forall i | 0 <= i < |msg.calls| ensures ToolAnswer(h, msg.calls[i], t'[|t| + 1 + i]) {
      ToolAnswers(h, msg.calls[i]);
    }
  }

  /** The requests of one loop: the tools are offered in every round but the last, the first request is the
      transcript the loop began with, and each later one follows from the answer to the one before. */
  predicate Trace(h: Host, replies: seq<Reply>, t: seq<Message>, tools: seq<string>, all: seq<Request>, from: nat,
                  round: nat, maxRounds: nat)
  {
    && (forall k :: from <= k < |all| ==>
          all[k].tools == if round + k - from == maxRounds then None else Some(tools))
    && (from < |all| ==> all[from].messages == t)
    && (forall k :: from <= k < |all| - 1 ==>
          Follows(h, ReplyAt(replies, k), all[k].messages, all[k + 1].messages))
  }

  /** How a loop ends, told from the answer r to its last request. */
  predicate Ends(h: Host, r: Reply, last: seq<Message>, l: Looped, rounds: int) {
    match l.end
    case ModelFailed => r.CallFails?
    case Text(text) => r.Says? && r.msg.calls == [] && text == r.msg.content && l.transcript == last
    case Plan(steps) => Follows(h, r, last, l.transcript) && PlanOf(h, r.msg.calls) == Some(steps)
    case TooManyRounds => Follows(h, r, last, l.transcript) && PlanOf(h, r.msg.calls).None? && rounds == 0
  }

  lemma {:induction false} LoopTrace(h: Host, replies: seq<Reply>, t: seq<Message>, tools: seq<string>,
                                     asked: seq<Request>, round: nat, maxRounds: nat, l: Looped)
    requires round <= maxRounds && l == Loop(h, replies, t, tools, asked, round, maxRounds)
    ensures asked < l.asked && Trace(h, replies, t, tools, l.asked, |asked|, round, maxRounds)
    ensures Ends(h, ReplyAt(replies, |l.asked| - 1), l.asked[|l.asked| - 1].messages, l,
                 maxRounds + 1 - round - (|l.asked| - |asked|))
    decreases maxRounds - round
  {
    var r := ReplyAt(replies, |asked|);
    if r.Says? && r.msg.calls != [] && PlanOf(h, r.msg.calls).None? && round < maxRounds {
      var t' := t + [r.msg] + ToolReplies(h, r.msg.calls);
      RoundFollows(h, r.msg, t, t');
      LoopTrace(h, replies, t', tools, asked + [Request(t, Some(tools))], round + 1, maxRounds, l);
      TraceCons(h, replies, t, t', tools, l.asked, |asked|, round, maxRounds);
    } else {
      LastRound(h, replies, t, tools, asked, round, maxRounds, r, l);
    }
  }

  lemma LastRound(h: Host, replies: seq<Reply>, t: seq<Message>, tools: seq<string>, asked: seq<Request>, round: nat,
                  maxRounds: nat, r: Reply, l: Looped)
    requires round <= maxRounds && l == Loop(h, replies, t, tools, asked, round, maxRounds)
    requires r == ReplyAt(replies, |asked|)
    requires r.CallFails? || r.msg.calls == [] || PlanOf(h, r.msg.calls).Some? || round == maxRounds
    ensures l.asked == asked + [Request(t, if round == maxRounds then None else Some(tools))]
    ensures Ends(h, r, t, l, maxRounds - round)
  {
    if r.Says? && r.msg.calls != [] {
      RoundFollows(h, r.msg, t, t + [r.msg] + ToolReplies(h, r.msg.calls));
    }
  }

  lemma TraceCons(h: Host, replies: seq<Reply>, t: seq<Message>, t': seq<Message>, tools: seq<string>,
                  all: seq<Request>, n: nat, round: nat, maxRounds: nat)
    requires n + 1 < |all| && Trace(h, replies, t', tools, all, n + 1, round + 1, maxRounds) && round < maxRounds
    requires all[n] == Request(t, Some(tools)) && Follows(h, ReplyAt(replies, n), t, t')
    ensures Trace(h, replies, t, tools, all, n, round, maxRounds)
  {}

  /** Answer k concludes a loop with this text: its own, or none if it submits a plan. */
  predicate Concludes(h: Host, replies: seq<Reply>, k: nat, text: string) {
    var r := ReplyAt(replies, k);
    r.Says? && if r.msg.calls == [] then text == r.msg.content else PlanOf(h, r.msg.calls).Some? && text == ""
  }

  /** The texts are, in order, conclusions among the answers from one request on and before another. */
  ghost predicate Concluded(h: Host, replies: seq<Reply>, from: nat, to: nat, texts: seq<string>)
    decreases |texts|
  {
    texts != [] ==>
      exists k: nat ::
        from <= k < to && Concludes(h, replies, k, texts[0]) && Concluded(h, replies, k + 1, to, texts[1..])
  }

  lemma ConcludedCons(h: Host, replies: seq<Reply>, from: nat, k: nat, to: nat, text: string, texts: seq<string>)
    requires from <= k < to && Concludes(h, replies, k, text) && Concluded(h, replies, k + 1, to, texts)
    ensures Concluded(h, replies, from, to, [text] + texts)
  {
    var all := [text] + texts;
    assert all[1..] == texts && Concludes(h, replies, k, all[0]);
  }

  /** The last request is the summary's: no tools, and the summary prompt last. */
  predicate SummaryAsked(h: Host, asked: seq<Request>) {
    && |asked| > 0 && asked[|asked| - 1].tools.None? && |asked[|asked| - 1].messages| > 0
    && asked[|asked| - 1].messages[|asked[|asked| - 1].messages| - 1] == Message(User, h.summaryPrompt, [], "")
  }

  /** From request from on, either no tools are offered or the three that look things up. */
  predicate OnlyLookups(asked: seq<Request>, from: nat) {
    forall k :: from <= k < |asked| ==>
      asked[k].tools in [None, Some(["list_md_files", "read_md_file", "search_md_files"])]
  }

  /** How the steps from i on come out, told from the answer r to the last request and from how many texts
      were sent: all were told and the summary answered or failed; the model failed, or kept calling tools,
      in step k; or the user could not be told of step k. */
  predicate ComesOut(h: Host, n: Notifier, o: Outcome, r: Reply, i: nat, told: int, total: nat) {
    match o.r
    case Ok(a) =>
      SummaryAsked(h, o.asked) && r.Says? && a.finalAnswer == r.msg.content && (n.Someone? ==> i + told == total)
    case Err(SummaryFailed) => SummaryAsked(h, o.asked) && r.CallFails? && (n.Someone? ==> i + told == total)
    case Err(StepFailed(k)) =>
      i <= k < total && (n.Someone? ==> i + told == k) && (r.CallFails? || r.msg.calls != [])
    case Err(NotifyFailed(k)) => i <= k < total && n.Someone? && i + told == k + 1 && !Accepts(n, k)
    case Err(DecisionFailed) => false
  }

  lemma {:induction false} StepsComeOut(h: Host, replies: seq<Reply>, n: Notifier, t: seq<Message>, steps: seq<string>,
      i: nat, truncated: bool, asked: seq<Request>, sent: seq<string>, maxRounds: nat, o: Outcome)
    requires i <= |steps| && o == Steps(h, replies, n, t, steps, i, truncated, asked, sent, maxRounds)
    ensures asked < o.asked && sent <= o.sent && (n.Nobody? ==> o.sent == sent)
    ensures ComesOut(h, n, o, ReplyAt(replies, |o.asked| - 1), i, |o.sent| - |sent|, |steps|)
    ensures Concluded(h, replies, |asked|, |o.asked|, o.sent[|sent|..]) && OnlyLookups(o.asked, |asked|)
    decreases |steps| - i
  {
    if i == |steps| {
      assert o.sent[|sent|..] == [];
    } else {
      var prompted := t + [UserMessage(h.stepPrompt(i + 1, |steps|, steps[i]))];
      var l := Loop(h, replies, prompted, STEP_TOOLS, asked, 0, maxRounds);
      LoopTrace(h, replies, prompted, STEP_TOOLS, asked, 0, maxRounds, l);
      assert OnlyLookups(l.asked, |asked|);
      if l.end.ModelFailed? || l.end.TooManyRounds? {
        assert o.sent[|sent|..] == [];
      } else {
        StepComesOut(h, replies, n, l, steps, i, truncated, asked, sent, maxRounds, o);
      }
    }
  }

  lemma StepComesOut(h: Host, replies: seq<Reply>, n: Notifier, l: Looped, steps: seq<string>,
      i: nat, truncated: bool, asked: seq<Request>, sent: seq<string>, maxRounds: nat, o: Outcome)
    requires i < |steps| && asked < l.asked && OnlyLookups(l.asked, |asked|) && (l.end.Text? || l.end.Plan?)
    requires Ends(h, ReplyAt(replies, |l.asked| - 1), l.asked[|l.asked| - 1].messages, l,
                  maxRounds + 1 - (|l.asked| - |asked|))
    requires var text := TextOf(l.end);
             var sent' := if n.Nobody? then sent else sent + [text];
             o == if !Accepts(n, i) then Outcome(Err(NotifyFailed(i)), l.asked, sent')
                  else Steps(h, replies, n, l.transcript + [AssistantMessage(text)], steps, i + 1, truncated, l.asked,
                             sent', maxRounds)
    ensures asked < o.asked && sent <= o.sent && (n.Nobody? ==> o.sent == sent)
    ensures ComesOut(h, n, o, ReplyAt(replies, |o.asked| - 1), i, |o.sent| - |sent|, |steps|)
    ensures Concluded(h, replies, |asked|, |o.asked|, o.sent[|sent|..]) && OnlyLookups(o.asked, |asked|)
    decreases |steps| - i, 0
  {
    var text := TextOf(l.end);
    var sent' := if n.Nobody? then sent else sent + [text];
    assert Concludes(h, replies, |l.asked| - 1, text);
    if !Accepts(n, i) {
      assert o.sent[|sent'|..] == [] && o.asked == l.asked;
    } else {
      StepsComeOut(h, replies, n, l.transcript + [AssistantMessage(text)], steps, i + 1, truncated, l.asked, sent',
                   maxRounds, o);
      LookupsJoin(l.asked, |asked|, o.asked);
    }
    OneMoreConcluded(h, replies, n, asked, l.asked, sent, text, sent', o);
  }

  lemma OneMoreConcluded(h: Host, replies: seq<Reply>, n: Notifier, asked: seq<Request>, asked': seq<Request>,
                         sent: seq<string>, text: string, sent': seq<string>, o: Outcome)
    requires asked < asked' <= o.asked && Concludes(h, replies, |asked'| - 1, text)
    requires sent' == (if n.Nobody? then sent else sent + [text]) && sent' <= o.sent && (n.Nobody? ==> o.sent == sent)
    requires Concluded(h, replies, |asked'|, |o.asked|, o.sent[|sent'|..])
    ensures Concluded(h, replies, |asked|, |o.asked|, o.sent[|sent|..])
  {
    if n.Someone? {
      assert o.sent[|sent|..] == [text] + o.sent[|sent'|..] by { assert (sent + [text])[|sent|] == o.sent[|sent|]; }
      ConcludedCons(h, replies, |asked|, |asked'| - 1, |o.asked|, text, o.sent[|sent'|..]);
    } else {
      assert o.sent[|sent|..] == [];
    }
  }

  lemma LookupsJoin(some: seq<Request>, from: nat, all: seq<Request>)
    requires some <= all && OnlyLookups(some, from) && OnlyLookups(all, |some|)
    ensures OnlyLookups(all, from)
  {
    assert forall k :: 0 <= k < |some| ==> all[k] == some[k];
  }

  /** Every run, told from the requests, the model's answers and the texts sent alone. It begins with the
      system's and the user's message; a direct answer is the text of the last answer; a run whose decision
      fails has told nobody anything; and what is sent in steps, in order, is what the model concluded. */
  lemma RunComesOut(h: Host, replies: seq<Reply>, n: Notifier, system: string, user: string,
                    maxPlanSteps: nat, maxRounds: nat, o: Outcome)
    requires o == Outcomes(h, replies, n, system, user, maxPlanSteps, maxRounds)
    ensures |o.asked| > 0 && o.asked[0].messages == [Message(System, system, [], ""), Message(User, user, [], "")]
    ensures o.asked[0].tools == if maxRounds == 0 then None
                                else Some(["list_md_files", "read_md_file", "search_md_files", "submit_plan"])
    ensures var r := ReplyAt(replies, |o.asked| - 1);
            match o.r
            case Err(DecisionFailed) => o.sent == [] && (r.CallFails? || r.msg.calls != [])
            case Ok(Answer(text, true, executed, cut)) =>
              o.sent == [] && executed == 0 && !cut && r.Says? && r.msg.calls == [] && text == r.msg.content
            case _ => exists total: nat :: total <= maxPlanSteps && ComesOut(h, n, o, r, 0, |o.sent|, total)
    ensures Concluded(h, replies, 0, |o.asked|, o.sent)
  {
    var l := Loop(h, replies, Start(system, user), DECISION_TOOLS, [], 0, maxRounds);
    LoopTrace(h, replies, Start(system, user), DECISION_TOOLS, [], 0, maxRounds, l);
    if l.end.Plan? {
      var kept := Kept(l.end.steps, maxPlanSteps);
      StepsComeOut(h, replies, n, l.transcript, kept, 0, |l.end.steps| > maxPlanSteps, l.asked, [], maxRounds, o);
      NeverDirect(h, replies, n, l.transcript, kept, 0, |l.end.steps| > maxPlanSteps, l.asked, [], maxRounds);
      assert o.sent[0..] == o.sent;
      ConcludedEarlier(h, replies, 0, |l.asked|, |o.asked|, o.sent);
      assert |kept| <= maxPlanSteps && ComesOut(h, n, o, ReplyAt(replies, |o.asked| - 1), 0, |o.sent|, |kept|);
    }
  }

  lemma ConcludedEarlier(h: Host, replies: seq<Reply>, from: nat, later: nat, to: nat, texts: seq<string>)
    requires from <= later && Concluded(h, replies, later, to, texts)
    ensures Concluded(h, replies, from, to, texts)
  {
    if texts != [] {
      var k: nat :| later <= k < to && Concludes(h, replies, k, texts[0]) &&
                    Concluded(h, replies, k + 1, to, texts[1..]);
      assert Concludes(h, replies, k, texts[0]);
    }
  }
}
