/**
 * The chat orchestration of chatbot.py: blocklist gate, message construction, tool-argument
 * extraction and the two-phase tool-calling protocol with its repair and no-tool fallback.
 * `search_books` and both chat completions are oracles; every external call the pipeline
 * makes is recorded as a `Step`, so "nothing was called" is a statement about the trace.
 */
module Chatbot {
  import opened Wrappers
  import opened Text
  import SummaryTool

  const Blocklist: seq<string> := ["idiot", "prost", "ură", "urăsc", "urât", "dispreț", "fuck", "shit"]

  const Apology: string :=
    "Aș vrea să păstrăm conversația respectuoasă 😊. Reformulează te rog întrebarea fără termeni ofensatori și te ajut imediat."

  const SystemPrompt: string :=
    "Ești Smart Librarian, un asistent de recomandări de cărți. Folosește contextul RAG pentru a alege un titlu relevant. După ce alegi TITLUL FINAL, apelează funcția (tool) get_summary_by_title cu exact acel titlu. Apoi îmbină răspunsul într-un mesaj final, concis (4–6 fraze) + o secțiune '📖 Rezumat detaliat' cu textul primit din tool. Nu inventa titluri inexistente."

  const CandidatePrefix: string := "RAG_CANDIDATE_TITLE="
  const ToolName: string := "get_summary_by_title"
  /** The section heading the final answer must carry. */
  const Marker: string := "📖 Rezumat detaliat"
  const RecommendPrefix: string := "Îți recomand: **"
  const RepairSeparator: string := "\n\n📖 Rezumat detaliat:\n"
  const FallbackSeparator: string := "**.\n\n📖 Rezumat detaliat:\n"
  const DefaultRepairTitle: string := "cartea recomandată"
  const DefaultFallbackTitle: string := "o carte potrivită intereselor tale"

  /** A tool call's JSON `arguments`, as `json.loads` sees them: absent or empty (read as
      `"{}"`), not JSON, JSON but not an object, or an object whose "title" is given or not. */
  datatype Args = NoArguments | Unparsable | NotAnObject | Object(title: Option<string>)

  datatype ToolCall = ToolCall(id: string, name: string, arguments: Args)

  datatype Message =
    | System(content: string)
    | User(content: string)
    | Assistant(content: string, toolCalls: seq<ToolCall>)
    | Tool(callId: string, name: string, content: string)

  /** What the first completion answers: its text (maybe None) and its tool calls (None read as none). */
  datatype Reply = Reply(content: Option<string>, toolCalls: seq<ToolCall>)

  /** An external call made while answering. */
  datatype Step = Retrieve(query: string) | Complete(messages: seq<Message>) | LookUp(title: string)

  datatype ChatRun = ChatRun(answer: string, steps: seq<Step>)

  /** The outcome of the tool loop: the tool messages appended and the title each lookup used. */
  datatype ToolRun = ToolRun(messages: seq<Message>, titles: seq<string>)

  /** `is_offensive(text)`. */
  predicate IsOffensive(text: string) {
    exists i :: 0 <= i < |Blocklist| && Contains(Lower(text), Blocklist[i])
  }

  /** `build_messages(user_query, candidate_title)`. */
  function BuildMessages(userQuery: string, candidate: Option<string>): (ms: seq<Message>)
    ensures |ms| == 3
    ensures ms[0] == System(SystemPrompt)
    ensures ms[1] == System(CandidatePrefix + OrElse(candidate, "None"))
    ensures ms[2] == User(Strip(userQuery)) && NoEdgeSpace(ms[2].content)
  {
    [System(SystemPrompt), System(CandidatePrefix + OrElse(candidate, "None")), User(Strip(userQuery))]
  }

  /** `_extract_tool_title(tool_call)`: the "title" of a JSON object argument, else None. */
  function ExtractToolTitle(args: Args): (t: Option<string>)
    ensures args.Object? ==> t == args.title
    ensures !args.Object? ==> t.None?
  {
    match args
    case Object(title) => title
    case _ => None
  }

  /** The title a `get_summary_by_title` call is made with: its own argument, else the
      retrieval candidate, else "". */
  function LookupTitle(call: ToolCall, candidate: Option<string>): string {
    OrElse(ExtractToolTitle(call.arguments), OrElse(candidate, ""))
  }

  /** The `get_summary_by_title` calls among `calls`, in order; other tools are ignored. */
  function SummaryCalls(calls: seq<ToolCall>): (r: seq<ToolCall>)
    ensures forall k :: 0 <= k < |r| ==> r[k].name == ToolName && r[k] in calls
    ensures forall c :: c in calls && c.name == ToolName ==> c in r
  {
    if calls == [] then []
    else if calls[0].name == ToolName then [calls[0]] + SummaryCalls(calls[1..])
    else SummaryCalls(calls[1..])
  }

  /** The summary calls of a concatenation are those of each part, in order: the filter
      keeps the calls' order and multiplicity. */
  lemma {:induction false} SummaryCallsAppend(a: seq<ToolCall>, b: seq<ToolCall>)
    ensures SummaryCalls(a + b) == SummaryCalls(a) + SummaryCalls(b)
  {
    if a != [] {
      assert (a + b)[1..] == a[1..] + b;
      SummaryCallsAppend(a[1..], b);
    } else {
      assert a + b == b;
    }
  }

  /** One call is kept exactly when it names `get_summary_by_title`. */
  lemma SummaryCallsOne(c: ToolCall)
    ensures SummaryCalls([c]) == (if c.name == ToolName then [c] else [])
  {
    assert [c][1..] == [];
  }

  /** The tool the model may call: `get_summary_by_title` over the catalog. */
  function SummaryOf(catalog: SummaryTool.Catalog): string -> string {
    t => SummaryTool.GetSummaryByTitle(catalog, t)
  }

  /** The tool loop of `chat`: one tool message per `get_summary_by_title` call, holding the
      tool's answer `summary(t)` for the title `t` that call is made with. */
  function RunTools(calls: seq<ToolCall>, candidate: Option<string>, summary: string -> string): (run: ToolRun)
    ensures var sc := SummaryCalls(calls);
      && |run.titles| == |sc| && |run.messages| == |sc|
      && forall k :: 0 <= k < |sc| ==>
           && run.titles[k] == LookupTitle(sc[k], candidate)
           && run.messages[k] == Tool(sc[k].id, ToolName, summary(run.titles[k]))
  {
    if calls == [] then ToolRun([], [])
    else
      var rest := RunTools(calls[1..], candidate, summary);
      if calls[0].name == ToolName then
        var t := LookupTitle(calls[0], candidate);
        assert SummaryCalls(calls) == [calls[0]] + SummaryCalls(calls[1..]);
        ToolRun([Tool(calls[0].id, ToolName, summary(t))] + rest.messages, [t] + rest.titles)
      else rest
  }

  /** The conversation sent to the second model call: the opening messages, the first reply
      echoed back as an assistant message, then the tool messages of the tool loop. */
  function SecondRequest(messages: seq<Message>, reply: Reply, run: ToolRun): seq<Message> {
    messages + [Assistant(reply.content.GetOr(""), reply.toolCalls)] + run.messages
  }

  /** The second request keeps the opening messages, echoes the first reply, and then holds one
      tool message per summary call, in order, with the summary of the title that call used. */
  lemma SecondRequestShape(messages: seq<Message>, candidate: Option<string>, reply: Reply,
                           catalog: SummaryTool.Catalog)
    ensures var full := SecondRequest(messages, reply, RunTools(reply.toolCalls, candidate, SummaryOf(catalog)));
      var sc := SummaryCalls(reply.toolCalls);
      && |full| == |messages| + 1 + |sc|
      && full[..|messages|] == messages
      && full[|messages|] == Assistant(reply.content.GetOr(""), reply.toolCalls)
      && forall k :: 0 <= k < |sc| ==>
           full[|messages| + 1 + k] == Tool(sc[k].id, ToolName, SummaryOf(catalog)(LookupTitle(sc[k], candidate)))
  {
    var run := RunTools(reply.toolCalls, candidate, SummaryOf(catalog));
    var full := SecondRequest(messages, reply, run);
    assert forall k :: 0 <= k < |run.messages| ==> full[|messages| + 1 + k] == run.messages[k];
  }

  /** The safety net for a second answer without the section heading. */
  function Repair(content: Option<string>, bookTitle: string, toolText: string): string {
    RecommendPrefix + bookTitle + "**.\n\n" + content.GetOr("") + RepairSeparator + toolText
  }

  /** The answer synthesised when the model called no tool. */
  function Fallback(candidate: Option<string>, catalog: SummaryTool.Catalog): string {
    FallbackTemplate(OrElse(candidate, DefaultFallbackTitle), SummaryTool.GetSummaryByTitle(catalog, OrElse(candidate, "")))
  }

  function FallbackTemplate(title: string, summary: string): string {
    RecommendPrefix + title + FallbackSeparator + summary
  }

  function LookUps(titles: seq<string>): (steps: seq<Step>)
    ensures |steps| == |titles|
    ensures forall k :: 0 <= k < |titles| ==> steps[k] == LookUp(titles[k])
  {
    seq(|titles|, k requires 0 <= k < |titles| => LookUp(titles[k]))
  }

  /** The lookup steps keep their order between the steps around them. */
  lemma LookUpsWithin(head: seq<Step>, titles: seq<string>, tail: seq<Step>)
    ensures forall k :: 0 <= k < |titles| ==> (head + LookUps(titles) + tail)[|head| + k] == LookUp(titles[k])
  {
  }

  /** `chat(user_query, collection)`. */
  function Chat(
    userQuery: string,
    searchBooks: string -> Option<string>,
    firstCompletion: seq<Message> -> Reply,
    secondCompletion: seq<Message> -> Option<string>,
    catalog: SummaryTool.Catalog): ChatRun
  {
    if IsOffensive(userQuery) then ChatRun(Apology, [])
    else
      var candidate := searchBooks(userQuery);
      Respond(userQuery, BuildMessages(userQuery, candidate), candidate, firstCompletion, secondCompletion, catalog)
  }

  /** What `chat` does past the gate, once retrieval proposed `candidate` and the opening
      `messages` are built. */
  function Respond(
    userQuery: string,
    messages: seq<Message>,
    candidate: Option<string>,
    firstCompletion: seq<Message> -> Reply,
    secondCompletion: seq<Message> -> Option<string>,
    catalog: SummaryTool.Catalog): ChatRun
  {
      var reply := firstCompletion(messages);
      var run := RunTools(reply.toolCalls, candidate, SummaryOf(catalog));
      if run.titles != [] then
        var full := SecondRequest(messages, reply, run);
        var content := secondCompletion(full);
        var steps := [Retrieve(userQuery), Complete(messages)] + LookUps(run.titles) + [Complete(full)];
        if !Contains(content.GetOr(""), Marker) then
          var toolText := run.messages[|run.messages| - 1].content;
          var bookTitle := OrElse(Some(run.titles[|run.titles| - 1]), OrElse(candidate, DefaultRepairTitle));
          ChatRun(Repair(content, bookTitle, toolText), steps)
        else
          ChatRun(content.value, steps)
      else
        ChatRun(Fallback(candidate, catalog), [Retrieve(userQuery), Complete(messages), LookUp(OrElse(candidate, ""))])
  }

  // ------------------------------------------------------------------ properties

  /** The gate: an offensive query gets the fixed apology and no retrieval, lookup or model call. */
  lemma OffensiveShortCircuits(q: string, sb: string -> Option<string>, f1: seq<Message> -> Reply,
                               f2: seq<Message> -> Option<string>, catalog: SummaryTool.Catalog)
    requires IsOffensive(q)
    ensures Chat(q, sb, f1, f2, catalog) == ChatRun(Apology, [])
  {
  }

  /** The gate compares the lower-cased text, so lower-casing a query first changes nothing. */
  lemma OffensiveIgnoresCase(q: string)
    ensures IsOffensive(Lower(q)) <==> IsOffensive(q)
  {
    assert Lower(Lower(q)) == Lower(q);
  }

  /** Offence is a substring test: text around an offensive query never clears it. */
  lemma OffensiveInContext(a: string, q: string, b: string)
    requires IsOffensive(q)
    ensures IsOffensive(a + q + b)
  {
    var i :| 0 <= i < |Blocklist| && Contains(Lower(q), Blocklist[i]);
    var w := Blocklist[i];
    LowerWithin(a, q, b);
    ContainsWithin(Lower(a), Lower(q), Lower(b), w);
    assert Contains(Lower(a + q + b), w);
  }

  /** "te urăsc, ești prost" is offensive through "urăsc" at position 3. */
  lemma OffensiveExample()
    ensures IsOffensive("te urăsc, ești prost")
  {
    var q := "te urăsc, ești prost";
    assert Lower(q)[3..8] == "urăsc" == Blocklist[3];
    ContainsAt(Lower(q), Blocklist[3], 3);
  }

  /** The repair template carries the heading and the tool text verbatim. */
  lemma RepairCarries(content: Option<string>, t: string, toolText: string)
    ensures Contains(Repair(content, t, toolText), Marker)
    ensures Contains(Repair(content, t, toolText), toolText)
  {
    var pre := RecommendPrefix + t + "**.\n\n" + content.GetOr("");
    assert RepairSeparator == "\n\n" + Marker + ":\n";
    assert Repair(content, t, toolText) == (pre + "\n\n") + Marker + (":\n" + toolText);
    ContainsMiddle(pre + "\n\n", Marker, ":\n" + toolText);
    assert Repair(content, t, toolText) == (pre + RepairSeparator) + toolText + "";
    ContainsMiddle(pre + RepairSeparator, toolText, "");
  }

  /** The fallback template carries the heading and the summary verbatim. */
  lemma FallbackCarries(title: string, summary: string)
    ensures Contains(FallbackTemplate(title, summary), Marker)
    ensures Contains(FallbackTemplate(title, summary), summary)
  {
    assert FallbackSeparator == "**.\n\n" + Marker + ":\n";
    assert FallbackTemplate(title, summary) == (RecommendPrefix + title + "**.\n\n") + Marker + (":\n" + summary);
    ContainsMiddle(RecommendPrefix + title + "**.\n\n", Marker, ":\n" + summary);
    assert FallbackTemplate(title, summary) == (RecommendPrefix + title + FallbackSeparator) + summary + "";
    ContainsMiddle(RecommendPrefix + title + FallbackSeparator, summary, "");
  }

  /** The tool path: when the model asked for at least one summary, each lookup used that
      call's own title argument (else the candidate, else ""), and the model was called
      exactly twice: once with the built messages, once after the lookups. */
  lemma ToolPath(q: string, sb: string -> Option<string>, f1: seq<Message> -> Reply,
                 f2: seq<Message> -> Option<string>, catalog: SummaryTool.Catalog)
    requires !IsOffensive(q)
    requires SummaryCalls(f1(BuildMessages(q, sb(q))).toolCalls) != []
    ensures var run := Chat(q, sb, f1, f2, catalog);
      var candidate := sb(q);
      var sc := SummaryCalls(f1(BuildMessages(q, candidate)).toolCalls);
      && |run.steps| == |sc| + 3
      && run.steps[0] == Retrieve(q)
      && run.steps[1] == Complete(BuildMessages(q, candidate))
      && (forall k :: 0 <= k < |sc| ==> run.steps[k + 2] == LookUp(LookupTitle(sc[k], candidate)))
      && var full := SecondRequest(BuildMessages(q, candidate), f1(BuildMessages(q, candidate)), RunTools(f1(BuildMessages(q, candidate)).toolCalls, candidate, SummaryOf(catalog)));
      && run.steps[|run.steps| - 1] == Complete(full)
      && (Contains(f2(full).GetOr(""), Marker) ==> run.answer == f2(full).GetOr(""))
  {
    RespondSteps(q, BuildMessages(q, sb(q)), sb(q), f1, f2, catalog);
    RespondLastStep(q, BuildMessages(q, sb(q)), sb(q), f1, f2, catalog);
    RespondKeepsAnswer(q, BuildMessages(q, sb(q)), sb(q), f1, f2, catalog);
  }

  /** The steps of the tool path past the gate. */
  lemma RespondSteps(q: string, messages: seq<Message>, candidate: Option<string>, f1: seq<Message> -> Reply,
                     f2: seq<Message> -> Option<string>, catalog: SummaryTool.Catalog)
    requires SummaryCalls(f1(messages).toolCalls) != []
    ensures var run := Respond(q, messages, candidate, f1, f2, catalog);
      var sc := SummaryCalls(f1(messages).toolCalls);
      && |run.steps| == |sc| + 3
      && run.steps[0] == Retrieve(q)
      && run.steps[1] == Complete(messages)
      && run.steps[|run.steps| - 1].Complete?
      && (forall k :: 0 <= k < |sc| ==> run.steps[k + 2] == LookUp(LookupTitle(sc[k], candidate)))
  {
    var reply := f1(messages);
    var run := RunTools(reply.toolCalls, candidate, SummaryOf(catalog));
    var full := SecondRequest(messages, reply, run);
    var head := [Retrieve(q), Complete(messages)];
    var steps := Respond(q, messages, candidate, f1, f2, catalog).steps;
    assert run.titles != [];
    assert steps == head + LookUps(run.titles) + [Complete(full)];
    LookUpsWithin(head, run.titles, [Complete(full)]);
    forall k | 0 <= k < |run.titles| ensures steps[k + 2] == LookUp(run.titles[k]) {
      assert steps[|head| + k] == LookUp(run.titles[k]);
    }
  }

  /** The last call of the tool branch is the second model call on the second request. */
  lemma RespondLastStep(q: string, messages: seq<Message>, candidate: Option<string>, f1: seq<Message> -> Reply,
                        f2: seq<Message> -> Option<string>, catalog: SummaryTool.Catalog)
    requires SummaryCalls(f1(messages).toolCalls) != []
    ensures var steps := Respond(q, messages, candidate, f1, f2, catalog).steps;
      var full := SecondRequest(messages, f1(messages), RunTools(f1(messages).toolCalls, candidate, SummaryOf(catalog)));
      steps != [] && steps[|steps| - 1] == Complete(full)
  {
    ToolBranchSteps(q, messages, candidate, f1, f2, catalog);
  }

  /** The call sequence of the tool branch, as one sequence. */
  lemma ToolBranchSteps(q: string, messages: seq<Message>, candidate: Option<string>, f1: seq<Message> -> Reply,
                        f2: seq<Message> -> Option<string>, catalog: SummaryTool.Catalog)
    requires SummaryCalls(f1(messages).toolCalls) != []
    ensures var run := RunTools(f1(messages).toolCalls, candidate, SummaryOf(catalog));
      Respond(q, messages, candidate, f1, f2, catalog).steps
        == [Retrieve(q), Complete(messages)] + LookUps(run.titles) + [Complete(SecondRequest(messages, f1(messages), run))]
  {
    var run := RunTools(f1(messages).toolCalls, candidate, SummaryOf(catalog));
    assert run.titles != [];
  }

  /** On the tool path a second answer that already has the heading is returned verbatim. */
  lemma RespondKeepsAnswer(q: string, messages: seq<Message>, candidate: Option<string>, f1: seq<Message> -> Reply,
                           f2: seq<Message> -> Option<string>, catalog: SummaryTool.Catalog)
    requires SummaryCalls(f1(messages).toolCalls) != []
    ensures var content := f2(SecondRequest(messages, f1(messages), RunTools(f1(messages).toolCalls, candidate, SummaryOf(catalog)))).GetOr("");
      Contains(content, Marker) ==> Respond(q, messages, candidate, f1, f2, catalog).answer == content
  {
    var run := RunTools(f1(messages).toolCalls, candidate, SummaryOf(catalog));
    assert run.titles != [];
  }

  /** On the tool path the answer always carries the summary heading: either the second
      answer had it, or the repair template adds it. */
  lemma ToolPathMarker(q: string, sb: string -> Option<string>, f1: seq<Message> -> Reply,
                       f2: seq<Message> -> Option<string>, catalog: SummaryTool.Catalog)
    requires !IsOffensive(q)
    requires SummaryCalls(f1(BuildMessages(q, sb(q))).toolCalls) != []
    ensures Contains(Chat(q, sb, f1, f2, catalog).answer, Marker)
  {
    var candidate := sb(q);
    var messages := BuildMessages(q, candidate);
    var reply := f1(messages);
    var run := RunTools(reply.toolCalls, candidate, SummaryOf(catalog));
    var content := f2(SecondRequest(messages, reply, run));
    if !Contains(content.GetOr(""), Marker) {
      var toolText := run.messages[|run.messages| - 1].content;
      var bookTitle := OrElse(Some(run.titles[|run.titles| - 1]), OrElse(candidate, DefaultRepairTitle));
      RepairCarries(content, bookTitle, toolText);
    }
  }

  /** The repair branch: a second answer without the heading becomes the templated answer,
      which holds the last looked-up summary verbatim. */
  lemma RepairKeepsSummary(q: string, sb: string -> Option<string>, f1: seq<Message> -> Reply,
                           f2: seq<Message> -> Option<string>, catalog: SummaryTool.Catalog)
    requires !IsOffensive(q)
    requires SummaryCalls(f1(BuildMessages(q, sb(q))).toolCalls) != []
    requires var messages := BuildMessages(q, sb(q));
      !Contains(f2(SecondRequest(messages, f1(messages), RunTools(f1(messages).toolCalls, sb(q), SummaryOf(catalog)))).GetOr(""), Marker)
    ensures var candidate := sb(q);
      var messages := BuildMessages(q, candidate);
      var reply := f1(messages);
      var run := RunTools(reply.toolCalls, candidate, SummaryOf(catalog));
      var content := f2(SecondRequest(messages, reply, run));
      var last := run.titles[|run.titles| - 1];
      var summary := SummaryTool.GetSummaryByTitle(catalog, last);
      && Chat(q, sb, f1, f2, catalog).answer
           == Repair(content, OrElse(Some(last), OrElse(candidate, DefaultRepairTitle)), summary)
      && Contains(Chat(q, sb, f1, f2, catalog).answer, summary)
  {
    var candidate := sb(q);
    var messages := BuildMessages(q, candidate);
    var reply := f1(messages);
    var run := RunTools(reply.toolCalls, candidate, SummaryOf(catalog));
    var content := f2(SecondRequest(messages, reply, run));
    var last := run.titles[|run.titles| - 1];
    RepairCarries(content, OrElse(Some(last), OrElse(candidate, DefaultRepairTitle)),
                  SummaryTool.GetSummaryByTitle(catalog, last));
  }

  /** The no-tool fallback: one model call, one lookup of the candidate (or ""), and the
      templated answer that carries the heading and that summary verbatim. */
  lemma NoToolFallback(q: string, sb: string -> Option<string>, f1: seq<Message> -> Reply,
                       f2: seq<Message> -> Option<string>, catalog: SummaryTool.Catalog)
    requires !IsOffensive(q)
    requires SummaryCalls(f1(BuildMessages(q, sb(q))).toolCalls) == []
    ensures var run := Chat(q, sb, f1, f2, catalog);
      && run.answer == Fallback(sb(q), catalog)
      && run.steps == [Retrieve(q), Complete(BuildMessages(q, sb(q))), LookUp(OrElse(sb(q), ""))]
      && Contains(run.answer, Marker)
      && Contains(run.answer, SummaryTool.GetSummaryByTitle(catalog, OrElse(sb(q), "")))
  {
    FallbackCarries(OrElse(sb(q), DefaultFallbackTitle), SummaryTool.GetSummaryByTitle(catalog, OrElse(sb(q), "")));
  }

  /** The tool's own title argument is what gets looked up, not the retrieval candidate:
      a call asking for "Dune" while the candidate is "1984" looks up "Dune". */
  lemma ToolArgumentWins(id: string)
    ensures LookupTitle(ToolCall(id, ToolName, Object(Some("Dune"))), Some("1984")) == "Dune"
    ensures LookupTitle(ToolCall(id, ToolName, Object(None)), Some("1984")) == "1984"
    ensures LookupTitle(ToolCall(id, ToolName, Unparsable), None) == ""
  {
  }
}
