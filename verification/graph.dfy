/** The query-orchestration graph built by `build_graph`
    (generation/services/build_graph.py): five fail-soft nodes over a shared
    conversation state, a fixed edge table with one conditional edge, and an
    interpreter that runs the table from the entry node to END. The language
    model and the retriever are oracles returning a value or an error text. */
module Graph {
  import opened Wrappers
  import opened Text
  import Ranking

  type Doc = Ranking.Doc

  datatype Role = User | Assistant

  datatype Message = Message(role: Role, content: string)

  datatype Route = DirectAnswerRoute | LegalSearchRoute

  /** The conversation state. `route`, `refinedQuery` and `error` are absent
      until a node sets them; an absent `query` reads as "". */
  datatype State = State(
    messages: seq<Message>,
    query: string,
    refinedQuery: Option<string>,
    route: Option<Route>,
    topDocs: seq<Doc>,
    error: Option<string>)

  /** The language model: a prompt in, the reply text or the exception text out. */
  type Llm = string -> Outcome<string>

  /** `retrieve_relevant_laws(query, n_resources_to_return)`. */
  type Retriever = (string, int) -> Outcome<seq<Doc>>

  /** How many passages the search node asks for. */
  const SearchDocCount: int := 3

  const LegalKeyword: string := "legal"

  /** `str(e)` of the `IndexError` raised by `state["messages"][-1]` on an empty list. */
  const EmptyMessagesErrorText: string := "list index out of range"

  const NotFoundReply: string :=
    "Tôi không tìm thấy thông tin liên quan để trả lời câu hỏi của bạn. Vui lòng thử lại với câu hỏi khác."
  const DirectErrorPrefix: string := "Tôi gặp lỗi: "
  const AnswerErrorPrefix: string := "Xin lỗi, tôi gặp lỗi khi xử lý câu trả lời: "
  const RefsPrefix: string := "\n\n*Tham khảo: Trang "
  const RefsSuffix: string := " của Luật Bảo vệ dữ liệu cá nhân.*"

  // ---------------------------------------------------------------------------
  // Prompts: the instruction prose is an opaque tag; the holes are modelled
  // ---------------------------------------------------------------------------

  /** Forced choice "legal" or "general" about the question. */
  const ClassifyLead: string := "<classify>"
  const ClassifyTail: string := "</classify>"
  /** Answer from general knowledge, briefly. */
  const DirectLead: string := "<direct>"
  const DirectTail: string := "</direct>"
  /** Rewrite into a precise legal search query (rules, two examples). */
  const RefineLead: string := "<refine>"
  const RefineTail: string := "</refine>"
  /** Legal assistant answering from the excerpts; then the question; then
      criteria 1-5, the fifth asking to add the citation text. */
  const GroundedLead: string := "<excerpts>"
  const GroundedMid: string := "<question>"
  const GroundedInstr: string := "<criteria>"
  const GroundedTail: string := "</criteria>"

  function ClassifyPrompt(query: string): (p: string)
    ensures Contains(p, query)
  {
    ContainsInfix(ClassifyLead, query, ClassifyTail);
    ClassifyLead + query + ClassifyTail
  }

  function DirectPrompt(query: string): (p: string)
    ensures Contains(p, query)
  {
    ContainsInfix(DirectLead, query, DirectTail);
    DirectLead + query + DirectTail
  }

  function RefinePrompt(query: string): (p: string)
    ensures Contains(p, query)
  {
    ContainsInfix(RefineLead, query, RefineTail);
    RefineLead + query + RefineTail
  }

  /** The answer prompt: the passages, the question, and (in instruction 5)
      the citation text the model is told to add. */
  function GroundedPrompt(context: string, query: string, refs: string): (p: string)
    ensures Contains(p, context) && Contains(p, query) && Contains(p, refs)
  {
    var p := GroundedLead + context + GroundedMid + query + GroundedInstr + refs + GroundedTail;
    ContainsInfix(GroundedLead, context, GroundedMid + query + GroundedInstr + refs + GroundedTail);
    assert GroundedLead + context + (GroundedMid + query + GroundedInstr + refs + GroundedTail) == p;
    ContainsInfix(GroundedLead + context + GroundedMid, query, GroundedInstr + refs + GroundedTail);
    assert GroundedLead + context + GroundedMid + query + (GroundedInstr + refs + GroundedTail) == p;
    ContainsInfix(GroundedLead + context + GroundedMid + query + GroundedInstr, refs, GroundedTail);
    p
  }

  // ---------------------------------------------------------------------------
  // user_input: classification
  // ---------------------------------------------------------------------------

  /** The route read off the model's reply: lower-cased, stripped, then
      searched for "legal". */
  function ClassifyReply(reply: string): (r: Route)
    ensures r == LegalSearchRoute <==> Contains(Lower(reply), LegalKeyword)
  {
    assert !IsSpace(LegalKeyword[0]) && !IsSpace(LegalKeyword[|LegalKeyword| - 1]);
    StripKeepsContains(Lower(reply), LegalKeyword);
    if Contains(Strip(Lower(reply)), LegalKeyword) then LegalSearchRoute else DirectAnswerRoute
  }

  /** The route is `legal_search` exactly when "legal" occurs anywhere in the
      lower-cased reply: stripping never matters, and "illegal" counts. */
  lemma RouteIsLegalIffKeywordOccurs(reply: string)
    ensures ClassifyReply(reply) == LegalSearchRoute <==> exists i :: OccursAt(Lower(reply), LegalKeyword, i)
  {
    ContainsIffOccurs(Lower(reply), LegalKeyword);
  }

  /** "Illegal" is routed to the search: the keyword test is a substring test. */
  lemma IllegalIsLegal()
    ensures ClassifyReply("Illegal") == LegalSearchRoute
  {
    var lo := Lower("Illegal");
    assert lo[2..7] == LegalKeyword;
    assert OccursAt(lo, LegalKeyword, 2);
    RouteIsLegalIffKeywordOccurs("Illegal");
  }

  /** "General" is answered directly. */
  lemma GeneralIsDirect()
    ensures ClassifyReply("General") == DirectAnswerRoute
  {
    var lo := Lower("General");
    assert lo[0] == 'g' && lo[1] == 'e' && lo[2] == 'n';
    forall i | 0 <= i <= 2 ensures !OccursAt(lo, LegalKeyword, i) {
      assert lo[i] != LegalKeyword[0];
    }
    RouteIsLegalIffKeywordOccurs("General");
  }

  /** The last message of the list, whatever its role (`messages[-1]`). */
  function LastContent(s: State): string
    requires |s.messages| > 0
  {
    s.messages[|s.messages| - 1].content
  }

  /** Classification succeeds: there is a last message and the model answered. */
  predicate Classified(s: State, llm: Llm) {
    |s.messages| > 0 && llm(ClassifyPrompt(LastContent(s))).Ok?
  }

  /** `user_input_node`. On success it sets the query from the last message and
      the route from the reply; on any failure (no message, model error) it
      clears the query, records the error and leaves the route untouched. */
  function UserInputNode(s: State, llm: Llm): (r: State)
    ensures r.messages == s.messages && r.refinedQuery == s.refinedQuery && r.topDocs == s.topDocs
    ensures Classified(s, llm) ==>
      && r.query == LastContent(s)
      && r.error == s.error
      && r.route.Some?
      && (r.route.value == LegalSearchRoute <==> Contains(Lower(llm(ClassifyPrompt(LastContent(s))).value), LegalKeyword))
    ensures !Classified(s, llm) ==> r.query == "" && r.route == s.route && r.error.Some?
    ensures |s.messages| == 0 ==> r.error == Some(EmptyMessagesErrorText)
    ensures |s.messages| > 0 && llm(ClassifyPrompt(LastContent(s))).Fail? ==>
      r.error == Some(llm(ClassifyPrompt(LastContent(s))).error)
  {
    if |s.messages| == 0 then s.(query := "", error := Some(EmptyMessagesErrorText))
    else
      var query := LastContent(s);
      match llm(ClassifyPrompt(query))
      case Fail(e) => s.(query := "", error := Some(e))
      case Ok(reply) =>
        s.(query := query, route := Some(ClassifyReply(reply)))
  }

  // ---------------------------------------------------------------------------
  // direct_answer
  // ---------------------------------------------------------------------------

  /** `direct_answer_node`: one assistant message, the model's answer or an
      apology carrying the error text. */
  function DirectAnswerNode(s: State, llm: Llm): (r: seq<Message>)
    ensures |r| == 1 && r[0].role == Assistant
    ensures llm(DirectPrompt(s.query)).Ok? ==> r[0].content == llm(DirectPrompt(s.query)).value
    ensures llm(DirectPrompt(s.query)).Fail? ==>
      IsPrefix(DirectErrorPrefix, r[0].content) && r[0].content[|DirectErrorPrefix|..] == llm(DirectPrompt(s.query)).error
  {
    match llm(DirectPrompt(s.query))
    case Ok(answer) => [Message(Assistant, answer)]
    case Fail(e) =>
      assert (DirectErrorPrefix + e)[..|DirectErrorPrefix|] == DirectErrorPrefix;
      [Message(Assistant, DirectErrorPrefix + e)]
  }

  // ---------------------------------------------------------------------------
  // refine_query
  // ---------------------------------------------------------------------------

  /** `refine_query_node`: sets the refined query to the model's rewrite, or on
      failure falls back to the query and records the error; nothing else
      changes. */
  function RefineQueryNode(s: State, llm: Llm): (r: State)
    ensures r.messages == s.messages && r.query == s.query && r.route == s.route && r.topDocs == s.topDocs
    ensures llm(RefinePrompt(s.query)).Ok? ==>
      r.refinedQuery == Some(llm(RefinePrompt(s.query)).value) && r.error == s.error
    ensures llm(RefinePrompt(s.query)).Fail? ==>
      r.refinedQuery == Some(s.query) && r.error == Some(llm(RefinePrompt(s.query)).error)
  {
    match llm(RefinePrompt(s.query))
    case Ok(refined) => s.(refinedQuery := Some(refined))
    case Fail(e) => s.(refinedQuery := Some(s.query), error := Some(e))
  }

  // ---------------------------------------------------------------------------
  // semantic_search
  // ---------------------------------------------------------------------------

  /** `state.get("refined_query") or state.get("query", "")`: the refined
      query unless it is absent or empty. */
  function SearchQuery(s: State): (q: string)
    ensures s.refinedQuery.Some? && s.refinedQuery.value != "" ==> q == s.refinedQuery.value
    ensures s.refinedQuery.None? || s.refinedQuery.value == "" ==> q == s.query
  {
    if s.refinedQuery.Some? && s.refinedQuery.value != "" then s.refinedQuery.value else s.query
  }

  /** `semantic_search_node`: on success stores the passages and overwrites the
      query with the one searched; on failure empties the passages, keeps the
      query and records the error. */
  function SemanticSearchNode(s: State, retrieve: Retriever): (r: State)
    ensures r.messages == s.messages && r.refinedQuery == s.refinedQuery && r.route == s.route
    ensures retrieve(SearchQuery(s), SearchDocCount).Ok? ==>
      && r.topDocs == retrieve(SearchQuery(s), SearchDocCount).value
      && r.query == SearchQuery(s)
      && r.error == s.error
    ensures retrieve(SearchQuery(s), SearchDocCount).Fail? ==>
      r.topDocs == [] && r.query == s.query && r.error == Some(retrieve(SearchQuery(s), SearchDocCount).error)
  {
    var query := SearchQuery(s);
    match retrieve(query, SearchDocCount)
    case Ok(docs) => s.(topDocs := docs, query := query)
    case Fail(e) => s.(topDocs := [], error := Some(e))
  }

  /** The search node consults the retriever once, with the search query and
      a request for three passages: two retrievers that agree on that one call
      give the same result. */
  lemma SearchAsksForThreeDocs(s: State, r1: Retriever, r2: Retriever)
    requires r1(SearchQuery(s), 3) == r2(SearchQuery(s), 3)
    ensures SemanticSearchNode(s, r1) == SemanticSearchNode(s, r2)
  {
  }

  // ---------------------------------------------------------------------------
  // generate_answer
  // ---------------------------------------------------------------------------

  /** `[str(doc["page_number"]) for doc in top_docs]`. */
  function PageRefs(docs: seq<Doc>): (r: seq<string>)
    ensures |r| == |docs|
    ensures forall i :: 0 <= i < |docs| ==> r[i] == IntToString(docs[i].pageNumber)
  {
    seq(|docs|, i requires 0 <= i < |docs| => IntToString(docs[i].pageNumber))
  }

  /** `sorted(set(page_refs))`: the page numbers as strings, each once, in
      string order (so "10" comes before "9"). */
  function CitedPages(docs: seq<Doc>): (r: seq<string>)
    ensures StrictlySorted(r)
    ensures forall x :: x in r <==> exists i :: 0 <= i < |docs| && x == IntToString(docs[i].pageNumber)
  {
    SortedSet(PageRefs(docs))
  }

  /** The citation list is the one ascending, duplicate-free listing of the
      rendered page numbers: any such listing equals it. */
  lemma CitedPagesIsCanonical(docs: seq<Doc>, listing: seq<string>)
    requires StrictlySorted(listing)
    requires forall x :: x in listing <==> x in PageRefs(docs)
    ensures CitedPages(docs) == listing
  {
    SortedUnique(CitedPages(docs), listing);
  }

  /** Two passages share a citation entry exactly when they share a page. */
  lemma CitationDeduplicatesPages(docs: seq<Doc>, i: nat, j: nat)
    requires i < |docs| && j < |docs|
    ensures PageRefs(docs)[i] == PageRefs(docs)[j] <==> docs[i].pageNumber == docs[j].pageNumber
  {
    IntToStringInjective(docs[i].pageNumber, docs[j].pageNumber);
  }

  /** The citation text: the fixed lead-in, the cited pages joined by ", ",
      and the fixed tail; every passage's page is named in it. */
  function RefsText(docs: seq<Doc>): (r: string)
    ensures IsPrefix(RefsPrefix, r)
    ensures |RefsSuffix| <= |r| && r[|r| - |RefsSuffix|..] == RefsSuffix
    ensures forall i :: 0 <= i < |docs| ==> Contains(r, IntToString(docs[i].pageNumber))
  {
    var listing := Join(", ", CitedPages(docs));
    var r := RefsPrefix + listing + RefsSuffix;
    JoinContainsAll(", ", CitedPages(docs));
    forall i | 0 <= i < |docs|
      ensures Contains(r, IntToString(docs[i].pageNumber))
    {
      var page := IntToString(docs[i].pageNumber);
      assert page in CitedPages(docs);
      var k :| 0 <= k < |CitedPages(docs)| && CitedPages(docs)[k] == page;
      ContainsAfterPrefix(RefsPrefix, listing, page);
      ContainsBeforeSuffix(RefsPrefix + listing, RefsSuffix, page);
    }
    assert r[..|RefsPrefix|] == RefsPrefix;
    assert r[|r| - |RefsSuffix|..] == RefsSuffix;
    r
  }

  /** `" ".join(sentence_chunks)`: every passage's text appears in it. */
  function AnswerContext(docs: seq<Doc>): (r: string)
    ensures forall i :: 0 <= i < |docs| ==> Contains(r, docs[i].sentenceChunk)
  {
    var chunks := seq(|docs|, i requires 0 <= i < |docs| => docs[i].sentenceChunk);
    JoinContainsAll(" ", chunks);
    assert forall i :: 0 <= i < |docs| ==> chunks[i] == docs[i].sentenceChunk;
    Join(" ", chunks)
  }

  function AnswerPrompt(s: State): (r: string)
    ensures Contains(r, AnswerContext(s.topDocs)) && Contains(r, s.query) && Contains(r, RefsText(s.topDocs))
  {
    GroundedPrompt(AnswerContext(s.topDocs), s.query, RefsText(s.topDocs))
  }

  /** The answer prompt shows every passage's text and cites its page. */
  lemma AnswerPromptShowsEveryPassage(s: State, i: nat)
    requires i < |s.topDocs|
    ensures Contains(AnswerPrompt(s), s.topDocs[i].sentenceChunk)
    ensures Contains(AnswerPrompt(s), IntToString(s.topDocs[i].pageNumber))
  {
    ContainsTransitive(AnswerPrompt(s), AnswerContext(s.topDocs), s.topDocs[i].sentenceChunk);
    ContainsTransitive(AnswerPrompt(s), RefsText(s.topDocs), IntToString(s.topDocs[i].pageNumber));
  }

  /** `generate_answer_node`: one assistant message. With no passages it is the
      fixed not-found reply; otherwise the model's answer, followed by a newline
      and the citation text when the answer is non-empty, or an apology
      carrying the error text. */
  function GenerateAnswerNode(s: State, llm: Llm): (r: seq<Message>)
    ensures |r| == 1 && r[0].role == Assistant
    ensures |s.topDocs| == 0 ==> r[0].content == NotFoundReply
    ensures |s.topDocs| > 0 && llm(AnswerPrompt(s)).Ok? && llm(AnswerPrompt(s)).value != "" ==>
      r[0].content == llm(AnswerPrompt(s)).value + "\n" + RefsText(s.topDocs)
    ensures |s.topDocs| > 0 && llm(AnswerPrompt(s)) == Ok("") ==> r[0].content == ""
    ensures |s.topDocs| > 0 && llm(AnswerPrompt(s)).Fail? ==>
      IsPrefix(AnswerErrorPrefix, r[0].content) && r[0].content[|AnswerErrorPrefix|..] == llm(AnswerPrompt(s)).error
  {
    if |s.topDocs| == 0 then [Message(Assistant, NotFoundReply)]
    else
      match llm(AnswerPrompt(s))
      case Fail(e) =>
        assert (AnswerErrorPrefix + e)[..|AnswerErrorPrefix|] == AnswerErrorPrefix;
        [Message(Assistant, AnswerErrorPrefix + e)]
      case Ok(answer) =>
        [Message(Assistant, if answer != "" then answer + "\n" + RefsText(s.topDocs) else answer)]
  }

  /** With no passages the answer node never consults the model: any two
      models give the same message. */
  lemma NoModelCallWithoutDocs(s: State, llm1: Llm, llm2: Llm)
    requires |s.topDocs| == 0
    ensures GenerateAnswerNode(s, llm1) == GenerateAnswerNode(s, llm2)
  {
  }

  // ---------------------------------------------------------------------------
  // The edge table and its interpreter
  // ---------------------------------------------------------------------------

  datatype Node = UserInput | DirectAnswer | RefineQuery | SemanticSearch | GenerateAnswer

  datatype Target = Goto(node: Node) | End

  /** Steps left before END on the longest path; every edge lowers it. */
  function Rank(n: Node): nat {
    match n
    case UserInput => 3
    case RefineQuery => 2
    case SemanticSearch => 1
    case DirectAnswer => 0
    case GenerateAnswer => 0
  }

  predicate IsTerminal(n: Node) {
    n == DirectAnswer || n == GenerateAnswer
  }

  /** The route the conditional edge reads: `state.get("route", "legal_search")`. */
  function RouteKey(s: State): (r: Route)
    ensures s.route.Some? ==> r == s.route.value
    ensures s.route.None? ==> r == LegalSearchRoute
  {
    s.route.GetOr(LegalSearchRoute)
  }

  /** The edges the graph may take, whatever the state. */
  predicate Edge(a: Node, b: Node) {
    || (a == UserInput && (b == DirectAnswer || b == RefineQuery))
    || (a == RefineQuery && b == SemanticSearch)
    || (a == SemanticSearch && b == GenerateAnswer)
  }

  /** The edge table: the conditional edge out of `user_input`, three fixed
      edges, and END after the two answer nodes. */
  function Successor(n: Node, s: State): (t: Target)
    ensures t == End <==> IsTerminal(n)
    ensures t.Goto? ==> Edge(n, t.node) && Rank(t.node) < Rank(n)
    ensures n == UserInput ==> t == Goto(if RouteKey(s) == DirectAnswerRoute then DirectAnswer else RefineQuery)
  {
    match n
    case UserInput =>
      (match RouteKey(s)
       case DirectAnswerRoute => Goto(DirectAnswer)
       case LegalSearchRoute => Goto(RefineQuery))
    case RefineQuery => Goto(SemanticSearch)
    case SemanticSearch => Goto(GenerateAnswer)
    case DirectAnswer => End
    case GenerateAnswer => End
  }

  /** What one node does: the state it passes on and the messages it returns. */
  datatype Step = Step(state: State, emitted: seq<Message>)

  function Apply(n: Node, s: State, llm: Llm, retrieve: Retriever): (r: Step)
    ensures IsTerminal(n) ==> |r.emitted| == 1 && r.emitted[0].role == Assistant
    ensures !IsTerminal(n) ==> r.emitted == []
    ensures r.state.messages == s.messages
    ensures s.error.Some? ==> r.state.error.Some?
  {
    match n
    case UserInput => Step(UserInputNode(s, llm), [])
    case RefineQuery => Step(RefineQueryNode(s, llm), [])
    case SemanticSearch => Step(SemanticSearchNode(s, retrieve), [])
    case DirectAnswer => Step(s, DirectAnswerNode(s, llm))
    case GenerateAnswer => Step(s, GenerateAnswerNode(s, llm))
  }

  /** A path through the edge table that stops at the first terminal node. */
  predicate ValidPath(p: seq<Node>)
    decreases |p|
  {
    && |p| > 0
    && if |p| == 1 then IsTerminal(p[0])
       else !IsTerminal(p[0]) && Edge(p[0], p[1]) && ValidPath(p[1..])
  }

  /** A valid path follows the edges and visits exactly one terminal node, its last. */
  lemma {:induction false} ValidPathVisitsOneTerminal(p: seq<Node>)
    requires ValidPath(p)
    ensures IsTerminal(p[|p| - 1])
    ensures forall i :: 0 <= i < |p| - 1 ==> !IsTerminal(p[i]) && Edge(p[i], p[i + 1])
    decreases |p|
  {
    if |p| > 1 {
      ValidPathVisitsOneTerminal(p[1..]);
      forall i | 1 <= i < |p| - 1
        ensures !IsTerminal(p[i]) && Edge(p[i], p[i + 1])
      {
        assert p[i] == p[1..][i - 1] && p[i + 1] == p[1..][i];
      }
    }
  }

  /** A finished run: the nodes visited, the state at END, and the messages
      the nodes returned. */
  datatype Trace = Trace(path: seq<Node>, final: State, reply: seq<Message>)

  /** Runs the graph from node `n` until END. Whatever the oracles do, the run
      follows the edges to exactly one terminal node and returns exactly one
      assistant message; the message list of the state is never changed, and a
      recorded error is never cleared. */
  function Execute(n: Node, s: State, llm: Llm, retrieve: Retriever): (r: Trace)
    ensures ValidPath(r.path) && r.path[0] == n
    ensures |r.reply| == 1 && r.reply[0].role == Assistant
    ensures r.final.messages == s.messages
    ensures s.error.Some? ==> r.final.error.Some?
    decreases Rank(n)
  {
    var step := Apply(n, s, llm, retrieve);
    match Successor(n, step.state)
    case End => Trace([n], step.state, step.emitted)
    case Goto(m) =>
      var rest := Execute(m, step.state, llm, retrieve);
      assert ([n] + rest.path)[1..] == rest.path;
      Trace([n] + rest.path, rest.final, step.emitted + rest.reply)
  }

  const DirectPath: seq<Node> := [UserInput, DirectAnswer]
  const SearchPath: seq<Node> := [UserInput, RefineQuery, SemanticSearch, GenerateAnswer]

  /** The state after classification, refinement and search on the legal path. */
  function SearchedState(init: State, llm: Llm, retrieve: Retriever): State {
    SemanticSearchNode(RefineQueryNode(UserInputNode(init, llm), llm), retrieve)
  }

  /** The query the search node sends to the retriever on the legal path. */
  function SearchedQuery(init: State, llm: Llm): string {
    SearchQuery(RefineQueryNode(UserInputNode(init, llm), llm))
  }

  /** The run from `user_input` when the classification routes to
      `direct_answer`. */
  lemma RunDirect(init: State, llm: Llm, retrieve: Retriever)
    ensures RouteKey(UserInputNode(init, llm)) == DirectAnswerRoute ==>
      Execute(UserInput, init, llm, retrieve)
      == Trace(DirectPath, UserInputNode(init, llm), DirectAnswerNode(UserInputNode(init, llm), llm))
  {
    if RouteKey(UserInputNode(init, llm)) == DirectAnswerRoute {
      var s1 := UserInputNode(init, llm);
      assert Apply(UserInput, init, llm, retrieve).state == s1;
      assert Successor(UserInput, s1) == Goto(DirectAnswer);
      assert Execute(DirectAnswer, s1, llm, retrieve) == Trace([DirectAnswer], s1, DirectAnswerNode(s1, llm));
    }
  }

  /** The three steps of the search path from `refine_query` to END. */
  lemma RunFromRefine(s1: State, llm: Llm, retrieve: Retriever)
    ensures var s3 := SemanticSearchNode(RefineQueryNode(s1, llm), retrieve);
      Execute(RefineQuery, s1, llm, retrieve)
        == Trace([RefineQuery, SemanticSearch, GenerateAnswer], s3, GenerateAnswerNode(s3, llm))
  {
    var s2 := RefineQueryNode(s1, llm);
    var s3 := SemanticSearchNode(s2, retrieve);
    assert Execute(GenerateAnswer, s3, llm, retrieve) == Trace([GenerateAnswer], s3, GenerateAnswerNode(s3, llm));
    assert Execute(SemanticSearch, s2, llm, retrieve)
      == Trace([SemanticSearch, GenerateAnswer], s3, GenerateAnswerNode(s3, llm));
  }

  /** On the legal route, `user_input` hands over to `refine_query` and
      emits nothing. */
  lemma FirstStepToRefine(init: State, llm: Llm, retrieve: Retriever)
    ensures RouteKey(UserInputNode(init, llm)) == LegalSearchRoute ==>
      (var rest := Execute(RefineQuery, UserInputNode(init, llm), llm, retrieve);
       Execute(UserInput, init, llm, retrieve) == Trace([UserInput] + rest.path, rest.final, rest.reply))
  {
    if RouteKey(UserInputNode(init, llm)) == LegalSearchRoute {
      var s1 := UserInputNode(init, llm);
      assert Apply(UserInput, init, llm, retrieve) == Step(s1, []);
      assert Successor(UserInput, s1) == Goto(RefineQuery);
      var rest := Execute(RefineQuery, s1, llm, retrieve);
      assert [] + rest.reply == rest.reply;
    }
  }

  /** The run from `user_input` when the classification routes to
      `legal_search`, or leaves no route: the path and the state at END. */
  lemma RunSearch(init: State, llm: Llm, retrieve: Retriever)
    ensures RouteKey(UserInputNode(init, llm)) == LegalSearchRoute ==>
      Execute(UserInput, init, llm, retrieve).path == SearchPath
    ensures RouteKey(UserInputNode(init, llm)) == LegalSearchRoute ==>
      Execute(UserInput, init, llm, retrieve).final == SearchedState(init, llm, retrieve)
  {
    if RouteKey(UserInputNode(init, llm)) == LegalSearchRoute {
      FirstStepToRefine(init, llm, retrieve);
      RunFromRefine(UserInputNode(init, llm), llm, retrieve);
      assert [UserInput] + [RefineQuery, SemanticSearch, GenerateAnswer] == SearchPath;
    }
  }

  /** The same run: its one message is the answer node's. */
  lemma RunSearchReply(init: State, llm: Llm, retrieve: Retriever)
    ensures RouteKey(UserInputNode(init, llm)) == LegalSearchRoute ==>
      Execute(UserInput, init, llm, retrieve).reply == GenerateAnswerNode(SearchedState(init, llm, retrieve), llm)
  {
    if RouteKey(UserInputNode(init, llm)) == LegalSearchRoute {
      FirstStepToRefine(init, llm, retrieve);
      RunFromRefine(UserInputNode(init, llm), llm, retrieve);
    }
  }

  /** `graph.invoke(state)`: a run from the entry point `user_input`. It takes
      one of the two paths, chosen by the route the classification leaves
      (absent reads as `legal_search`), and its one message is the one the
      terminal node of that path returns. Passages are fetched only on the
      search path; a failed classification on a fresh state still searches,
      with the error kept to the end; and a search that fails or finds nothing
      ends with the fixed not-found reply. */
  function RunGraph(init: State, llm: Llm, retrieve: Retriever): (r: Trace)
    ensures RouteKey(UserInputNode(init, llm)) == DirectAnswerRoute ==>
      && r.path == DirectPath
      && r.reply == DirectAnswerNode(UserInputNode(init, llm), llm)
      && r.final.topDocs == init.topDocs
    ensures RouteKey(UserInputNode(init, llm)) == LegalSearchRoute ==>
      && r.path == SearchPath
      && r.final == SearchedState(init, llm, retrieve)
      && r.reply == GenerateAnswerNode(SearchedState(init, llm, retrieve), llm)
    ensures init.route.None? && !Classified(init, llm) ==> r.path == SearchPath && r.final.error.Some?
    ensures (&& RouteKey(UserInputNode(init, llm)) == LegalSearchRoute
             && (|| retrieve(SearchedQuery(init, llm), SearchDocCount).Fail?
                 || retrieve(SearchedQuery(init, llm), SearchDocCount) == Ok([]))) ==>
      r.reply == [Message(Assistant, NotFoundReply)]
  {
    RunDirect(init, llm, retrieve);
    RunSearch(init, llm, retrieve);
    RunSearchReply(init, llm, retrieve);
    Execute(UserInput, init, llm, retrieve)
  }

  /** Passages on pages 5, 5 and 9 cite "5, 9"; pages 9 and 10 cite "10, 9",
      because the pages are sorted as strings. */
  lemma CitationExamples()
    ensures CitedPages([Ranking.Doc(0.9, "c", 9), Ranking.Doc(0.5, "a", 5), Ranking.Doc(0.4, "b", 5)]) == ["5", "9"]
    ensures CitedPages([Ranking.Doc(0.9, "a", 9), Ranking.Doc(0.8, "b", 10)]) == ["10", "9"]
  {
    var d1 := [Ranking.Doc(0.9, "c", 9), Ranking.Doc(0.5, "a", 5), Ranking.Doc(0.4, "b", 5)];
    assert IntToString(9) == "9" && IntToString(5) == "5";
    assert PageRefs(d1) == ["9", "5", "5"];
    assert Less("5", "9");
    CitedPagesIsCanonical(d1, ["5", "9"]);
    var d2 := [Ranking.Doc(0.9, "a", 9), Ranking.Doc(0.8, "b", 10)];
    assert IntToString(10) == "10";
    assert PageRefs(d2) == ["9", "10"];
    assert Less("10", "9");
    CitedPagesIsCanonical(d2, ["10", "9"]);
  }
}
