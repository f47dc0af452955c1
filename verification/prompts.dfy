/** The grounded prompt builder (`DefaultPromptBuilder.build_prompt` in
    generation/services/prompt_builder.py): input validation, filtering of the
    context entries, `[Page p] text` rendering joined by blank lines, and the
    final template. The instruction prose of the template is an opaque
    constant; where the query, the context and the page appear is modelled. */
module Prompts {
  import opened Wrappers
  import opened Text

  /** The Python values a context entry can hold under a key. */
  datatype Value = Str(s: string) | Int(i: int) | NoneValue

  /** A context entry: a dict of fields, or some other object. */
  datatype Entry = NotDict | Dict(fields: map<string, Value>)

  /** The `ValueError` the builder raises, with its message. */
  datatype PromptError = ValueError(message: string)

  const QueryErrorText: string := "Query must be a non-empty string"
  const ContextErrorText: string := "Context must be a non-empty list of law chunks"
  const NoChunksErrorText: string := "No valid law chunks found in context"

  /** The template around its three holes (context, query, page); the
      instruction prose is an opaque tag. Instruction 5 asks the model to cite
      pages "in the format {page}", with `page` interpolated. */
  const TemplateHead: string := "<context>"
  const TemplateBeforeQuery: string := "<question>"
  const TemplateBeforePage: string := "<cite-format>"
  const TemplateTail: string := "</cite-format>"

  /** `d.get(key, "")`. */
  function Get(d: map<string, Value>, key: string): Value {
    if key in d then d[key] else Str("")
  }

  /** Python truthiness: empty strings, zero and `None` are false. */
  predicate Truthy(v: Value) {
    match v
    case Str(s) => s != ""
    case Int(i) => i != 0
    case NoneValue => false
  }

  /** f-string rendering `f"{v}"`. */
  function Render(v: Value): string {
    match v
    case Str(s) => s
    case Int(i) => IntToString(i)
    case NoneValue => "None"
  }

  function ChunkText(e: Entry): Value
    requires e.Dict?
  {
    Get(e.fields, "sentence_chunk")
  }

  function ChunkPage(e: Entry): Value
    requires e.Dict?
  {
    Get(e.fields, "page_number")
  }

  /** An entry contributes a chunk exactly when it is a dict whose text and page
      are both truthy. */
  predicate Contributes(e: Entry) {
    e.Dict? && Truthy(ChunkText(e)) && Truthy(ChunkPage(e))
  }

  function FormatChunk(e: Entry): string
    requires e.Dict?
  {
    "[Page " + Render(ChunkPage(e)) + "] " + Render(ChunkText(e))
  }

  /** The loop building `formatted_chunks`: one rendered chunk per
      contributing entry, in input order. */
  function FormattedChunks(ctx: seq<Entry>): (r: seq<string>)
    ensures |r| <= |ctx|
    decreases |ctx|
  {
    if |ctx| == 0 then []
    else if Contributes(ctx[0]) then [FormatChunk(ctx[0])] + FormattedChunks(ctx[1..])
    else FormattedChunks(ctx[1..])
  }

  /** `c` is the rendering of some contributing entry of `ctx`. */
  ghost predicate RendersContributor(ctx: seq<Entry>, c: string) {
    exists i :: 0 <= i < |ctx| && Contributes(ctx[i]) && c == FormatChunk(ctx[i])
  }

  /** A rendering of a later entry is a rendering of an entry of the whole context. */
  lemma RendersContributorOfTail(ctx: seq<Entry>, c: string)
    requires |ctx| > 0
    ensures RendersContributor(ctx[1..], c) ==> RendersContributor(ctx, c)
  {
    if RendersContributor(ctx[1..], c) {
      var i :| 0 <= i < |ctx[1..]| && Contributes(ctx[1..][i]) && c == FormatChunk(ctx[1..][i]);
      assert ctx[1..][i] == ctx[i + 1];
    }
  }

  /** Every chunk is the rendering of some contributing entry. */
  lemma {:induction false} EveryChunkFromContributor(ctx: seq<Entry>)
    ensures forall k :: 0 <= k < |FormattedChunks(ctx)| ==> RendersContributor(ctx, FormattedChunks(ctx)[k])
    decreases |ctx|
  {
    if |ctx| > 0 {
      EveryChunkFromContributor(ctx[1..]);
      var rest := FormattedChunks(ctx[1..]);
      var chunks := FormattedChunks(ctx);
      var d := if Contributes(ctx[0]) then 1 else 0;
      assert chunks == (if Contributes(ctx[0]) then [FormatChunk(ctx[0])] + rest else rest);
      forall k | 0 <= k < |chunks|
        ensures RendersContributor(ctx, chunks[k])
      {
        if k < d {
          assert RendersContributor(ctx, FormatChunk(ctx[0])) by { assert Contributes(ctx[0]); }
        } else {
          assert chunks[k] == rest[k - d];
          RendersContributorOfTail(ctx, rest[k - d]);
        }
      }
    }
  }

  /** No chunk survives exactly when no entry contributes. */
  lemma {:induction false} NoChunksIffNoneContribute(ctx: seq<Entry>)
    ensures |FormattedChunks(ctx)| == 0 <==> forall i :: 0 <= i < |ctx| ==> !Contributes(ctx[i])
    decreases |ctx|
  {
    if |ctx| > 0 {
      NoChunksIffNoneContribute(ctx[1..]);
      assert forall i :: 1 <= i < |ctx| ==> ctx[i] == ctx[1..][i - 1];
    }
  }

  /** Filtering distributes over concatenation, so chunk order is input order. */
  lemma {:induction false} FormattedChunksAppend(a: seq<Entry>, b: seq<Entry>)
    ensures FormattedChunks(a + b) == FormattedChunks(a) + FormattedChunks(b)
    decreases |a|
  {
    if |a| > 0 {
      FormattedChunksAppend(a[1..], b);
      assert (a + b)[1..] == a[1..] + b;
    } else {
      assert a + b == b;
    }
  }

  /** Which entries contribute, and what each contributes, one entry at a time. */
  lemma FormattedChunksSingle(e: Entry)
    ensures Contributes(e) ==> FormattedChunks([e]) == [FormatChunk(e)]
    ensures !Contributes(e) ==> FormattedChunks([e]) == []
  {
    assert [e][1..] == [];
  }

  function ContextString(ctx: seq<Entry>): (r: string)
    ensures |FormattedChunks(ctx)| == 0 ==> r == ""
    ensures |FormattedChunks(ctx)| == 1 ==> r == FormattedChunks(ctx)[0]
    ensures forall k :: 0 <= k < |FormattedChunks(ctx)| ==> Contains(r, FormattedChunks(ctx)[k])
  {
    JoinContainsAll("\n\n", FormattedChunks(ctx));
    Join("\n\n", FormattedChunks(ctx))
  }

  /** The value left in the loop variable `page` after the loop, if any dict
      entry was visited. Non-dict entries are skipped before `page` is assigned. */
  function LastVisitedPage(ctx: seq<Entry>): (r: Option<Value>)
    ensures r.Some? ==> exists i :: 0 <= i < |ctx| && ctx[i].Dict? && r.value == ChunkPage(ctx[i])
    decreases |ctx|
  {
    if |ctx| == 0 then None
    else if ctx[|ctx| - 1].Dict? then Some(ChunkPage(ctx[|ctx| - 1]))
    else LastVisitedPage(ctx[..|ctx| - 1])
  }

  /** `page` is bound exactly when some dict entry was visited, and then holds
      the page of the last dict entry, whether or not that entry contributed. */
  lemma {:induction false} LastVisitedPageIsLastDict(ctx: seq<Entry>)
    ensures LastVisitedPage(ctx).None? <==> forall i :: 0 <= i < |ctx| ==> !ctx[i].Dict?
    ensures forall i :: 0 <= i < |ctx| && ctx[i].Dict? && (forall j :: i < j < |ctx| ==> !ctx[j].Dict?) ==>
      LastVisitedPage(ctx) == Some(ChunkPage(ctx[i]))
    decreases |ctx|
  {
    if |ctx| > 0 {
      var init := ctx[..|ctx| - 1];
      LastVisitedPageIsLastDict(init);
      assert forall i :: 0 <= i < |init| ==> ctx[i] == init[i];
      if !ctx[|ctx| - 1].Dict? {
        assert LastVisitedPage(ctx) == LastVisitedPage(init);
        forall i | 0 <= i < |ctx| && ctx[i].Dict? && (forall j :: i < j < |ctx| ==> !ctx[j].Dict?)
          ensures LastVisitedPage(ctx) == Some(ChunkPage(ctx[i]))
        {
          assert i < |init|;
        }
      }
    }
  }

  /** `build_prompt(query, context)`: the error checks in source order, then the
      template with the context string, the query and the leaked `page`. */
  function BuildPrompt(query: string, ctx: seq<Entry>): (r: Result<string, PromptError>)
    ensures query == "" ==> r == Failure(ValueError(QueryErrorText))
    ensures query != "" && |ctx| == 0 ==> r == Failure(ValueError(ContextErrorText))
    ensures query != "" && |ctx| > 0 && (forall i :: 0 <= i < |ctx| ==> !Contributes(ctx[i])) ==>
      r == Failure(ValueError(NoChunksErrorText))
    ensures r.Success? <==> query != "" && exists i :: 0 <= i < |ctx| && Contributes(ctx[i])
    ensures r.Success? ==> Contains(r.value, ContextString(ctx)) && Contains(r.value, query)
  {
    if query == "" then Failure(ValueError(QueryErrorText))
    else if |ctx| == 0 then Failure(ValueError(ContextErrorText))
    else
      var chunks := FormattedChunks(ctx);
      NoChunksIffNoneContribute(ctx);
      LastVisitedPageIsLastDict(ctx);
      if |chunks| == 0 then Failure(ValueError(NoChunksErrorText))
      else
        var page := LastVisitedPage(ctx);
        var contextStr := Join("\n\n", chunks);
        var tail := TemplateBeforePage + Render(page.value) + TemplateTail;
        var prompt := TemplateHead + contextStr + TemplateBeforeQuery + query + tail;
        ContainsInfix(TemplateHead, contextStr, TemplateBeforeQuery + query + tail);
        assert TemplateHead + contextStr + (TemplateBeforeQuery + query + tail) == prompt;
        ContainsInfix(TemplateHead + contextStr + TemplateBeforeQuery, query, tail);
        Success(prompt)
  }

  /** The prompt ends with the instruction line, and that line cites the page
      of the last dict entry visited. */
  lemma InstructionCitesLastVisitedPage(query: string, ctx: seq<Entry>)
    requires BuildPrompt(query, ctx).Success?
    ensures LastVisitedPage(ctx).Some?
    ensures var p := BuildPrompt(query, ctx).value;
      var line := TemplateBeforePage + Render(LastVisitedPage(ctx).value) + TemplateTail;
      |line| <= |p| && p[|p| - |line|..] == line
  {
    LastVisitedPageIsLastDict(ctx);
    var line := TemplateBeforePage + Render(LastVisitedPage(ctx).value) + TemplateTail;
    var head := TemplateHead + ContextString(ctx) + TemplateBeforeQuery + query;
    assert head + line == BuildPrompt(query, ctx).value;
    assert (head + line)[|head|..] == line;
  }

  /** The chunk a contributing entry renders to sits in the chunk list after
      the chunks of the entries before it. */
  lemma ChunkPosition(ctx: seq<Entry>, i: nat) returns (k: nat)
    requires i < |ctx| && Contributes(ctx[i])
    ensures k == |FormattedChunks(ctx[..i])|
    ensures k < |FormattedChunks(ctx)| && FormattedChunks(ctx)[k] == FormatChunk(ctx[i])
  {
    var pre, post := ctx[..i], ctx[i + 1..];
    assert ctx == pre + [ctx[i]] + post;
    FormattedChunksAppend(pre + [ctx[i]], post);
    FormattedChunksAppend(pre, [ctx[i]]);
    FormattedChunksSingle(ctx[i]);
    k := |FormattedChunks(pre)|;
  }

  /** Every entry that contributes appears, rendered, in the prompt. */
  lemma PromptShowsEveryChunk(query: string, ctx: seq<Entry>, i: nat)
    requires BuildPrompt(query, ctx).Success?
    requires i < |ctx| && Contributes(ctx[i])
    ensures Contains(BuildPrompt(query, ctx).value, FormatChunk(ctx[i]))
  {
    var k := ChunkPosition(ctx, i);
    JoinContainsEach("\n\n", FormattedChunks(ctx), k);
    ContainsTransitive(BuildPrompt(query, ctx).value, ContextString(ctx), FormatChunk(ctx[i]));
  }

  /** The leak made concrete: the only chunk is from page 5, yet the
      instruction line names page 7, taken from an entry that was dropped for
      its empty text. */
  lemma DroppedEntryLeaksItsPage()
    ensures var ctx := [Dict(map["sentence_chunk" := Str("a"), "page_number" := Int(5)]),
                        Dict(map["sentence_chunk" := Str(""), "page_number" := Int(7)])];
      && ContextString(ctx) == "[Page 5] a"
      && LastVisitedPage(ctx) == Some(Int(7))
      && BuildPrompt("q", ctx).Success?
      && var p := BuildPrompt("q", ctx).value;
         var line := TemplateBeforePage + "7" + TemplateTail;
         |line| <= |p| && p[|p| - |line|..] == line
  {
    var e1 := Dict(map["sentence_chunk" := Str("a"), "page_number" := Int(5)]);
    var e2 := Dict(map["sentence_chunk" := Str(""), "page_number" := Int(7)]);
    assert Contributes(e1) && !Contributes(e2);
    assert Render(Int(5)) == "5";
    FormattedChunksAppend([e1], [e2]);
    FormattedChunksSingle(e1);
    FormattedChunksSingle(e2);
    assert [e1] + [e2] == [e1, e2];
    InstructionCitesLastVisitedPage("q", [e1, e2]);
    assert Render(Int(7)) == "7";
  }
}
