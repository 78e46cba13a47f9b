/** The question-answering endpoint: readiness checks in a fixed order, the
    similarity query, the context and prompt built from its results, the
    source list mapped one-to-one from them, and the outcome of generation.
    The store's query and the language model are inputs, so the endpoint is
    a pure function of them. */
module Answer {
  import opened Wrappers
  import opened Text
  import opened Service

  /** The request body: the question and how many chunks to retrieve. */
  datatype QuestionRequest = QuestionRequest(question: string, nResults: int)

  /** One cited chunk, as reported back to the caller. */
  datatype SourceInfo = SourceInfo(videoId: string, title: string, url: string, chunkIndex: int, relevanceScore: real)

  /** A successful answer: generated text, sources, and the question echoed. */
  datatype QuestionResponse = QuestionResponse(answer: string, sources: seq<SourceInfo>, query: string)

  /** What the chat-completion call did: produced a message, or raised. */
  datatype Generation = Completed(answer: string) | Raised(message: string)

  /** What the chat-completion call is asked about: the assembled context
      and the question. The call sends it as Messages(p). */
  datatype Prompt = Prompt(context: string, question: string)

  /** Everything ready before the generation call. */
  datatype Prepared = Prepared(prompt: Prompt, sources: seq<SourceInfo>)

  const NoRelevantContent: HttpError := HttpError(404, "No relevant content found")
  const GenerationErrorPrefix: string := "Error generating answer: "
  const ContextSeparator: string := "\n---\n"

  const SystemPrompt: string :=
    "You are a helpful assistant that answers questions about YouTube videos.\n"
    + "You will be given relevant excerpts from video transcripts. Use this information to answer the user's question.\n"
    + "Always cite which video(s) you're referencing in your answer.\n"
    + "If the context doesn't contain enough information to answer the question, say so."

  /** Python's `zip` of the three parallel lists stops at the shortest. */
  function ResultCount(r: QueryResult): nat
  {
    var n := if |r.documents| <= |r.metadatas| then |r.documents| else |r.metadatas|;
    if n <= |r.distances| then n else |r.distances|
  }

  /** The source entry for one retrieved chunk. */
  function SourceOf(m: Metadata, distance: real): SourceInfo
  {
    SourceInfo(m.videoId, m.title, m.url, m.chunkIndex, 1.0 - distance)
  }

  /** One source per zipped result, in retrieval order: identity fields copied
      from that result's metadata, relevance one minus its distance. */
  function Sources(r: QueryResult): (s: seq<SourceInfo>)
    ensures |s| == ResultCount(r)
    ensures |s| <= |r.documents| && |s| <= |r.metadatas| && |s| <= |r.distances|
    ensures |s| == |r.documents| || |s| == |r.metadatas| || |s| == |r.distances|
    ensures forall i :: 0 <= i < |s| ==>
              && s[i].videoId == r.metadatas[i].videoId
              && s[i].title == r.metadatas[i].title
              && s[i].url == r.metadatas[i].url
              && s[i].chunkIndex == r.metadatas[i].chunkIndex
              && s[i].relevanceScore == 1.0 - r.distances[i]
  {
    seq(ResultCount(r), i requires 0 <= i < ResultCount(r) => SourceOf(r.metadatas[i], r.distances[i]))
  }

  /** The header lines that introduce the chunk shown at 1-based `position`. */
  function Header(position: nat, title: string, url: string): string
  {
    "\n[Video " + NatToString(position) + ": " + title + "]\n[URL: " + url + "]\n"
  }

  /** The context part for the i-th (0-based) result. */
  function ContextPart(i: nat, m: Metadata, doc: string): string
  {
    Header(i + 1, m.title, m.url) + doc + "\n"
  }

  /** One context part per zipped result, in retrieval order. */
  function ContextParts(r: QueryResult): (ps: seq<string>)
    ensures |ps| == ResultCount(r)
  {
    seq(ResultCount(r), i requires 0 <= i < ResultCount(r) => ContextPart(i, r.metadatas[i], r.documents[i]))
  }

  /** The context block: the parts joined by the separator line. */
  function Context(r: QueryResult): string
  {
    Join(ContextParts(r), ContextSeparator)
  }

  const UserMessageLead: string := "Context from YouTube videos:\n"
  const QuestionLead: string := "\n\nQuestion: "
  const UserMessageTail: string := "\n\nAnswer the question based on the context above. Be specific and cite the video titles."

  /** The user message: the context followed by the question. */
  function UserMessage(p: Prompt): string
  {
    UserMessageLead + p.context + QuestionLead + p.question + UserMessageTail
  }

  /** A chat message: its role and its content. */
  datatype ChatMessage = ChatMessage(role: string, content: string)

  /** The user message carries the context unchanged right after its lead
      line, and the question unchanged after the context. */
  lemma UserMessageCarries(p: Prompt)
    ensures var c := |UserMessageLead|;
            var q := c + |p.context| + |QuestionLead|;
            && q + |p.question| <= |UserMessage(p)|
            && UserMessage(p)[c..c + |p.context|] == p.context
            && UserMessage(p)[q..q + |p.question|] == p.question
  {
    var m := UserMessage(p);
    var c := |UserMessageLead|;
    var q := c + |p.context| + |QuestionLead|;
    assert m == UserMessageLead + p.context + QuestionLead + p.question + UserMessageTail;
    assert m[c..c + |p.context|] == p.context;
    assert m[q..q + |p.question|] == p.question;
  }

  /** The two messages of the chat-completion call: first the system
      message, which is the fixed SystemPrompt whatever the prompt, then the
      user message, which carries the context and the question unchanged. */
  function Messages(p: Prompt): (m: seq<ChatMessage>)
    ensures |m| == 2
    ensures m[0] == ChatMessage("system", SystemPrompt)
    ensures m[1].role == "user"
    ensures var c := |UserMessageLead|;
            var q := c + |p.context| + |QuestionLead|;
            && q + |p.question| <= |m[1].content|
            && m[1].content[c..c + |p.context|] == p.context
            && m[1].content[q..q + |p.question|] == p.question
  {
    UserMessageCarries(p);
    [ChatMessage("system", SystemPrompt), ChatMessage("user", UserMessage(p))]
  }

  /** The results the store returns for this request (only meaningful when
      the store is open). */
  function Retrieved(s: Services, req: QuestionRequest): QueryResult
    requires s.store.Some?
  {
    s.store.value.query(req.question, req.nResults)
  }

  /** The prompt sent for this request once both checks and retrieval pass. */
  function PromptFor(s: Services, req: QuestionRequest): Prompt
    requires s.store.Some?
  {
    Prompt(Context(Retrieved(s, req)), req.question)
  }

  /** Everything before the generation call: the store check, then the
      language-model check, then the query and the no-content check, then the
      prompt and the source list. */
  function Prepare(s: Services, req: QuestionRequest): Result<Prepared, HttpError>
  {
    if s.store.None? then Failure(StoreNotInitialized)
    else if !s.llmReady then Failure(LlmNotConfigured)
    else if |Retrieved(s, req).documents| == 0 then Failure(NoRelevantContent)
    else Success(Prepared(PromptFor(s, req), Sources(Retrieved(s, req))))
  }

  /** The generation step: a produced message becomes the answer, anything
      raised becomes a 500 error carrying its message. */
  function Complete(p: Prepared, question: string, g: Generation): Result<QuestionResponse, HttpError>
  {
    match g
    case Completed(answer) => Success(QuestionResponse(answer, p.sources, question))
    case Raised(message) => Failure(HttpError(500, GenerationErrorPrefix + message))
  }

  /** The endpoint. `generate` stands for the chat-completion call; it is
      consulted only once every check has passed. */
  function Ask(s: Services, req: QuestionRequest, generate: Prompt -> Generation): (r: Result<QuestionResponse, HttpError>)
    ensures s.store.None? ==> r == Failure(StoreNotInitialized)
    ensures s.store.Some? && !s.llmReady ==> r == Failure(LlmNotConfigured)
    ensures s.store.Some? && s.llmReady && |Retrieved(s, req).documents| == 0 ==> r == Failure(NoRelevantContent)
    ensures r.Success? ==>
              && r.value.query == req.question
              && r.value.sources == Sources(Retrieved(s, req))
              && generate(PromptFor(s, req)) == Completed(r.value.answer)
  {
    match Prepare(s, req)
    case Failure(e) => Failure(e)
    case Success(p) => Complete(p, req.question, generate(p.prompt))
  }

  /** Once both checks pass and retrieval found a document, the prompt and
      the sources are ready. */
  lemma PrepareReady(s: Services, req: QuestionRequest)
    requires s.store.Some? && s.llmReady && |Retrieved(s, req).documents| > 0
    ensures Prepare(s, req) == Success(Prepared(PromptFor(s, req), Sources(Retrieved(s, req))))
  {
  }

  /** Ask answers exactly when both collaborators are ready, retrieval found
      at least one document and generation produced a message; the answer is
      that message with the retrieved sources and the question. */
  lemma AskSucceedsIff(s: Services, req: QuestionRequest, generate: Prompt -> Generation)
    ensures Ask(s, req, generate).Success? <==>
              && s.store.Some? && s.llmReady
              && |Retrieved(s, req).documents| > 0
              && generate(PromptFor(s, req)).Completed?
    ensures Ask(s, req, generate).Success? ==>
              Ask(s, req, generate).value
              == QuestionResponse(generate(PromptFor(s, req)).answer,
                                  Sources(Retrieved(s, req)), req.question)
  {
    if s.store.Some? && s.llmReady && |Retrieved(s, req).documents| > 0 {
      PrepareReady(s, req);
    }
  }

  /** A generation failure is the only way to get an error whose detail starts
      with the generation prefix, and its detail carries the raised message. */
  lemma GenerationFailureIff(s: Services, req: QuestionRequest, generate: Prompt -> Generation)
    ensures (Ask(s, req, generate).Failure? && GenerationErrorPrefix <= Ask(s, req, generate).error.detail) <==>
              && s.store.Some? && s.llmReady
              && |Retrieved(s, req).documents| > 0
              && generate(PromptFor(s, req)).Raised?
    ensures && s.store.Some? && s.llmReady
            && |Retrieved(s, req).documents| > 0
            && generate(PromptFor(s, req)).Raised? ==>
              Ask(s, req, generate)
              == Failure(HttpError(500, GenerationErrorPrefix + generate(PromptFor(s, req)).message))
  {
    assert GenerationErrorPrefix[0] == 'E';
    if s.store.Some? && s.llmReady && |Retrieved(s, req).documents| > 0 {
      PrepareReady(s, req);
    }
    FirstCharNotPrefix(GenerationErrorPrefix, StoreNotInitialized.detail);
    FirstCharNotPrefix(GenerationErrorPrefix, LlmNotConfigured.detail);
    FirstCharNotPrefix(GenerationErrorPrefix, NoRelevantContent.detail);
  }

  /** Two strings that differ in their first character are not prefixes of one another. */
  lemma FirstCharNotPrefix(p: string, d: string)
    requires |p| > 0 && |d| > 0 && p[0] != d[0]
    ensures !(p <= d)
  {
  }

  /** When a check fails before generation, the outcome does not depend on the
      language model at all: no generation call is made. */
  lemma NoGenerationBeforeChecksPass(s: Services, req: QuestionRequest,
                                     g1: Prompt -> Generation, g2: Prompt -> Generation)
    requires s.store.None? || !s.llmReady || |Retrieved(s, req).documents| == 0
    ensures Ask(s, req, g1) == Ask(s, req, g2)
    ensures Ask(s, req, g1).Failure? && Ask(s, req, g1).error.status != 200
  {
  }

  /** The health endpoint reports "degraded" exactly when Ask stops at one of
      its two readiness checks. */
  lemma HealthAgreesWithAsk(s: Services, req: QuestionRequest, generate: Prompt -> Generation)
    ensures Health(s).status == "degraded" <==>
              Ask(s, req, generate) == Failure(StoreNotInitialized)
              || Ask(s, req, generate) == Failure(LlmNotConfigured)
  {
    if s.store.Some? && s.llmReady && |Retrieved(s, req).documents| > 0 {
      PrepareReady(s, req);
      var r := Ask(s, req, generate);
      assert r.Failure? ==> r.error.detail[0] == 'E';
    }
  }

  /** Citation fidelity: the i-th context part is the header numbered i + 1
      naming exactly the title and url that the i-th source reports,
      followed by the i-th document. */
  lemma PartNamesSource(r: QueryResult, i: nat)
    requires i < ResultCount(r)
    ensures ContextParts(r)[i] == Header(i + 1, Sources(r)[i].title, Sources(r)[i].url) + r.documents[i] + "\n"
  {
  }

  /** The i-th context part sits unchanged at its offset of the context. */
  lemma ContextPartAt(r: QueryResult, i: nat)
    requires i < ResultCount(r)
    ensures var off := JoinOffset(ContextParts(r), ContextSeparator, i);
            off + |ContextParts(r)[i]| <= |Context(r)|
            && Context(r)[off..off + |ContextParts(r)[i]|] == ContextParts(r)[i]
  {
    JoinSlices(ContextParts(r), ContextSeparator, i);
  }

  /** The separator line follows the i-th context part unless it is the last. */
  lemma ContextSeparatorAfter(r: QueryResult, i: nat)
    requires i + 1 < ResultCount(r)
    ensures var end := JoinOffset(ContextParts(r), ContextSeparator, i) + |ContextParts(r)[i]|;
            end + |ContextSeparator| <= |Context(r)|
            && Context(r)[end..end + |ContextSeparator|] == ContextSeparator
  {
    JoinSeparators(ContextParts(r), ContextSeparator, i);
  }

  /** The context holds every part unchanged at its offset, in retrieval
      order, with the separator line after every part but the last.
      Repeated videos are not merged: every zipped result has its own part. */
  lemma ContextInOrder(r: QueryResult, i: nat)
    requires i < ResultCount(r)
    ensures var off := JoinOffset(ContextParts(r), ContextSeparator, i);
            var part := ContextParts(r)[i];
            off + |part| <= |Context(r)| && Context(r)[off..off + |part|] == part
    ensures i + 1 < ResultCount(r) ==>
              var end := JoinOffset(ContextParts(r), ContextSeparator, i) + |ContextParts(r)[i]|;
              end + |ContextSeparator| <= |Context(r)| && Context(r)[end..end + |ContextSeparator|] == ContextSeparator
  {
    ContextPartAt(r, i);
    if i + 1 < ResultCount(r) {
      ContextSeparatorAfter(r, i);
    }
  }

  /** The loop that walks the zipped results, building the context parts and
      the source list side by side, then joins the parts. */
  method AssembleContext(r: QueryResult) returns (context: string, sources: seq<SourceInfo>)
    ensures context == Context(r)
    ensures sources == Sources(r)
  {
    var parts: seq<string> := [];
    sources := [];
    var n := ResultCount(r);
    var i := 0;
    while i < n
      invariant 0 <= i <= n
      invariant parts == ContextParts(r)[..i]
      invariant sources == Sources(r)[..i]
    {
      parts := parts + [ContextPart(i, r.metadatas[i], r.documents[i])];
      sources := sources + [SourceOf(r.metadatas[i], r.distances[i])];
      i := i + 1;
    }
    assert parts == ContextParts(r);
    assert sources == Sources(r);
    context := Join(parts, ContextSeparator);
  }
}
