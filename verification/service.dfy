/** The process-wide collaborators of the web service (the vector store
    handle and the language-model client), the metadata shape stored with
    every chunk, the HTTP errors the endpoints raise, and the health rule. */
module Service {
  import opened Wrappers

  /** Metadata stored with every indexed chunk. */
  datatype Metadata = Metadata(videoId: string, title: string, url: string, chunkIndex: int)

  /** What the similarity query returns for one question: parallel lists of
      chunk texts, their metadata and their distances, nearest first. */
  datatype QueryResult = QueryResult(documents: seq<string>, metadatas: seq<Metadata>, distances: seq<real>)

  /** An opened collection: the metadata of its rows, in the order the store
      lists them, and its nearest-neighbour query `(question, n_results)`. */
  datatype Store = Store(metadatas: seq<Metadata>, query: (string, int) -> QueryResult)

  /** The two collaborators as they were left by start-up: the collection
      when it could be opened, and whether an API key configured the client. */
  datatype Services = Services(store: Option<Store>, llmReady: bool)

  /** An HTTP error response: status code and detail message. */
  datatype HttpError = HttpError(status: int, detail: string)

  const StoreNotInitialized: HttpError := HttpError(500, "ChromaDB not initialized")
  const LlmNotConfigured: HttpError := HttpError(500, "OpenAI API not configured")

  /** The body of the health endpoint. */
  datatype HealthReport = HealthReport(chromadb: bool, openai: bool, status: string)

  /** Reports each collaborator's readiness; the service is "healthy" exactly
      when both are ready and "degraded" otherwise. */
  function Health(s: Services): (h: HealthReport)
    ensures h.chromadb <==> s.store.Some?
    ensures h.openai <==> s.llmReady
    ensures h.status == "healthy" <==> s.store.Some? && s.llmReady
    ensures h.status == "healthy" || h.status == "degraded"
  {
    HealthReport(s.store.Some?, s.llmReady,
                 if s.store.Some? && s.llmReady then "healthy" else "degraded")
  }
}
