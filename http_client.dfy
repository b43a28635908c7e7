/** What one request to the outage service yields. The transport, the
    query parameters and the URL encoding are not part of the model; the
    fetch is an input to the operations that consume its result. */
module HttpClient {
  import opened Wrappers
  import opened Clock
  import opened ResponseModels

  /** `RequestResult`. `jsonBody` is the decoded body, `Null` standing for
      Python's `None` (no JSON body, or a body that decoded to `null`). */
  datatype RequestResult = RequestResult(
    url: string,
    statusCode: Option<int>,
    jsonBody: Json,
    textBody: Option<string>,
    error: Option<string>,
    requestedAt: DateTime)
}
