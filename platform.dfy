/** Shapes of the Android and HTTP frameworks the core hands its results to. */
module Platform {

  /** WorkManager's `ListenableWorker.Result`. */
  datatype WorkResult = WorkSuccess | WorkRetry | WorkFailure

  datatype Header = Header(name: string, value: string)

  /** An OkHttp request, reduced to what the interceptor looks at or changes. */
  datatype Request = Request(verb: string, url: string, headers: seq<Header>, body: string)

  /** An OkHttp response, reduced to its status code and body. */
  datatype Response = Response(code: int, body: string)
}
