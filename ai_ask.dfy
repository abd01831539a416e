/** `ask_ai`: one prompt sent to OpenAI or to Google's generative language
    service. The HTTP transport is a function of the request and the retry
    count; the texts of the exceptions the libraries raise come from the same
    service description. */
module AiAsk {
  import opened Wrappers
  import opened Text
  import opened AiJson

  datatype Request = Request(url: string, headers: seq<(string, string)>, payload: Json)

  /** What `requests.post` yields: no response at all, or a status and a
      body that `response.json()` may or may not decode. */
  datatype Reply = Unreachable(detail: string) | Answered(status: int, body: Option<Json>)

  /** The exceptions the `try` blocks catch. */
  datatype Fault =
    | Transport(detail: string)  // `requests.post` raised
    | HttpStatus(status: int)    // `raise_for_status` raised
    | NotJson                    // `response.json()` raised
    | UnexpectedShape            // a lookup in the decoded body, or `.strip()`, raised

  /** `post(request, retry_count)` is the reply to a request; `describe` is
      `str(e)` of a caught exception. */
  datatype Service = Service(post: (Request, nat) -> Reply, describe: Fault -> string)

  /** The pair `ask_ai` returns, with the requests it sent, in order. */
  datatype Asked = Asked(ok: bool, value: AiValue, sent: seq<Request>)

  const DefaultMaxRetries := 3
  const TooManyRequests := 429
  const OpenAiPrefix := "[OpenAI] Fehler: "
  const GenAiPrefix := "[GenAI] Fehler: "
  const JsonContentType := ("Content-Type", "application/json")

  function UnknownProvider(provider: string): string {
    "Unbekannter AI-Provider: '" + provider + "'"
  }

  function OpenAiRequest(prompt: string, url: string, key: string): Request {
    Request(url, [("Authorization", "Bearer " + key), JsonContentType],
      JObject(map[
        "model" := JString("gpt-4"),
        "messages" := JArray([JObject(map["role" := JString("user"), "content" := JString(prompt)])]),
        "temperature" := JNumber(0.7)]))
  }

  /** The key travels in the query string; the bearer header is not sent. */
  function GenAiRequest(prompt: string, url: string, key: string): Request {
    Request(url + "?key=" + key, [JsonContentType],
      JObject(map["contents" := JArray([JObject(map["parts" := JArray([JObject(map["text" := JString(prompt)])])])])]))
  }

  /** `raise_for_status` raises for client and server errors. */
  predicate RaisesForStatus(status: int) {
    400 <= status < 600
  }

  datatype Received = Failed(fault: Fault) | Body(json: Json)

  /** `post`, `raise_for_status` and `response.json()` in a row. */
  function Receive(reply: Reply): (r: Received)
    ensures r.Body? <==> reply.Answered? && !RaisesForStatus(reply.status) && reply.body.Some?
  {
    match reply
    case Unreachable(detail) => Failed(Transport(detail))
    case Answered(status, body) =>
      if RaisesForStatus(status) then Failed(HttpStatus(status))
      else if body.None? then Failed(NotJson)
      else Body(body.value)
  }

  /** One subscript of a lookup path: `[key]` on a dict or `[0]` on a list.
      (`[0]` on a string yields a one-character string, on which every later
      lookup of these paths raises as well.) */
  datatype Subscript = Key(key: string) | Index0

  /** The subscripts of `path` applied in turn; `None` where one raises. */
  function Lookup(j: Json, path: seq<Subscript>): Option<Json>
    decreases |path|
  {
    if path == [] then Some(j)
    else
      var next := match path[0]
        case Key(k) => if j.JObject? && k in j.fields then Some(j.fields[k]) else None
        case Index0 => if j.JArray? && j.items != [] then Some(j.items[0]) else None;
      if next.None? then None else Lookup(next.value, path[1..])
  }

  /** The looked-up value, when it is a string. */
  function StringAt(body: Json, path: seq<Subscript>): Option<string> {
    var v := Lookup(body, path);
    if v.Some? && v.value.JString? then Some(v.value.s) else None
  }

  const OpenAiPath := [Key("choices"), Index0, Key("message"), Key("content")]
  const GenAiPath := [Key("candidates"), Index0, Key("content"), Key("parts"), Index0, Key("text")]

  /** `result["choices"][0]["message"]["content"]`, when it is a string. */
  function OpenAiContent(body: Json): Option<string> {
    StringAt(body, OpenAiPath)
  }

  /** `result["candidates"][0]["content"]["parts"][0]["text"]`, when it is a string. */
  function GenAiText(body: Json): Option<string> {
    StringAt(body, GenAiPath)
  }

  /** The OpenAI branch: one request, the stripped content as text. */
  function AskOpenAi(svc: Service, prompt: string, url: string, key: string, retryCount: nat): (r: Asked)
    ensures r.sent == [OpenAiRequest(prompt, url, key)]
    ensures r.value.Text?
    ensures !r.ok ==> StartsWith(r.value.text, OpenAiPrefix)
  {
    var request := OpenAiRequest(prompt, url, key);
    var sent := [request];
    match Receive(svc.post(request, retryCount))
    case Failed(fault) => Asked(false, Text(OpenAiPrefix + svc.describe(fault)), sent)
    case Body(body) =>
      match OpenAiContent(body)
      case None => Asked(false, Text(OpenAiPrefix + svc.describe(UnexpectedShape)), sent)
      case Some(content) => Asked(true, Text(Strip(content)), sent)
  }

  /** A reply the GenAI branch retries, when retries remain. */
  predicate IsTooManyRequests(reply: Reply) {
    reply.Answered? && reply.status == TooManyRequests
  }

  /** The GenAI `try` block for one reply that is not retried: the generated
      text, stripped, goes through `ExtractJson`. */
  function GenAiAnswer(svc: Service, dec: Decoders, reply: Reply): (bool, AiValue) {
    match Receive(reply)
    case Failed(fault) => (false, Text(GenAiPrefix + svc.describe(fault)))
    case Body(body) =>
      match GenAiText(body)
      case None => (false, Text(GenAiPrefix + svc.describe(UnexpectedShape)))
      case Some(text) => ExtractJson(dec, Strip(text))
  }

  /** A reply succeeds only through generated text that decodes; every other
      failure is reported with the GenAI prefix. */
  lemma GenAiAnswerCases(svc: Service, dec: Decoders, reply: Reply)
    ensures var r := GenAiAnswer(svc, dec, reply);
      && (!r.0 ==> r.1.Text?)
      && (r.0 ==> Receive(reply).Body? && GenAiText(Receive(reply).json).Some?)
      && (Receive(reply).Body? && GenAiText(Receive(reply).json).Some? ==>
            r == ExtractJson(dec, Strip(GenAiText(Receive(reply).json).value)))
      && ((Receive(reply).Failed? || GenAiText(Receive(reply).json).None?) ==>
            StartsWith(r.1.text, GenAiPrefix))
  {
  }

  function RetriesLeft(retryCount: nat, maxRetries: int): nat {
    if retryCount < maxRetries then maxRetries - retryCount else 0
  }

  /** How the GenAI branch reads a reply that it does not retry. */
  function GenAiReader(svc: Service, dec: Decoders): Reply -> (bool, AiValue) {
    reply => GenAiAnswer(svc, dec, reply)
  }

  /** The GenAI branch with `max_retries` passed on to the retry, as its
      signature evidently intends. Every attempt sends the same request;
      only a 429 with retries left is retried, and `read` turns the last
      reply into the pair returned. */
  function PostGenAi(svc: Service, read: Reply -> (bool, AiValue), request: Request, retryCount: nat, maxRetries: int): (r: Asked)
    ensures 1 <= |r.sent| <= 1 + RetriesLeft(retryCount, maxRetries)
    ensures forall i :: 0 <= i < |r.sent| ==> r.sent[i] == request
    ensures forall n :: retryCount <= n < retryCount + |r.sent| - 1 ==>
      IsTooManyRequests(svc.post(request, n)) && n < maxRetries
    ensures var last := svc.post(request, retryCount + |r.sent| - 1);
      !IsTooManyRequests(last) || retryCount + |r.sent| - 1 >= maxRetries
    ensures var answer := read(svc.post(request, retryCount + |r.sent| - 1));
      r.ok == answer.0 && r.value == answer.1
    decreases RetriesLeft(retryCount, maxRetries)
  {
    var reply := svc.post(request, retryCount);
    if IsTooManyRequests(reply) && retryCount < maxRetries then
      var later := PostGenAi(svc, read, request, retryCount + 1, maxRetries);
      var r := Asked(later.ok, later.value, [request] + later.sent);
      assert retryCount + |r.sent| - 1 == retryCount + 1 + |later.sent| - 1;
      r
    else
      var answer := read(reply);
      Asked(answer.0, answer.1, [request])
  }

  /** The GenAI branch, on the corrected retry `PostGenAi`; with the default
      limit it is the retry as written (`AsWrittenAgreesOnDefault`). */
  function AskGenAi(svc: Service, dec: Decoders, prompt: string, url: string, key: string,
                    retryCount: nat, maxRetries: int): (r: Asked)
    ensures 1 <= |r.sent| <= 1 + RetriesLeft(retryCount, maxRetries)
    ensures forall i :: 0 <= i < |r.sent| ==> r.sent[i] == GenAiRequest(prompt, url, key)
  {
    PostGenAi(svc, GenAiReader(svc, dec), GenAiRequest(prompt, url, key), retryCount, maxRetries)
  }

  /** `ask_ai`: the provider name is compared case-insensitively; an unknown
      one is answered without any request. */
  function AskAi(svc: Service, dec: Decoders, prompt: string, url: string, key: string, provider: string,
                 retryCount: nat, maxRetries: int): (r: Asked)
    ensures Lower(provider) == "openai" ==> r == AskOpenAi(svc, prompt, url, key, retryCount)
    ensures Lower(provider) == "genai" ==> r == AskGenAi(svc, dec, prompt, url, key, retryCount, maxRetries)
    ensures Lower(provider) != "openai" && Lower(provider) != "genai" ==>
      r == Asked(false, Text(UnknownProvider(provider)), [])
  {
    if Lower(provider) == "openai" then AskOpenAi(svc, prompt, url, key, retryCount)
    else if Lower(provider) == "genai" then AskGenAi(svc, dec, prompt, url, key, retryCount, maxRetries)
    else Asked(false, Text(UnknownProvider(provider)), [])
  }

  // ---------------------------------------------------------------------------
  // The retry as written: the recursive call omits `max_retries`, which falls
  // back to its default.

  /** The requests after the first: one retry on the caller's limit, then
      the retries the default limit leaves. */
  function RetriesLeftAsWritten(retryCount: nat, maxRetries: int): nat {
    if retryCount < maxRetries then 1 + RetriesLeft(retryCount + 1, DefaultMaxRetries) else 0
  }

  /** The retry as written. Only a 429 is retried; the first attempt is held
      to the caller's `max_retries`, every later one to the default. */
  function PostGenAiAsWritten(svc: Service, read: Reply -> (bool, AiValue), request: Request, retryCount: nat, maxRetries: int): (r: Asked)
    ensures 1 <= |r.sent| <= 1 + RetriesLeftAsWritten(retryCount, maxRetries)
    ensures forall i :: 0 <= i < |r.sent| ==> r.sent[i] == request
    ensures forall n :: retryCount <= n < retryCount + |r.sent| - 1 ==>
      IsTooManyRequests(svc.post(request, n)) && n < (if n == retryCount then maxRetries else DefaultMaxRetries)
    ensures var last := svc.post(request, retryCount + |r.sent| - 1);
      || !IsTooManyRequests(last)
      || retryCount + |r.sent| - 1 >= (if |r.sent| == 1 then maxRetries else DefaultMaxRetries)
    ensures var answer := read(svc.post(request, retryCount + |r.sent| - 1));
      r.ok == answer.0 && r.value == answer.1
    decreases RetriesLeftAsWritten(retryCount, maxRetries)
  {
    var reply := svc.post(request, retryCount);
    if IsTooManyRequests(reply) && retryCount < maxRetries then
      var later := PostGenAiAsWritten(svc, read, request, retryCount + 1, DefaultMaxRetries);
      var r := Asked(later.ok, later.value, [request] + later.sent);
      assert retryCount + |r.sent| - 1 == retryCount + 1 + |later.sent| - 1;
      r
    else
      var (ok, value) := read(reply);
      Asked(ok, value, [request])
  }

  /** A service that answers every request with HTTP 429. */
  function AlwaysBusy(): Service {
    Service((request, attempt) => Answered(TooManyRequests, None), fault => "429 Client Error")
  }

  /** Asked for one retry, the code as written sends four requests. */
  lemma AsWrittenIgnoresMaxRetries(read: Reply -> (bool, AiValue), request: Request)
    ensures |PostGenAiAsWritten(AlwaysBusy(), read, request, 0, 1).sent| == 4
    ensures 4 > 1 + RetriesLeft(0, 1)
  {
    var svc := AlwaysBusy();
    assert IsTooManyRequests(svc.post(request, 3));
    assert |PostGenAiAsWritten(svc, read, request, 3, DefaultMaxRetries).sent| == 1;
    assert |PostGenAiAsWritten(svc, read, request, 2, DefaultMaxRetries).sent| == 2;
    assert |PostGenAiAsWritten(svc, read, request, 1, DefaultMaxRetries).sent| == 3;
  }

  /** A service that keeps answering 429 gets, from the code as written,
      exactly the requests its bound allows: from a first call, four whenever
      `max_retries` is positive, whatever its value. */
  lemma BusyServiceAsWritten(dec: Decoders, request: Request, retryCount: nat, maxRetries: int)
    ensures var r := PostGenAiAsWritten(AlwaysBusy(), GenAiReader(AlwaysBusy(), dec), request, retryCount, maxRetries);
      && |r.sent| == 1 + RetriesLeftAsWritten(retryCount, maxRetries)
      && !r.ok && StartsWith(r.value.text, GenAiPrefix)
    ensures retryCount == 0 && maxRetries > 0 ==> RetriesLeftAsWritten(retryCount, maxRetries) == DefaultMaxRetries
  {
    var svc := AlwaysBusy();
    if retryCount < maxRetries {
      BusyServiceExhaustsRetries(dec, request, retryCount + 1, DefaultMaxRetries);
      AsWrittenAgreesOnDefault(svc, GenAiReader(svc, dec), request, retryCount + 1);
    }
  }

  /** With the default limit, as `proof_and_repair_external_reference` calls
      it, the code as written behaves as the corrected one. */
  lemma {:induction false} AsWrittenAgreesOnDefault(svc: Service, read: Reply -> (bool, AiValue), request: Request, retryCount: nat)
    ensures PostGenAiAsWritten(svc, read, request, retryCount, DefaultMaxRetries)
         == PostGenAi(svc, read, request, retryCount, DefaultMaxRetries)
    decreases RetriesLeft(retryCount, DefaultMaxRetries)
  {
    if retryCount < DefaultMaxRetries {
      AsWrittenAgreesOnDefault(svc, read, request, retryCount + 1);
    }
  }

  /** A service that keeps answering 429 exhausts exactly the retries allowed;
      the last answer is reported as a GenAI failure. */
  lemma {:induction false} BusyServiceExhaustsRetries(dec: Decoders, request: Request, retryCount: nat, maxRetries: int)
    ensures var r := PostGenAi(AlwaysBusy(), GenAiReader(AlwaysBusy(), dec), request, retryCount, maxRetries);
      && |r.sent| == 1 + RetriesLeft(retryCount, maxRetries)
      && !r.ok && StartsWith(r.value.text, GenAiPrefix)
    decreases RetriesLeft(retryCount, maxRetries)
  {
    if retryCount < maxRetries {
      BusyServiceExhaustsRetries(dec, request, retryCount + 1, maxRetries);
    }
  }

  /** A 429 answered while retries remain is followed by the same request,
      whose outcome is returned as it is. */
  lemma RetryReturnsLaterOutcome(svc: Service, read: Reply -> (bool, AiValue), request: Request, retryCount: nat, maxRetries: int)
    requires IsTooManyRequests(svc.post(request, retryCount))
    requires retryCount < maxRetries
    ensures var r := PostGenAi(svc, read, request, retryCount, maxRetries);
      var later := PostGenAi(svc, read, request, retryCount + 1, maxRetries);
      r.ok == later.ok && r.value == later.value && r.sent == [request] + later.sent
  {
  }

  /** `ask_ai` never raises: every branch yields a flag and a value. A
      failure carries the provider's prefix, except the GenAI text that did
      not decode, which comes back stripped and otherwise unchanged. */
  lemma FailuresAreReported(svc: Service, dec: Decoders, prompt: string, url: string, key: string, provider: string,
                            retryCount: nat, maxRetries: int)
    ensures var r := AskAi(svc, dec, prompt, url, key, provider, retryCount, maxRetries);
      !r.ok ==>
        r.value.Text? && (
        || (Lower(provider) == "openai" && StartsWith(r.value.text, OpenAiPrefix))
        || (Lower(provider) != "openai" && Lower(provider) != "genai" && r.value.text == UnknownProvider(provider))
        || (&& Lower(provider) == "genai"
            && FailedAsLastReply(svc, GenAiRequest(prompt, url, key), retryCount, r)))
  {
    if Lower(provider) == "genai" {
      GenAiFailure(svc, dec, prompt, url, key, retryCount, maxRetries);
    }
  }

  /** The GenAI branch reads the failure off its last reply. */
  lemma GenAiFailure(svc: Service, dec: Decoders, prompt: string, url: string, key: string,
                     retryCount: nat, maxRetries: int)
    ensures FailedAsLastReply(svc, GenAiRequest(prompt, url, key), retryCount,
                              AskGenAi(svc, dec, prompt, url, key, retryCount, maxRetries))
  {
    var request := GenAiRequest(prompt, url, key);
    assert AskGenAi(svc, dec, prompt, url, key, retryCount, maxRetries)
        == PostGenAi(svc, GenAiReader(svc, dec), request, retryCount, maxRetries);
    ReadsLastReply(svc, dec, request, retryCount, maxRetries);
  }

  /** The outcome `r` of the retries starting at `retryCount` sent at least
      one request and has the shape of a failed answer to the last reply. */
  predicate FailedAsLastReply(svc: Service, request: Request, retryCount: nat, r: Asked) {
    r.sent != [] && FailureShape((r.ok, r.value), svc.post(request, retryCount + |r.sent| - 1))
  }

  lemma ReadsLastReply(svc: Service, dec: Decoders, request: Request, retryCount: nat, maxRetries: int)
    ensures FailedAsLastReply(svc, request, retryCount, PostGenAi(svc, GenAiReader(svc, dec), request, retryCount, maxRetries))
  {
    var r := PostGenAi(svc, GenAiReader(svc, dec), request, retryCount, maxRetries);
    GenAiLastAnswer(svc, dec, request, retryCount, maxRetries);
    GenAiAnswerFailure(svc, dec, svc.post(request, retryCount + |r.sent| - 1));
  }

  /** The GenAI branch returns what its last reply reads as. */
  lemma GenAiLastAnswer(svc: Service, dec: Decoders, request: Request, retryCount: nat, maxRetries: int)
    ensures var r := PostGenAi(svc, GenAiReader(svc, dec), request, retryCount, maxRetries);
      (r.ok, r.value) == GenAiAnswer(svc, dec, svc.post(request, retryCount + |r.sent| - 1))
  {
    LastReading(svc, GenAiReader(svc, dec), request, retryCount, maxRetries);
  }

  /** What a failed GenAI answer to `reply` looks like: the generated text,
      stripped, or a message with the GenAI prefix. */
  predicate FailureShape(answer: (bool, AiValue), reply: Reply) {
    !answer.0 ==>
      && answer.1.Text?
      && var last := Receive(reply);
         if last.Body? && GenAiText(last.json).Some? then answer.1.text == Strip(GenAiText(last.json).value)
         else StartsWith(answer.1.text, GenAiPrefix)
  }

  /** The retries return what the last reply reads as. */
  lemma LastReading(svc: Service, read: Reply -> (bool, AiValue), request: Request, retryCount: nat, maxRetries: int)
    ensures var r := PostGenAi(svc, read, request, retryCount, maxRetries);
      (r.ok, r.value) == read(svc.post(request, retryCount + |r.sent| - 1))
  {
  }

  lemma GenAiAnswerFailure(svc: Service, dec: Decoders, reply: Reply)
    ensures FailureShape(GenAiAnswer(svc, dec, reply), reply)
  {
    GenAiAnswerCases(svc, dec, reply);
  }

  /** OpenAI answers are text, never a decoded value. */
  lemma OpenAiGivesText(svc: Service, dec: Decoders, prompt: string, url: string, key: string, provider: string,
                        retryCount: nat, maxRetries: int)
    requires Lower(provider) == "openai"
    ensures AskAi(svc, dec, prompt, url, key, provider, retryCount, maxRetries).value.Text?
  {
  }
}
