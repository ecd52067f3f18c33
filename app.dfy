/**
 * The `/api/chat` handler of app.py: the request body with its default
 * subject, the blank-message check, the subject normalisation and fallback,
 * the call into a fresh teacher, and the `except Exception` that turns every
 * failure, its own 400 included, into the same 500.
 */
module App {
  import opened Wrappers
  import opened PyStr
  import opened Tutor

  /** The subjects the handler accepts, in lower case. */
  const Subjects := ["maths", "physics", "chemistry"]
  const DefaultSubject := "maths"
  const SuccessStatus := "success"
  const EmptyMessageDetail := "Message cannot be empty"
  const GenericErrorDetail := "Sorry, I encountered an error. Please try again."

  /** The `ChatRequest` body. */
  datatype ChatRequest = ChatRequest(message: string, subject: string)

  /** The `ChatResponse` body. */
  datatype ChatResponse = ChatResponse(response: string, status: string)

  /** An `HTTPException` with its status code and detail. */
  datatype HttpError = HttpError(statusCode: int, detail: string)

  /** A request body as parsed: `subject` stands for the field, absent or given. */
  function MakeChatRequest(message: string, subject: Option<string>): (r: ChatRequest)
    ensures r.message == message
    ensures subject.None? ==> r.subject == DefaultSubject
    ensures subject.Some? ==> r.subject == subject.value
  {
    ChatRequest(message, match subject case None => DefaultSubject case Some(s) => s)
  }

  /** `request.subject.lower()`, replaced by "maths" when it is not one of the three subjects. */
  function NormalizeSubject(subject: string): (r: string)
    ensures r in Subjects
  {
    var s := Lower(subject);
    if s in Subjects then s else DefaultSubject
  }

  /** The part of the `try` before the teacher is built: the 400 for a blank message, or the subject to teach. */
  function Validate(request: ChatRequest): Result<string, HttpError> {
    if Strip(request.message) == [] then Failure(HttpError(400, EmptyMessageDetail))
    else Success(NormalizeSubject(request.subject))
  }

  /** The `except Exception` clause: whatever was raised, the caller gets the generic 500. */
  function HandleException<E>(e: E): (r: HttpError)
    ensures r.statusCode == 500 && r.detail == GenericErrorDetail
  {
    HttpError(500, GenericErrorDetail)
  }

  /** What `chat` answers, the cache after it, the model requests it sent and the replies left. */
  datatype Served = Served(result: Result<ChatResponse, HttpError>, entries: map<CacheKey, string>, sent: seq<seq<Message>>, rest: seq<string>)

  /** `chat(request)` given the shared cache's entries and the replies the model will give. */
  function ChatOutcome(request: ChatRequest, entries: map<CacheKey, string>, pending: seq<string>): Served {
    match Validate(request)
    case Failure(e) => Served(Failure(HandleException(e)), entries, [], pending)
    case Success(subject) =>
      var t := TeachOutcome(subject, entries, request.message, pending);
      match t.result
      case Failure(e) => Served(Failure(HandleException(e)), t.entries, t.sent, t.rest)
      case Success(answer) => Served(Success(ChatResponse(answer, SuccessStatus)), t.entries, t.sent, t.rest)
  }

  /**
   * The handler. A fresh teacher is built for the request, but it is given
   * the one shared cache, as the class attribute is shared in the source.
   */
  method Chat(request: ChatRequest, llm: LanguageModel, cache: ResponseCache) returns (r: Result<ChatResponse, HttpError>)
    modifies llm, cache
    ensures var o := ChatOutcome(request, old(cache.entries), old(llm.replies));
      && r == o.result && cache.entries == o.entries
      && llm.log == old(llm.log) + o.sent && llm.replies == o.rest
  {
    if Strip(request.message) == [] {
      var raised := HttpError(400, EmptyMessageDetail);
      return Failure(HandleException(raised));
    }
    var subject := Lower(request.subject);
    if subject !in Subjects {
      subject := DefaultSubject;
    }
    LowerOfLower(subject);
    var teacher := new Teacher(subject, llm, cache);
    var answer := teacher.Teach(request.message);
    match answer
    case Failure(e) =>
      r := Failure(HandleException(e));
    case Success(text) =>
      r := Success(ChatResponse(text, SuccessStatus));
  }

  /** An omitted subject is "maths". */
  lemma DefaultSubjectIsMaths(message: string)
    ensures MakeChatRequest(message, None).subject == "maths"
  {
  }

  /**
   * The subject in upper, lower or mixed case is kept when, lower-cased, it
   * is one of the three; anything else becomes "maths". Normalising twice
   * changes nothing.
   */
  lemma SubjectFallback(subject: string)
    ensures Lower(subject) in Subjects ==> NormalizeSubject(subject) == Lower(subject)
    ensures Lower(subject) !in Subjects ==> NormalizeSubject(subject) == "maths"
    ensures NormalizeSubject(NormalizeSubject(subject)) == NormalizeSubject(subject)
  {
    var r := NormalizeSubject(subject);
    LowerOfLower(r);
  }

  /**
   * A blank message, empty or all whitespace, is answered with the generic
   * 500, not the 400 raised for it, before any teacher is built: no model
   * call is made and the cache is untouched.
   */
  lemma BlankMessageIsGeneric500(request: ChatRequest, entries: map<CacheKey, string>, pending: seq<string>)
    requires AllSpace(request.message)
    ensures ChatOutcome(request, entries, pending) ==
      Served(Failure(HttpError(500, GenericErrorDetail)), entries, [], pending)
  {
    BlankIffAllSpace(request.message);
  }

  /** The caller never sees a 400: every failure is the generic 500. */
  lemma EveryFailureIsGeneric500(request: ChatRequest, entries: map<CacheKey, string>, pending: seq<string>)
    ensures ChatOutcome(request, entries, pending).result.Failure? ==>
      ChatOutcome(request, entries, pending).result.error == HttpError(500, GenericErrorDetail)
  {
  }

  /** A subject outside the three is served exactly as "maths" would be. */
  lemma InvalidSubjectServedAsMaths(request: ChatRequest, entries: map<CacheKey, string>, pending: seq<string>)
    requires Lower(request.subject) !in Subjects
    ensures ChatOutcome(request, entries, pending) == ChatOutcome(request.(subject := "maths"), entries, pending)
  {
    var m := request.(subject := DefaultSubject);
    assert NormalizeSubject(m.subject) == DefaultSubject by {
      LowerOfLower(DefaultSubject);
    }
    assert Validate(m) == Validate(request);
  }

  /**
   * For a message that is not blank, `chat` is `teach` on a teacher of the
   * lower-cased valid subject: the answer is `teach`'s with status "success",
   * a raising `teach` gives the generic 500, and the cache and the calls are
   * `teach`'s.
   */
  lemma ChatIsTeach(request: ChatRequest, entries: map<CacheKey, string>, pending: seq<string>)
    requires !AllSpace(request.message) && Lower(request.subject) in Subjects
    ensures var o := ChatOutcome(request, entries, pending);
      var t := TeachOutcome(Lower(request.subject), entries, request.message, pending);
      && (t.result.Success? <==> o.result.Success?)
      && (t.result.Success? ==> o.result.value == ChatResponse(t.result.value, "success"))
      && (t.result.Failure? ==> o.result.error == HttpError(500, GenericErrorDetail))
      && o.entries == t.entries && o.sent == t.sent && o.rest == t.rest
  {
    BlankIffAllSpace(request.message);
  }
}
