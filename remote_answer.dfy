/** openaiAnswer: the optional remote answer. With no key it gives null and
    sends nothing; otherwise it posts one chat-completion request and gives
    the first choice's message content, or null on any failure. The HTTP
    exchange itself is outside the model: its outcome is an input. */
module RemoteProvider {
  import opened Wrappers

  const Endpoint := "https://api.openai.com/v1/chat/completions"
  const ModelName := "gpt-4o-mini"
  const SystemInstruction := "You are an assistant describing a QA engineer's portfolio in Arabic concisely."
  const Temperature: real := 0.6

  /** The request openaiAnswer sends: where, with which credential, and the
      body's model, two messages and temperature. */
  datatype CompletionRequest = CompletionRequest(
    url: string, authorization: string, model: string,
    systemPrompt: string, userPrompt: string, temperature: real)

  /** The parts of a response body the code reads:
      `data.choices?.[0]?.message?.content`; None marks an absent field. */
  datatype ChoiceMessage = ChoiceMessage(content: Option<string>)
  datatype Choice = Choice(message: Option<ChoiceMessage>)
  datatype Completion = Completion(choices: Option<seq<Choice>>)

  /** What sending the request gave: fetch rejected (network or CORS failure),
      or a response with its status and its body as res.json() reads it
      (None: res.json() rejects). */
  datatype HttpOutcome = Rejected | Responded(status: int, body: Option<Completion>)

  /** Why no remote answer is available; the code logs it and returns null. */
  datatype Unavailability = NoKey | Transport | BadStatus(status: int) | BadBody | NoContent

  datatype RemoteResult = Answer(text: string) | Unavailable(reason: Unavailability)

  /** The request sent for this key and message; None when the key is empty,
      which the code checks before any fetch. */
  function RequestFor(key: string, message: string): Option<CompletionRequest> {
    if key == "" then None
    else Some(CompletionRequest(Endpoint, "Bearer " + key, ModelName, SystemInstruction, message, Temperature))
  }

  /** `res.ok`: a status in the range 200-299. */
  predicate IsOk(status: int) {
    200 <= status <= 299
  }

  /** `data.choices?.[0]?.message?.content ?? null`. */
  function ContentOf(c: Completion): Option<string> {
    match c.choices
    case None => None
    case Some(cs) =>
      if cs == [] then None
      else
        match cs[0].message
        case None => None
        case Some(m) => m.content
  }

  /** openaiAnswer, given the key and the outcome of the request it would send. */
  function RemoteAnswer(key: string, outcome: HttpOutcome): RemoteResult {
    if key == "" then Unavailable(NoKey)
    else
      match outcome
      case Rejected => Unavailable(Transport)
      case Responded(status, body) =>
        if !IsOk(status) then Unavailable(BadStatus(status))
        else
          match body
          case None => Unavailable(BadBody)
          case Some(c) =>
            match ContentOf(c)
            case None => Unavailable(NoContent)
            case Some(text) => Answer(text)
  }

  /** The value openaiAnswer resolves to: the answer text, or null (None). */
  function Nullable(r: RemoteResult): Option<string> {
    match r
    case Answer(text) => Some(text)
    case Unavailable(_) => None
  }

  /** A request is sent exactly when a key is set; it carries the key as a
      bearer token and the message unchanged as the user prompt. */
  lemma RequestCarriesKeyAndMessage(key: string, message: string)
    ensures RequestFor(key, message).None? <==> key == ""
    ensures RequestFor(key, message).Some? ==>
      && RequestFor(key, message).value.authorization == "Bearer " + key
      && RequestFor(key, message).value.userPrompt == message
      && RequestFor(key, message).value.url == Endpoint
  {
  }

  /** With no key the result is null whatever the network would have done. */
  lemma NoKeyNoAnswer(outcome: HttpOutcome)
    ensures RemoteAnswer("", outcome) == Unavailable(NoKey)
    ensures Nullable(RemoteAnswer("", outcome)) == None
  {
  }

  /** A text comes back exactly when the key is set, the response is ok, its
      body parses and its first choice has message content; the text is that
      content. Every other path gives null. */
  lemma AnswerIff(key: string, outcome: HttpOutcome, text: string)
    ensures RemoteAnswer(key, outcome) == Answer(text) <==>
      && key != ""
      && outcome.Responded? && IsOk(outcome.status)
      && outcome.body.Some?
      && outcome.body.value.choices.Some?
      && |outcome.body.value.choices.value| > 0
      && outcome.body.value.choices.value[0].message.Some?
      && outcome.body.value.choices.value[0].message.value.content == Some(text)
  {
  }

  /** The value openaiAnswer resolves to is the text exactly under the
      conditions of AnswerIff, and null exactly when the key is empty, the
      request is rejected, the status is not ok, the body does not parse, or
      the first choice's message content is missing. */
  lemma NullExactlyOnFailure(key: string, outcome: HttpOutcome, text: string)
    ensures Nullable(RemoteAnswer(key, outcome)) == Some(text) <==>
      && key != ""
      && outcome.Responded? && IsOk(outcome.status)
      && outcome.body.Some?
      && outcome.body.value.choices.Some?
      && |outcome.body.value.choices.value| > 0
      && outcome.body.value.choices.value[0].message.Some?
      && outcome.body.value.choices.value[0].message.value.content == Some(text)
    ensures Nullable(RemoteAnswer(key, outcome)).None? <==>
      || key == ""
      || outcome.Rejected?
      || (outcome.Responded? && !IsOk(outcome.status))
      || (outcome.Responded? && IsOk(outcome.status) && outcome.body.None?)
      || (outcome.Responded? && IsOk(outcome.status) && outcome.body.Some? &&
          var choices := outcome.body.value.choices;
          || choices.None?
          || |choices.value| == 0
          || choices.value[0].message.None?
          || choices.value[0].message.value.content.None?)
  {
    AnswerIff(key, outcome, text);
  }

  /** A non-ok status (401 Unauthorized, say) is null, whatever the body. */
  lemma BadStatusIsNull(key: string, status: int, body: Option<Completion>)
    requires key != "" && !IsOk(status)
    ensures RemoteAnswer(key, Responded(status, body)) == Unavailable(BadStatus(status))
  {
  }
}
