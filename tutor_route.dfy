/** POST /api/tutor: validates the question and transcript, checks for the
    Gemini key, sends one prompt built from a fixed instruction, the transcript
    and the question, and returns the reply text with the timestamps it cites.
    The Gemini call is not executed here: its outcome is a parameter, and the
    handler reports the request it would send (None when it sends none). */
module TutorRoute {
  import opened Wrappers
  import opened Http
  import opened Timestamps
  import Text

  datatype Role = User | Assistant

  /** One entry of a chat log, as the chat panel keeps it and sends it. */
  datatype Message = Message(role: Role, content: string)

  /** The destructured request body; a field the client left out is None. */
  datatype TutorRequest = TutorRequest(
    question: Option<string>,
    transcript: Option<string>,
    chatHistory: Option<seq<Message>>)

  /** The request the handler sends to Gemini. */
  datatype GeminiRequest = GeminiRequest(apiKey: string, text: string, temperature: real, maxOutputTokens: nat)

  /** The 200 body: the reply text and its timestamp references. */
  datatype TutorReply = TutorReply(response: string, timestampReferences: seq<TimestampReference>)

  /** What one invocation does: the reply it sends and the upstream request it
      made, if any. */
  datatype Handled = Handled(reply: Reply<TutorReply>, call: Option<GeminiRequest>)

  const SystemPrompt: string :=
    "You are an AI tutor helping students understand video content. Use the provided video transcript to answer questions accurately. When referencing specific parts of the video, cite the timestamp (e.g., \"At 5:30...\"). Be concise and educational."

  const TranscriptHeading: string := "Video Transcript:\n"
  const QuestionHeading: string := "\n\nStudent Question: "

  const MissingFields: string := "question and transcript are required"
  const MissingKey: string := "Gemini API key not configured"
  const CatchFallback: string := "Failed to get tutor response"
  const NoAnswer: string := "Unable to generate response."

  /** The single text part sent upstream:
      systemPrompt + "\n\n" + "Video Transcript:\n" + transcript + "\n\nStudent Question: " + question. */
  function PromptText(transcript: string, question: string): (p: string)
    ensures |p| == |SystemPrompt| + 2 + |TranscriptHeading| + |transcript| + |QuestionHeading| + |question|
    ensures p[..|SystemPrompt|] == SystemPrompt
    ensures p[|SystemPrompt|..|SystemPrompt| + 2 + |TranscriptHeading|] == "\n\n" + TranscriptHeading
    ensures p[|SystemPrompt| + 2 + |TranscriptHeading|..][..|transcript|] == transcript
    ensures p[|p| - |question| - |QuestionHeading|..|p| - |question|] == QuestionHeading
    ensures p[|p| - |question|..] == question
  {
    var p := SystemPrompt + "\n\n" + TranscriptHeading + transcript + QuestionHeading + question;
    assert p[|SystemPrompt| + 2 + |TranscriptHeading|..] == transcript + QuestionHeading + question;
    p
  }

  /** The part after the upstream call: the reply for each upstream outcome. */
  function Answer(gemini: Upstream<Option<string>>): (r: Reply<TutorReply>)
    ensures gemini.Threw? ==> r == Error(500, CatchMessage(gemini.message, CatchFallback))
    ensures gemini.NotOk? ==> r == Error(500, "Gemini API error: " + gemini.statusText)
    ensures gemini.Answered? ==> r.Ok?
    ensures gemini.Answered? && Truthy(gemini.payload) ==> r.body.response == gemini.payload.value
    ensures gemini.Answered? && !Truthy(gemini.payload) ==> r.body.response == NoAnswer
    ensures r.Ok? ==> r.body.timestampReferences == References(r.body.response)
  {
    match gemini
    case Threw(m) => Error(500, CatchMessage(m, CatchFallback))
    case NotOk(statusText) => Error(500, CatchMessage("Gemini API error: " + statusText, CatchFallback))
    case Answered(text) =>
      var response := if Truthy(text) then text.value else NoAnswer;
      Ok(TutorReply(response, References(response)))
  }

  /** The handler. Validation comes first (400), then the key check (500), and
      only then the upstream call, whose request carries the prompt. */
  function Tutor(body: RequestBody<TutorRequest>, apiKey: Option<string>, gemini: Upstream<Option<string>>): (h: Handled)
    ensures body.Unreadable? ==> h == Handled(Error(500, CatchMessage(body.message, CatchFallback)), None)
    ensures body.Fields? ==>
      (h.reply == Error(400, MissingFields) <==> !Truthy(body.fields.question) || !Truthy(body.fields.transcript))
    ensures body.Fields? && Truthy(body.fields.question) && Truthy(body.fields.transcript) && !Truthy(apiKey) ==>
      h == Handled(Error(500, MissingKey), None)
    ensures h.call.Some? <==>
      body.Fields? && Truthy(body.fields.question) && Truthy(body.fields.transcript) && Truthy(apiKey)
    ensures h.call.Some? ==>
      && h.call.value.apiKey == apiKey.value
      && h.call.value.text == PromptText(body.fields.transcript.value, body.fields.question.value)
      && h.call.value.temperature == 0.7 && h.call.value.maxOutputTokens == 1000
      && h.reply == Answer(gemini)
  {
    match body
    case Unreadable(m) => Handled(Error(500, CatchMessage(m, CatchFallback)), None)
    case Fields(req) =>
      if !Truthy(req.question) || !Truthy(req.transcript) then
        Handled(Error(400, MissingFields), None)
      else if !Truthy(apiKey) then
        Handled(Error(500, MissingKey), None)
      else
        var call := GeminiRequest(apiKey.value, PromptText(req.transcript.value, req.question.value), 0.7, 1000);
        Handled(Answer(gemini), Some(call))
  }

  // ---------------------------------------------------------------------------
  // Properties
  // ---------------------------------------------------------------------------

  /** The chat history is accepted but plays no part: two requests that differ
      only in it are handled identically. */
  lemma ChatHistoryIgnored(req: TutorRequest, other: Option<seq<Message>>, apiKey: Option<string>, gemini: Upstream<Option<string>>)
    ensures Tutor(Fields(req), apiKey, gemini) == Tutor(Fields(req.(chatHistory := other)), apiKey, gemini)
  {
  }

  /** Whitespace counts as content: a blank but non-empty question passes validation. */
  lemma BlankQuestionAccepted(question: string, transcript: string, apiKey: string, gemini: Upstream<Option<string>>)
    requires question != "" && Text.IsBlank(question) && transcript != "" && apiKey != ""
    ensures Tutor(Fields(TutorRequest(Some(question), Some(transcript), None)), Some(apiKey), gemini).call.Some?
  {
  }

  /** The fallback reply cites no timestamp, so it carries no references. */
  lemma {:induction false} NoAnswerHasNoReferences()
    ensures References(NoAnswer) == []
  {
    forall p | 0 <= p < |NoAnswer| ensures !MatchesAt(NoAnswer, p) {
      assert !Text.IsDigit(NoAnswer[p]);
    }
    ScanIsUnique(NoAnswer, 0, []);
  }

  /** So an upstream answer without text gives the fallback and no references. */
  lemma EmptyAnswer(apiKey: string, question: string, transcript: string)
    requires apiKey != "" && question != "" && transcript != ""
    ensures Tutor(Fields(TutorRequest(Some(question), Some(transcript), None)), Some(apiKey), Answered(None)).reply
         == Ok(TutorReply(NoAnswer, []))
  {
    NoAnswerHasNoReferences();
  }
}
