/** POST /api/generate-syllabus: validates the topic, checks for the
    Perplexity key, asks for a five-module syllabus as JSON, parses the reply
    (directly, or else from its first ```json fenced block) and stamps the
    result with the generation time. The Perplexity call, JSON.parse and the
    clock are not executed here: the upstream outcome, the parser and the
    current time are parameters. */
module SyllabusRoute {
  import opened Wrappers
  import opened Http
  import opened Text

  // ---------------------------------------------------------------------------
  // JSON values and the parser
  // ---------------------------------------------------------------------------

  /** A value JSON.parse can produce. Object key order is not kept. */
  datatype Json =
    | JNull
    | JBool(b: bool)
    | JNumber(n: real)
    | JString(s: string)
    | JArray(items: seq<Json>)
    | JObject(fields: map<string, Json>)

  /** What JSON.parse does with a text: a value, or a SyntaxError and its message. */
  datatype Parsed = Parsed(value: Json) | SyntaxError(message: string)

  /** JSON.parse, left uninterpreted: any total function of the text. */
  type Parser = string -> Parsed

  // ---------------------------------------------------------------------------
  // The fenced block: /```json\n([\s\S]*?)\n```/
  // ---------------------------------------------------------------------------

  const Opener: string := "```json\n"
  const Closer: string := "\n```"

  /** `pat` occurs in `s` at position `j`. */
  predicate OccursAt(s: string, pat: string, j: nat) {
    j + |pat| <= |s| && s[j..j + |pat|] == pat
  }

  /** The first occurrence of `pat` in `s` at or after `from`. */
  function IndexOf(s: string, pat: string, from: nat): (k: Option<nat>)
    requires |pat| > 0
    ensures k.Some? ==> from <= k.value && OccursAt(s, pat, k.value)
    ensures k.Some? ==> forall j :: from <= j < k.value ==> !OccursAt(s, pat, j)
    ensures k.None? ==> forall j :: from <= j ==> !OccursAt(s, pat, j)
    decreases |s| - from
  {
    if from + |pat| > |s| then None
    else if s[from..from + |pat|] == pat then Some(from)
    else IndexOf(s, pat, from + 1)
  }

  /** Where the RegExp matches: the opener's position and the closer's. The
      match starts at the leftmost opener that some later closer completes,
      and the lazy body stops at the first such closer. */
  function FindFence(text: string): (m: Option<(nat, nat)>)
    ensures m.Some? ==>
      var (i, j) := m.value;
      && OccursAt(text, Opener, i) && i + |Opener| <= j && OccursAt(text, Closer, j)
      && (forall i': nat, j': nat :: i' < i && i' + |Opener| <= j' && OccursAt(text, Opener, i') ==> !OccursAt(text, Closer, j'))
      && (forall j': nat :: i + |Opener| <= j' < j ==> !OccursAt(text, Closer, j'))
    ensures m.None? ==>
      forall i': nat, j': nat :: i' + |Opener| <= j' && OccursAt(text, Opener, i') ==> !OccursAt(text, Closer, j')
  {
    match IndexOf(text, Opener, 0)
    case None => None
    case Some(i) =>
      match IndexOf(text, Closer, i + |Opener|)
      case None => None
      case Some(j) => Some((i, j))
  }

  /** The captured group of the RegExp, when it matches: the block
      opener + body + closer stands in the text where the fence starts, and
      the lazy body holds no closer of its own. */
  function FencedBody(text: string): (body: Option<string>)
    ensures body.Some? <==> FindFence(text).Some?
    ensures body.Some? ==> OccursAt(text, Opener + body.value + Closer, FindFence(text).value.0)
    ensures body.Some? ==> forall k :: !OccursAt(body.value, Closer, k)
  {
    match FindFence(text)
    case None => None
    case Some((i, j)) =>
      CaptureIsBlock(text, i, j, text[i + |Opener|..j]);
      Some(text[i + |Opener|..j])
  }

  /** The text between an opener and the first closer after it is a block
      whose body holds no closer. */
  lemma CaptureIsBlock(text: string, i: nat, j: nat, body: string)
    requires OccursAt(text, Opener, i) && i + |Opener| <= j && OccursAt(text, Closer, j)
    requires forall j': nat :: i + |Opener| <= j' < j ==> !OccursAt(text, Closer, j')
    requires body == text[i + |Opener|..j]
    ensures OccursAt(text, Opener + body + Closer, i)
    ensures forall k: nat :: !OccursAt(body, Closer, k)
  {
    assert text[i..j + |Closer|] == text[i..i + |Opener|] + body + text[j..j + |Closer|];
    forall k: nat ensures !OccursAt(body, Closer, k) {
      if OccursAt(body, Closer, k) {
        InnerSlice(text, i + |Opener|, j, k, |Closer|);
        assert OccursAt(text, Closer, i + |Opener| + k);
      }
    }
  }

  lemma InnerSlice(s: string, a: nat, b: nat, k: nat, n: nat)
    requires a <= b <= |s| && k + n <= b - a
    ensures s[a..b][k..k + n] == s[a + k..a + k + n]
  {
    var inner, direct := s[a..b][k..k + n], s[a + k..a + k + n];
    forall t | 0 <= t < n ensures inner[t] == direct[t] {
      assert inner[t] == s[a..b][k + t] == s[a + k + t];
    }
  }

  /** A reply wrapped in a fence is unwrapped exactly, provided the wrapped
      text contains no "\n```" of its own. */
  lemma FenceRoundTrip(body: string)
    requires forall j :: !OccursAt(body, Closer, j)
    ensures FencedBody(Opener + body + Closer) == Some(body)
  {
    var text := Opener + body + Closer;
    var e := |Opener| + |body|;
    assert text[..|Opener|] == Opener;
    assert text[e..] == Closer;
    assert text[|Opener|..e] == body;
    forall j | |Opener| <= j < e ensures !OccursAt(text, Closer, j) {
      NoCloserInBody(body, j);
    }
    IndexOfAt(text, Opener, 0, 0);
    IndexOfAt(text, Closer, |Opener|, e);
  }

  /** No closer starts inside the body of a fenced text: one that ends inside
      it would be the body's own, and one that runs past it would need the
      closer's first backtick where its newline is. */
  lemma NoCloserInBody(body: string, j: nat)
    requires forall j :: !OccursAt(body, Closer, j)
    requires |Opener| <= j < |Opener| + |body|
    ensures !OccursAt(Opener + body + Closer, Closer, j)
  {
    var text := Opener + body + Closer;
    var e := |Opener| + |body|;
    if j + |Closer| <= e {
      assert text[j..j + |Closer|] == body[j - |Opener|..j - |Opener| + |Closer|];
      assert !OccursAt(body, Closer, j - |Opener|);
    } else if j + |Closer| <= |text| {
      assert text[e] == '\n' by { assert text[e..] == Closer; assert text[e] == text[e..][0]; }
      assert text[j..j + |Closer|][e - j] == text[e];
      assert Closer[e - j] == '`';
    }
  }

  /** The search from `from` finds `k` when `pat` occurs there and nowhere
      between. */
  lemma {:induction false} IndexOfAt(s: string, pat: string, from: nat, k: nat)
    requires |pat| > 0 && from <= k && OccursAt(s, pat, k)
    requires forall j :: from <= j < k ==> !OccursAt(s, pat, j)
    ensures IndexOf(s, pat, from) == Some(k)
    decreases k - from
  {
    if from < k {
      IndexOfAt(s, pat, from + 1, k);
    }
  }

  // ---------------------------------------------------------------------------
  // Parsing the reply and stamping it
  // ---------------------------------------------------------------------------

  const ParseFailure: string := "Failed to parse syllabus JSON"
  const GeneratedAt: string := "generated_at"

  /** Direct parse first; only if it throws, the fenced block is parsed; with
      no fenced block the handler's own parse error. */
  function ParseReply(parse: Parser, text: string): (r: Parsed)
    ensures parse(text).Parsed? ==> r == parse(text)
    ensures parse(text).SyntaxError? && FencedBody(text).None? ==> r == SyntaxError(ParseFailure)
    ensures parse(text).SyntaxError? && FencedBody(text).Some? ==> r == parse(FencedBody(text).value)
  {
    match parse(text)
    case Parsed(v) => Parsed(v)
    case SyntaxError(_) =>
      match FencedBody(text)
      case None => SyntaxError(ParseFailure)
      case Some(b) => parse(b)
  }

  /** A fenced reply parses to what its body parses to, whenever the fenced
      text itself is not JSON (as no text starting with a backtick is). */
  lemma FencedReplyParsesAsBody(parse: Parser, body: string)
    requires forall j :: !OccursAt(body, Closer, j)
    requires parse(Opener + body + Closer).SyntaxError?
    ensures ParseReply(parse, Opener + body + Closer) == parse(body)
  {
    FenceRoundTrip(body);
  }

  /** `syllabus.generated_at = now` in a strict-mode module: an object gets the
      key set (added or overwritten) and keeps every other key; on an array
      the property is set but not serialised, so the reply is the array; on
      null or a primitive the assignment throws a TypeError (None). */
  function Stamp(v: Json, now: string): (r: Option<Json>)
    ensures v.JObject? <==> r.Some? && r.value.JObject?
    ensures v.JObject? ==>
      && r.value.fields.Keys == v.fields.Keys + {GeneratedAt}
      && r.value.fields[GeneratedAt] == JString(now)
      && forall k :: k in v.fields && k != GeneratedAt ==> r.value.fields[k] == v.fields[k]
    ensures v.JArray? ==> r == Some(v)
    ensures r.None? <==> !v.JObject? && !v.JArray?
  {
    match v
    case JObject(fields) => Some(JObject(fields[GeneratedAt := JString(now)]))
    case JArray(_) => Some(v)
    case _ => None
  }

  // ---------------------------------------------------------------------------
  // The handler
  // ---------------------------------------------------------------------------

  const SystemPrompt: string :=
    "You are a curriculum designer. Generate a structured 5-module learning syllabus with curated YouTube video recommendations. Return ONLY valid JSON with this structure: {\"topic\": \"...\", \"modules\": [{\"id\": 1, \"title\": \"...\", \"description\": \"...\", \"video_url\": \"https://www.youtube.com/watch?v=...\", \"channel\": \"...\", \"duration\": \"...\"}]}"

  const TopicRequired: string := "Topic is required"
  const MissingKey: string := "Perplexity API key not configured"
  const CatchFallback: string := "Failed to generate syllabus"
  const EmptyContent: string := "{}"

  /** The user message sent upstream; the topic goes in untrimmed. */
  function UserContent(topic: string): string {
    "Create a 5-module learning syllabus for: " + topic + ". Include specific YouTube video URLs for each module."
  }

  /** The chat-completion request the handler sends. */
  datatype PerplexityRequest = PerplexityRequest(
    apiKey: string,
    model: string,
    systemContent: string,
    userContent: string,
    temperature: real,
    maxTokens: nat)

  /** What one invocation does: the reply it sends and the upstream request it
      made, if any. */
  datatype Handled = Handled(reply: Reply<Json>, call: Option<PerplexityRequest>)

  /** The part after the upstream call. `typeError` is the message of the
      TypeError the runtime throws when stamping a non-object. */
  function Answer(upstream: Upstream<Option<string>>, parse: Parser, now: string, typeError: string): (r: Reply<Json>)
    ensures upstream.Threw? ==> r == Error(500, CatchMessage(upstream.message, CatchFallback))
    ensures upstream.NotOk? ==> r == Error(500, "Perplexity API error: " + upstream.statusText)
    ensures upstream.Answered? ==>
      var text := if Truthy(upstream.payload) then upstream.payload.value else EmptyContent;
      match ParseReply(parse, text)
      case SyntaxError(m) => r == Error(500, CatchMessage(m, CatchFallback))
      case Parsed(v) =>
        && (Stamp(v, now).Some? ==> r == Ok(Stamp(v, now).value))
        && (Stamp(v, now).None? ==> r == Error(500, CatchMessage(typeError, CatchFallback)))
  {
    match upstream
    case Threw(m) => Error(500, CatchMessage(m, CatchFallback))
    case NotOk(statusText) => Error(500, CatchMessage("Perplexity API error: " + statusText, CatchFallback))
    case Answered(content) =>
      var text := if Truthy(content) then content.value else EmptyContent;
      match ParseReply(parse, text)
      case SyntaxError(m) => Error(500, CatchMessage(m, CatchFallback))
      case Parsed(v) =>
        match Stamp(v, now)
        case None => Error(500, CatchMessage(typeError, CatchFallback))
        case Some(stamped) => Ok(stamped)
  }

  function GenerateSyllabus(
    body: RequestBody<Option<string>>, apiKey: Option<string>,
    upstream: Upstream<Option<string>>, parse: Parser, now: string, typeError: string): (h: Handled)
    ensures body.Unreadable? ==> h == Handled(Error(500, CatchMessage(body.message, CatchFallback)), None)
    ensures body.Fields? ==>
      (h == Handled(Error(400, TopicRequired), None) <==> body.fields.None? || IsBlank(body.fields.value))
    ensures body.Fields? && body.fields.Some? && !IsBlank(body.fields.value) && !Truthy(apiKey) ==>
      h == Handled(Error(500, MissingKey), None)
    ensures h.call.Some? <==> body.Fields? && body.fields.Some? && !IsBlank(body.fields.value) && Truthy(apiKey)
    ensures h.call.Some? ==>
      && h.call.value == PerplexityRequest(apiKey.value, "sonar-pro", SystemPrompt, UserContent(body.fields.value), 0.2, 2000)
      && h.reply == Answer(upstream, parse, now, typeError)
  {
    match body
    case Unreadable(m) => Handled(Error(500, CatchMessage(m, CatchFallback)), None)
    case Fields(topic) =>
      if !Truthy(topic) || Trim(topic.value) == "" then
        Handled(Error(400, TopicRequired), None)
      else if !Truthy(apiKey) then
        Handled(Error(500, MissingKey), None)
      else
        var call := PerplexityRequest(apiKey.value, "sonar-pro", SystemPrompt, UserContent(topic.value), 0.2, 2000);
        Handled(Answer(upstream, parse, now, typeError), Some(call))
  }

  // ---------------------------------------------------------------------------
  // Properties
  // ---------------------------------------------------------------------------

  /** An answer without content is read as "{}", so (JSON.parse reading "{}" as
      the empty object) the reply is an object holding only generated_at. */
  lemma EmptyContentGivesStampOnly(parse: Parser, now: string, typeError: string, content: Option<string>)
    requires !Truthy(content)
    requires parse(EmptyContent) == Parsed(JObject(map[]))
    ensures Answer(Answered(content), parse, now, typeError) == Ok(JObject(map[GeneratedAt := JString(now)]))
  {
  }

  /** A fenced reply that is not JSON as a whole gives the stamped body. */
  lemma FencedAnswer(parse: Parser, now: string, typeError: string, body: string, fields: map<string, Json>)
    requires forall j :: !OccursAt(body, Closer, j)
    requires parse(Opener + body + Closer).SyntaxError?
    requires parse(body) == Parsed(JObject(fields))
    ensures Answer(Answered(Some(Opener + body + Closer)), parse, now, typeError)
         == Ok(JObject(fields[GeneratedAt := JString(now)]))
  {
    FencedReplyParsesAsBody(parse, body);
  }

  /** A reply that is neither JSON nor fenced fails with the handler's own message. */
  lemma UnfencedGarbage(parse: Parser, now: string, typeError: string, text: string)
    requires text != ""
    requires parse(text).SyntaxError?
    requires FencedBody(text).None?
    ensures Answer(Answered(Some(text)), parse, now, typeError) == Error(500, ParseFailure)
  {
  }

  /** A fenced block that is found but not JSON fails with the parser's message. */
  lemma FencedGarbage(parse: Parser, now: string, typeError: string, text: string)
    requires text != ""
    requires parse(text).SyntaxError?
    requires FencedBody(text).Some? && parse(FencedBody(text).value).SyntaxError?
    requires parse(FencedBody(text).value).message != ""
    ensures Answer(Answered(Some(text)), parse, now, typeError)
         == Error(500, parse(FencedBody(text).value).message)
  {
  }
}
