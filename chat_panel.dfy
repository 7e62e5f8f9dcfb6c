/** The tutor chat panel: an append-only log of user and assistant messages,
    a text input, and clickable timestamps that seek the video. The request to
    /api/tutor is not executed: `handleSubmit` is split at its `await` into
    BeginSubmit (before the request) and FinishSubmit (after it, with the
    outcome as a parameter). */
module ChatPanel {
  import opened Wrappers
  import opened Http
  import opened Text
  import opened LearningStore
  import opened Timestamps
  import opened TutorRoute
  import TranscriptPanel

  // ---------------------------------------------------------------------------
  // handleTimestampClick's parse
  // ---------------------------------------------------------------------------

  /** The seconds a timestamp click seeks to: the first `(\d{1,2}):(\d{2})`
      match, valued parseInt(group 1) * 60 + parseInt(group 2); None when the
      text holds no match. */
  function ClickSeconds(timeString: string): (n: Option<nat>)
    ensures n.None? <==> forall p :: 0 <= p < |timeString| ==> !MatchesAt(timeString, p)
  {
    match FirstMatch(timeString)
    case None => None
    case Some(m) =>
      assert MatchesAt(timeString, m.start);
      var tok := Token(timeString, m);
      TokenOfMatch(timeString, m);
      Some(DecimalValue(tok[..|tok| - 3]) * 60 + DecimalValue(tok[|tok| - 2..]))
  }

  /** Clicking a timestamp in a tutor reply seeks to the same second as the
      first timestamp reference the tutor route reports for that reply. */
  lemma ClickAgreesWithReferences(reply: string)
    requires FirstMatch(reply).Some?
    ensures References(reply) != []
    ensures ClickSeconds(reply) == Some(References(reply)[0].seconds)
  {
    var m := FirstMatch(reply).value;
    assert Scan(reply, 0) != [] && Scan(reply, 0)[0] == m;
    TokenOfMatch(reply, m);
    SplitToken(Token(reply, m));
  }

  /** The first match is the one at the leftmost position that matches. */
  lemma FirstMatchAt(s: string, p: nat)
    requires MatchesAt(s, p)
    requires forall q :: 0 <= q < p ==> !MatchesAt(s, q)
    ensures FirstMatch(s) == Some(Span(p, MatchLen(s, p)))
  {
    var first := FirstMatch(s);
    assert p < |s|;
    assert first.Some?;
    assert MatchesAt(s, first.value.start);
    assert first.value.start == p;
  }

  /** A whole token `m:ss` or `mm:ss` is matched from its first character,
      so a click on it seeks to its minutes * 60 + seconds. */
  lemma ClickWholeToken(t: string)
    requires IsToken(t)
    ensures ClickSeconds(t) == Some(DecimalValue(t[..|t| - 3]) * 60 + DecimalValue(t[|t| - 2..]))
  {
    assert MatchLen(t, 0) == |t|;
    FirstMatchAt(t, 0);
    ClickOfFirst(t, Span(0, |t|));
    assert Token(t, Span(0, |t|)) == t;
  }

  /** The click value read off the first match. */
  lemma ClickOfFirst(s: string, m: Span)
    requires FirstMatch(s) == Some(m)
    ensures |Token(s, m)| >= 4 && AllDigits(Token(s, m)[..|Token(s, m)| - 3]) && AllDigits(Token(s, m)[|Token(s, m)| - 2..])
    ensures ClickSeconds(s) == Some(DecimalValue(Token(s, m)[..|Token(s, m)| - 3]) * 60 + DecimalValue(Token(s, m)[|Token(s, m)| - 2..]))
  {
    TokenOfMatch(s, m);
  }

  /** A click on a formatTime label seeks to the labelled time modulo 100
      minutes: below 6000 seconds the label round-trips; from 100 minutes on
      the leftmost match takes only the last two minute digits. */
  lemma ClickFormatTime(n: nat)
    ensures ClickSeconds(TranscriptPanel.FormatTime(n as real)) == Some(n % 6000)
  {
    TranscriptPanel.FormatTimeShape(n);
    ClickSecondsLabel(TranscriptPanel.FormatTime(n as real), n);
  }

  /** A text shaped like the label of `n` seconds clicks to `n` modulo 6000. */
  lemma ClickSecondsLabel(t: string, n: nat)
    requires TranscriptPanel.IsLabel(t, n / 60, n % 60)
    ensures ClickSeconds(t) == Some(n % 6000)
  {
    ClickLabel(n / 60, n % 60, t);
    HundredMinutesWrap(n);
  }

  /** The same, for any text shaped like the label of `minutes`:`seconds`. */
  lemma ClickLabel(minutes: nat, seconds: nat, t: string)
    requires TranscriptPanel.IsLabel(t, minutes, seconds)
    ensures ClickSeconds(t) == Some(minutes % 100 * 60 + seconds)
  {
    if minutes < 100 {
      ClickShortLabel(t, minutes, seconds);
    } else {
      ClickLongLabel(t, minutes, seconds);
    }
  }

  lemma ClickShortLabel(t: string, minutes: nat, seconds: nat)
    requires TranscriptPanel.IsLabel(t, minutes, seconds) && minutes < 100
    ensures ClickSeconds(t) == Some(minutes % 100 * 60 + seconds)
  {
    ShortLabelValue(t, minutes, seconds);
    ClickWholeToken(t);
  }

  lemma ClickLongLabel(t: string, minutes: nat, seconds: nat)
    requires TranscriptPanel.IsLabel(t, minutes, seconds) && minutes >= 100
    ensures ClickSeconds(t) == Some(minutes % 100 * 60 + seconds)
  {
    LongLabelFirstMatch(t, minutes, seconds);
    ClickOfFirst(t, Span(|t| - 5, 5));
    LongLabelValue(t, minutes, seconds);
  }

  /** Minutes mod 100 and seconds of the minute make up n mod 6000. */
  lemma HundredMinutesWrap(n: nat)
    ensures (n / 60) % 100 * 60 + n % 60 == n % 6000
  {
    var m, r := n / 60, n % 60;
    var a, b := m / 100, m % 100;
    assert n == 60 * m + r;
    assert m == 100 * a + b;
    assert n == 6000 * a + (60 * b + r);
    assert 0 <= 60 * b + r < 6000;
  }

  /** A label with one or two minute digits is a whole token, and its value
      is the labelled time. */
  lemma ShortLabelValue(t: string, minutes: nat, seconds: nat)
    requires TranscriptPanel.IsLabel(t, minutes, seconds) && minutes < 100
    ensures IsToken(t)
    ensures DecimalValue(t[..|t| - 3]) * 60 + DecimalValue(t[|t| - 2..]) == minutes % 100 * 60 + seconds
  {
    var digits := NatToString(minutes);
    var w := |digits|;
    assert t[..w] == digits;
    assert t[0] == digits[0];
    assert w == 2 ==> t[1] == digits[1];
    assert t[w + 1] == t[w + 1..][0] && t[w + 2] == t[w + 1..][1];
  }

  /** With three or more minute digits no match starts before the last two of
      them, and one of the two-digit form starts there. */
  lemma LongLabelFirstMatch(t: string, minutes: nat, seconds: nat)
    requires TranscriptPanel.IsLabel(t, minutes, seconds) && minutes >= 100
    ensures |t| >= 6 && FirstMatch(t) == Some(Span(|t| - 5, 5))
  {
    var digits := NatToString(minutes);
    var w := |digits|;
    var q := w - 2;
    assert w >= 3;
    forall p | 0 <= p < q ensures !MatchesAt(t, p) {
      assert t[p + 1] == digits[p + 1] && t[p + 2] == digits[p + 2];
    }
    assert MatchLen(t, q) == 5 by {
      assert t[q] == digits[q] && t[q + 1] == digits[q + 1];
      assert t[w + 1] == t[w + 1..][0] && t[w + 2] == t[w + 1..][1];
    }
    FirstMatchAt(t, q);
  }

  /** That match reads as the minutes modulo 100 and the seconds. */
  lemma LongLabelValue(t: string, minutes: nat, seconds: nat)
    requires TranscriptPanel.IsLabel(t, minutes, seconds) && minutes >= 100
    ensures |t| >= 6
    ensures var tok := Token(t, Span(|t| - 5, 5));
      && AllDigits(tok[..|tok| - 3]) && AllDigits(tok[|tok| - 2..])
      && DecimalValue(tok[..|tok| - 3]) * 60 + DecimalValue(tok[|tok| - 2..]) == minutes % 100 * 60 + seconds
  {
    var digits := NatToString(minutes);
    var w := |digits|;
    LastTwoDigits(minutes);
    var tok := Token(t, Span(w - 2, 5));
    assert tok[..2] == digits[w - 2..] by {
      assert tok[..2] == t[w - 2..w];
      assert t[..w][w - 2..] == digits[w - 2..];
    }
    assert tok[3..] == t[w + 1..];
  }

  /** For example 6000 seconds is labelled "100:00", whose leftmost match is
      "00:00", so a click on it seeks to 0. */
  lemma ClickPastHundredMinutes(n: nat)
    requires n == 6000
    ensures TranscriptPanel.FormatTime(n as real) == "100:00"
    ensures ClickSeconds(TranscriptPanel.FormatTime(n as real)) == Some(0)
  {
    HundredMinutesLabel(n);
    ClickFormatTime(n);
  }

  lemma HundredMinutesLabel(n: nat)
    requires n == 6000
    ensures TranscriptPanel.FormatTime(n as real) == "100:00"
  {
    TranscriptPanel.FormatTimeWhole(n);
    var minutes, seconds := n / 60, n % 60;
    assert minutes == 100 && seconds == 0;
    HundredDigits();
  }

  lemma HundredDigits()
    ensures NatToString(100) + ":" + PadStart2(NatToString(0)) == "100:00"
  {
    assert NatToString(1) == "1";
    assert NatToString(10) == NatToString(1) + "0";
    assert NatToString(100) == NatToString(10) + "0";
    assert PadStart2(NatToString(0)) == "00";
  }

  // ---------------------------------------------------------------------------
  // The message log
  // ---------------------------------------------------------------------------

  /** The assistant message that closes an exchange: the reply text, or
      "Error: " and the failure's message. */
  function ReplyText(outcome: Fetch<TutorReply>): (content: string)
    ensures outcome.Received? ==> content == outcome.data.response
    ensures outcome.Rejected? ==> content == "Error: Failed to get response"
    ensures outcome.FetchThrew? ==> content == "Error: " + outcome.reason
  {
    match outcome
    case Received(data) => data.response
    case Rejected => "Error: " + "Failed to get response"
    case FetchThrew(reason) => "Error: " + reason
  }

  /** A log of completed exchanges: user and assistant messages alternate,
      starting with the user. */
  predicate Alternating(log: seq<Message>) {
    |log| % 2 == 0 && forall i :: 0 <= i < |log| ==> log[i].role == (if i % 2 == 0 then User else Assistant)
  }

  /** A completed submit keeps the earlier log as it was and keeps it
      alternating. */
  lemma ExchangeKeepsAlternating(log: seq<Message>, question: string, answer: string)
    requires Alternating(log)
    ensures var next := log + [Message(User, question), Message(Assistant, answer)];
      Alternating(next) && next[..|log|] == log
  {
  }

  class Panel {
    const store: Store
    var messages: seq<Message>
    var input: string
    var isLoading: bool

    constructor (store: Store)
      ensures this.store == store && messages == [] && input == "" && !isLoading
    {
      this.store := store;
      messages, input, isLoading := [], "", false;
    }

    /** `handleSubmit` up to the request. With a blank input or no transcript
        nothing happens. Otherwise the untrimmed input becomes a user message,
        the input is cleared, loading starts, and the request carries the
        input, the transcript's full text and the log as it was before. */
    method BeginSubmit() returns (request: Option<TutorRequest>)
      modifies this
      ensures IsBlank(old(input)) || store.transcript.None? ==>
        request.None? && messages == old(messages) && input == old(input) && isLoading == old(isLoading)
      ensures !IsBlank(old(input)) && store.transcript.Some? ==>
        && request == Some(TutorRequest(Some(old(input)), Some(store.transcript.value.fullText), Some(old(messages))))
        && messages == old(messages) + [Message(User, old(input))]
        && input == "" && isLoading
    {
      if Trim(input) == "" || store.transcript.None? {
        return None;
      }
      var question := input;
      request := Some(TutorRequest(Some(question), Some(store.transcript.value.fullText), Some(messages)));
      messages := messages + [Message(User, question)];
      input := "";
      isLoading := true;
    }

    /** `handleSubmit` after the request: exactly one assistant message is
        appended, and loading ends. */
    method FinishSubmit(outcome: Fetch<TutorReply>)
      modifies this
      ensures messages == old(messages) + [Message(Assistant, ReplyText(outcome))]
      ensures input == old(input) && !isLoading
    {
      messages := messages + [Message(Assistant, ReplyText(outcome))];
      isLoading := false;
    }

    /** The whole of `handleSubmit`, with the request's outcome given: a
        submit either changes nothing or appends one user message and one
        assistant message to the log. */
    method HandleSubmit(outcome: Fetch<TutorReply>) returns (request: Option<TutorRequest>)
      modifies this
      ensures IsBlank(old(input)) || store.transcript.None? ==>
        request.None? && messages == old(messages) && input == old(input) && isLoading == old(isLoading)
      ensures !IsBlank(old(input)) && store.transcript.Some? ==>
        && request == Some(TutorRequest(Some(old(input)), Some(store.transcript.value.fullText), Some(old(messages))))
        && messages == old(messages) + [Message(User, old(input)), Message(Assistant, ReplyText(outcome))]
        && input == "" && !isLoading
      ensures Alternating(old(messages)) ==> Alternating(messages)
    {
      request := BeginSubmit();
      if request.Some? {
        FinishSubmit(outcome);
        if Alternating(old(messages)) {
          ExchangeKeepsAlternating(old(messages), old(input), ReplyText(outcome));
        }
        assert messages == old(messages) + [Message(User, old(input)), Message(Assistant, ReplyText(outcome))];
      }
    }

    /** `handleTimestampClick`: seek to the first timestamp in the text, or
        leave the store untouched when there is none. */
    method HandleTimestampClick(timeString: string)
      requires store.Valid()
      modifies store
      ensures store.Valid()
      ensures ClickSeconds(timeString).None? ==> store.State() == old(store.State())
      ensures ClickSeconds(timeString).Some? ==>
        store.State() == Apply(old(store.State()), SetVideoTimestamp(ClickSeconds(timeString).value as real))
    {
      var seconds := ClickSeconds(timeString);
      if seconds.Some? {
        store.SetVideoTimestamp(seconds.value as real);
      }
    }
  }
}
