/** The transcript panel: loads the transcript of the selected module into the
    shared store, shows a placeholder, a loading line, an error box or the
    list of segments, and seeks the video when a segment is clicked. The
    request to /api/get-transcript is not executed: `loadTranscript` is split
    at its `await` into BeginLoad (before the request) and FinishLoad (after
    it, with the outcome as a parameter). */
module TranscriptPanel {
  import opened Wrappers
  import opened Http
  import opened Text
  import opened LearningStore

  // ---------------------------------------------------------------------------
  // formatTime
  // ---------------------------------------------------------------------------

  /** Math.trunc: rounds toward zero. */
  function Trunc(x: real): (t: int)
    ensures x >= 0.0 ==> t == x.Floor
    ensures x < 0.0 ==> t == -((-x).Floor)
  {
    if x >= 0.0 then x.Floor else -((-x).Floor)
  }

  /** The JavaScript `%` on numbers: the remainder takes the sign of the dividend. */
  function JsRem(x: real, d: real): real
    requires d != 0.0
  {
    x - d * (Trunc(x / d) as real)
  }

  /** `formatTime(seconds)`: whole minutes, ':', whole seconds of the minute
      padded to two characters with '0'. */
  function FormatTime(seconds: real): string {
    IntToString((seconds / 60.0).Floor) + ":" + PadStart2(IntToString(JsRem(seconds, 60.0).Floor))
  }

  /** For a non-negative time the minutes are a natural number, the seconds of
      the minute lie in 0..59, and together they give back the whole seconds. */
  lemma MinutesAndSeconds(s: real)
    requires s >= 0.0
    ensures var m := (s / 60.0).Floor; var sec := JsRem(s, 60.0).Floor;
      0 <= m && 0 <= sec < 60 && m * 60 + sec == s.Floor
  {
    var m := (s / 60.0).Floor;
    var r := JsRem(s, 60.0);
    assert m as real <= s / 60.0 < m as real + 1.0;
    assert 60.0 * (m as real) <= s < 60.0 * (m as real) + 60.0;
    assert r == s - 60.0 * (m as real);
    var sec := r.Floor;
    assert 0 <= sec < 60;
    assert (60 * m + sec) as real <= s < (60 * m + sec) as real + 1.0;
  }

  /** So exactly two digits follow the ':', and they read as the seconds of
      the minute. */
  lemma FormatTimeNonNegative(s: real)
    requires s >= 0.0
    ensures var m := (s / 60.0).Floor; var sec := JsRem(s, 60.0).Floor;
      && 0 <= m && 0 <= sec < 60
      && m * 60 + sec == s.Floor
      && var t := FormatTime(s);
         && |t| >= 4 && t[|t| - 3] == ':'
         && t[..|t| - 3] == NatToString(m)
         && AllDigits(t[|t| - 2..]) && DecimalValue(t[|t| - 2..]) == sec
  {
    MinutesAndSeconds(s);
    var m := (s / 60.0).Floor;
    var sec := JsRem(s, 60.0).Floor;
    SecondsField(sec);
    var pad := PadStart2(NatToString(sec));
    var t := FormatTime(s);
    assert t == NatToString(m) + ":" + pad;
    assert t[|t| - 2..] == pad;
    assert t[..|t| - 3] == NatToString(m);
  }

  /** A seconds-of-the-minute value below 100 prints as exactly two digits
      that read back as the value. */
  lemma SecondsField(sec: nat)
    requires sec < 100
    ensures var pad := PadStart2(NatToString(sec));
      |pad| == 2 && AllDigits(pad) && DecimalValue(pad) == sec
  {
    var digits := NatToString(sec);
    var pad := PadStart2(digits);
    if |digits| == 1 {
      assert pad == ['0', digits[0]];
      assert pad[..1] == ['0'];
    }
  }

  /** On a whole number of seconds the two fields are its quotient and
      remainder by 60. */
  lemma FormatTimeWhole(n: nat)
    ensures FormatTime(n as real) == NatToString(n / 60) + ":" + PadStart2(NatToString(n % 60))
  {
    var s := n as real;
    MinutesAndSeconds(s);
    var m := (s / 60.0).Floor;
    var sec := JsRem(s, 60.0).Floor;
    assert s.Floor == n;
    QuotientRemainder(n, m, sec);
    assert FormatTime(s) == IntToString(m) + ":" + PadStart2(IntToString(sec));
  }

  lemma QuotientRemainder(n: int, q: int, r: int)
    requires 0 <= r < 60 && q * 60 + r == n
    ensures q == n / 60 && r == n % 60
  {
  }

  /** `t` reads as `minutes`:`seconds`: the minutes as printed, ':', and two
      digits that read as the seconds. */
  predicate IsLabel(t: string, minutes: nat, seconds: nat) {
    var digits := NatToString(minutes);
    && |t| == |digits| + 3 && t[..|digits|] == digits && t[|digits|] == ':'
    && AllDigits(t[|digits| + 1..]) && DecimalValue(t[|digits| + 1..]) == seconds
  }

  /** The label of a whole number of seconds reads as its quotient and
      remainder by 60. */
  lemma FormatTimeShape(n: nat)
    ensures IsLabel(FormatTime(n as real), n / 60, n % 60)
  {
    FormatTimeWhole(n);
    SecondsField(n % 60);
    var minutes := NatToString(n / 60);
    var pad := PadStart2(NatToString(n % 60));
    var t := FormatTime(n as real);
    assert t == minutes + ":" + pad;
    LabelOfParts(t, minutes, pad);
  }

  lemma LabelOfParts(t: string, minutes: string, pad: string)
    requires t == minutes + ":" + pad && |pad| == 2
    ensures |t| == |minutes| + 3 && t[..|minutes|] == minutes && t[|minutes|] == ':'
    ensures t[|minutes| + 1..] == pad
  {
  }

  // ---------------------------------------------------------------------------
  // What the panel shows
  // ---------------------------------------------------------------------------

  /** One segment button: its formatted start and its text. */
  datatype Row = Row(time: string, text: string)

  /** The four things the panel can render. */
  datatype View = Placeholder | Loading | ErrorBox(message: string) | SegmentList(rows: seq<Row>)

  /** The rows for the segments of the current transcript (none without one). */
  function Rows(transcript: Option<Transcript>): (rows: seq<Row>)
    ensures transcript.None? ==> rows == []
    ensures transcript.Some? ==>
      && |rows| == |transcript.value.segments|
      && forall i :: 0 <= i < |rows| ==>
           rows[i] == Row(FormatTime(transcript.value.segments[i].start), transcript.value.segments[i].text)
  {
    match transcript
    case None => []
    case Some(t) => seq(|t.segments|, i requires 0 <= i < |t.segments| => Row(FormatTime(t.segments[i].start), t.segments[i].text))
  }

  class Panel {
    const store: Store
    var isLoading: bool
    var error: Option<string>

    constructor (store: Store)
      ensures this.store == store && !isLoading && error == None
    {
      this.store := store;
      isLoading, error := false, None;
    }

    /** Render precedence: no module, then loading, then a non-empty error,
        then the segment list. */
    function Render(): (v: View)
      reads this, store
      ensures v.Placeholder? <==> store.selectedModule.None?
      ensures v.Loading? <==> store.selectedModule.Some? && isLoading
      ensures v.ErrorBox? <==> store.selectedModule.Some? && !isLoading && Truthy(error)
      ensures v.ErrorBox? ==> v.message == error.value
      ensures v.SegmentList? ==> v.rows == Rows(store.transcript)
    {
      if store.selectedModule.None? then Placeholder
      else if isLoading then Loading
      else if Truthy(error) then ErrorBox(error.value)
      else SegmentList(Rows(store.transcript))
    }

    /** `loadTranscript` up to the request: nothing without a selected module;
        otherwise loading starts, the error is cleared and the module's video
        URL is sent. */
    method BeginLoad() returns (videoUrl: Option<string>)
      modifies this
      ensures store.selectedModule.None? ==> videoUrl.None? && isLoading == old(isLoading) && error == old(error)
      ensures store.selectedModule.Some? ==>
        videoUrl == Some(store.selectedModule.value.videoUrl) && isLoading && error == None
    {
      if store.selectedModule.None? {
        return None;
      }
      isLoading := true;
      error := None;
      videoUrl := Some(store.selectedModule.value.videoUrl);
    }

    /** `loadTranscript` after the request: the transcript goes to the store on
        success; otherwise the local error records the failure and the store is
        left alone. Loading ends on every path. */
    method FinishLoad(outcome: Fetch<Transcript>)
      requires store.Valid()
      modifies this, store
      ensures store.Valid() && !isLoading
      ensures outcome.Received? ==>
        store.State() == Apply(old(store.State()), SetTranscript(outcome.data)) && error == old(error)
      ensures outcome.Rejected? ==>
        store.State() == old(store.State()) && error == Some("Failed to load transcript")
      ensures outcome.FetchThrew? ==>
        store.State() == old(store.State()) && error == Some(outcome.reason)
    {
      match outcome {
        case Received(data) =>
          store.SetTranscript(data);
        case Rejected =>
          error := Some("Failed to load transcript");
        case FetchThrew(reason) =>
          error := Some(reason);
      }
      isLoading := false;
    }

    /** The whole of `loadTranscript`, with the request's outcome given. */
    method LoadTranscript(outcome: Fetch<Transcript>) returns (videoUrl: Option<string>)
      requires store.Valid()
      modifies this, store
      ensures store.Valid()
      ensures old(store.selectedModule).None? ==>
        && videoUrl.None? && store.State() == old(store.State())
        && isLoading == old(isLoading) && error == old(error)
      ensures old(store.selectedModule).Some? ==>
        && videoUrl == Some(old(store.selectedModule).value.videoUrl)
        && !isLoading
        && (outcome.Received? ==> store.State() == Apply(old(store.State()), SetTranscript(outcome.data)) && error == None)
        && (outcome.Rejected? ==> store.State() == old(store.State()) && error == Some("Failed to load transcript"))
        && (outcome.FetchThrew? ==> store.State() == old(store.State()) && error == Some(outcome.reason))
    {
      videoUrl := BeginLoad();
      if videoUrl.Some? {
        FinishLoad(outcome);
      }
    }

    /** The effect run when the selected module changes: it loads only when the
        module has a non-empty video URL. */
    method OnModuleChange(outcome: Fetch<Transcript>) returns (videoUrl: Option<string>)
      requires store.Valid()
      modifies this, store
      ensures store.Valid()
      ensures videoUrl.Some? <==> old(store.selectedModule).Some? && old(store.selectedModule).value.videoUrl != ""
      ensures videoUrl.None? ==> store.State() == old(store.State()) && isLoading == old(isLoading) && error == old(error)
      ensures videoUrl.Some? ==>
        && videoUrl == Some(old(store.selectedModule).value.videoUrl)
        && !isLoading
        && (outcome.Received? ==> store.State() == Apply(old(store.State()), SetTranscript(outcome.data)) && error == None)
        && (outcome.Rejected? ==> store.State() == old(store.State()) && error == Some("Failed to load transcript"))
        && (outcome.FetchThrew? ==> store.State() == old(store.State()) && error == Some(outcome.reason))
    {
      if store.selectedModule.Some? && store.selectedModule.value.videoUrl != "" {
        videoUrl := LoadTranscript(outcome);
      } else {
        videoUrl := None;
      }
    }

    /** Clicking the i-th segment seeks the video to that segment's start. */
    method ClickSegment(i: nat)
      requires store.Valid()
      requires store.transcript.Some? && i < |store.transcript.value.segments|
      modifies store
      ensures store.Valid()
      ensures store.State() == Apply(old(store.State()), SetVideoTimestamp(old(store.transcript).value.segments[i].start))
    {
      store.SetVideoTimestamp(store.transcript.value.segments[i].start);
    }
  }
}
