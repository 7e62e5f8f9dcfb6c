/** POST /api/get-transcript: finds the YouTube video id in the URL, fetches
    the video's transcript and converts it to seconds, with the texts joined
    into one string. The fetch is not executed here: its outcome is a
    parameter, and the handler reports the id it would fetch (None when it
    fetches nothing). */
module TranscriptRoute {
  import opened Wrappers
  import opened Http
  import opened Text
  import opened LearningStore

  // ---------------------------------------------------------------------------
  // Video id: /(?:youtube\.com\/watch\?v=|youtu\.be\/)([a-zA-Z0-9_-]+)/
  // ---------------------------------------------------------------------------

  /** `[a-zA-Z0-9_-]` */
  predicate IsIdChar(c: char) {
    ('a' <= c <= 'z') || ('A' <= c <= 'Z') || ('0' <= c <= '9') || c == '_' || c == '-'
  }

  const WatchMarker: string := "youtube.com/watch?v="
  const ShortMarker: string := "youtu.be/"

  /** Length of the marker the pattern can use at position `i` (it must be
      followed by at least one id character), trying the alternatives in
      order; 0 when the pattern cannot start at `i`. */
  function MarkerAt(u: string, i: nat): (n: nat)
    ensures n == 0 || n == |WatchMarker| || n == |ShortMarker|
    ensures n > 0 ==> i + n < |u| && IsIdChar(u[i + n])
    ensures n > 0 ==> u[i..i + n] == WatchMarker || u[i..i + n] == ShortMarker
    ensures i + |WatchMarker| < |u| && u[i..i + |WatchMarker|] == WatchMarker && IsIdChar(u[i + |WatchMarker|]) ==>
      n == |WatchMarker|
    ensures i + |ShortMarker| < |u| && u[i..i + |ShortMarker|] == ShortMarker && IsIdChar(u[i + |ShortMarker|]) ==>
      n == |ShortMarker|
  {
    // The markers differ at their sixth character, so at most one occurs.
    assert i + |ShortMarker| < |u| && u[i..i + |ShortMarker|] == ShortMarker && i + |WatchMarker| < |u| ==>
      u[i..i + |WatchMarker|][5] == u[i + 5] == u[i..i + |ShortMarker|][5] == '.';
    if i + |WatchMarker| < |u| && u[i..i + |WatchMarker|] == WatchMarker && IsIdChar(u[i + |WatchMarker|]) then
      |WatchMarker|
    else if i + |ShortMarker| < |u| && u[i..i + |ShortMarker|] == ShortMarker && IsIdChar(u[i + |ShortMarker|]) then
      |ShortMarker|
    else 0
  }

  /** Where the greedy `[a-zA-Z0-9_-]+` that starts at `j` stops: the end of
      the longest run of id characters from `j`. */
  function RunEnd(u: string, j: nat): (e: nat)
    requires j <= |u|
    ensures j <= e <= |u|
    ensures forall k :: j <= k < e ==> IsIdChar(u[k])
    ensures e == |u| || !IsIdChar(u[e])
    decreases |u| - j
  {
    if j < |u| && IsIdChar(u[j]) then RunEnd(u, j + 1) else j
  }

  /** No match of the pattern can start anywhere in `u[i..j]`. */
  predicate NoMarkerIn(u: string, i: nat, j: nat)
    decreases j - i
  {
    i >= j || (MarkerAt(u, i) == 0 && NoMarkerIn(u, i + 1, j))
  }

  lemma {:induction false} NoMarkerInAll(u: string, i: nat, j: nat)
    ensures NoMarkerIn(u, i, j) <==> forall p :: i <= p < j ==> MarkerAt(u, p) == 0
    decreases j - i
  {
    if i < j {
      NoMarkerInAll(u, i + 1, j);
    }
  }

  /** A match: where the marker starts, and the captured id `u[idStart..idEnd]`. */
  datatype IdMatch = IdMatch(at: nat, idStart: nat, idEnd: nat)

  /** The leftmost match at or after position `i`. */
  function FindId(u: string, i: nat): (m: Option<IdMatch>)
    requires i <= |u|
    ensures m.None? ==> NoMarkerIn(u, i, |u|)
    ensures m.Some? ==>
      && i <= m.value.at
      && MarkerAt(u, m.value.at) > 0
      && m.value.idStart == m.value.at + MarkerAt(u, m.value.at)
      && m.value.idEnd == RunEnd(u, m.value.idStart)
      && m.value.idStart < m.value.idEnd <= |u|
      && NoMarkerIn(u, i, m.value.at)
    decreases |u| - i
  {
    if i == |u| then None
    else if MarkerAt(u, i) > 0 then
      var s := i + MarkerAt(u, i);
      Some(IdMatch(i, s, RunEnd(u, s)))
    else FindId(u, i + 1)
  }

  /** `video_url.match(...)?.[1]`: the captured id of the leftmost match. */
  function VideoId(url: string): (id: Option<string>)
    ensures id.Some? ==> |id.value| > 0 && forall k :: 0 <= k < |id.value| ==> IsIdChar(id.value[k])
    ensures id.None? <==> forall p :: 0 <= p < |url| ==> MarkerAt(url, p) == 0
  {
    var m := FindId(url, 0);
    NoMarkerInAll(url, 0, |url|);
    match m
    case None => None
    case Some(m) => Some(url[m.idStart..m.idEnd])
  }

  // ---------------------------------------------------------------------------
  // Segments and full text
  // ---------------------------------------------------------------------------

  /** One item as the transcript library returns it; times in milliseconds. */
  datatype RawItem = RawItem(text: string, offset: real, duration: real)

  /** The transcript library's answer: it throws, or yields a possibly null list. */
  datatype Lookup = LookupThrew(message: string) | LookupResult(items: Option<seq<RawItem>>)

  /** The `map` over the fetched items: same length and order, text copied,
      times converted from milliseconds to seconds exactly. */
  function Segments(items: seq<RawItem>): (segs: seq<Segment>)
    ensures |segs| == |items|
    ensures forall k :: 0 <= k < |segs| ==>
      && segs[k].text == items[k].text
      && segs[k].start * 1000.0 == items[k].offset
      && segs[k].duration * 1000.0 == items[k].duration
  {
    seq(|items|, k requires 0 <= k < |items| =>
      Segment(items[k].text, items[k].offset / 1000.0, items[k].duration / 1000.0))
  }

  function Texts(segs: seq<Segment>): (texts: seq<string>)
    ensures |texts| == |segs| && forall k :: 0 <= k < |segs| ==> texts[k] == segs[k].text
  {
    seq(|segs|, k requires 0 <= k < |segs| => segs[k].text)
  }

  /** `full_text`: the segment texts, in order, joined by single spaces. */
  function FullText(segs: seq<Segment>): string {
    Join(Texts(segs), " ")
  }

  // ---------------------------------------------------------------------------
  // The handler
  // ---------------------------------------------------------------------------

  const MissingUrl: string := "video_url is required"
  const InvalidUrl: string := "Invalid YouTube URL"
  const NotAvailable: string := "Transcript not available for this video"
  const CatchFallback: string := "Failed to fetch transcript"

  /** What one invocation does: the reply it sends and the video id it asked
      the transcript library for, if any. */
  datatype Handled = Handled(reply: Reply<Transcript>, fetchedId: Option<string>)

  function GetTranscript(body: RequestBody<Option<string>>, lookup: Lookup): (h: Handled)
    ensures body.Unreadable? ==> h == Handled(Error(500, CatchMessage(body.message, CatchFallback)), None)
    ensures body.Fields? && !Truthy(body.fields) ==> h == Handled(Error(400, MissingUrl), None)
    ensures body.Fields? && Truthy(body.fields) ==>
      (VideoId(body.fields.value).None? <==> h == Handled(Error(400, InvalidUrl), None))
    ensures h.fetchedId.Some? <==> body.Fields? && Truthy(body.fields) && VideoId(body.fields.value).Some?
    ensures h.fetchedId.Some? ==> h.fetchedId == VideoId(body.fields.value)
    ensures h.fetchedId.Some? && lookup.LookupResult? ==>
      (h.reply == Error(404, NotAvailable) <==> lookup.items.None? || |lookup.items.value| == 0)
    ensures h.fetchedId.Some? && lookup.LookupThrew? ==>
      h.reply == Error(500, CatchMessage(lookup.message, CatchFallback))
    ensures h.fetchedId.Some? && lookup.LookupResult? && lookup.items.Some? && |lookup.items.value| > 0 ==>
      h.reply.Ok?
    ensures h.reply.Ok? ==>
      && lookup.LookupResult? && lookup.items.Some?
      && h.reply.body.segments == Segments(lookup.items.value)
      && h.reply.body.fullText == FullText(h.reply.body.segments)
  {
    match body
    case Unreadable(m) => Handled(Error(500, CatchMessage(m, CatchFallback)), None)
    case Fields(url) =>
      if !Truthy(url) then Handled(Error(400, MissingUrl), None)
      else
        match VideoId(url.value)
        case None => Handled(Error(400, InvalidUrl), None)
        case Some(id) =>
          match lookup
          case LookupThrew(m) => Handled(Error(500, CatchMessage(m, CatchFallback)), Some(id))
          case LookupResult(items) =>
            if items.None? || |items.value| == 0 then Handled(Error(404, NotAvailable), Some(id))
            else
              var segs := Segments(items.value);
              Handled(Ok(Transcript(segs, FullText(segs))), Some(id))
  }

  // ---------------------------------------------------------------------------
  // Properties
  // ---------------------------------------------------------------------------

  /** A URL made of a prefix without 'y', a marker, an id and a rest that does
      not continue the id yields exactly that id. */
  lemma VideoIdOfUrl(prefix: string, marker: string, id: string, rest: string)
    requires 'y' !in prefix
    requires marker == WatchMarker || marker == ShortMarker
    requires |id| > 0 && forall k :: 0 <= k < |id| ==> IsIdChar(id[k])
    requires rest == [] || !IsIdChar(rest[0])
    ensures VideoId(prefix + marker + id + rest) == Some(id)
  {
    var u := prefix + marker + id + rest;
    var at, start := |prefix|, |prefix| + |marker|;
    var e := start + |id|;
    UrlLayout(prefix, marker, id, rest);
    MarkerUsed(u, at, marker);
    VideoIdAt(u, at, |marker|, e);
  }

  /** Where the parts of such a URL sit. */
  lemma UrlLayout(prefix: string, marker: string, id: string, rest: string)
    requires 'y' !in prefix
    requires |id| > 0 && forall k :: 0 <= k < |id| ==> IsIdChar(id[k])
    requires rest == [] || !IsIdChar(rest[0])
    ensures var u := prefix + marker + id + rest;
      var at, start := |prefix|, |prefix| + |marker|;
      var e := start + |id|;
      && start < e <= |u|
      && (forall p :: 0 <= p < at ==> u[p] != 'y')
      && u[at..start] == marker
      && (forall k :: start <= k < e ==> IsIdChar(u[k]))
      && (e == |u| || !IsIdChar(u[e]))
  {
    var u := prefix + marker + id + rest;
    var at, start := |prefix|, |prefix| + |marker|;
    var e := start + |id|;
    assert u[..at] == prefix;
    assert u[at..start] == marker;
    assert u[start..e] == id;
    assert u[e..] == rest;
    forall p | 0 <= p < at ensures u[p] != 'y' {
      assert u[p] == u[..at][p];
    }
    forall k | start <= k < e ensures IsIdChar(u[k]) {
      assert u[k] == u[start..e][k - start];
    }
  }

  /** A marker followed by an id character is the one the pattern uses. */
  lemma MarkerUsed(u: string, at: nat, marker: string)
    requires marker == WatchMarker || marker == ShortMarker
    requires at + |marker| < |u| && u[at..at + |marker|] == marker && IsIdChar(u[at + |marker|])
    ensures MarkerAt(u, at) == |marker|
  {
    if marker == WatchMarker {
      assert MarkerAt(u, at) == |WatchMarker|;
    } else {
      assert MarkerAt(u, at) == |ShortMarker|;
    }
  }

  /** The id found when the first usable marker sits at `at` and the id runs
      from its end up to `e`. */
  lemma VideoIdAt(u: string, at: nat, n: nat, e: nat)
    requires at + n < e <= |u|
    requires forall p :: 0 <= p < at ==> u[p] != 'y'
    requires n == MarkerAt(u, at) > 0
    requires forall k :: at + n <= k < e ==> IsIdChar(u[k])
    requires e == |u| || !IsIdChar(u[e])
    ensures VideoId(u) == Some(u[at + n..e])
  {
    NoMarkerBefore(u, 0, at);
    FindIdAt(u, 0, at);
    RunEndOfRun(u, at + n, e);
  }

  /** The search from `i` stops at the first position where a match starts. */
  lemma {:induction false} FindIdAt(u: string, i: nat, at: nat)
    requires i <= at < |u| && NoMarkerIn(u, i, at) && MarkerAt(u, at) > 0
    ensures FindId(u, i) == Some(IdMatch(at, at + MarkerAt(u, at), RunEnd(u, at + MarkerAt(u, at))))
    decreases at - i
  {
    if i < at {
      FindIdAt(u, i + 1, at);
    }
  }

  lemma {:induction false} NoMarkerBefore(u: string, i: nat, j: nat)
    requires i <= j <= |u|
    requires forall p :: i <= p < j ==> u[p] != 'y'
    ensures NoMarkerIn(u, i, j)
    decreases j - i
  {
    if i < j {
      NoMarkerAt(u, i);
      NoMarkerBefore(u, i + 1, j);
    }
  }

  /** Both markers start with 'y', so no match starts at another character. */
  lemma NoMarkerAt(u: string, p: nat)
    requires p < |u| && u[p] != 'y'
    ensures MarkerAt(u, p) == 0
  {
    if p + |WatchMarker| < |u| {
      assert u[p..p + |WatchMarker|][0] == u[p];
    }
    if p + |ShortMarker| < |u| {
      assert u[p..p + |ShortMarker|][0] == u[p];
    }
  }

  lemma {:induction false} RunEndOfRun(u: string, j: nat, e: nat)
    requires j <= e <= |u|
    requires forall k :: j <= k < e ==> IsIdChar(u[k])
    requires e == |u| || !IsIdChar(u[e])
    ensures RunEnd(u, j) == e
    decreases e - j
  {
    if j < e {
      RunEndOfRun(u, j + 1, e);
    }
  }

  const ExampleId: string := "dQw4w9WgXcQ"

  lemma ExampleIdValid()
    ensures |ExampleId| > 0 && forall k :: 0 <= k < |ExampleId| ==> IsIdChar(ExampleId[k])
  {
  }

  /** The long URL shape, with a query parameter after the id:
      https://www.youtube.com/watch?v=dQw4w9WgXcQ&t=10 */
  lemma WatchUrlExample()
    ensures VideoId("https://www." + WatchMarker + ExampleId + "&t=10") == Some(ExampleId)
  {
    ExampleIdValid();
    VideoIdOfUrl("https://www.", WatchMarker, ExampleId, "&t=10");
  }

  /** The short URL shape: https://youtu.be/dQw4w9WgXcQ */
  lemma ShortUrlExample()
    ensures VideoId("https://" + ShortMarker + ExampleId) == Some(ExampleId)
  {
    ExampleIdValid();
    assert "https://" + ShortMarker + ExampleId + "" == "https://" + ShortMarker + ExampleId;
    VideoIdOfUrl("https://", ShortMarker, ExampleId, "");
  }

  /** Milliseconds to seconds is exact: an offset of 1500 starts at 1.5. */
  lemma ConversionExample()
    ensures Segments([RawItem("hello", 1500.0, 2250.0)]) == [Segment("hello", 1.5, 2.25)]
  {
  }

  /** The full text lists the segment texts in order: splitting it on spaces
      gives them back whenever no text contains a space itself. */
  lemma FullTextSplits(segs: seq<Segment>)
    requires |segs| >= 1
    requires forall k :: 0 <= k < |segs| ==> ' ' !in segs[k].text
    ensures Split(FullText(segs), ' ') == Texts(segs)
  {
    SplitJoin(Texts(segs), ' ');
  }

  /** Appending a segment appends a space and its text to the full text. */
  lemma FullTextSnoc(segs: seq<Segment>, s: Segment)
    requires |segs| >= 1
    ensures FullText(segs + [s]) == FullText(segs) + " " + s.text
  {
    assert Texts(segs + [s]) == Texts(segs) + [s.text];
    JoinSnoc(Texts(segs), s.text, " ");
  }
}
