/** Scanning text for `m:ss` / `mm:ss` timestamps with the RegExp
    `\d{1,2}:\d{2}` under ECMAScript semantics (ECMA-262, section 22.2): at each
    position the greedy `{1,2}` tries two minute digits first and backtracks to
    one; the leftmost position that matches wins; a global scan resumes right
    after each match, so the matches never overlap. The tutor route labels
    every match; the chat panel seeks to the first one. */
module Timestamps {
  import opened Text
  import opened Wrappers

  /** A match: where it starts and how many characters it covers. */
  datatype Span = Span(start: nat, len: nat) {
    function End(): nat { start + len }
  }

  /** `\d{w}:\d{2}` matches at position `i` of `s`, for w = 1 or 2. */
  predicate FormAt(s: string, i: nat, w: nat)
    requires w == 1 || w == 2
  {
    && i + w + 3 <= |s|
    && IsDigit(s[i]) && (w == 2 ==> IsDigit(s[i + 1]))
    && s[i + w] == ':' && IsDigit(s[i + w + 1]) && IsDigit(s[i + w + 2])
  }

  /** Length of the match of `\d{1,2}:\d{2}` that starts at `i`, or 0 when none
      does: the two-digit form is preferred, the one-digit form is the
      backtracking alternative. */
  function MatchLen(s: string, i: nat): (n: nat)
    ensures n == 0 || n == 4 || n == 5
    ensures n > 0 ==> i + n <= |s|
  {
    if FormAt(s, i, 2) then 5 else if FormAt(s, i, 1) then 4 else 0
  }

  /** What a match at `i` is: a nonzero length covers an `m:ss` or `mm:ss`
      token, a two-digit token standing at `i` is matched whole, and a
      one-digit token is matched when no two-digit one stands there. */
  lemma MatchIsToken(s: string, i: nat)
    ensures MatchLen(s, i) > 0 ==> i + MatchLen(s, i) <= |s| && IsToken(s[i..i + MatchLen(s, i)])
    ensures i + 5 <= |s| && IsToken(s[i..i + 5]) ==> MatchLen(s, i) == 5
    ensures i + 4 <= |s| && IsToken(s[i..i + 4]) ==> MatchLen(s, i) == 4
  {
  }

  /** The pattern matches at position `p`. */
  predicate MatchesAt(s: string, p: nat) {
    MatchLen(s, p) > 0
  }

  /** Each listed span is the match at its own start, at or after `i`. */
  ghost predicate AllMatches(s: string, i: nat, ms: seq<Span>) {
    forall k :: 0 <= k < |ms| ==> i <= ms[k].start && ms[k].len == MatchLen(s, ms[k].start) > 0
  }

  /** The spans are in order and do not overlap. */
  ghost predicate Ordered(ms: seq<Span>) {
    forall a, b :: 0 <= a < b < |ms| ==> ms[a].End() <= ms[b].start
  }

  /** Every position from `i` on where the pattern matches lies inside a span. */
  ghost predicate Covers(s: string, i: nat, ms: seq<Span>) {
    forall p :: i <= p < |s| && MatchesAt(s, p) ==>
      exists k :: 0 <= k < |ms| && ms[k].start <= p < ms[k].End()
  }

  /** `ms` lists exactly the matches of a global scan that starts at `i`:
      each one is the match at its own start, they are in order and do not
      overlap, and every position from `i` on where the pattern matches lies
      inside one of them (so none was skipped). */
  ghost predicate IsScanOf(s: string, i: nat, ms: seq<Span>) {
    AllMatches(s, i, ms) && Ordered(ms) && Covers(s, i, ms)
  }

  /** The matches of `/\d{1,2}:\d{2}/g` at or after position `i`, left to right. */
  function Scan(s: string, i: nat): (ms: seq<Span>)
    requires i <= |s|
    decreases |s| - i
  {
    if i == |s| then []
    else if MatchLen(s, i) > 0 then [Span(i, MatchLen(s, i))] + Scan(s, i + MatchLen(s, i))
    else Scan(s, i + 1)
  }

  /** The global scan finds the leftmost matches, in order, without overlap and
      without skipping any. */
  lemma {:induction false} ScanIsScan(s: string, i: nat)
    requires i <= |s|
    ensures IsScanOf(s, i, Scan(s, i))
    ensures forall k :: 0 <= k < |Scan(s, i)| ==> Scan(s, i)[k].End() <= |s|
    decreases |s| - i
  {
    if i < |s| && MatchLen(s, i) > 0 {
      var n := MatchLen(s, i);
      ScanIsScan(s, i + n);
      ScanConsIsScan(s, i, n, Scan(s, i + n));
    } else if i < |s| {
      ScanIsScan(s, i + 1);
    }
  }

  lemma ScanConsIsScan(s: string, i: nat, n: nat, rest: seq<Span>)
    requires i < |s| && n == MatchLen(s, i) > 0
    requires IsScanOf(s, i + n, rest)
    requires forall k :: 0 <= k < |rest| ==> rest[k].End() <= |s|
    ensures IsScanOf(s, i, [Span(i, n)] + rest)
    ensures forall k :: 0 <= k < |rest| + 1 ==> ([Span(i, n)] + rest)[k].End() <= |s|
  {
    var ms := [Span(i, n)] + rest;
    assert AllMatches(s, i, ms) by {
      forall k | 0 <= k < |ms| ensures i <= ms[k].start && ms[k].len == MatchLen(s, ms[k].start) > 0 {
        if k > 0 { assert ms[k] == rest[k - 1]; }
      }
    }
    assert Ordered(ms) by {
      forall a, b | 0 <= a < b < |ms| ensures ms[a].End() <= ms[b].start {
        assert ms[b] == rest[b - 1];
        if a > 0 { assert ms[a] == rest[a - 1]; }
      }
    }
    forall p | i <= p < |s| && MatchesAt(s, p)
      ensures exists k :: 0 <= k < |ms| && ms[k].start <= p < ms[k].End()
    {
      if p < i + n {
        assert ms[0].start <= p < ms[0].End();
      } else {
        var k :| 0 <= k < |rest| && rest[k].start <= p < rest[k].End();
        assert ms[k + 1] == rest[k];
      }
    }
  }

  /** The scan is the only sequence with the properties of IsScanOf: the
      characterisation pins down the global matches completely. */
  lemma {:induction false} ScanIsUnique(s: string, i: nat, ms: seq<Span>)
    requires i <= |s|
    requires IsScanOf(s, i, ms)
    requires forall k :: 0 <= k < |ms| ==> ms[k].End() <= |s|
    ensures ms == Scan(s, i)
    decreases |s| - i
  {
    if i == |s| {
      if ms != [] { assert false; }
    } else if MatchLen(s, i) > 0 {
      var n := MatchLen(s, i);
      HeadOfScan(s, i, ms);
      TailIsScan(s, i, n, ms);
      ScanIsUnique(s, i + n, ms[1..]);
      assert ms == [ms[0]] + ms[1..];
    } else {
      SkipNonMatch(s, i, ms);
      ScanIsUnique(s, i + 1, ms);
    }
  }

  /** Where the pattern matches at `i`, a scan from `i` starts with that match. */
  lemma HeadOfScan(s: string, i: nat, ms: seq<Span>)
    requires i < |s| && MatchesAt(s, i)
    requires IsScanOf(s, i, ms)
    ensures ms != [] && ms[0] == Span(i, MatchLen(s, i))
  {
    var k :| 0 <= k < |ms| && ms[k].start <= i < ms[k].End();
    assert ms[0].start <= ms[k].start;
  }

  /** Where it does not, the same spans are a scan from the next position. */
  lemma SkipNonMatch(s: string, i: nat, ms: seq<Span>)
    requires i < |s| && !MatchesAt(s, i)
    requires IsScanOf(s, i, ms)
    ensures IsScanOf(s, i + 1, ms)
  {
    forall k | 0 <= k < |ms| ensures i + 1 <= ms[k].start {
      assert ms[k].start != i;
    }
  }

  lemma TailIsScan(s: string, i: nat, n: nat, ms: seq<Span>)
    requires i < |s| && n == MatchLen(s, i) > 0
    requires IsScanOf(s, i, ms) && ms != [] && ms[0] == Span(i, n)
    ensures IsScanOf(s, i + n, ms[1..])
  {
    var rest := ms[1..];
    forall p | i + n <= p < |s| && MatchesAt(s, p)
      ensures exists j :: 0 <= j < |rest| && rest[j].start <= p < rest[j].End()
    {
      var j :| 0 <= j < |ms| && ms[j].start <= p < ms[j].End();
      assert j != 0;
      assert rest[j - 1] == ms[j];
    }
    forall j | 0 <= j < |rest| ensures i + n <= rest[j].start && rest[j].len == MatchLen(s, rest[j].start) > 0 {
      assert ms[0].End() <= ms[j + 1].start;
      assert rest[j] == ms[j + 1];
    }
    assert Ordered(rest) by {
      forall a, b | 0 <= a < b < |rest| ensures rest[a].End() <= rest[b].start {
        assert rest[a] == ms[a + 1] && rest[b] == ms[b + 1];
      }
    }
  }

  /** The first match of the non-global RegExp: the leftmost one. */
  function FirstMatch(s: string): (m: Option<Span>)
    ensures m.None? ==> forall p :: 0 <= p < |s| ==> !MatchesAt(s, p)
    ensures m.Some? ==>
      && m.value.len == MatchLen(s, m.value.start) > 0
      && m.value.End() <= |s|
      && forall p :: 0 <= p < m.value.start ==> !MatchesAt(s, p)
  {
    var ms := Scan(s, 0);
    ScanIsScan(s, 0);
    if ms == [] then None
    else
      FirstIsLeftmost(s, ms);
      Some(ms[0])
  }

  /** No match starts before the first span of a scan. */
  lemma FirstIsLeftmost(s: string, ms: seq<Span>)
    requires IsScanOf(s, 0, ms) && ms != []
    ensures forall p :: 0 <= p < ms[0].start ==> !MatchesAt(s, p)
  {
    forall k | 0 <= k < |ms| ensures ms[0].start <= ms[k].start {
      if k > 0 { assert ms[0].End() <= ms[k].start; }
    }
    forall p | 0 <= p < ms[0].start ensures !MatchesAt(s, p) {
    }
  }

  // ---------------------------------------------------------------------------
  // Token values
  // ---------------------------------------------------------------------------

  function Token(s: string, m: Span): string
    requires m.End() <= |s|
  {
    s[m.start..m.End()]
  }

  /** A whole string of the form `\d{1,2}:\d{2}`. */
  predicate IsToken(tok: string) {
    (|tok| == 4 && FormAt(tok, 0, 1)) || (|tok| == 5 && FormAt(tok, 0, 2))
  }

  lemma TokenOfMatch(s: string, m: Span)
    requires m.End() <= |s| && m.len == MatchLen(s, m.start) > 0
    ensures IsToken(Token(s, m))
  {
  }

  /** `tok.split(':')` of a token is its minute digits and its two second digits. */
  lemma SplitToken(tok: string)
    requires IsToken(tok)
    ensures Split(tok, ':') == [tok[..|tok| - 3], tok[|tok| - 2..]]
  {
    var w := |tok| - 3;
    var minutes, seconds := tok[..w], tok[w + 1..];
    assert tok[w] == ':';
    assert AllDigits(minutes) by {
      if w == 1 { assert IsDigit(minutes[0]); }
      else { assert IsDigit(minutes[0]) && IsDigit(minutes[1]); }
    }
    assert AllDigits(seconds) by {
      assert |seconds| == 2 && IsDigit(seconds[0]) && IsDigit(seconds[1]);
    }
    NoColonInDigits(minutes);
    NoColonInDigits(seconds);
    assert tok == minutes + [':'] + seconds;
    SplitAfterPart(minutes, seconds, ':');
    SplitNoSep(seconds, ':');
  }

  lemma NoColonInDigits(d: string)
    requires AllDigits(d)
    ensures ':' !in d
  {
    forall k | 0 <= k < |d| ensures d[k] != ':' {
      assert IsDigit(d[k]);
    }
  }

  /** `const [minutes, seconds] = ts.split(':').map(Number); minutes * 60 + seconds` */
  function TokenSeconds(tok: string): (n: nat)
    requires IsToken(tok)
    ensures n <= 99 * 60 + 99
    ensures |tok| == 4 ==> n <= 9 * 60 + 99
  {
    SplitToken(tok);
    var parts := Split(tok, ':');
    assert AllDigits(parts[0]) && AllDigits(parts[1]);
    DecimalValue(parts[0]) * 60 + DecimalValue(parts[1])
  }

  /** A timestamp mention in a tutor reply: its label and its offset in seconds. */
  datatype TimestampReference = TimestampReference(text: string, seconds: nat)

  /** The reference for one match: labelled "At " + the matched text and
      valued minutes * 60 + seconds. */
  function Reference(reply: string, m: Span): (r: TimestampReference)
    requires m.End() <= |reply| && m.len == MatchLen(reply, m.start) > 0
    ensures IsToken(Token(reply, m))
    ensures r.text == "At " + Token(reply, m)
    ensures r.seconds == TokenSeconds(Token(reply, m)) <= 99 * 60 + 99
  {
    TokenOfMatch(reply, m);
    TimestampReference("At " + Token(reply, m), TokenSeconds(Token(reply, m)))
  }

  /** The tutor route's timestamp_references for a reply: one entry per global
      match, in reply order and with repeats kept, labelled "At " + the matched
      text and valued minutes * 60 + seconds. */
  function References(reply: string): (refs: seq<TimestampReference>)
    ensures |refs| == |Scan(reply, 0)|
    ensures forall k :: 0 <= k < |refs| ==>
      && Scan(reply, 0)[k].End() <= |reply|
      && Scan(reply, 0)[k].len == MatchLen(reply, Scan(reply, 0)[k].start) > 0
      && refs[k] == Reference(reply, Scan(reply, 0)[k])
  {
    var ms := Scan(reply, 0);
    ScanIsScan(reply, 0);
    seq(|ms|, k requires 0 <= k < |ms| => Reference(reply, ms[k]))
  }

  /** A reply citing two moments. */
  const ExampleReply: string := "...at 5:30 and 12:05..."

  /** It gives two references, in reply order. */
  lemma ReferencesExample()
    ensures References(ExampleReply)
         == [TimestampReference("At 5:30", 330), TimestampReference("At 12:05", 725)]
  {
    ScanExample();
    ReferenceExample();
    ReferencesOfTwo(ExampleReply, Span(6, 4), Span(15, 5));
  }

  /** The references of a reply whose scan finds exactly two matches. */
  lemma ReferencesOfTwo(s: string, m1: Span, m2: Span)
    requires Scan(s, 0) == [m1, m2]
    requires m1.End() <= |s| && m1.len == MatchLen(s, m1.start) > 0
    requires m2.End() <= |s| && m2.len == MatchLen(s, m2.start) > 0
    ensures References(s) == [Reference(s, m1), Reference(s, m2)]
  {
    var ms := Scan(s, 0);
    var refs := References(s);
    assert |refs| == 2 && ms[0] == m1 && ms[1] == m2;
    PairOfElements(refs);
    assert refs[0] == Reference(s, m1);
    assert refs[1] == Reference(s, m2);
  }

  lemma PairOfElements<T>(xs: seq<T>)
    requires |xs| == 2
    ensures xs == [xs[0], xs[1]]
  {
  }

  lemma ReferenceExample()
    ensures MatchLen(ExampleReply, 6) == 4 && MatchLen(ExampleReply, 15) == 5
    ensures Reference(ExampleReply, Span(6, 4)) == TimestampReference("At 5:30", 330)
    ensures Reference(ExampleReply, Span(15, 5)) == TimestampReference("At 12:05", 725)
  {
    FirstTokenExample();
    SecondTokenExample();
    TokenSecondsExample(Token(ExampleReply, Span(6, 4)), Token(ExampleReply, Span(15, 5)));
  }

  lemma FirstTokenExample()
    ensures MatchLen(ExampleReply, 6) == 4
    ensures Token(ExampleReply, Span(6, 4)) == "5:30"
  {
    var s := ExampleReply;
    assert s[6] == '5' && s[7] == ':' && s[8] == '3' && s[9] == '0';
    assert s[6..10] == "5:30";
  }

  lemma SecondTokenExample()
    ensures MatchLen(ExampleReply, 15) == 5
    ensures Token(ExampleReply, Span(15, 5)) == "12:05"
  {
    var s := ExampleReply;
    assert s[15] == '1' && s[16] == '2' && s[17] == ':' && s[18] == '0' && s[19] == '5';
    assert FormAt(s, 15, 2);
    assert s[15..20] == "12:05";
  }

  lemma ScanExample()
    ensures Scan(ExampleReply, 0) == [Span(6, 4), Span(15, 5)]
  {
    var s := ExampleReply;
    assert |s| == 23;
    assert Scan(s, 20) == [] by {
      NoMatchSkipped(s, 20);
      NoMatchSkipped(s, 21);
      NoMatchSkipped(s, 22);
    }
    SecondTokenExample();
    assert Scan(s, 15) == [Span(15, 5)];
    assert Scan(s, 10) == Scan(s, 15) by {
      NoMatchSkipped(s, 10);
      NoMatchSkipped(s, 11);
      NoMatchSkipped(s, 12);
      NoMatchSkipped(s, 13);
      NoMatchSkipped(s, 14);
    }
    FirstTokenExample();
    assert Scan(s, 6) == [Span(6, 4)] + Scan(s, 10);
    assert Scan(s, 0) == Scan(s, 6) by {
      NoMatchSkipped(s, 0);
      NoMatchSkipped(s, 1);
      NoMatchSkipped(s, 2);
      NoMatchSkipped(s, 3);
      NoMatchSkipped(s, 4);
      NoMatchSkipped(s, 5);
    }
  }

  /** A position of ExampleReply that holds no digit starts no match. */
  lemma NoMatchSkipped(s: string, i: nat)
    requires s == ExampleReply && i < |s| && !IsDigit(s[i])
    ensures Scan(s, i) == Scan(s, i + 1)
  {
  }

  lemma TokenSecondsExample(a: string, b: string)
    requires a == "5:30" && b == "12:05"
    ensures TokenSeconds(a) == 330 && TokenSeconds(b) == 725
  {
    assert IsToken(a) && IsToken(b);
    TokenValue(a);
    TokenValue(b);
    Text.TwoDigitValue(a[2..]);
    Text.TwoDigitValue(b[..2]);
    Text.TwoDigitValue(b[3..]);
    assert DecimalValue(a[..1]) == 5 by { assert a[..1][..0] == []; }
  }

  /** The value of a token: its minute digits times 60 plus its second digits. */
  lemma TokenValue(tok: string)
    requires IsToken(tok)
    ensures TokenSeconds(tok) == DecimalValue(tok[..|tok| - 3]) * 60 + DecimalValue(tok[|tok| - 2..])
  {
    SplitToken(tok);
  }

  /** Backtracking and leftmost choice: in "123:45" neither form matches at the
      '1', so the match is "23:45". */
  lemma LeftmostExample()
    ensures FirstMatch("123:45") == Some(Span(1, 5))
    ensures Token("123:45", Span(1, 5)) == "23:45"
  {
  }
}
