/**
 Splitting a chat message into plain text and links. The URL pattern and URL validation are taken as
 given: the pattern as an ordered list of matches, validation as a predicate on candidates.
 */
module ChatText {
  import opened Wrappers

  datatype Part = Text(value: string) | Link(value: string)

  predicate IsTrailingPunctuation(c: char) {
    c in {'.', ',', '!', '?', ';', ':'}
  }

  /** The opening delimiter a closing one belongs to. */
  function OpeningOf(c: char): Option<char> {
    if c == ')' then Some('(')
    else if c == ']' then Some('[')
    else if c == '}' then Some('{')
    else None
  }

  /** s.split(c).length - 1 */
  function Count(s: string, c: char): nat {
    if s == [] then 0 else Count(s[..|s| - 1], c) + (if s[|s| - 1] == c then 1 else 0)
  }

  predicate EndsInPunctuation(s: string) {
    s != [] && IsTrailingPunctuation(s[|s| - 1])
  }

  /** The text ends in a closing delimiter of which it has more than of the opening one. */
  predicate EndsInSpareCloser(s: string) {
    s != [] && OpeningOf(s[|s| - 1]).Some?
    && Count(s, s[|s| - 1]) > Count(s, OpeningOf(s[|s| - 1]).value)
  }

  /** The character at i is a closing delimiter, with fewer opening ones before it. */
  predicate SpareAt(s: string, i: nat)
    requires i < |s|
  {
    EndsInSpareCloser(s[..i + 1])
  }

  lemma {:induction false} CountIs(s: string, c: char)
    ensures Count(s, c) == multiset(s)[c]
  {
    if s != [] {
      CountIs(s[..|s| - 1], c);
      assert s == s[..|s| - 1] + [s[|s| - 1]];
    }
  }

  /** A closer of this kind outnumbers its opener. */
  predicate Outnumbers(s: string, closer: char, opener: char) {
    multiset(s)[closer] > multiset(s)[opener]
  }

  /** The last character is spare exactly when it is a bracket that outnumbers its opener. */
  lemma SpareExactly(s: string)
    requires s != []
    ensures EndsInSpareCloser(s) <==>
              || (s[|s| - 1] == ')' && Outnumbers(s, ')', '('))
              || (s[|s| - 1] == ']' && Outnumbers(s, ']', '['))
              || (s[|s| - 1] == '}' && Outnumbers(s, '}', '{'))
  {
    var last := s[|s| - 1];
    CountIs(s, last);
    if OpeningOf(last).Some? {
      CountIs(s, OpeningOf(last).value);
    }
  }

  function StripPunctuation(s: string): string {
    if EndsInPunctuation(s) then StripPunctuation(s[..|s| - 1]) else s
  }

  function StripClosers(s: string): string {
    if EndsInSpareCloser(s) then StripClosers(s[..|s| - 1]) else s
  }

  function TrimmedUrl(s: string): string {
    StripClosers(StripPunctuation(s))
  }

  method TrimUrlEnd(value: string) returns (url: string)
    ensures url == TrimmedUrl(value)
  {
    url := value;
    while url != [] && IsTrailingPunctuation(url[|url| - 1])
      invariant StripPunctuation(url) == StripPunctuation(value)
      decreases |url|
    {
      url := url[..|url| - 1];
    }
    while |url| > 0
      invariant StripClosers(url) == TrimmedUrl(value)
      decreases |url|
    {
      var closing := url[|url| - 1];
      var opening := OpeningOf(closing);
      if opening.None? {
        break;
      }
      var openingCount, closingCount := Count(url, opening.value), Count(url, closing);
      if closingCount <= openingCount {
        break;
      }
      url := url[..|url| - 1];
    }
  }

  lemma {:induction false} StripPunctuationShape(s: string)
    ensures StripPunctuation(s) <= s
    ensures forall i :: |StripPunctuation(s)| <= i < |s| ==> IsTrailingPunctuation(s[i])
    ensures !EndsInPunctuation(StripPunctuation(s))
  {
    if EndsInPunctuation(s) {
      var init := s[..|s| - 1];
      StripPunctuationShape(init);
      assert forall i :: 0 <= i < |init| ==> init[i] == s[i];
    }
  }

  lemma {:induction false} StripClosersShape(s: string)
    ensures StripClosers(s) <= s
    ensures forall i :: |StripClosers(s)| <= i < |s| ==> SpareAt(s, i)
    ensures !EndsInSpareCloser(StripClosers(s))
  {
    if EndsInSpareCloser(s) {
      var init := s[..|s| - 1];
      StripClosersShape(init);
      forall i | |StripClosers(s)| <= i < |s| ensures SpareAt(s, i) {
        if i == |s| - 1 {
          assert s[..i + 1] == s;
        } else {
          assert SpareAt(init, i);
          assert s[..i + 1] == init[..i + 1];
        }
      }
    }
  }

  /**
   What trimming leaves is a prefix; what it cuts off is closing delimiters, each of them spare where
   it stood, followed by all the trailing punctuation; and what is left ends in no spare closer.
   */
  lemma TrimShape(s: string)
    ensures var kept, body := TrimmedUrl(s), StripPunctuation(s);
            && kept <= body <= s
            && (forall i :: |kept| <= i < |body| ==> s[i] in ")]}" && SpareAt(s, i))
            && (forall i :: |body| <= i < |s| ==> s[i] in ".,!?;:")
            && (body != "" ==> body[|body| - 1] !in ".,!?;:")
            && (kept != "" ==> kept[|kept| - 1] !in ")]}" || !SpareAt(kept, |kept| - 1))
  {
    StripPunctuationShape(s);
    var body := StripPunctuation(s);
    StripClosersShape(body);
    var kept := TrimmedUrl(s);
    assert kept != "" ==> kept[..|kept| - 1 + 1] == kept;
    forall i | |kept| <= i < |body| ensures s[i] in ")]}" && SpareAt(s, i) {
      assert s[..i + 1] == body[..i + 1];
      assert SpareAt(body, i);
    }
  }

  lemma {:induction false} StripPunctuationTo(s: string, m: nat)
    requires m <= |s| && (m > 0 ==> !IsTrailingPunctuation(s[m - 1]))
    requires forall i :: m <= i < |s| ==> IsTrailingPunctuation(s[i])
    ensures StripPunctuation(s) == s[..m]
  {
    if |s| > m {
      StripPunctuationTo(s[..|s| - 1], m);
      assert s[..|s| - 1][..m] == s[..m];
    } else {
      assert s[..m] == s;
    }
  }

  lemma {:induction false} StripClosersTo(s: string, n: nat)
    requires n <= |s| && (n > 0 ==> OpeningOf(s[n - 1]).None?)
    requires forall i :: n <= i < |s| ==> SpareAt(s, i)
    ensures StripClosers(s) == s[..n]
  {
    if |s| > n {
      var init := s[..|s| - 1];
      assert SpareAt(s, |s| - 1) && s[..|s| - 1 + 1] == s;
      forall i | n <= i < |init| ensures SpareAt(init, i) {
        assert SpareAt(s, i) && init[..i + 1] == s[..i + 1];
      }
      StripClosersTo(init, n);
      assert init[..n] == s[..n];
    } else {
      assert s[..n] == s;
    }
  }

  /**
   Punctuation hides behind spare closers: it ends the first n characters, the closers follow up to m,
   and nothing but trailing punctuation comes after them.
   */
  ghost predicate HidesPunctuation(s: string, n: nat, m: nat) {
    && 0 < n < m <= |s| && IsTrailingPunctuation(s[n - 1])
    && (forall i :: n <= i < m ==> SpareAt(s, i))
    && (forall i :: m <= i < |s| ==> IsTrailingPunctuation(s[i]))
  }

  lemma HiddenIsKept(s: string, n: nat, m: nat)
    requires HidesPunctuation(s, n, m)
    ensures TrimmedUrl(s) == s[..n]
  {
    assert SpareAt(s, m - 1) && s[..m - 1 + 1] == s[..m];
    StripPunctuationTo(s, m);
    var body := s[..m];
    forall i | n <= i < m ensures SpareAt(body, i) {
      assert SpareAt(s, i) && body[..i + 1] == s[..i + 1];
    }
    StripClosersTo(body, n);
    assert body[..n] == s[..n];
  }

  /** Trimming again trims more exactly when the text hides punctuation behind spare closers. */
  lemma TrimTwice(s: string)
    ensures TrimmedUrl(TrimmedUrl(s)) != TrimmedUrl(s) <==> exists n: nat, m: nat :: HidesPunctuation(s, n, m)
  {
    var kept, body := TrimmedUrl(s), StripPunctuation(s);
    TrimShape(s);
    TrimShape(kept);
    StripPunctuationShape(kept);
    if EndsInPunctuation(kept) {
      assert HidesPunctuation(s, |kept|, |body|);
      assert StripPunctuation(kept) != kept;
    }
    forall n: nat, m: nat | HidesPunctuation(s, n, m) ensures EndsInPunctuation(kept) {
      HiddenIsKept(s, n, m);
    }
  }

  /** A link without trailing punctuation whose brackets balance keeps all of them. */
  lemma BalancedIsKept(s: string)
    requires !EndsInPunctuation(s)
    requires !Outnumbers(s, ')', '(') && !Outnumbers(s, ']', '[') && !Outnumbers(s, '}', '{')
    ensures TrimmedUrl(s) == s
  {
    if s != [] {
      SpareExactly(s);
    }
  }

  lemma {:induction false} CountAbsent(s: string, c: char)
    requires c !in s
    ensures Count(s, c) == 0
  {
    if s != [] {
      CountAbsent(s[..|s| - 1], c);
    }
  }

  /** A closer can hide punctuation, so trimming twice may trim more. */
  lemma TrimIsNotIdempotent()
    ensures TrimmedUrl("http://a.)") == "http://a." && TrimmedUrl("http://a.") == "http://a"
  {
    var s := "http://a.)";
    CountAbsent(s, '(');
    assert s[..10] == s;
    assert SpareAt(s, 9);
    assert HidesPunctuation(s, 9, 10);
    HiddenIsKept(s, 9, 10);
    StripPunctuationTo("http://a.", 8);
    StripClosersTo("http://a", 8);
    assert s[..9] == "http://a." && "http://a."[..8] == "http://a";
  }

  // ----- Parts -----

  /** One match of the URL pattern. */
  datatype Match = Match(start: nat, length: nat)

  /** The matches lie in the text, in order, without overlapping. */
  ghost predicate AreMatches(text: string, matches: seq<Match>) {
    && (forall i :: 0 <= i < |matches| ==> matches[i].start + matches[i].length <= |text|)
    && (forall i, j :: 0 <= i < j < |matches| ==> matches[i].start + matches[i].length <= matches[j].start)
  }

  lemma RestMatches(text: string, matches: seq<Match>)
    requires AreMatches(text, matches) && matches != []
    ensures AreMatches(text, matches[1..])
    ensures |matches| > 1 ==> matches[0].start + matches[0].length <= matches[1].start
  {
  }

  function Candidate(text: string, m: Match): string
    requires m.start + m.length <= |text|
  {
    TrimmedUrl(text[m.start..m.start + m.length])
  }

  lemma CandidateFits(text: string, m: Match)
    requires m.start + m.length <= |text|
    ensures |Candidate(text, m)| <= m.length
    ensures Candidate(text, m) == text[m.start..m.start + |Candidate(text, m)|]
  {
    TrimShape(text[m.start..m.start + m.length]);
  }

  /** The matches still to come lie in the text, none of them before the cursor. */
  ghost predicate Ahead(text: string, matches: seq<Match>, cursor: nat) {
    AreMatches(text, matches) && cursor <= |text| && (matches != [] ==> cursor <= matches[0].start)
  }

  /** The parts that one match adds: nothing, unless its trimmed text is a valid URL. */
  function Added(text: string, m: Match, valid: string -> bool, cursor: nat): seq<Part>
    requires cursor <= m.start && m.start + m.length <= |text|
  {
    if !valid(Candidate(text, m)) then []
    else (if m.start > cursor then [Text(text[cursor..m.start])] else []) + [Link(Candidate(text, m))]
  }

  function NextCursor(text: string, m: Match, valid: string -> bool, cursor: nat): nat
    requires m.start + m.length <= |text|
  {
    if valid(Candidate(text, m)) then m.start + |Candidate(text, m)| else cursor
  }

  lemma RestAhead(text: string, matches: seq<Match>, valid: string -> bool, cursor: nat)
    requires Ahead(text, matches, cursor) && matches != []
    ensures matches[0].start + matches[0].length <= |text|
    ensures AreMatches(text, matches[1..])
    ensures Ahead(text, matches[1..], NextCursor(text, matches[0], valid, cursor))
  {
    hide TrimmedUrl;
    CandidateFits(text, matches[0]);
  }

  /** The parts from the cursor on. */
  function PartsFrom(text: string, matches: seq<Match>, valid: string -> bool, cursor: nat): seq<Part>
    requires Ahead(text, matches, cursor)
    decreases |matches|
  {
    if matches == [] then (if cursor < |text| then [Text(text[cursor..])] else [])
    else
      RestAhead(text, matches, valid, cursor);
      Added(text, matches[0], valid, cursor)
      + PartsFrom(text, matches[1..], valid, NextCursor(text, matches[0], valid, cursor))
  }

  function TextParts(text: string, matches: seq<Match>, valid: string -> bool): seq<Part>
    requires AreMatches(text, matches)
  {
    var parts := PartsFrom(text, matches, valid, 0);
    if parts != [] then parts else [Text(text)]
  }

  /** One round of the loop: what the i-th match adds, and what is left. */
  lemma OneMatch(text: string, matches: seq<Match>, valid: string -> bool, i: nat, cursor: nat)
    requires i < |matches| && Ahead(text, matches[i..], cursor)
    ensures matches[i].start + matches[i].length <= |text| && cursor <= matches[i].start
    ensures var m, c := matches[i], Candidate(text, matches[i]);
            var next := if valid(c) then m.start + |c| else cursor;
            var added := if !valid(c) then []
                         else (if m.start > cursor then [Text(text[cursor..m.start])] else []) + [Link(c)];
            && Ahead(text, matches[i + 1..], next)
            && PartsFrom(text, matches[i..], valid, cursor) == added + PartsFrom(text, matches[i + 1..], valid, next)
  {
    RestAhead(text, matches[i..], valid, cursor);
    assert matches[i..][1..] == matches[i + 1..];
  }

  lemma NoMatch(text: string, matches: seq<Match>, valid: string -> bool, cursor: nat)
    requires matches == [] && Ahead(text, matches, cursor)
    ensures PartsFrom(text, matches, valid, cursor) == if cursor < |text| then [Text(text[cursor..])] else []
  {
  }

  method ChatTextParts(text: string, matches: seq<Match>, valid: string -> bool) returns (parts: seq<Part>)
    requires AreMatches(text, matches)
    ensures parts == TextParts(text, matches, valid)
  {
    hide TrimmedUrl, AreMatches, PartsFrom;
    parts := [];
    var cursor: nat := 0;
    ghost var all := PartsFrom(text, matches, valid, 0);
    assert matches[0..] == matches;
    for i := 0 to |matches|
      invariant Ahead(text, matches[i..], cursor)
      invariant parts + PartsFrom(text, matches[i..], valid, cursor) == all
    {
      OneMatch(text, matches, valid, i, cursor);
      var start := matches[i].start;
      var candidate := TrimUrlEnd(text[start..start + matches[i].length]);
      if valid(candidate) {
        if start > cursor {
          parts := parts + [Text(text[cursor..start])];
        }
        parts := parts + [Link(candidate)];
        cursor := start + |candidate|;
      }
    }
    NoMatch(text, matches[|matches|..], valid, cursor);
    if cursor < |text| {
      parts := parts + [Text(text[cursor..])];
    }
    if parts == [] {
      parts := [Text(text)];
    }
  }

  // ----- What the parts are -----

  function Concat(parts: seq<Part>): string {
    if parts == [] then "" else parts[0].value + Concat(parts[1..])
  }

  lemma {:induction false} ConcatAppend(a: seq<Part>, b: seq<Part>)
    ensures Concat(a + b) == Concat(a) + Concat(b)
  {
    if a == [] {
      assert a + b == b;
    } else {
      assert (a + b)[1..] == a[1..] + b;
      ConcatAppend(a[1..], b);
    }
  }

  /** The links with where they start. */
  function LinkSpans(parts: seq<Part>, offset: nat): seq<(nat, string)> {
    if parts == [] then []
    else if parts[0].Link? then [(offset, parts[0].value)] + LinkSpans(parts[1..], offset + |parts[0].value|)
    else LinkSpans(parts[1..], offset + |parts[0].value|)
  }

  lemma {:induction false} LinkSpansAppend(a: seq<Part>, b: seq<Part>, offset: nat)
    ensures LinkSpans(a + b, offset) == LinkSpans(a, offset) + LinkSpans(b, offset + |Concat(a)|)
  {
    if a == [] {
      assert a + b == b;
    } else {
      assert (a + b)[1..] == a[1..] + b;
      LinkSpansAppend(a[1..], b, offset + |a[0].value|);
    }
  }

  /** What one match adds spells the text up to the next cursor, and holds at most that one link. */
  lemma AddedIsText(text: string, m: Match, valid: string -> bool, cursor: nat)
    requires cursor <= m.start && m.start + m.length <= |text|
    ensures cursor <= NextCursor(text, m, valid, cursor) <= |text|
    ensures Concat(Added(text, m, valid, cursor)) == text[cursor..NextCursor(text, m, valid, cursor)]
    ensures LinkSpans(Added(text, m, valid, cursor), cursor)
         == if valid(Candidate(text, m)) then [(m.start, Candidate(text, m))] else []
  {
    hide TrimmedUrl, Candidate;
    CandidateFits(text, m);
    var link := Link(Candidate(text, m));
    assert Concat([link]) == link.value;
    assert LinkSpans([link], m.start) == [(m.start, link.value)];
    if m.start > cursor {
      assert ([Text(text[cursor..m.start])] + [link])[1..] == [link];
    } else {
      assert [] + [link] == [link];
    }
  }

  lemma {:induction false} PartsFromLossless(text: string, matches: seq<Match>, valid: string -> bool, cursor: nat)
    requires Ahead(text, matches, cursor)
    ensures Concat(PartsFrom(text, matches, valid, cursor)) == text[cursor..]
    decreases |matches|
  {
    hide TrimmedUrl, AreMatches, Candidate, Added, NextCursor;
    if matches != [] {
      RestAhead(text, matches, valid, cursor);
      var next := NextCursor(text, matches[0], valid, cursor);
      PartsFromLossless(text, matches[1..], valid, next);
      AddedIsText(text, matches[0], valid, cursor);
      ConcatAppend(Added(text, matches[0], valid, cursor), PartsFrom(text, matches[1..], valid, next));
      assert text[cursor..] == text[cursor..next] + text[next..];
    }
  }

  /** Lossless: the parts' values, put together again, are the message. */
  lemma PartsAreLossless(text: string, matches: seq<Match>, valid: string -> bool)
    requires AreMatches(text, matches)
    ensures Concat(TextParts(text, matches, valid)) == text
  {
    PartsFromLossless(text, matches, valid, 0);
    assert text[0..] == text;
  }

  /** No part is empty and no two text parts stand side by side. */
  ghost predicate Normal(parts: seq<Part>) {
    && (forall i :: 0 <= i < |parts| ==> parts[i].value != "")
    && (forall i :: 0 <= i < |parts| - 1 ==> !(parts[i].Text? && parts[i + 1].Text?))
  }

  lemma {:induction false} PartsFromNormal(text: string, matches: seq<Match>, valid: string -> bool, cursor: nat)
    requires Ahead(text, matches, cursor) && !valid("")
    ensures Normal(PartsFrom(text, matches, valid, cursor))
    decreases |matches|
  {
    hide TrimmedUrl, AreMatches, Candidate;
    if matches != [] {
      RestAhead(text, matches, valid, cursor);
      PartsFromNormal(text, matches[1..], valid, NextCursor(text, matches[0], valid, cursor));
    }
  }

  /**
   Normal form: no two text parts are adjacent and no part is empty, except the single empty text
   part of an empty message.
   */
  lemma PartsAreNormal(text: string, matches: seq<Match>, valid: string -> bool)
    requires AreMatches(text, matches) && !valid("")
    ensures if text == "" then TextParts(text, matches, valid) == [Text("")]
            else Normal(TextParts(text, matches, valid))
  {
    PartsFromNormal(text, matches, valid, 0);
    PartsFromLossless(text, matches, valid, 0);
    var parts := PartsFrom(text, matches, valid, 0);
    assert text[0..] == text;
    assert parts != [] ==> parts[0].value != "" && |Concat(parts)| >= |parts[0].value|;
  }

  /** The matches whose trimmed text is a valid URL, with that text. */
  function ValidSpans(text: string, matches: seq<Match>, valid: string -> bool): seq<(nat, string)>
    requires AreMatches(text, matches)
  {
    if matches == [] then []
    else
      var candidate := TrimmedUrl(text[matches[0].start..matches[0].start + matches[0].length]);
      RestMatches(text, matches);
      (if valid(candidate) then [(matches[0].start, candidate)] else []) + ValidSpans(text, matches[1..], valid)
  }

  lemma {:induction false} PartsFromLinks(text: string, matches: seq<Match>, valid: string -> bool, cursor: nat)
    requires Ahead(text, matches, cursor)
    ensures LinkSpans(PartsFrom(text, matches, valid, cursor), cursor) == ValidSpans(text, matches, valid)
    decreases |matches|
  {
    hide TrimmedUrl, AreMatches, Added, NextCursor;
    if matches != [] {
      RestAhead(text, matches, valid, cursor);
      var next := NextCursor(text, matches[0], valid, cursor);
      PartsFromLinks(text, matches[1..], valid, next);
      AddedIsText(text, matches[0], valid, cursor);
      LinkSpansAppend(Added(text, matches[0], valid, cursor), PartsFrom(text, matches[1..], valid, next), cursor);
    }
  }

  /** The links are exactly the valid trimmed matches, in order, each where its match starts. */
  lemma LinksAreTheValidMatches(text: string, matches: seq<Match>, valid: string -> bool)
    requires AreMatches(text, matches)
    ensures LinkSpans(TextParts(text, matches, valid), 0) == ValidSpans(text, matches, valid)
  {
    PartsFromLinks(text, matches, valid, 0);
  }
}
