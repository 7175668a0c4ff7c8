/**
 * The post-processing of the language model's condensed text: the marked-up answer
 * "sentence. (Core: 2,3) sentence. (Transition) ..." is cut into sections at its markers,
 * the sections become paragraphs, and short consecutive core paragraphs are merged. The model
 * call itself is replaced by its answer, passed in as a string.
 */
module Distiller {
  import opened Wrappers
  import opened Text
  import opened Records

  const MINIMUM_PARAGRAPH_LENGTH: nat := 400

  // ---------------------------------------------------------------------------------------
  // Merging short core paragraphs

  /** Python's `list(dict.fromkeys(s))`: the elements in order of first occurrence. */
  function Dedupe(s: seq<int>): (r: seq<int>)
    ensures forall x :: x in r <==> x in s
    ensures forall i, j :: 0 <= i < j < |r| ==> r[i] != r[j]
  {
    if |s| == 0 then []
    else
      var d := Dedupe(s[..|s| - 1]);
      var x := s[|s| - 1];
      assert forall y :: y in s <==> y in s[..|s| - 1] || y == x;
      if x in s[..|s| - 1] then d else d + [x]
  }

  /** Removing repetitions from a list without any leaves it as it is. */
  lemma {:induction false} DedupeDistinct(s: seq<int>)
    requires forall i, j :: 0 <= i < j < |s| ==> s[i] != s[j]
    ensures Dedupe(s) == s
  {
    if |s| > 0 {
      var init := s[..|s| - 1];
      DedupeDistinct(init);
      assert s[|s| - 1] !in init;
      assert init + [s[|s| - 1]] == s;
    }
  }

  /** The index of the first occurrence of `x` in `s`. */
  function FirstIndex(s: seq<int>, x: int): (k: nat)
    requires x in s
    ensures k < |s| && s[k] == x && x !in s[..k]
  {
    if s[0] == x then 0
    else
      assert s == [s[0]] + s[1..];
      var k := FirstIndex(s[1..], x);
      assert s[..k + 1] == [s[0]] + s[1..][..k];
      k + 1
  }

  lemma {:induction false} FirstIndexSnoc(s: seq<int>, x: int, y: int)
    requires y in s
    ensures FirstIndex(s + [x], y) == FirstIndex(s, y)
  {
    assert (s + [x])[FirstIndex(s, y)] == y;
  }

  /**
   * The result lists the elements in the order of their first occurrence in `s`; with the
   * membership and distinctness in `Dedupe`'s contract this determines the result.
   */
  lemma {:induction false} DedupeFirstOccurrenceOrder(s: seq<int>)
    ensures forall i, j :: 0 <= i < j < |Dedupe(s)| ==> FirstIndex(s, Dedupe(s)[i]) < FirstIndex(s, Dedupe(s)[j])
  {
    if |s| > 0 {
      var init := s[..|s| - 1];
      var x := s[|s| - 1];
      var d := Dedupe(init);
      assert s == init + [x];
      DedupeFirstOccurrenceOrder(init);
      forall y | y in init
        ensures FirstIndex(s, y) == FirstIndex(init, y)
      {
        FirstIndexSnoc(init, x, y);
      }
      if x !in init {
        assert FirstIndex(s, x) == |init|;
      }
    }
  }

  /** The previous paragraph absorbs the next one when it is short and both are core. */
  predicate Absorbs(prev: Paragraph, next: Paragraph) {
    |prev.content| < MINIMUM_PARAGRAPH_LENGTH && prev.kind == Core && next.kind == Core
  }

  function Absorb(prev: Paragraph, next: Paragraph): Paragraph {
    Paragraph(next.kind, prev.content + " " + next.content, Dedupe(prev.pages + next.pages))
  }

  /** `merge_paragraphs`, left to right. */
  function MergeParagraphs(ps: seq<Paragraph>): (r: seq<Paragraph>)
    ensures |r| <= |ps|
    ensures |r| == 0 <==> |ps| == 0
  {
    if |ps| == 0 then []
    else
      var m := MergeParagraphs(ps[..|ps| - 1]);
      var p := ps[|ps| - 1];
      if |m| == 0 then [p]
      else if Absorbs(m[|m| - 1], p) then m[..|m| - 1] + [Absorb(m[|m| - 1], p)]
      else m + [p]
  }

  /** Merging one more paragraph: it starts the list, is absorbed by the last one, or is appended. */
  lemma {:induction false} MergeSnoc(ps: seq<Paragraph>, p: Paragraph)
    ensures var m := MergeParagraphs(ps);
      MergeParagraphs(ps + [p]) ==
        if |m| == 0 then [p]
        else if Absorbs(m[|m| - 1], p) then m[..|m| - 1] + [Absorb(m[|m| - 1], p)]
        else m + [p]
  {
    assert (ps + [p])[..|ps|] == ps;
  }

  lemma {:induction false} MergePrefixStep(ps: seq<Paragraph>, i: nat, m: seq<Paragraph>, next: seq<Paragraph>)
    requires i < |ps| && m == MergeParagraphs(ps[..i])
    requires next == if |m| == 0 then [ps[i]]
                     else if Absorbs(m[|m| - 1], ps[i]) then m[..|m| - 1] + [Absorb(m[|m| - 1], ps[i])]
                     else m + [ps[i]]
    ensures next == MergeParagraphs(ps[..i + 1])
  {
    assert ps[..i + 1][..i] == ps[..i];
  }

  /** The merge loop, which overwrites the last kept paragraph when it absorbs the next one. */
  method MergeParagraphsLoop(paragraphs: seq<Paragraph>) returns (merged: seq<Paragraph>)
    ensures merged == MergeParagraphs(paragraphs)
  {
    merged := [];
    for i := 0 to |paragraphs|
      invariant merged == MergeParagraphs(paragraphs[..i])
    {
      var paragraph := paragraphs[i];
      ghost var before := merged;
      if |merged| == 0 {
        merged := merged + [paragraph];
      } else if |merged[|merged| - 1].content| < MINIMUM_PARAGRAPH_LENGTH
             && merged[|merged| - 1].kind == Core && paragraph.kind == Core {
        var last := merged[|merged| - 1];
        var combined := Paragraph(paragraph.kind, last.content + " " + paragraph.content, Dedupe(last.pages + paragraph.pages));
        assert merged[|merged| - 1 := combined] == merged[..|merged| - 1] + [combined];
        merged := merged[|merged| - 1 := combined];
      } else {
        merged := merged + [paragraph];
      }
      MergePrefixStep(paragraphs, i, before, merged);
    }
    assert paragraphs[..|paragraphs|] == paragraphs;
  }

  function Contents(ps: seq<Paragraph>): (r: seq<string>)
    ensures |r| == |ps|
    ensures forall i :: 0 <= i < |ps| ==> r[i] == ps[i].content
  {
    if |ps| == 0 then [] else Contents(ps[..|ps| - 1]) + [ps[|ps| - 1].content]
  }

  /** The transition paragraphs, in order. */
  function Transitions(ps: seq<Paragraph>): seq<Paragraph> {
    if |ps| == 0 then []
    else Transitions(ps[..|ps| - 1]) + (if ps[|ps| - 1].kind == Transition then [ps[|ps| - 1]] else [])
  }

  lemma {:induction false} ContentsSnoc(ps: seq<Paragraph>, p: Paragraph)
    ensures Contents(ps + [p]) == Contents(ps) + [p.content]
  {
    assert (ps + [p])[..|ps|] == ps;
  }

  /** Extending the last part of a join extends the joined string. */
  lemma {:induction false} JoinExtendLast(parts: seq<string>, a: string, t: string, sep: string)
    ensures Join(parts + [a + t], sep) == Join(parts + [a], sep) + t
  {
    if |parts| == 0 {
      assert parts + [a + t] == [a + t];
      assert parts + [a] == [a];
    } else {
      JoinAppend(parts, a + t, sep);
      JoinAppend(parts, a, sep);
    }
  }

  /** Merging loses no text: joining all contents with single spaces gives the same string before and after. */
  lemma {:induction false} MergeKeepsText(ps: seq<Paragraph>)
    ensures Join(Contents(MergeParagraphs(ps)), " ") == Join(Contents(ps), " ")
  {
    if |ps| > 0 {
      var init := ps[..|ps| - 1];
      assert init + [ps[|ps| - 1]] == ps;
      MergeKeepsText(init);
      MergeTextStep(init, ps[|ps| - 1]);
    }
  }

  lemma {:induction false} MergeTextStep(init: seq<Paragraph>, p: Paragraph)
    requires Join(Contents(MergeParagraphs(init)), " ") == Join(Contents(init), " ")
    ensures Join(Contents(MergeParagraphs(init + [p])), " ") == Join(Contents(init + [p]), " ")
  {
    var m := MergeParagraphs(init);
    MergeSnoc(init, p);
    ContentsSnoc(init, p);
    if |m| == 0 {
      assert init == [];
    } else {
      JoinAppend(Contents(init), p.content, " ");
      if Absorbs(m[|m| - 1], p) {
        AbsorbKeepsText(m, p);
      } else {
        ContentsSnoc(m, p);
        JoinAppend(Contents(m), p.content, " ");
      }
    }
  }

  /** Absorbing a paragraph into the last one extends the joined text by a space and its content. */
  lemma {:induction false} AbsorbKeepsText(m: seq<Paragraph>, p: Paragraph)
    requires |m| > 0
    ensures Join(Contents(m[..|m| - 1] + [Absorb(m[|m| - 1], p)]), " ") == Join(Contents(m), " ") + " " + p.content
  {
    var front := m[..|m| - 1];
    var q := m[|m| - 1];
    assert m == front + [q];
    ContentsSnoc(front, q);
    ContentsSnoc(front, Absorb(q, p));
    JoinExtendLast(Contents(front), q.content, " " + p.content, " ");
    assert q.content + " " + p.content == q.content + (" " + p.content);
  }

  /** Merging never touches a transition paragraph, and keeps the kind of the last paragraph. */
  lemma {:induction false} MergeKeepsTransitions(ps: seq<Paragraph>)
    ensures Transitions(MergeParagraphs(ps)) == Transitions(ps)
    ensures |ps| > 0 ==> MergeParagraphs(ps)[|MergeParagraphs(ps)| - 1].kind == ps[|ps| - 1].kind
  {
    if |ps| > 0 {
      var init := ps[..|ps| - 1];
      var m := MergeParagraphs(init);
      var p := ps[|ps| - 1];
      MergeKeepsTransitions(init);
      if |m| > 0 && Absorbs(m[|m| - 1], p) {
        var front := m[..|m| - 1];
        var r := front + [Absorb(m[|m| - 1], p)];
        assert r[..|r| - 1] == front;
        assert m == front + [m[|m| - 1]];
        assert Transitions(m) == Transitions(front);
      } else if |m| > 0 {
        var r := m + [p];
        assert r[..|r| - 1] == m;
      }
    }
  }

  /** The first merged paragraph starts with the first paragraph's text. */
  lemma {:induction false} MergeStartsWithFirst(ps: seq<Paragraph>)
    requires |ps| > 0
    ensures StartsWith(MergeParagraphs(ps)[0].content, ps[0].content)
  {
    var init := ps[..|ps| - 1];
    var m := MergeParagraphs(init);
    var p := ps[|ps| - 1];
    if |m| == 0 {
      assert init == [];
    } else {
      MergeStartsWithFirst(init);
      assert ps[0] == init[0];
      if Absorbs(m[|m| - 1], p) {
        var r := m[..|m| - 1] + [Absorb(m[|m| - 1], p)];
        if |m| == 1 {
          assert r[0].content == m[0].content + " " + p.content;
        } else {
          assert r[0] == m[0];
        }
      } else {
        assert (m + [p])[0] == m[0];
      }
    }
  }

  predicate ShortCoreBeforeCore(r: seq<Paragraph>, i: int)
    requires 0 <= i < |r| - 1
  {
    r[i].kind == Core && r[i + 1].kind == Core && |r[i].content| < MINIMUM_PARAGRAPH_LENGTH
  }

  predicate CoreNeighboursLong(r: seq<Paragraph>) {
    forall i :: 0 <= i < |r| - 1 ==> !ShortCoreBeforeCore(r, i)
  }

  /**
   * After merging, a core paragraph followed by another core paragraph is at least
   * `MINIMUM_PARAGRAPH_LENGTH` characters long: a shorter one would have absorbed its successor.
   */
  lemma {:induction false} MergedCoreNeighboursAreLong(ps: seq<Paragraph>)
    ensures CoreNeighboursLong(MergeParagraphs(ps))
  {
    if |ps| > 0 {
      var init := ps[..|ps| - 1];
      var m := MergeParagraphs(init);
      var p := ps[|ps| - 1];
      MergedCoreNeighboursAreLong(init);
      if |m| > 0 && Absorbs(m[|m| - 1], p) {
        var r := m[..|m| - 1] + [Absorb(m[|m| - 1], p)];
        forall i | 0 <= i < |r| - 1
          ensures !ShortCoreBeforeCore(r, i)
        {
          assert r[i] == m[i];
          if i + 1 < |r| - 1 {
            assert r[i + 1] == m[i + 1];
            assert !ShortCoreBeforeCore(m, i);
          } else {
            assert r[i + 1].kind == Core;
            assert !ShortCoreBeforeCore(m, i);
          }
        }
      } else if |m| > 0 {
        var r := m + [p];
        forall i | 0 <= i < |r| - 1
          ensures !ShortCoreBeforeCore(r, i)
        {
          assert r[i] == m[i];
          if i + 1 < |r| - 1 {
            assert r[i + 1] == m[i + 1];
            assert !ShortCoreBeforeCore(m, i);
          } else {
            assert r[i + 1] == p;
          }
        }
      }
    }
  }

  // ---------------------------------------------------------------------------------------
  // Markers in the model's answer

  /** A marker: `(Core: <pages>)` with the raw page list text, or `(Transition)`. */
  datatype Marker = CoreMarker(pagesText: string) | TransitionMarker

  datatype Found = Found(marker: Marker, end: nat)

  /** Characters of the class `[0-9,\s]`. */
  predicate IsPageListChar(c: char) {
    IsDigit(c) || c == ',' || PyIsSpace(c)
  }

  const CORE_OPEN: string := "(Core: "
  const TRANSITION: string := "(Transition)"

  /**
   * The marker the pattern `\(Core: ([0-9,\s]+)\)|\(Transition\)` matches at position `p`:
   * the page run is greedy and must be followed by `)`.
   */
  function MarkerAt(text: string, p: nat): (r: Option<Found>)
    requires p <= |text|
    ensures r.Some? ==> p < r.value.end <= |text| && text[p] == '('
    ensures r.Some? ==> forall k :: p < k < r.value.end ==> text[k] != '('
  {
    if OccursAt(text, CORE_OPEN, p) then
      var run := LeadingCount(text[p + 7..], IsPageListChar);
      if run >= 1 && p + 7 + run < |text| && text[p + 7 + run] == ')' then
        CoreMarkerHasNoInnerParen(text, p, run);
        Some(Found(CoreMarker(text[p + 7..p + 7 + run]), p + 8 + run))
      else None
    else if OccursAt(text, TRANSITION, p) then
      assert text[p..p + 12] == TRANSITION;
      Some(Found(TransitionMarker, p + 12))
    else None
  }

  lemma {:induction false} CoreMarkerHasNoInnerParen(text: string, p: nat, run: nat)
    requires OccursAt(text, CORE_OPEN, p)
    requires p + 7 + run < |text| && text[p + 7 + run] == ')'
    requires run == LeadingCount(text[p + 7..], IsPageListChar)
    ensures text[p] == '('
    ensures forall k :: p < k < p + 8 + run ==> text[k] != '('
  {
    assert text[p..p + 7] == CORE_OPEN;
    forall k | p < k < p + 8 + run
      ensures text[k] != '('
    {
      if k < p + 7 {
        assert text[k] == CORE_OPEN[k - p];
      } else if k < p + 7 + run {
        assert text[k] == text[p + 7..][k - p - 7];
      }
    }
  }

  /** The first position at or after `q` where a marker starts. */
  function FirstMarker(text: string, q: nat): (r: Option<nat>)
    requires q <= |text|
    decreases |text| - q
    ensures r.Some? ==> q <= r.value < |text| && MarkerAt(text, r.value).Some?
    ensures r.Some? ==> forall k :: q <= k < r.value ==> MarkerAt(text, k).None?
    ensures r.None? ==> forall k :: q <= k <= |text| ==> MarkerAt(text, k).None?
  {
    if q == |text| then None
    else if MarkerAt(text, q).Some? then Some(q)
    else FirstMarker(text, q + 1)
  }

  /** One match of `(.*?)(?:marker)`: the text before the marker is `text[start..markerStart]`. */
  datatype Match = Match(start: nat, markerStart: nat, end: nat, marker: Marker)

  predicate Ordered(text: string, m: Match) {
    m.start <= m.markerStart < m.end <= |text|
  }

  predicate WellPlaced(text: string, m: Match) {
    Ordered(text, m)
    && MarkerAt(text, m.markerStart) == Some(Found(m.marker, m.end))
  }

  /** `re.finditer` from position `from`: the lazy prefix extends to the leftmost marker. */
  function Matches(text: string, from: nat): (r: seq<Match>)
    requires from <= |text|
    decreases |text| - from
    ensures forall m :: m in r ==> WellPlaced(text, m) && from <= m.start
    ensures |r| == 0 ==> forall k :: from <= k <= |text| ==> MarkerAt(text, k).None?
    ensures |r| > 0 ==> r[0].start == from
    ensures |r| > 0 ==> forall k :: r[|r| - 1].end <= k <= |text| ==> MarkerAt(text, k).None?
  {
    match FirstMarker(text, from)
    case None => []
    case Some(p) =>
      var found := MarkerAt(text, p).value;
      [Match(from, p, found.end, found.marker)] + Matches(text, found.end)
  }

  // ---------------------------------------------------------------------------------------
  // Page lists

  /**
   * Why distilling fails: a page number that is not an integer, a "Core:" test that passes on a
   * `(Transition)` match so that the absent page group is split, or no pages at all.
   */
  datatype DistillError = InvalidPageNumber(piece: string) | NoPageGroup | NoPages

  /** Python's `s.split(sep)` for a one-character separator. */
  function SplitOn(s: string, sep: char): (r: seq<string>)
    ensures |r| > 0
    ensures forall piece :: piece in r ==> sep !in piece
  {
    if |s| == 0 then [""]
    else
      var rest := SplitOn(s[1..], sep);
      if s[0] == sep then [""] + rest
      else
        assert forall piece :: piece in rest[1..] ==> piece in rest;
        [[s[0]] + rest[0]] + rest[1..]
  }

  lemma {:induction false} SplitOnPrefix(p: string, tail: string, sep: char)
    requires sep !in p
    ensures SplitOn(p + tail, sep) == [p + SplitOn(tail, sep)[0]] + SplitOn(tail, sep)[1..]
  {
    if |p| > 0 {
      assert (p + tail)[1..] == p[1..] + tail;
      assert (p + tail)[0] == p[0] && p[0] in p;
      assert forall c :: c in p[1..] ==> c in p;
      assert sep !in p[1..];
      var rest := SplitOn(p[1..] + tail, sep);
      assert SplitOn(p + tail, sep) == [[p[0]] + rest[0]] + rest[1..];
      SplitOnPrefix(p[1..], tail, sep);
      var t := SplitOn(tail, sep);
      assert rest[0] == p[1..] + t[0];
      assert rest[1..] == t[1..];
      assert [p[0]] + (p[1..] + SplitOn(tail, sep)[0]) == p + SplitOn(tail, sep)[0];
    } else {
      assert p + tail == tail;
      var t := SplitOn(tail, sep);
      assert p + t[0] == t[0];
      assert [t[0]] + t[1..] == t;
    }
  }

  /** Splitting the join of separator-free pieces gives the pieces back. */
  lemma {:induction false} SplitJoin(pieces: seq<string>, sep: char)
    requires |pieces| > 0
    requires forall i :: 0 <= i < |pieces| ==> sep !in pieces[i]
    ensures SplitOn(Join(pieces, [sep]), sep) == pieces
  {
    if |pieces| == 1 {
      assert SplitOn("", sep) == [""];
      SplitOnPrefix(pieces[0], "", sep);
      assert pieces[0] + "" == pieces[0];
    } else {
      var rest := Join(pieces[1..], [sep]);
      SplitJoin(pieces[1..], sep);
      assert Join(pieces, [sep]) == pieces[0] + ([sep] + rest);
      SplitOnPrefix(pieces[0], [sep] + rest, sep);
      assert ([sep] + rest)[1..] == rest;
      assert SplitOn([sep] + rest, sep) == [""] + pieces[1..];
      assert pieces[0] + "" == pieces[0];
      assert pieces == [pieces[0]] + pieces[1..];
    }
  }

  /** `int(piece.strip())` for a piece of the page run: one or more decimal digits after stripping. */
  function ParsePageNumber(piece: string): (r: Result<int, DistillError>)
    ensures r.Success? <==> |PyStrip(piece)| > 0 && AllDigits(PyStrip(piece))
  {
    var t := PyStrip(piece);
    if |t| > 0 && AllDigits(t) then Success(DigitsValue(t)) else Failure(InvalidPageNumber(piece))
  }

  function ParsePieces(pieces: seq<string>): (r: Result<seq<int>, DistillError>)
    ensures r.Success? ==> |r.value| == |pieces|
  {
    if |pieces| == 0 then Success([])
    else
      var n :- ParsePageNumber(pieces[0]);
      var rest :- ParsePieces(pieces[1..]);
      Success([n] + rest)
  }

  /** `[int(p.strip()) for p in pages_text.split(',')]`, failing on an empty or malformed piece. */
  function ParsePages(pagesText: string): Result<seq<int>, DistillError> {
    ParsePieces(SplitOn(pagesText, ','))
  }

  function Rendered(pages: seq<nat>): (r: seq<string>)
    ensures |r| == |pages|
    ensures forall i :: 0 <= i < |pages| ==> r[i] == NatToString(pages[i])
  {
    if |pages| == 0 then [] else [NatToString(pages[0])] + Rendered(pages[1..])
  }

  lemma {:induction false} StripDigits(s: string)
    requires AllDigits(s) && |s| > 0
    ensures PyStrip(s) == s
  {
    StripOf("", s, "", PyIsSpace);
    assert "" + s + "" == s;
  }

  lemma {:induction false} ParseRenderedPieces(pages: seq<nat>)
    ensures ParsePieces(Rendered(pages)) == Success(pages)
  {
    if |pages| > 0 {
      var s := NatToString(pages[0]);
      StripDigits(s);
      NatToStringValue(pages[0]);
      ParseRenderedPieces(pages[1..]);
      assert Rendered(pages)[1..] == Rendered(pages[1..]);
      assert ParsePageNumber(Rendered(pages)[0]) == Success(pages[0] as int);
      assert pages == [pages[0]] + pages[1..];
    }
  }

  /** The page list `x,y,z` the prompt asks for reads back as the pages `[x, y, z]`. */
  lemma {:induction false} ParsePagesRoundTrip(pages: seq<nat>)
    requires |pages| > 0
    ensures ParsePages(Join(Rendered(pages), ",")) == Success(pages)
  {
    var pieces := Rendered(pages);
    forall i | 0 <= i < |pieces|
      ensures ',' !in pieces[i]
    {
      assert forall k :: 0 <= k < |pieces[i]| ==> pieces[i][k] != ',';
    }
    SplitJoin(pieces, ',');
    ParseRenderedPieces(pages);
  }

  // ---------------------------------------------------------------------------------------
  // Cutting the answer into sections

  /** A section's text: stripped, trailing spaces, dots and newlines removed, then one '.' appended. */
  function SectionText(before: string): (r: string)
    ensures |r| > 0 && r[|r| - 1] == '.'
    ensures |r| > 1 ==> !IsSpaceDotNewline(r[|r| - 2])
  {
    PyStripSpaceDotNewline(PyStrip(before)) + "."
  }

  /** The loop state: the sections so far and `current_pos`. */
  datatype ParseState = ParseState(sections: seq<Paragraph>, currentPos: nat)

  /**
   * One iteration of the loop over matches. A match with empty stripped text is skipped; with
   * `advanceOnSkip` false (the code as written) the skip leaves `current_pos` behind. The kind
   * of a section is decided by looking for "Core:" in the whole match, so a `(Transition)` match
   * whose text contains "Core:" takes the core branch and fails on the missing page group.
   */
  function Consume(text: string, st: ParseState, m: Match, advanceOnSkip: bool): Result<ParseState, DistillError>
    requires Ordered(text, m)
  {
    var before := PyStrip(text[m.start..m.markerStart]);
    if |before| == 0 then
      Success(if advanceOnSkip then ParseState(st.sections, m.end) else st)
    else
      match m.marker
      case CoreMarker(pagesText) =>
        var pages :- ParsePages(pagesText);
        Success(ParseState(st.sections + [Paragraph(Core, SectionText(before), pages)], m.end))
      case TransitionMarker =>
        // the core test looks at the whole match, the text before the marker included
        if IndexOf(text[m.start..m.end], "Core:") >= 0 then Failure(NoPageGroup)
        else Success(ParseState(st.sections + [Paragraph(Transition, SectionText(before), [])], m.end))
  }

  function ConsumeAll(text: string, st: ParseState, ms: seq<Match>, advanceOnSkip: bool): Result<ParseState, DistillError>
    requires forall m :: m in ms ==> Ordered(text, m)
    decreases |ms|
  {
    if |ms| == 0 then Success(st)
    else
      var next :- Consume(text, st, ms[0], advanceOnSkip);
      ConsumeAll(text, next, ms[1..], advanceOnSkip)
  }

  /** The last marker with no '(' after it, as `re.search(r'\((Core: [0-9,\s]+|Transition)\)[^(]*$', text)` finds it. */
  function LastMarker(text: string): Option<Found> {
    var p := LastIndexOfChar(text, '(');
    if p < 0 then None else MarkerAt(text, p)
  }

  /** The trailing section: the stripped text after `current_pos`, typed by the last marker. */
  function Finish(text: string, st: ParseState): Result<seq<Paragraph>, DistillError>
    requires st.currentPos <= |text|
  {
    var remaining := PyStrip(text[st.currentPos..]);
    match LastMarker(text)
    case None => Success(st.sections)
    case Some(found) =>
      if |remaining| == 0 then Success(st.sections)
      else
        match found.marker
        case CoreMarker(pagesText) =>
          var pages :- ParsePages(pagesText);
          Success(st.sections + [Paragraph(Core, remaining, pages)])
        case TransitionMarker =>
          Success(st.sections + [Paragraph(Transition, remaining, [])])
  }

  lemma {:induction false} ConsumeAllBounded(text: string, st: ParseState, ms: seq<Match>, advanceOnSkip: bool)
    requires forall m :: m in ms ==> Ordered(text, m)
    requires st.currentPos <= |text|
    decreases |ms|
    ensures ConsumeAll(text, st, ms, advanceOnSkip).Success? ==> ConsumeAll(text, st, ms, advanceOnSkip).value.currentPos <= |text|
  {
    if |ms| > 0 {
      var next := Consume(text, st, ms[0], advanceOnSkip);
      if next.Success? {
        ConsumeAllBounded(text, next.value, ms[1..], advanceOnSkip);
      }
    }
  }

  /** `parse_content_sections`, with the skip either as written or advancing `current_pos`. */
  function ParseSections(text: string, advanceOnSkip: bool): Result<seq<Paragraph>, DistillError> {
    var ms := Matches(text, 0);
    assert forall m :: m in ms ==> Ordered(text, m);
    ConsumeAllBounded(text, ParseState([], 0), ms, advanceOnSkip);
    var st :- ConsumeAll(text, ParseState([], 0), ms, advanceOnSkip);
    Finish(text, st)
  }

  /** The section parser exactly as written: a skipped match does not move `current_pos`. */
  function ParseContentSectionsAsWritten(text: string): Result<seq<Paragraph>, DistillError> {
    ParseSections(text, false)
  }

  /** The section parser with `current_pos` moved past skipped matches too, as the rest of the model uses it. */
  function ParseContentSectionsCorrected(text: string): Result<seq<Paragraph>, DistillError> {
    ParseSections(text, true)
  }

  // ---------------------------------------------------------------------------------------
  // A skipped match just before the end

  /** A word that ends an answer: non-empty, with no '(' and no surrounding whitespace. */
  predicate TailWord(w: string) {
    |w| > 0 && '(' !in w && !PyIsSpace(w[0]) && !PyIsSpace(w[|w| - 1])
  }

  /** The answer "A (Core: 1) (Transition) w": nothing but a space between the last two markers. */
  function Example(w: string): string {
    "A " + (CORE_OPEN + ("1" + (")" + (" " + (TRANSITION + (" " + w))))))
  }

  /** The two matches of `Example(w)`. */
  const EXAMPLE_MATCHES: seq<Match> := [Match(0, 2, 11, CoreMarker("1")), Match(11, 12, 24, TransitionMarker)]

  lemma DropAppend(x: string, y: string)
    ensures (x + y)[|x|..] == y
  {
  }

  lemma TakeAppend(x: string, y: string)
    ensures (x + y)[..|x|] == x
  {
  }

  lemma DropDrop(s: string, a: nat, b: nat)
    requires a + b <= |s|
    ensures s[a..][b..] == s[a + b..]
  {
  }

  /** The suffixes of `Example(w)` that start at each piece. */
  lemma {:induction false} ExampleLayout(w: string)
    ensures |Example(w)| == 25 + |w|
    ensures Example(w)[2..] == CORE_OPEN + ("1" + (")" + (" " + (TRANSITION + (" " + w)))))
    ensures Example(w)[9..] == "1" + (")" + (" " + (TRANSITION + (" " + w))))
    ensures Example(w)[11..] == " " + (TRANSITION + (" " + w))
    ensures Example(w)[12..] == TRANSITION + (" " + w)
    ensures Example(w)[24..] == " " + w
  {
    var t := Example(w);
    var t2 := CORE_OPEN + ("1" + (")" + (" " + (TRANSITION + (" " + w)))));
    var t9 := "1" + (")" + (" " + (TRANSITION + (" " + w))));
    var t10 := ")" + (" " + (TRANSITION + (" " + w)));
    var t11 := " " + (TRANSITION + (" " + w));
    var t12 := TRANSITION + (" " + w);
    var t24 := " " + w;
    assert |"A "| == 2 && |CORE_OPEN| == 7 && |TRANSITION| == 12;
    DropAppend("A ", t2);
    DropAppend(CORE_OPEN, t9);
    DropDrop(t, 2, 7);
    DropAppend("1", t10);
    DropAppend(")", t11);
    DropDrop(t, 9, 1);
    DropDrop(t, 10, 1);
    DropAppend(" ", t12);
    DropDrop(t, 11, 1);
    DropAppend(TRANSITION, t24);
    DropDrop(t, 12, 12);
  }

  /** The pieces of `Example(w)` at their positions; '(' occurs only at the two markers. */
  lemma {:induction false} ExamplePositions(w: string)
    requires '(' !in w
    ensures Example(w)[2..9] == CORE_OPEN
    ensures Example(w)[12..24] == TRANSITION
    ensures Example(w)[0..2] == "A "
    ensures Example(w)[11..12] == " "
    ensures Example(w)[9..10] == "1"
    ensures Example(w)[10] == ')'
    ensures Example(w)[13] == 'T'
    ensures forall k :: 0 <= k < |Example(w)| && k != 2 && k != 12 ==> Example(w)[k] != '('
  {
    var t := Example(w);
    ExampleLayout(w);
    TakeAppend(CORE_OPEN, t[9..]);
    assert t[2..9] == t[2..][..7];
    TakeAppend(TRANSITION, t[24..]);
    assert t[12..24] == t[12..][..12];
    TakeAppend("A ", t[2..]);
    assert t == "A " + t[2..];
    assert t[11..12] == t[11..][..1];
    TakeAppend(" ", t[12..]);
    assert t[9..10] == t[9..][..1];
    TakeAppend("1", t[10..]);
    assert t[10] == t[9..][1];
    assert t[13] == t[12..][1] == TRANSITION[1];
    forall k | 0 <= k < |t| && k != 2 && k != 12
      ensures t[k] != '('
    {
      if k < 2 {
        assert t[k] == "A "[k];
      } else if k < 9 {
        assert t[k] == t[2..9][k - 2] == CORE_OPEN[k - 2];
      } else if k < 12 {
        assert t[k] == t[9..][k - 9];
      } else if k < 24 {
        assert t[k] == t[12..24][k - 12] == TRANSITION[k - 12];
      } else if k == 24 {
        assert t[k] == t[24..][0];
      } else {
        assert t[k] == t[24..][k - 24] == w[k - 25];
      }
    }
  }

  lemma {:induction false} ExampleCoreMarker(w: string)
    requires TailWord(w)
    ensures MarkerAt(Example(w), 2) == Some(Found(CoreMarker("1"), 11))
  {
    var text := Example(w);
    ExampleLayout(w);
    ExamplePositions(w);
    assert OccursAt(text, CORE_OPEN, 2);
    assert text[9..] == "1" + text[10..];
    LeadingCountOfPrefix("1", text[10..], IsPageListChar);
  }

  lemma {:induction false} ExampleTransitionMarker(w: string)
    requires TailWord(w)
    ensures MarkerAt(Example(w), 12) == Some(Found(TransitionMarker, 24))
  {
    var text := Example(w);
    ExamplePositions(w);
    assert text[13] != CORE_OPEN[1];
    assert !OccursAt(text, CORE_OPEN, 12);
    assert OccursAt(text, TRANSITION, 12);
  }

  lemma {:induction false} NoMarkerWithoutParen(text: string, k: nat)
    requires k <= |text|
    requires k == |text| || text[k] != '('
    ensures MarkerAt(text, k).None?
  {
  }

  lemma {:induction false} ExampleMarkers(w: string)
    requires TailWord(w)
    ensures MarkerAt(Example(w), 2) == Some(Found(CoreMarker("1"), 11))
    ensures MarkerAt(Example(w), 12) == Some(Found(TransitionMarker, 24))
    ensures forall k :: 0 <= k <= |Example(w)| && k != 2 && k != 12 ==> MarkerAt(Example(w), k).None?
  {
    ExampleCoreMarker(w);
    ExampleTransitionMarker(w);
    ExamplePositions(w);
    forall k | 0 <= k <= |Example(w)| && k != 2 && k != 12
      ensures MarkerAt(Example(w), k).None?
    {
      NoMarkerWithoutParen(Example(w), k);
    }
  }

  lemma {:induction false} ExampleMatches(w: string)
    requires TailWord(w)
    ensures Matches(Example(w), 0) == EXAMPLE_MATCHES
  {
    var text := Example(w);
    ExampleMarkers(w);
    assert FirstMarker(text, 0) == Some(2);
    assert FirstMarker(text, 11) == Some(12);
    assert FirstMarker(text, 24).None?;
    assert Matches(text, 24) == [];
  }

  lemma {:induction false} ExampleStripHead(w: string)
    requires TailWord(w)
    ensures PyStrip(Example(w)[0..2]) == "A"
    ensures PyStrip(Example(w)[11..12]) == ""
  {
    ExamplePositions(w);
    assert "A " == "" + "A" + " ";
    StripOf("", "A", " ", PyIsSpace);
  }

  lemma {:induction false} ExampleStripAfterCore(w: string)
    requires TailWord(w)
    ensures 11 <= |Example(w)|
    ensures PyStrip(Example(w)[11..]) == TRANSITION + (" " + w)
  {
    ExampleLayout(w);
    var r := TRANSITION + (" " + w);
    assert " " + r == " " + r + "";
    assert r[0] == '(' && r[|r| - 1] == w[|w| - 1];
    StripOf(" ", r, "", PyIsSpace);
  }

  lemma {:induction false} ExampleStripAfterTransition(w: string)
    requires TailWord(w)
    ensures 24 <= |Example(w)|
    ensures PyStrip(Example(w)[24..]) == w
  {
    ExampleLayout(w);
    assert " " + w == " " + w + "";
    StripOf(" ", w, "", PyIsSpace);
  }

  lemma {:induction false} ExampleStripA()
    ensures PyStrip("A") == "A"
  {
    var a := "A";
    assert a == "" + a + "";
    StripOf("", a, "", PyIsSpace);
  }

  lemma {:induction false} ExampleDotsA()
    ensures PyStripSpaceDotNewline("A") == "A"
  {
    var a := "A";
    assert a == "" + a + "";
    StripOf("", a, "", IsSpaceDotNewline);
  }

  lemma {:induction false} ExampleSection()
    ensures SectionText("A") == "A."
  {
    ExampleStripA();
    ExampleDotsA();
  }

  lemma {:induction false} ExamplePages()
    ensures ParsePages("1") == Success([1])
  {
    var pages: seq<nat> := [1];
    ParsePagesRoundTrip(pages);
    assert NatToString(1) == [DigitChar(1)] == "1";
    assert Rendered(pages) == [NatToString(1)];
    assert Join(["1"], ",") == "1";
  }

  lemma {:induction false} ExampleLastMarker(w: string)
    requires TailWord(w)
    ensures LastMarker(Example(w)) == Some(Found(TransitionMarker, 24))
  {
    var text := Example(w);
    ExampleMarkers(w);
    ExamplePositions(w);
    assert text[12] == '(';
    assert text == text[..12] + ['('] + text[13..];
    assert forall i :: 0 <= i < |text[13..]| ==> text[13..][i] == text[13 + i];
    assert '(' !in text[13..];
    LastIndexOfSeparator(text[..12], text[13..], '(');
  }

  lemma {:induction false} ConsumeSection(text: string, st: ParseState, m: Match, advanceOnSkip: bool, before: string, pages: seq<int>)
    requires Ordered(text, m)
    requires PyStrip(text[m.start..m.markerStart]) == before && |before| > 0
    requires m.marker.CoreMarker? ==> ParsePages(m.marker.pagesText) == Success(pages)
    requires m.marker.TransitionMarker? ==> pages == [] && IndexOf(text[m.start..m.end], "Core:") < 0
    ensures Consume(text, st, m, advanceOnSkip)
         == Success(ParseState(st.sections + [Paragraph(if m.marker.CoreMarker? then Core else Transition, SectionText(before), pages)], m.end))
  {
  }

  lemma {:induction false} ConsumeSkip(text: string, st: ParseState, m: Match, advanceOnSkip: bool)
    requires Ordered(text, m)
    requires PyStrip(text[m.start..m.markerStart]) == ""
    ensures Consume(text, st, m, advanceOnSkip) == Success(if advanceOnSkip then ParseState(st.sections, m.end) else st)
  {
  }

  lemma {:induction false} ConsumeAllOne(text: string, st0: ParseState, st1: ParseState, m: Match, advanceOnSkip: bool)
    requires Ordered(text, m)
    requires Consume(text, st0, m, advanceOnSkip) == Success(st1)
    ensures ConsumeAll(text, st0, [m], advanceOnSkip) == Success(st1)
  {
    assert [m][1..] == [];
  }

  lemma {:induction false} ConsumeAllTwo(text: string, st0: ParseState, st1: ParseState, st2: ParseState, m0: Match, m1: Match, advanceOnSkip: bool)
    requires Ordered(text, m0) && Ordered(text, m1)
    requires Consume(text, st0, m0, advanceOnSkip) == Success(st1)
    requires Consume(text, st1, m1, advanceOnSkip) == Success(st2)
    ensures ConsumeAll(text, st0, [m0, m1], advanceOnSkip) == Success(st2)
  {
    ConsumeAllOne(text, st1, st2, m1, advanceOnSkip);
    assert [m0, m1][1..] == [m1];
  }

  lemma {:induction false} ExampleFirstStep(w: string, advanceOnSkip: bool)
    requires TailWord(w)
    ensures Ordered(Example(w), EXAMPLE_MATCHES[0])
    ensures Consume(Example(w), ParseState([], 0), EXAMPLE_MATCHES[0], advanceOnSkip)
         == Success(ParseState([Paragraph(Core, "A.", [1])], 11))
  {
    ExampleStripHead(w);
    ExampleSection();
    ExamplePages();
    ConsumeSection(Example(w), ParseState([], 0), EXAMPLE_MATCHES[0], advanceOnSkip, "A", [1]);
    assert [] + [Paragraph(Core, "A.", [1])] == [Paragraph(Core, "A.", [1])];
  }

  lemma {:induction false} ExampleSecondStep(w: string, advanceOnSkip: bool)
    requires TailWord(w)
    ensures Ordered(Example(w), EXAMPLE_MATCHES[1])
    ensures Consume(Example(w), ParseState([Paragraph(Core, "A.", [1])], 11), EXAMPLE_MATCHES[1], advanceOnSkip)
         == Success(ParseState([Paragraph(Core, "A.", [1])], if advanceOnSkip then 24 else 11))
  {
    ExampleStripHead(w);
    ConsumeSkip(Example(w), ParseState([Paragraph(Core, "A.", [1])], 11), EXAMPLE_MATCHES[1], advanceOnSkip);
  }

  lemma {:induction false} ExampleConsumed(w: string, advanceOnSkip: bool, st: ParseState)
    requires TailWord(w)
    requires st == ParseState([Paragraph(Core, "A.", [1])], if advanceOnSkip then 24 else 11)
    ensures forall m :: m in Matches(Example(w), 0) ==> Ordered(Example(w), m)
    ensures ConsumeAll(Example(w), ParseState([], 0), Matches(Example(w), 0), advanceOnSkip) == Success(st)
  {
    ExampleMatches(w);
    ExampleFirstStep(w, advanceOnSkip);
    ExampleSecondStep(w, advanceOnSkip);
    ConsumeAllTwo(Example(w), ParseState([], 0), ParseState([Paragraph(Core, "A.", [1])], 11), st,
                  EXAMPLE_MATCHES[0], EXAMPLE_MATCHES[1], advanceOnSkip);
  }

  /** A run of the loop that consumes every match ends in the trailing-text step. */
  lemma {:induction false} ParseSectionsOf(text: string, advanceOnSkip: bool, st: ParseState)
    requires st.currentPos <= |text|
    requires ConsumeAll(text, ParseState([], 0), Matches(text, 0), advanceOnSkip) == Success(st)
    ensures ParseSections(text, advanceOnSkip) == Finish(text, st)
  {
  }

  lemma {:induction false} ParseSectionsIs(text: string, advanceOnSkip: bool, st: ParseState, sections: seq<Paragraph>)
    requires st.currentPos <= |text|
    requires ConsumeAll(text, ParseState([], 0), Matches(text, 0), advanceOnSkip) == Success(st)
    requires Finish(text, st) == Success(sections)
    ensures ParseSections(text, advanceOnSkip) == Success(sections)
  {
    ParseSectionsOf(text, advanceOnSkip, st);
  }

  /** A page list that fails to parse inside the loop makes the whole parse fail. */
  lemma {:induction false} ParseSectionsFails(text: string, advanceOnSkip: bool, e: DistillError)
    requires ConsumeAll(text, ParseState([], 0), Matches(text, 0), advanceOnSkip) == Failure(e)
    ensures ParseSections(text, advanceOnSkip) == Failure(e)
  {
  }

  lemma {:induction false} ConsumeAllCons(text: string, st: ParseState, ms: seq<Match>, advanceOnSkip: bool)
    requires |ms| > 0
    requires forall m :: m in ms ==> Ordered(text, m)
    ensures ConsumeAll(text, st, ms, advanceOnSkip) ==
      match Consume(text, st, ms[0], advanceOnSkip)
      case Failure(e) => Failure(e)
      case Success(next) => ConsumeAll(text, next, ms[1..], advanceOnSkip)
  {
  }

  lemma {:induction false} FinishWithTransition(text: string, st: ParseState, remaining: string, end: nat)
    requires st.currentPos <= |text|
    requires PyStrip(text[st.currentPos..]) == remaining && |remaining| > 0
    requires LastMarker(text) == Some(Found(TransitionMarker, end))
    ensures Finish(text, st) == Success(st.sections + [Paragraph(Transition, remaining, [])])
  {
  }

  /**
   * When only whitespace separates the last marker from the one before it, the code as written
   * skips that match without moving `current_pos`, so the trailing section repeats the
   * skipped marker: "A (Core: 1) (Transition) w" ends in a transition "(Transition) w".
   */
  lemma {:induction false} AsWrittenTailRepeatsMarker(w: string)
    requires TailWord(w)
    ensures ParseContentSectionsAsWritten(Example(w))
         == Success([Paragraph(Core, "A.", [1]), Paragraph(Transition, TRANSITION + (" " + w), [])])
  {
    var st := ParseState([Paragraph(Core, "A.", [1])], 11);
    ExampleConsumed(w, false, st);
    AsWrittenFinish(w, st);
    ParseSectionsIs(Example(w), false, st, [Paragraph(Core, "A.", [1]), Paragraph(Transition, TRANSITION + (" " + w), [])]);
  }

  lemma {:induction false} AsWrittenFinish(w: string, st: ParseState)
    requires TailWord(w)
    requires st == ParseState([Paragraph(Core, "A.", [1])], 11)
    ensures st.currentPos <= |Example(w)|
    ensures Finish(Example(w), st) == Success([Paragraph(Core, "A.", [1]), Paragraph(Transition, TRANSITION + (" " + w), [])])
  {
    ExampleStripAfterCore(w);
    ExampleLastMarker(w);
    FinishWithTransition(Example(w), st, TRANSITION + (" " + w), 24);
    assert st.sections + [Paragraph(Transition, TRANSITION + (" " + w), [])]
        == [Paragraph(Core, "A.", [1]), Paragraph(Transition, TRANSITION + (" " + w), [])];
  }

  /** Advancing past the skipped match makes the trailing section the text after the last marker. */
  lemma {:induction false} CorrectedTailExample(w: string)
    requires TailWord(w)
    ensures ParseContentSectionsCorrected(Example(w))
         == Success([Paragraph(Core, "A.", [1]), Paragraph(Transition, w, [])])
  {
    var st := ParseState([Paragraph(Core, "A.", [1])], 24);
    ExampleConsumed(w, true, st);
    CorrectedFinish(w, st);
    ParseSectionsIs(Example(w), true, st, [Paragraph(Core, "A.", [1]), Paragraph(Transition, w, [])]);
  }

  lemma {:induction false} CorrectedFinish(w: string, st: ParseState)
    requires TailWord(w)
    requires st == ParseState([Paragraph(Core, "A.", [1])], 24)
    ensures st.currentPos <= |Example(w)|
    ensures Finish(Example(w), st) == Success([Paragraph(Core, "A.", [1]), Paragraph(Transition, w, [])])
  {
    ExampleStripAfterTransition(w);
    ExampleLastMarker(w);
    FinishWithTransition(Example(w), st, w, 24);
    assert st.sections + [Paragraph(Transition, w, [])] == [Paragraph(Core, "A.", [1]), Paragraph(Transition, w, [])];
  }

  /** An answer where the word "Core:" comes before a `(Transition)` marker without forming a marker. */
  const CORE_WORD_ANSWER: string := "Core: x (Transition)"

  lemma {:induction false} CoreWordMatches()
    ensures Matches(CORE_WORD_ANSWER, 0) == [Match(0, 8, 20, TransitionMarker)]
  {
    var text := CORE_WORD_ANSWER;
    assert |text| == 20;
    forall k | 0 <= k < 8 || 8 < k <= 20
      ensures MarkerAt(text, k).None?
    {
      NoMarkerWithoutParen(text, k);
    }
    assert !OccursAt(text, CORE_OPEN, 8) by {
      assert text[9] != CORE_OPEN[1];
    }
    assert text[8..20] == TRANSITION;
    assert MarkerAt(text, 8) == Some(Found(TransitionMarker, 20));
    assert FirstMarker(text, 0) == Some(8);
    assert FirstMarker(text, 20).None?;
  }

  /**
   * The page group of a `(Transition)` match is absent, so when the text in front of it
   * contains "Core:" the parse fails, whichever way skipped matches are handled.
   */
  lemma {:induction false} CoreWordBeforeTransitionFails(advanceOnSkip: bool)
    ensures ParseSections(CORE_WORD_ANSWER, advanceOnSkip) == Failure(NoPageGroup)
  {
    var m := Match(0, 8, 20, TransitionMarker);
    CoreWordMatches();
    CoreWordStep(advanceOnSkip);
    assert [m][1..] == [];
    assert ConsumeAll(CORE_WORD_ANSWER, ParseState([], 0), [m], advanceOnSkip) == Failure(NoPageGroup);
    ParseSectionsFails(CORE_WORD_ANSWER, advanceOnSkip, NoPageGroup);
  }

  lemma {:induction false} CoreWordStep(advanceOnSkip: bool)
    ensures Ordered(CORE_WORD_ANSWER, Match(0, 8, 20, TransitionMarker))
    ensures Consume(CORE_WORD_ANSWER, ParseState([], 0), Match(0, 8, 20, TransitionMarker), advanceOnSkip) == Failure(NoPageGroup)
  {
    var text := CORE_WORD_ANSWER;
    assert |text| == 20;
    CoreWordStrip();
    assert text[0..20] == text;
    assert OccursAt(text, "Core:", 0);
  }

  lemma {:induction false} CoreWordStrip()
    ensures |CORE_WORD_ANSWER| == 20
    ensures PyStrip(CORE_WORD_ANSWER[0..8]) == "Core: x"
  {
    assert CORE_WORD_ANSWER[0..8] == "" + "Core: x" + " ";
    StripOf("", "Core: x", " ", PyIsSpace);
  }

  /** A step of the loop: consuming match `i` leaves the rest of the matches to be consumed. */
  lemma {:induction false} ConsumeAllStep(text: string, ms: seq<Match>, i: nat, st: ParseState, next: Result<ParseState, DistillError>)
    requires forall m :: m in ms ==> Ordered(text, m)
    requires i < |ms| && ms[i] in ms
    requires Consume(text, st, ms[i], true) == next
    ensures next.Success? ==> ConsumeAll(text, st, ms[i..], true) == ConsumeAll(text, next.value, ms[i + 1..], true)
    ensures next.Failure? ==> ConsumeAll(text, st, ms[i..], true) == Failure(next.error)
  {
    ConsumeAllCons(text, st, ms[i..], true);
    assert ms[i..][0] == ms[i] && ms[i..][1..] == ms[i + 1..];
  }

  /** The section parser with `current_pos` advanced past every match, skipped or not. */
  method ParseContentSections(text: string) returns (r: Result<seq<Paragraph>, DistillError>)
    ensures r == ParseContentSectionsCorrected(text)
  {
    var ms := Matches(text, 0);
    assert forall m :: m in ms ==> Ordered(text, m);
    var sections: seq<Paragraph> := [];
    var currentPos: nat := 0;
    for i := 0 to |ms|
      invariant currentPos <= |text|
      invariant ConsumeAll(text, ParseState([], 0), ms, true) == ConsumeAll(text, ParseState(sections, currentPos), ms[i..], true)
    {
      var m := ms[i];
      assert m in ms;
      ghost var before := ParseState(sections, currentPos);
      var content := PyStrip(text[m.start..m.markerStart]);
      if |content| == 0 {
        currentPos := m.end;
        ConsumeSkip(text, before, m, true);
        ConsumeAllStep(text, ms, i, before, Success(ParseState(sections, currentPos)));
        continue;
      }
      currentPos := m.end;
      match m.marker {
        case CoreMarker(pagesText) =>
          var pages := ParsePages(pagesText);
          if pages.Failure? {
            ConsumeAllStep(text, ms, i, before, Failure(pages.error));
            ParseSectionsFails(text, true, pages.error);
            return Failure(pages.error);
          }
          sections := sections + [Paragraph(Core, SectionText(content), pages.value)];
          ConsumeSection(text, before, m, true, content, pages.value);
        case TransitionMarker =>
          if IndexOf(text[m.start..m.end], "Core:") >= 0 {
            ConsumeAllStep(text, ms, i, before, Failure(NoPageGroup));
            ParseSectionsFails(text, true, NoPageGroup);
            return Failure(NoPageGroup);
          }
          sections := sections + [Paragraph(Transition, SectionText(content), [])];
          ConsumeSection(text, before, m, true, content, []);
      }
      ConsumeAllStep(text, ms, i, before, Success(ParseState(sections, currentPos)));
    }
    assert ms[|ms|..] == [];
    ParseSectionsOf(text, true, ParseState(sections, currentPos));
    r := Finish(text, ParseState(sections, currentPos));
  }

  /**
   * With `current_pos` advanced past every match, the trailing section is the text after the
   * final marker, which contains no further marker.
   */
  lemma {:induction false} TailFollowsLastMarker(text: string, st: ParseState, ms: seq<Match>)
    requires forall m :: m in ms ==> Ordered(text, m)
    requires |ms| > 0 && st.currentPos <= |text|
    requires ConsumeAll(text, st, ms, true).Success?
    ensures ConsumeAll(text, st, ms, true).value.currentPos == ms[|ms| - 1].end
    decreases |ms|
  {
    var next := Consume(text, st, ms[0], true);
    if |ms| > 1 {
      TailFollowsLastMarker(text, next.value, ms[1..]);
    }
  }

  /** In the corrected parser, the trailing section never holds a marker. */
  lemma {:induction false} CorrectedTailHasNoMarker(text: string)
    requires ParseContentSectionsCorrected(text).Success?
    requires |Matches(text, 0)| > 0
    ensures var ms := Matches(text, 0);
      var st := ConsumeAll(text, ParseState([], 0), ms, true).value;
      && st.currentPos == ms[|ms| - 1].end
      && forall k :: st.currentPos <= k <= |text| ==> MarkerAt(text, k).None?
  {
    var ms := Matches(text, 0);
    TailFollowsLastMarker(text, ParseState([], 0), ms);
  }

  // ---------------------------------------------------------------------------------------
  // summarize_content

  /**
   * The result of `summarize_content` for the pages sent and the model's answer: the first
   * and last page numbers and the merged paragraphs. An empty page list fails.
   */
  function SummarizeContent(pages: seq<Page>, answer: string): (r: Result<(int, int, seq<Paragraph>), DistillError>)
    ensures r.Success? ==> |pages| > 0 && r.value.0 == pages[0].pageNum && r.value.1 == pages[|pages| - 1].pageNum
    ensures r.Success? ==> ParseContentSectionsCorrected(answer).Success?
                           && r.value.2 == MergeParagraphs(ParseContentSectionsCorrected(answer).value)
    ensures r.Success? <==> |pages| > 0 && ParseContentSectionsCorrected(answer).Success?
    ensures ParseContentSectionsCorrected(answer).Failure? ==> r == Failure(ParseContentSectionsCorrected(answer).error)
    ensures ParseContentSectionsCorrected(answer).Success? && |pages| == 0 ==> r == Failure(NoPages)
  {
    var sections :- ParseContentSectionsCorrected(answer);
    if |pages| == 0 then Failure(NoPages)
    else Success((pages[0].pageNum, pages[|pages| - 1].pageNum, MergeParagraphs(sections)))
  }
}
