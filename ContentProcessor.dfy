/**
 * The text segmenter that splits an original page into runs labelled with the condensed
 * mapping covering them. Every mapping is located by the first occurrence of its start and end
 * phrases; the resulting boundaries are swept in position order while a set of active mappings
 * (kept in insertion order, as a JavaScript `Set` iterates) labels each run with its
 * earliest-added member; finally adjacent runs with the same label are merged.
 */
module ContentProcessor {
  import opened Wrappers
  import opened Text

  /** The part of a page mapping the segmenter reads. */
  datatype Mapping = Mapping(startPhrase: string, endPhrase: string)

  /** A start or end position of mapping number `mappingIndex`. */
  datatype Boundary = Boundary(position: nat, isEnd: bool, mappingIndex: nat)

  /** A run of text and the index of the mapping labelling it, if any. */
  datatype Segment = Segment(text: string, mappingIndex: Option<nat>)

  // ---------------------------------------------------------------------------------------
  // Boundary collection

  /** The boundaries of one mapping: none unless both phrases occur. */
  function BoundariesOf(content: string, m: Mapping, index: nat): (r: seq<Boundary>)
    ensures r == [] <==> !Contains(content, m.startPhrase) || !Contains(content, m.endPhrase)
    ensures forall b :: b in r ==> b.position <= |content| && b.mappingIndex == index
  {
    var s := IndexOf(content, m.startPhrase);
    var e := IndexOf(content, m.endPhrase);
    if s == -1 || e == -1 then []
    else [Boundary(s, false, index), Boundary(e + |m.endPhrase|, true, index)]
  }

  /** The boundaries of all mappings, in mapping order. */
  function Boundaries(content: string, mappings: seq<Mapping>): (r: seq<Boundary>)
    ensures forall b :: b in r ==> b.position <= |content| && b.mappingIndex < |mappings|
  {
    if |mappings| == 0 then []
    else Boundaries(content, mappings[..|mappings| - 1]) + BoundariesOf(content, mappings[|mappings| - 1], |mappings| - 1)
  }

  /** A mapping whose start or end phrase does not occur contributes no boundary. */
  lemma {:induction false} BoundariesFound(content: string, mappings: seq<Mapping>, b: Boundary)
    requires b in Boundaries(content, mappings)
    ensures Contains(content, mappings[b.mappingIndex].startPhrase) && Contains(content, mappings[b.mappingIndex].endPhrase)
  {
    var n := |mappings| - 1;
    var init := mappings[..n];
    if b !in BoundariesOf(content, mappings[n], n) {
      BoundariesFound(content, init, b);
      assert init[b.mappingIndex] == mappings[b.mappingIndex];
    }
  }

  /** The collection loop. */
  method CollectBoundaries(content: string, mappings: seq<Mapping>) returns (positions: seq<Boundary>)
    ensures positions == Boundaries(content, mappings)
  {
    positions := [];
    for i := 0 to |mappings|
      invariant positions == Boundaries(content, mappings[..i])
    {
      assert mappings[..i + 1][..i] == mappings[..i];
      assert Boundaries(content, mappings[..i + 1]) == positions + BoundariesOf(content, mappings[i], i);
      var startIndex := IndexOf(content, mappings[i].startPhrase);
      var endIndex := IndexOf(content, mappings[i].endPhrase);
      if startIndex != -1 && endIndex != -1 {
        positions := positions + [Boundary(startIndex, false, i), Boundary(endIndex + |mappings[i].endPhrase|, true, i)];
      }
    }
    assert mappings[..|mappings|] == mappings;
  }

  // ---------------------------------------------------------------------------------------
  // Sorting: by position, and at equal positions end boundaries first

  /** `a` may precede `b` in the sorted order. */
  predicate KeyLe(a: Boundary, b: Boundary) {
    a.position < b.position || (a.position == b.position && (a.isEnd || !b.isEnd))
  }

  predicate SortedBoundaries(bs: seq<Boundary>) {
    forall i, j :: 0 <= i < j < |bs| ==> KeyLe(bs[i], bs[j])
  }

  /** Inserts `b` after every element that may precede it (a stable insertion). */
  function InsertBoundary(bs: seq<Boundary>, b: Boundary): (r: seq<Boundary>)
    ensures multiset(r) == multiset(bs) + multiset{b}
    ensures forall x :: x in r <==> x in bs || x == b
  {
    if |bs| == 0 then [b]
    else if KeyLe(bs[|bs| - 1], b) then bs + [b]
    else
      assert bs == bs[..|bs| - 1] + [bs[|bs| - 1]];
      InsertBoundary(bs[..|bs| - 1], b) + [bs[|bs| - 1]]
  }

  lemma SortedSnoc(bs: seq<Boundary>, b: Boundary)
    requires SortedBoundaries(bs) && forall x :: x in bs ==> KeyLe(x, b)
    ensures SortedBoundaries(bs + [b])
  {
    forall i, j | 0 <= i < j < |bs| + 1
      ensures KeyLe((bs + [b])[i], (bs + [b])[j])
    {
      assert (bs + [b])[i] == bs[i] && bs[i] in bs;
    }
  }

  lemma {:induction false} InsertBoundarySorted(bs: seq<Boundary>, b: Boundary)
    requires SortedBoundaries(bs)
    ensures SortedBoundaries(InsertBoundary(bs, b))
  {
    if |bs| > 0 {
      var init := bs[..|bs| - 1];
      var last := bs[|bs| - 1];
      if KeyLe(last, b) {
        forall x | x in bs
          ensures KeyLe(x, b)
        {
          var i :| 0 <= i < |bs| && bs[i] == x;
          assert i == |bs| - 1 || KeyLe(x, last);
        }
        SortedSnoc(bs, b);
      } else {
        assert SortedBoundaries(init);
        InsertBoundarySorted(init, b);
        forall x | x in InsertBoundary(init, b)
          ensures KeyLe(x, last)
        {
          if x != b {
            var i :| 0 <= i < |init| && init[i] == x;
            assert bs[i] == x;
          }
        }
        SortedSnoc(InsertBoundary(init, b), last);
      }
    }
  }

  /** `positions.sort(...)`: ordered by position, end boundaries before start boundaries at equal positions. */
  function SortBoundaries(bs: seq<Boundary>): (r: seq<Boundary>)
    ensures SortedBoundaries(r)
    ensures multiset(r) == multiset(bs)
  {
    if |bs| == 0 then []
    else
      assert bs == bs[..|bs| - 1] + [bs[|bs| - 1]];
      InsertBoundarySorted(SortBoundaries(bs[..|bs| - 1]), bs[|bs| - 1]);
      InsertBoundary(SortBoundaries(bs[..|bs| - 1]), bs[|bs| - 1])
  }

  // ---------------------------------------------------------------------------------------
  // The sweep

  /** The set of active mappings in insertion order: `add` keeps an existing member in place, `delete` removes it. */
  function Step(active: seq<nat>, b: Boundary): seq<nat> {
    if !b.isEnd then (if b.mappingIndex in active then active else active + [b.mappingIndex])
    else Drop(active, b.mappingIndex)
  }

  function Drop(s: seq<nat>, x: nat): (r: seq<nat>)
    ensures forall y :: y in r <==> y in s && y != x
  {
    if |s| == 0 then []
    else (if s[0] == x then [] else [s[0]]) + Drop(s[1..], x)
  }

  /** The active mappings after the boundaries `bs`. */
  function ActiveAfter(bs: seq<Boundary>): seq<nat> {
    if |bs| == 0 then [] else Step(ActiveAfter(bs[..|bs| - 1]), bs[|bs| - 1])
  }

  /** The label of a run: the earliest-added active mapping, or none. */
  function Label(active: seq<nat>): Option<nat> {
    if |active| > 0 then Some(active[0]) else None
  }

  /** The position of the last boundary processed, 0 before the first. */
  function LastPos(bs: seq<Boundary>): nat {
    if |bs| == 0 then 0 else bs[|bs| - 1].position
  }

  predicate Bounded(content: string, bs: seq<Boundary>) {
    forall b :: b in bs ==> b.position <= |content|
  }

  /** Positions never go back, so the last processed position bounds every earlier one. */
  lemma LastPosMonotone(bs: seq<Boundary>)
    requires SortedBoundaries(bs) && |bs| > 0
    ensures LastPos(bs[..|bs| - 1]) <= bs[|bs| - 1].position
  {
    if |bs| > 1 {
      assert KeyLe(bs[|bs| - 2], bs[|bs| - 1]);
    }
  }

  /** The runs emitted while processing the boundaries `bs`, one before each boundary that moves forward. */
  function Pieces(content: string, bs: seq<Boundary>): (r: seq<Segment>)
    requires SortedBoundaries(bs) && Bounded(content, bs)
    ensures forall s :: s in r ==> |s.text| > 0
  {
    if |bs| == 0 then []
    else
      var init := bs[..|bs| - 1];
      var b := bs[|bs| - 1];
      var last := LastPos(init);
      assert b in bs;
      Pieces(content, init) + (if b.position > last then [Segment(content[last..b.position], Label(ActiveAfter(init)))] else [])
  }

  /** The runs of the sweep, including the text after the last boundary. */
  function Sweep(content: string, bs: seq<Boundary>): seq<Segment>
    requires SortedBoundaries(bs) && Bounded(content, bs)
  {
    var last := LastPos(bs);
    assert |bs| > 0 ==> bs[|bs| - 1] in bs;
    Pieces(content, bs) + (if last < |content| then [Segment(content[last..], Label(ActiveAfter(bs)))] else [])
  }

  /** The sweep loop and the trailing run. */
  method SweepBoundaries(content: string, bs: seq<Boundary>) returns (segments: seq<Segment>)
    requires SortedBoundaries(bs) && Bounded(content, bs)
    ensures segments == Sweep(content, bs)
  {
    segments := [];
    var lastPosition: nat := 0;
    var active: seq<nat> := [];
    for i := 0 to |bs|
      invariant segments == Pieces(content, bs[..i])
      invariant lastPosition == LastPos(bs[..i])
      invariant active == ActiveAfter(bs[..i])
    {
      var pos := bs[i];
      assert bs[..i + 1][..i] == bs[..i];
      assert pos in bs;
      if pos.position > lastPosition {
        segments := segments + [Segment(content[lastPosition..pos.position], Label(active))];
      }
      if !pos.isEnd {
        if pos.mappingIndex !in active {
          active := active + [pos.mappingIndex];
        }
      } else {
        active := Drop(active, pos.mappingIndex);
      }
      lastPosition := pos.position;
    }
    assert bs[..|bs|] == bs;
    if lastPosition < |content| {
      segments := segments + [Segment(content[lastPosition..], Label(active))];
    }
  }

  /** The concatenated texts of some runs. */
  function Texts(segs: seq<Segment>): string {
    if |segs| == 0 then "" else Texts(segs[..|segs| - 1]) + segs[|segs| - 1].text
  }

  lemma {:induction false} PiecesCover(content: string, bs: seq<Boundary>)
    requires SortedBoundaries(bs) && Bounded(content, bs)
    ensures LastPos(bs) <= |content|
    ensures Texts(Pieces(content, bs)) == content[..LastPos(bs)]
  {
    if |bs| > 0 {
      var init := bs[..|bs| - 1];
      var b := bs[|bs| - 1];
      assert b in bs;
      PiecesCover(content, init);
      LastPosMonotone(bs);
      var p := Pieces(content, init);
      if b.position > LastPos(init) {
        var seg := Segment(content[LastPos(init)..b.position], Label(ActiveAfter(init)));
        assert Pieces(content, bs) == p + [seg];
        assert (p + [seg])[..|p|] == p;
        assert content[..LastPos(init)] + content[LastPos(init)..b.position] == content[..b.position];
      } else {
        assert Pieces(content, bs) == p;
      }
    }
  }

  /** The sweep's runs spell out the whole content. */
  lemma SweepCovers(content: string, bs: seq<Boundary>)
    requires SortedBoundaries(bs) && Bounded(content, bs)
    ensures Texts(Sweep(content, bs)) == content
    ensures forall s :: s in Sweep(content, bs) ==> |s.text| > 0
  {
    PiecesCover(content, bs);
    var p := Pieces(content, bs);
    var last := LastPos(bs);
    if last < |content| {
      var seg := Segment(content[last..], Label(ActiveAfter(bs)));
      assert (p + [seg])[..|p|] == p;
      assert content[..last] + content[last..] == content;
    } else {
      assert p + [] == p;
    }
  }

  /** The mapping `m` has a boundary in `bs` and the latest of them is a start. */
  predicate StartedAndNotEnded(bs: seq<Boundary>, m: nat) {
    if |bs| == 0 then false
    else if bs[|bs| - 1].mappingIndex == m then !bs[|bs| - 1].isEnd
    else StartedAndNotEnded(bs[..|bs| - 1], m)
  }

  /** A mapping is active exactly when its latest boundary so far is a start; no mapping is listed twice. */
  lemma {:induction false} ActiveAfterMembers(bs: seq<Boundary>, m: nat)
    ensures m in ActiveAfter(bs) <==> StartedAndNotEnded(bs, m)
    ensures forall i, j :: 0 <= i < j < |ActiveAfter(bs)| ==> ActiveAfter(bs)[i] != ActiveAfter(bs)[j]
  {
    if |bs| > 0 {
      var init := bs[..|bs| - 1];
      ActiveAfterMembers(init, m);
      DropKeepsDistinct(ActiveAfter(init), bs[|bs| - 1].mappingIndex);
    }
  }

  lemma {:induction false} DropKeepsDistinct(s: seq<nat>, x: nat)
    requires forall i, j :: 0 <= i < j < |s| ==> s[i] != s[j]
    ensures forall i, j :: 0 <= i < j < |Drop(s, x)| ==> Drop(s, x)[i] != Drop(s, x)[j]
  {
    if |s| > 0 {
      DropKeepsDistinct(s[1..], x);
      assert s[0] !in s[1..];
      assert s[0] !in Drop(s[1..], x);
    }
  }

  /** Mapping `m` was started by boundary `k` and no end boundary of `m` follows it in `bs`. */
  ghost predicate OpenedAt(bs: seq<Boundary>, m: nat, k: int) {
    && 0 <= k < |bs| && bs[k].mappingIndex == m && !bs[k].isEnd
    && forall j :: k < j < |bs| ==> !(bs[j].isEnd && bs[j].mappingIndex == m)
  }

  ghost predicate Open(bs: seq<Boundary>, m: nat) {
    exists k :: OpenedAt(bs, m, k)
  }

  /** Some start of `x` still open after `bs` comes before every start of `y` still open. */
  ghost predicate OpenedBefore(bs: seq<Boundary>, x: nat, y: nat) {
    exists k :: OpenedAt(bs, x, k) && forall k' :: OpenedAt(bs, y, k') ==> k < k'
  }

  lemma {:induction false} OpenedAtSnoc(bs: seq<Boundary>, b: Boundary, m: nat, k: int)
    ensures OpenedAt(bs + [b], m, k) <==>
      (k < |bs| && OpenedAt(bs, m, k) && !(b.isEnd && b.mappingIndex == m)) ||
      (k == |bs| && !b.isEnd && b.mappingIndex == m)
  {
    if 0 <= k < |bs| {
      if OpenedAt(bs + [b], m, k) {
        forall j | k < j < |bs|
          ensures !(bs[j].isEnd && bs[j].mappingIndex == m)
        {
          assert (bs + [b])[j] == bs[j];
        }
        assert (bs + [b])[|bs|] == b;
      }
    }
  }

  /** Dropping a member keeps the relative order of the others. */
  lemma {:induction false} DropKeepsOrder(s: seq<nat>, x: nat, before: (nat, nat) -> bool)
    requires forall i, j :: 0 <= i < j < |s| && s[i] != x && s[j] != x ==> before(s[i], s[j])
    ensures forall i, j :: 0 <= i < j < |Drop(s, x)| ==> before(Drop(s, x)[i], Drop(s, x)[j])
  {
    if |s| > 0 {
      var rest := Drop(s[1..], x);
      DropKeepsOrder(s[1..], x, before);
      if s[0] != x {
        forall j | 0 <= j < |rest|
          ensures before(s[0], rest[j])
        {
          assert rest[j] in s[1..];
          var j' :| 0 <= j' < |s[1..]| && s[1..][j'] == rest[j];
          assert s[1 + j'] == rest[j];
        }
      }
    }
  }

  /**
   * The active list holds exactly the mappings still open, ordered by the position in `bs` of
   * the start that opened them: a JavaScript `Set` iterates in insertion order.
   */
  lemma {:induction false} ActiveInOpeningOrder(bs: seq<Boundary>)
    ensures forall m :: m in ActiveAfter(bs) <==> Open(bs, m)
    ensures forall i, j :: 0 <= i < j < |ActiveAfter(bs)| ==> OpenedBefore(bs, ActiveAfter(bs)[i], ActiveAfter(bs)[j])
  {
    if |bs| > 0 {
      var init := bs[..|bs| - 1];
      var b := bs[|bs| - 1];
      var a := ActiveAfter(init);
      assert bs == init + [b];
      ActiveInOpeningOrder(init);
      ActiveAfterMembers(init, b.mappingIndex);
      forall m, k
        ensures OpenedAt(bs, m, k) <==>
          (k < |init| && OpenedAt(init, m, k) && !(b.isEnd && b.mappingIndex == m)) ||
          (k == |init| && !b.isEnd && b.mappingIndex == m)
      {
        OpenedAtSnoc(init, b, m, k);
      }
      var x := b.mappingIndex;
      if !b.isEnd {
        assert OpenedAt(bs, x, |init|);
        var a' := if x in a then a else a + [x];
        assert ActiveAfter(bs) == a';
        forall i, j | 0 <= i < j < |a'|
          ensures OpenedBefore(bs, a'[i], a'[j])
        {
          assert a'[i] in a;
          var k :| OpenedAt(init, a'[i], k);
          if j < |a| {
            var k0 :| OpenedAt(init, a[i], k0) && forall k' :: OpenedAt(init, a[j], k') ==> k0 < k';
            assert OpenedAt(bs, a'[i], k0);
            if a[j] == x {
              var kj :| OpenedAt(init, a[j], kj);
            }
          } else {
            assert OpenedAt(bs, a'[i], k);
          }
        }
      } else {
        assert ActiveAfter(bs) == Drop(a, x);
        forall i, j | 0 <= i < j < |a| && a[i] != x && a[j] != x
          ensures OpenedBefore(bs, a[i], a[j])
        {
          var k0 :| OpenedAt(init, a[i], k0) && forall k' :: OpenedAt(init, a[j], k') ==> k0 < k';
          assert OpenedAt(bs, a[i], k0);
        }
        DropKeepsOrder(a, x, (p: nat, q: nat) => OpenedBefore(bs, p, q));
      }
    }
  }

  /**
   * The label of a run is the open mapping whose start came first among the boundaries
   * processed so far, or none when no mapping is open.
   */
  lemma {:induction false} LabelIsEarliestOpened(bs: seq<Boundary>)
    ensures Label(ActiveAfter(bs)).None? <==> forall m :: !Open(bs, m)
    ensures Label(ActiveAfter(bs)).Some? ==> Open(bs, Label(ActiveAfter(bs)).value)
    ensures Label(ActiveAfter(bs)).Some? ==>
      forall m :: Open(bs, m) && m != Label(ActiveAfter(bs)).value ==> OpenedBefore(bs, Label(ActiveAfter(bs)).value, m)
  {
    var a := ActiveAfter(bs);
    ActiveInOpeningOrder(bs);
    ActiveAfterMembers(bs, 0);
    if |a| > 0 {
      assert a[0] in a;
      forall m | Open(bs, m) && m != a[0]
        ensures OpenedBefore(bs, a[0], m)
      {
        var j :| 0 <= j < |a| && a[j] == m;
      }
    } else {
      forall m
        ensures !Open(bs, m)
      {
        assert m !in a;
      }
    }
  }

  /** The number of boundaries at or before position `p` of the content. */
  function AtOrBefore(bs: seq<Boundary>, p: nat): (n: nat)
    ensures n <= |bs|
  {
    if |bs| == 0 then 0
    else AtOrBefore(bs[..|bs| - 1], p) + (if bs[|bs| - 1].position <= p then 1 else 0)
  }

  /** When the boundaries at or before `p` are the first `j`, there are `j` of them. */
  lemma {:induction false} AtOrBeforeSplit(bs: seq<Boundary>, p: nat, j: nat)
    requires j <= |bs|
    requires forall i :: 0 <= i < j ==> bs[i].position <= p
    requires forall i :: j <= i < |bs| ==> bs[i].position > p
    ensures AtOrBefore(bs, p) == j
  {
    if |bs| > 0 {
      var init := bs[..|bs| - 1];
      if j == |bs| {
        AtOrBeforeSplit(init, p, j - 1);
      } else {
        AtOrBeforeSplit(init, p, j);
      }
    }
  }

  /** In sorted boundaries no position exceeds the last one. */
  lemma SortedBelowLast(bs: seq<Boundary>)
    requires SortedBoundaries(bs)
    ensures forall i :: 0 <= i < |bs| ==> bs[i].position <= LastPos(bs)
  {
    forall i | 0 <= i < |bs| - 1
      ensures bs[i].position <= LastPos(bs)
    {
      assert KeyLe(bs[i], bs[|bs| - 1]);
    }
  }

  /** Run `k` of `runs` is labelled from the active mappings after exactly the boundaries at or before its start. */
  predicate LabelledAtStart(runs: seq<Segment>, bs: seq<Boundary>, k: nat)
    requires k < |runs|
  {
    runs[k].mappingIndex == Label(ActiveAfter(bs[..AtOrBefore(bs, |Texts(runs[..k])|)]))
  }

  /** One boundary more: the runs so far keep their labels, and a new run starts at the previous boundary. */
  lemma {:induction false} PiecesLabelsStep(p: seq<Segment>, r: seq<Segment>, init: seq<Boundary>, bs: seq<Boundary>)
    requires |bs| > 0 && init == bs[..|bs| - 1] && LastPos(init) <= LastPos(bs)
    requires forall i :: 0 <= i < |init| ==> init[i].position <= LastPos(init)
    requires forall k :: 0 <= k < |p| ==> |Texts(p[..k])| < LastPos(init) && LabelledAtStart(p, init, k)
    requires |p| <= |r| <= |p| + 1 && r[..|p|] == p
    requires |r| > |p| ==> r[|p|].mappingIndex == Label(ActiveAfter(init)) && |Texts(p)| == LastPos(init) < LastPos(bs)
    ensures forall k :: 0 <= k < |r| ==> |Texts(r[..k])| < LastPos(bs) && LabelledAtStart(r, bs, k)
  {
    forall k | 0 <= k < |p|
      ensures |Texts(r[..k])| < LastPos(bs) && LabelledAtStart(r, bs, k)
    {
      assert r[..k] == p[..k] && r[k] == p[k];
      var n := AtOrBefore(init, |Texts(p[..k])|);
      assert AtOrBefore(bs, |Texts(p[..k])|) == n;
      assert bs[..n] == init[..n];
    }
    if |r| > |p| {
      AtOrBeforeSplit(bs, LastPos(init), |init|);
      assert bs[..|init|] == init;
    }
  }

  /**
   * Run `k` of the pieces starts at offset `|Texts(runs[..k])|`, before the last processed
   * position, and is labelled from the active mappings after exactly the boundaries at or
   * before that offset.
   */
  lemma {:induction false} PiecesLabels(content: string, bs: seq<Boundary>)
    requires SortedBoundaries(bs) && Bounded(content, bs)
    ensures forall k :: 0 <= k < |Pieces(content, bs)| ==>
      |Texts(Pieces(content, bs)[..k])| < LastPos(bs) && LabelledAtStart(Pieces(content, bs), bs, k)
  {
    if |bs| > 0 {
      var init := bs[..|bs| - 1];
      assert bs[|bs| - 1] in bs;
      assert SortedBoundaries(init) && Bounded(content, init);
      PiecesLabels(content, init);
      PiecesCover(content, init);
      LastPosMonotone(bs);
      SortedBelowLast(init);
      var p := Pieces(content, init);
      assert Pieces(content, bs)[..|p|] == p;
      PiecesLabelsStep(p, Pieces(content, bs), init, bs);
    }
  }

  /**
   * Run `k` of the sweep, starting at offset `|Texts(runs[..k])|` of the content, is labelled
   * from the active mappings after exactly the boundaries at or before that offset; the trailing
   * run starts at the last boundary, after all of them.
   */
  lemma {:induction false} SweepLabels(content: string, bs: seq<Boundary>)
    requires SortedBoundaries(bs) && Bounded(content, bs)
    ensures forall k :: 0 <= k < |Sweep(content, bs)| ==> LabelledAtStart(Sweep(content, bs), bs, k)
  {
    PiecesLabels(content, bs);
    PiecesCover(content, bs);
    SortedBelowLast(bs);
    var p := Pieces(content, bs);
    var r := Sweep(content, bs);
    assert r[..|p|] == p;
    TailLabel(p, r, bs);
  }

  /** The runs so far keep their labels, and a trailing run after the last boundary follows all of them. */
  lemma {:induction false} TailLabel(p: seq<Segment>, r: seq<Segment>, bs: seq<Boundary>)
    requires forall i :: 0 <= i < |bs| ==> bs[i].position <= LastPos(bs)
    requires forall k :: 0 <= k < |p| ==> LabelledAtStart(p, bs, k)
    requires |p| <= |r| <= |p| + 1 && r[..|p|] == p
    requires |r| > |p| ==> r[|p|].mappingIndex == Label(ActiveAfter(bs)) && |Texts(p)| == LastPos(bs)
    ensures forall k :: 0 <= k < |r| ==> LabelledAtStart(r, bs, k)
  {
    forall k | 0 <= k < |p|
      ensures LabelledAtStart(r, bs, k)
    {
      assert LabelledAtStart(p, bs, k);
      assert r[..k] == p[..k] && r[k] == p[k];
    }
    if |r| > |p| {
      AtOrBeforeSplit(bs, LastPos(bs), |bs|);
      assert bs[..|bs|] == bs;
    }
  }

  // ---------------------------------------------------------------------------------------
  // Merging adjacent runs with the same label

  /** Adjacent runs with equal labels are joined into one, left to right. */
  function MergeRuns(segs: seq<Segment>): (r: seq<Segment>)
    ensures |r| <= |segs|
    ensures |segs| > 0 ==> |r| > 0 && r[|r| - 1].mappingIndex == segs[|segs| - 1].mappingIndex
  {
    if |segs| == 0 then []
    else
      var m := MergeRuns(segs[..|segs| - 1]);
      var s := segs[|segs| - 1];
      if |m| > 0 && m[|m| - 1].mappingIndex == s.mappingIndex then
        m[..|m| - 1] + [Segment(m[|m| - 1].text + s.text, s.mappingIndex)]
      else m + [s]
  }

  /** No two neighbouring runs carry the same label. */
  predicate AdjacentDistinct(segs: seq<Segment>) {
    forall i :: 0 <= i < |segs| - 1 ==> segs[i].mappingIndex != segs[i + 1].mappingIndex
  }

  lemma TextsSnoc(segs: seq<Segment>, s: Segment)
    ensures Texts(segs + [s]) == Texts(segs) + s.text
  {
    assert (segs + [s])[..|segs|] == segs;
  }

  /** One step of merging, as the texts see it: the new run is appended to the last one or after it. */
  lemma {:induction false} TextsMergeStep(m: seq<Segment>, s: Segment, r: seq<Segment>)
    requires r == if |m| > 0 && m[|m| - 1].mappingIndex == s.mappingIndex
                  then m[..|m| - 1] + [Segment(m[|m| - 1].text + s.text, s.mappingIndex)]
                  else m + [s]
    ensures Texts(r) == Texts(m) + s.text
  {
    if |m| > 0 && m[|m| - 1].mappingIndex == s.mappingIndex {
      var front := m[..|m| - 1];
      var c := m[|m| - 1];
      assert m == front + [c];
      TextsSnoc(front, c);
      TextsSnoc(front, Segment(c.text + s.text, s.mappingIndex));
    } else {
      TextsSnoc(m, s);
    }
  }

  lemma {:induction false} MergeRunsTexts(segs: seq<Segment>)
    ensures Texts(MergeRuns(segs)) == Texts(segs)
  {
    if |segs| > 0 {
      var init := segs[..|segs| - 1];
      var s := segs[|segs| - 1];
      MergeRunsTexts(init);
      assert segs == init + [s];
      TextsSnoc(init, s);
      TextsMergeStep(MergeRuns(init), s, MergeRuns(segs));
    }
  }

  lemma {:induction false} DistinctMergeStep(m: seq<Segment>, s: Segment, r: seq<Segment>)
    requires AdjacentDistinct(m)
    requires r == if |m| > 0 && m[|m| - 1].mappingIndex == s.mappingIndex
                  then m[..|m| - 1] + [Segment(m[|m| - 1].text + s.text, s.mappingIndex)]
                  else m + [s]
    ensures AdjacentDistinct(r)
  {
    assert forall i :: 0 <= i < |r| - 1 ==> r[i] == m[i];
  }

  lemma {:induction false} MergeRunsDistinct(segs: seq<Segment>)
    ensures AdjacentDistinct(MergeRuns(segs))
  {
    if |segs| > 0 {
      var init := segs[..|segs| - 1];
      MergeRunsDistinct(init);
      DistinctMergeStep(MergeRuns(init), segs[|segs| - 1], MergeRuns(segs));
    }
  }

  lemma {:induction false} MergeRunsNonEmpty(segs: seq<Segment>)
    requires forall s :: s in segs ==> |s.text| > 0
    ensures forall s :: s in MergeRuns(segs) ==> |s.text| > 0
  {
    if |segs| > 0 {
      var init := segs[..|segs| - 1];
      var m := MergeRuns(init);
      var s := segs[|segs| - 1];
      assert forall x :: x in init ==> x in segs;
      MergeRunsNonEmpty(init);
      if |m| > 0 && m[|m| - 1].mappingIndex == s.mappingIndex {
        assert forall x :: x in m[..|m| - 1] ==> x in m;
      }
    }
  }

  /** Merging introduces no label that no run had. */
  lemma {:induction false} MergeRunsLabels(segs: seq<Segment>)
    ensures forall r :: r in MergeRuns(segs) ==> exists s :: s in segs && s.mappingIndex == r.mappingIndex
  {
    if |segs| > 0 {
      var init := segs[..|segs| - 1];
      var m := MergeRuns(init);
      MergeRunsLabels(init);
      assert forall x :: x in init ==> x in segs;
      assert segs[|segs| - 1] in segs;
      if |m| > 0 && m[|m| - 1].mappingIndex == segs[|segs| - 1].mappingIndex {
        assert forall x :: x in m[..|m| - 1] ==> x in m;
      }
    }
  }

  /** Run `k` of `merged` starts where some run of `segs` started and carries its label. */
  ghost predicate StartsAsSome(merged: seq<Segment>, k: nat, segs: seq<Segment>)
    requires k < |merged|
  {
    exists i :: 0 <= i < |segs| && merged[k].mappingIndex == segs[i].mappingIndex && Texts(merged[..k]) == Texts(segs[..i])
  }

  /** Each merged run starts where some run it absorbed started, and carries that run's label. */
  lemma {:induction false} MergeRunsStarts(segs: seq<Segment>)
    ensures forall k :: 0 <= k < |MergeRuns(segs)| ==> StartsAsSome(MergeRuns(segs), k, segs)
  {
    if |segs| > 0 {
      var init := segs[..|segs| - 1];
      MergeRunsStarts(init);
      MergeRunsTexts(init);
      StartsMergeStep(init, segs[|segs| - 1], segs, MergeRuns(init), MergeRuns(segs));
    }
  }

  lemma {:induction false} StartsMergeStep(init: seq<Segment>, s: Segment, segs: seq<Segment>, m: seq<Segment>, r: seq<Segment>)
    requires segs == init + [s] && Texts(m) == Texts(init)
    requires forall k :: 0 <= k < |m| ==> StartsAsSome(m, k, init)
    requires r == if |m| > 0 && m[|m| - 1].mappingIndex == s.mappingIndex
                  then m[..|m| - 1] + [Segment(m[|m| - 1].text + s.text, s.mappingIndex)]
                  else m + [s]
    ensures forall k :: 0 <= k < |r| ==> StartsAsSome(r, k, segs)
  {
    forall k | 0 <= k < |r|
      ensures StartsAsSome(r, k, segs)
    {
      if k < |m| {
        assert StartsAsSome(m, k, init);
        assert r[..k] == m[..k] && r[k].mappingIndex == m[k].mappingIndex;
        var i :| 0 <= i < |init| && m[k].mappingIndex == init[i].mappingIndex && Texts(m[..k]) == Texts(init[..i]);
        assert segs[..i] == init[..i] && segs[i] == init[i];
      } else {
        assert r[..k] == m && r[k] == s;
        assert segs[..|init|] == init && segs[|init|] == s;
      }
    }
  }

  /** One more run either extends the last merged run, when their labels agree, or follows it. */
  lemma MergeRunsSnoc(prefix: seq<Segment>, s: Segment, m: seq<Segment>, c: Segment)
    requires MergeRuns(prefix) == m + [c]
    ensures c.mappingIndex == s.mappingIndex ==> MergeRuns(prefix + [s]) == m + [Segment(c.text + s.text, c.mappingIndex)]
    ensures c.mappingIndex != s.mappingIndex ==> MergeRuns(prefix + [s]) == m + [c] + [s]
  {
    assert (prefix + [s])[..|prefix|] == prefix;
    assert (m + [c])[..|m|] == m;
  }

  lemma {:induction false} MergeRunsSingle(segs: seq<Segment>)
    requires |segs| > 0
    ensures MergeRuns(segs[..1]) == [segs[0]]
  {
    assert segs[..1][..0] == [];
  }

  /** The merge loop with its current-run accumulator. */
  method MergeAdjacent(segs: seq<Segment>) returns (merged: seq<Segment>)
    ensures merged == MergeRuns(segs)
  {
    merged := [];
    var current: Option<Segment> := None;
    for i := 0 to |segs|
      invariant current.None? <==> i == 0
      invariant i == 0 ==> merged == []
      invariant i > 0 ==> merged + [current.value] == MergeRuns(segs[..i])
    {
      var segment := segs[i];
      assert segs[..i + 1] == segs[..i] + [segment];
      if current.None? {
        MergeRunsSingle(segs);
        current := Some(segment);
      } else if current.value.mappingIndex == segment.mappingIndex {
        MergeRunsSnoc(segs[..i], segment, merged, current.value);
        current := Some(Segment(current.value.text + segment.text, current.value.mappingIndex));
      } else {
        MergeRunsSnoc(segs[..i], segment, merged, current.value);
        merged := merged + [current.value];
        current := Some(segment);
      }
    }
    assert segs[..|segs|] == segs;
    if current.Some? {
      merged := merged + [current.value];
    }
  }

  // ---------------------------------------------------------------------------------------
  // The whole transform

  /** `processContent`; `None` stands for missing mappings. */
  function ProcessSpec(content: string, mappings: Option<seq<Mapping>>): seq<Segment> {
    if mappings.None? || |mappings.value| == 0 then [Segment(content, None)]
    else
      var bs := SortBoundaries(Boundaries(content, mappings.value));
      assert forall b :: b in bs ==> b in multiset(bs);
      MergeRuns(Sweep(content, bs))
  }

  method ProcessContent(content: string, mappings: Option<seq<Mapping>>) returns (segments: seq<Segment>)
    ensures segments == ProcessSpec(content, mappings)
  {
    if mappings.None? || |mappings.value| == 0 {
      return [Segment(content, None)];
    }
    var positions := CollectBoundaries(content, mappings.value);
    positions := SortBoundaries(positions);
    assert forall b :: b in positions ==> b in multiset(positions);
    var swept := SweepBoundaries(content, positions);
    segments := MergeAdjacent(swept);
  }

  lemma {:induction false} ProcessSpecIsMergedSweep(content: string, mappings: seq<Mapping>, bs: seq<Boundary>)
    requires |mappings| > 0
    requires bs == SortBoundaries(Boundaries(content, mappings))
    ensures SortedBoundaries(bs) && Bounded(content, bs)
    ensures ProcessSpec(content, Some(mappings)) == MergeRuns(Sweep(content, bs))
  {
    assert forall b :: b in bs ==> b in multiset(bs);
  }

  lemma {:induction false} MergedSweepProperties(content: string, bs: seq<Boundary>)
    requires SortedBoundaries(bs) && Bounded(content, bs)
    ensures Texts(MergeRuns(Sweep(content, bs))) == content
    ensures forall s :: s in MergeRuns(Sweep(content, bs)) ==> |s.text| > 0
    ensures AdjacentDistinct(MergeRuns(Sweep(content, bs)))
  {
    SweepCovers(content, bs);
    MergeRunsTexts(Sweep(content, bs));
    MergeRunsDistinct(Sweep(content, bs));
    MergeRunsNonEmpty(Sweep(content, bs));
  }

  /**
   * What the segmenter guarantees: without mappings the whole content is one unlabelled run;
   * the runs spell out the content exactly; with mappings, every run is non-empty; no two
   * neighbouring runs share a label.
   */
  lemma {:induction false} ProcessSpecProperties(content: string, mappings: Option<seq<Mapping>>)
    ensures mappings.None? || |mappings.value| == 0 ==> ProcessSpec(content, mappings) == [Segment(content, None)]
    ensures Texts(ProcessSpec(content, mappings)) == content
    ensures mappings.Some? && |mappings.value| > 0 ==> forall s :: s in ProcessSpec(content, mappings) ==> |s.text| > 0
    ensures AdjacentDistinct(ProcessSpec(content, mappings))
  {
    if mappings.Some? && |mappings.value| > 0 {
      var bs := SortBoundaries(Boundaries(content, mappings.value));
      ProcessSpecIsMergedSweep(content, mappings.value, bs);
      MergedSweepProperties(content, bs);
    } else {
      assert Texts([Segment(content, None)]) == Texts([]) + content;
    }
  }

  /** Merged run `k` of a sweep is labelled from the active mappings after exactly the boundaries at or before its start. */
  lemma {:induction false} MergedSweepLabels(content: string, bs: seq<Boundary>)
    requires SortedBoundaries(bs) && Bounded(content, bs)
    ensures forall k :: 0 <= k < |MergeRuns(Sweep(content, bs))| ==> LabelledAtStart(MergeRuns(Sweep(content, bs)), bs, k)
  {
    var swept := Sweep(content, bs);
    var merged := MergeRuns(swept);
    SweepLabels(content, bs);
    MergeRunsStarts(swept);
    forall k | 0 <= k < |merged|
      ensures LabelledAtStart(merged, bs, k)
    {
      assert StartsAsSome(merged, k, swept);
      var i :| 0 <= i < |swept| && merged[k].mappingIndex == swept[i].mappingIndex && Texts(merged[..k]) == Texts(swept[..i]);
      assert LabelledAtStart(swept, bs, i);
    }
  }

  /**
   * With mappings, run `k` of the result, starting at offset `|Texts(runs[..k])|` of the content,
   * is labelled from the active mappings after exactly the sorted boundaries at or before that
   * offset: the open mapping whose start came first (see `LabelIsEarliestOpened`), or none.
   */
  lemma {:induction false} ProcessSpecLabels(content: string, mappings: seq<Mapping>, bs: seq<Boundary>)
    requires |mappings| > 0
    requires bs == SortBoundaries(Boundaries(content, mappings))
    ensures forall k :: 0 <= k < |ProcessSpec(content, Some(mappings))| ==> LabelledAtStart(ProcessSpec(content, Some(mappings)), bs, k)
  {
    ProcessSpecIsMergedSweep(content, mappings, bs);
    MergedSweepLabels(content, bs);
  }
}
