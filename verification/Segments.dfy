/**
 Cutting rendered templates at their markers: `segmentize_markers` of
 common/chat-auto-parser-helpers.cpp and the argument-opener scan of
 common/chat-diff-analyzer.cpp.
 */
module Segments {
  import opened Text

  datatype Kind = TextSegment | MarkerSegment

  datatype Segment = Segment(kind: Kind, value: string)

  predicate IsOpener(c: char) { c == '<' || c == '[' }

  function CloserOf(opener: char): char { if opener == '<' then '>' else ']' }

  // ---------------------------------------------------------------- segmentation

  /** Index of the first `c`, or the length. */
  function CharIndex(s: string, c: char): (i: nat)
    ensures i <= |s|
    ensures i < |s| ==> s[i] == c
    ensures forall j :: 0 <= j < i ==> s[j] != c
  {
    if s == [] || s[0] == c then 0 else 1 + CharIndex(s[1..], c)
  }

  /** Index of the first opener, or the length. */
  function OpenerIndex(s: string): (i: nat)
    ensures i <= |s|
    ensures i < |s| ==> IsOpener(s[i])
    ensures forall j :: 0 <= j < i ==> !IsOpener(s[j])
  {
    if s == [] || IsOpener(s[0]) then 0 else 1 + OpenerIndex(s[1..])
  }

  /** For a text that starts with an opener: the index of its closer, or the length. */
  function CloserIndex(s: string): (i: nat)
    requires s != [] && IsOpener(s[0])
    ensures 1 <= i <= |s|
    ensures i < |s| ==> s[i] == CloserOf(s[0])
    ensures forall j :: 1 <= j < i ==> s[j] != CloserOf(s[0])
  {
    1 + CharIndex(s[1..], CloserOf(s[0]))
  }

  /** The first segment of a non-empty text. */
  function FirstSegment(s: string): (g: Segment)
    requires s != []
    ensures g.value != [] && g.value <= s
  {
    if IsOpener(s[0]) then
      var c := CloserIndex(s);
      if c == |s| then Segment(TextSegment, s) else Segment(MarkerSegment, s[..c + 1])
    else Segment(TextSegment, s[..OpenerIndex(s)])
  }

  function Segmented(s: string): seq<Segment>
    decreases |s|
  {
    if s == [] then [] else
    var g := FirstSegment(s);
    [g] + Segmented(s[|g.value|..])
  }

  lemma CutText(text: string, from: nat, to: nat)
    requires from < to < |text| && IsOpener(text[to]) && forall j :: from <= j < to ==> !IsOpener(text[j])
    ensures Segmented(text[from..]) == [Segment(TextSegment, text[from..to])] + Segmented(text[to..])
  {
    var rest := text[from..];
    assert rest[to - from] == text[to] && rest[0] == text[from];
    assert forall j :: 0 <= j < to - from ==> rest[j] == text[from + j];
    assert OpenerIndex(rest) == to - from;
    assert rest[..to - from] == text[from..to];
    assert rest[to - from..] == text[to..];
  }

  lemma CutMarker(text: string, from: nat, to: nat)
    requires from < to < |text| && IsOpener(text[from]) && text[to] == CloserOf(text[from])
    requires forall j :: from < j < to ==> text[j] != CloserOf(text[from])
    ensures Segmented(text[from..]) == [Segment(MarkerSegment, text[from..to + 1])] + Segmented(text[to + 1..])
  {
    var rest := text[from..];
    assert rest[to - from] == text[to] && rest[0] == text[from];
    assert forall j :: 0 <= j < to - from ==> rest[j] == text[from + j];
    assert CloserIndex(rest) == to - from;
    assert rest[..to - from + 1] == text[from..to + 1];
    assert rest[to - from + 1..] == text[to + 1..];
  }

  lemma CutLast(s: string)
    requires s != [] && if IsOpener(s[0]) then forall j :: 1 <= j < |s| ==> s[j] != CloserOf(s[0])
                        else forall j :: 0 <= j < |s| ==> !IsOpener(s[j])
    ensures Segmented(s) == [Segment(TextSegment, s)]
  {
    assert FirstSegment(s) == Segment(TextSegment, s);
    assert s[|s|..] == [];
    assert Segmented(s) == [Segment(TextSegment, s)] + Segmented([]);
  }

  method SegmentizeMarkers(text: string) returns (retval: seq<Segment>)
    ensures retval == Segmented(text)
  {
    hide Segmented;
    retval := [];
    var inMarker, opener, lastBorder := false, ' ', 0;
    assert text[0..] == text;
    for pos := 0 to |text|
      invariant lastBorder <= pos
      invariant inMarker ==> lastBorder < pos && opener == text[lastBorder] && IsOpener(opener)
      invariant inMarker ==> forall j :: lastBorder < j < pos ==> text[j] != CloserOf(opener)
      invariant !inMarker ==> forall j :: lastBorder <= j < pos ==> !IsOpener(text[j])
      invariant retval + Segmented(text[lastBorder..]) == Segmented(text)
    {
      if !inMarker && IsOpener(text[pos]) {
        if lastBorder < pos {
          CutText(text, lastBorder, pos);
          retval := retval + [Segment(TextSegment, text[lastBorder..pos])];
        }
        lastBorder := pos;
        inMarker := true;
        opener := text[pos];
      } else if inMarker && text[pos] == CloserOf(opener) {
        CutMarker(text, lastBorder, pos);
        retval := retval + [Segment(MarkerSegment, text[lastBorder..pos + 1])];
        lastBorder := pos + 1;
        inMarker := false;
      }
    }
    if lastBorder < |text| {
      CutLast(text[lastBorder..]);
      retval := retval + [Segment(TextSegment, text[lastBorder..])];
    } else {
      SegmentedEmpty();
      assert text[lastBorder..] == [];
    }
  }

  lemma SegmentedEmpty()
    ensures Segmented([]) == []
  {
  }

  // ---------------------------------------------------------------- segments and the text they cut

  function Joined(segs: seq<Segment>): string {
    if segs == [] then "" else segs[0].value + Joined(segs[1..])
  }

  lemma {:induction false} JoinedAppend(a: seq<Segment>, b: seq<Segment>)
    ensures Joined(a + b) == Joined(a) + Joined(b)
    decreases |a|
  {
    if a == [] {
      assert a + b == b;
    } else {
      assert (a + b)[1..] == a[1..] + b;
      JoinedAppend(a[1..], b);
    }
  }

  /** A marker: an opener, no closer inside, and its closer at the end. */
  predicate IsMarker(v: string) {
    |v| >= 2 && IsOpener(v[0]) && CloserIndex(v) == |v| - 1
  }

  /**
   The shape of a segmentation, said without scanning: markers, opener-free texts that are
   followed by an opener or by nothing, and at the very end perhaps an opener that is never closed.
   */
  predicate Canonical(segs: seq<Segment>)
    decreases |segs|
  {
    segs == [] ||
    var v, rest := segs[0].value, segs[1..];
    if segs[0].kind == MarkerSegment then IsMarker(v) && Canonical(rest)
    else && v != []
         && if IsOpener(v[0]) then rest == [] && CloserIndex(v) == |v|
            else && OpenerIndex(v) == |v| && Canonical(rest)
                 && (rest != [] ==> IsOpener(rest[0].value[0]))
  }

  lemma {:induction false} CanonicalNonEmpty(segs: seq<Segment>)
    requires Canonical(segs)
    ensures forall i :: 0 <= i < |segs| ==> segs[i].value != []
    decreases |segs|
  {
    if segs != [] {
      var rest := segs[1..];
      if !(segs[0].kind == TextSegment && IsOpener(segs[0].value[0])) {
        CanonicalNonEmpty(rest);
      }
      forall i | 0 <= i < |segs| ensures segs[i].value != [] {
        if i > 0 { assert segs[i] == rest[i - 1]; }
      }
    }
  }

  /** Segments concatenate to the input, none is empty, and they have the canonical shape. */
  lemma {:induction false} SegmentationIsCanonical(s: string)
    ensures Joined(Segmented(s)) == s
    ensures Canonical(Segmented(s))
    ensures forall i :: 0 <= i < |Segmented(s)| ==> Segmented(s)[i].value != []
    decreases |s|
  {
    if s != [] {
      var g := FirstSegment(s);
      var rest := s[|g.value|..];
      SegmentationIsCanonical(rest);
      FirstSegmentShape(s);
      CanonicalCons(g, Segmented(rest));
      CanonicalNonEmpty(Segmented(s));
      assert s == g.value + rest;
      assert Joined([g] + Segmented(rest)) == g.value + Joined(Segmented(rest));
    }
  }

  lemma CanonicalCons(g: Segment, rest: seq<Segment>)
    requires Canonical(rest) && g.value != []
    requires if g.kind == MarkerSegment then IsMarker(g.value)
             else if IsOpener(g.value[0]) then rest == [] && CloserIndex(g.value) == |g.value|
             else OpenerIndex(g.value) == |g.value|
                  && (rest != [] ==> rest[0].value != [] && IsOpener(rest[0].value[0]))
    ensures Canonical([g] + rest)
  {
    assert ([g] + rest)[1..] == rest;
  }

  lemma FirstSegmentShape(s: string)
    requires s != []
    ensures var g := FirstSegment(s);
            && (g.kind == MarkerSegment ==> IsMarker(g.value))
            && (g.kind == TextSegment ==> if IsOpener(s[0]) then g.value == s && CloserIndex(s) == |s|
                                          else OpenerIndex(g.value) == |g.value|)
            && (g.kind == TextSegment && |g.value| < |s| ==>
                  IsOpener(s[|g.value|]) && IsOpener(FirstSegment(s[|g.value|..]).value[0]))
  {
    var g := FirstSegment(s);
    if g.kind == MarkerSegment {
      assert g.value[0] == s[0];
    } else if |g.value| < |s| {
      assert s[|g.value|..][0] == s[|g.value|];
    }
  }

  /** Segmentation undoes concatenation: a canonical list is the only segmentation of its text. */
  lemma {:induction false} SegmentationIsUnique(segs: seq<Segment>)
    requires Canonical(segs)
    ensures Segmented(Joined(segs)) == segs
    decreases |segs|
  {
    if segs != [] {
      FirstIsUnique(segs);
      SegmentationIsUnique(segs[1..]);
    }
  }

  lemma FirstIsUnique(segs: seq<Segment>)
    requires segs != [] && Canonical(segs)
    ensures var v, s := segs[0].value, Joined(segs);
            s != [] && v <= s && FirstSegment(s) == segs[0] && s[|v|..] == Joined(segs[1..]) && Canonical(segs[1..])
  {
    var v, rest, s := segs[0].value, segs[1..], Joined(segs);
    assert s[|v|..] == Joined(rest) && s[..|v|] == v;
    assert forall j :: 0 <= j < |v| ==> s[j] == v[j];
    if segs[0].kind == MarkerSegment {
      assert CloserIndex(s) == |v| - 1;
    } else if IsOpener(v[0]) {
      assert s == v;
    } else {
      if rest != [] {
        assert s[|v|] == rest[0].value[0];
      }
      assert OpenerIndex(s) == |v|;
    }
  }

  /** Whether a text is empty or stops right after a closed marker. */
  predicate EndsClosed(a: string) {
    var segs := Segmented(a);
    segs == [] || segs[|segs| - 1].kind == MarkerSegment
  }

  lemma {:induction false} CanonicalAppend(a: seq<Segment>, b: seq<Segment>)
    requires Canonical(a) && Canonical(b) && (a == [] || a[|a| - 1].kind == MarkerSegment)
    ensures Canonical(a + b)
    decreases |a|
  {
    if a == [] {
      assert a + b == b;
    } else {
      assert (a + b)[1..] == a[1..] + b;
      if |a| > 1 {
        assert a[1..][|a| - 2] == a[|a| - 1];
      }
      CanonicalAppend(a[1..], b);
    }
  }

  /** After a text that ends on a closed marker, segmentation splits over concatenation. */
  lemma SegmentationSplits(a: string, b: string)
    requires EndsClosed(a)
    ensures Segmented(a + b) == Segmented(a) + Segmented(b)
  {
    SegmentationIsCanonical(a);
    SegmentationIsCanonical(b);
    CanonicalAppend(Segmented(a), Segmented(b));
    JoinedAppend(Segmented(a), Segmented(b));
    SegmentationIsUnique(Segmented(a) + Segmented(b));
  }

  // ---------------------------------------------------------------- the argument-opener scan

  /** Whether a marker with a closer starts at `i`. */
  predicate MarkerAt(s: string, i: nat) {
    i < |s| && IsOpener(s[i]) && CloserIndex(s[i..]) < |s| - i
  }

  function MarkerEnd(s: string, i: nat): (e: nat)
    requires MarkerAt(s, i)
    ensures i < e < |s|
  {
    i + CloserIndex(s[i..])
  }

  /** Starts of the markers met from `i` on, left to right and without overlap. */
  function Starts(s: string, i: nat): seq<nat>
    decreases |s| - i
  {
    if i >= |s| then []
    else if MarkerAt(s, i) then [i] + Starts(s, MarkerEnd(s, i) + 1)
    else Starts(s, i + 1)
  }

  predicate Increasing(r: seq<nat>) {
    forall j, k :: 0 <= j < k < |r| ==> r[j] < r[k]
  }

  predicate MarkersFrom(s: string, i: nat, r: seq<nat>) {
    forall k :: 0 <= k < |r| ==> i <= r[k] && MarkerAt(s, r[k])
  }

  lemma {:induction false} StartsAreMarkers(s: string, i: nat)
    ensures Increasing(Starts(s, i)) && MarkersFrom(s, i, Starts(s, i))
    decreases |s| - i
  {
    if i < |s| {
      if MarkerAt(s, i) {
        var next := MarkerEnd(s, i) + 1;
        StartsAreMarkers(s, next);
        MarkersCons(s, i, next, Starts(s, next));
      } else {
        hide MarkerAt;
        StartsAreMarkers(s, i + 1);
      }
    }
  }

  lemma MarkersCons(s: string, i: nat, next: nat, r: seq<nat>)
    requires i < next && MarkerAt(s, i) && Increasing(r) && MarkersFrom(s, next, r)
    ensures Increasing([i] + r) && MarkersFrom(s, i, [i] + r)
  {
    hide MarkerAt;
  }

  /** The marker that opens the first argument: the last one that starts at or before the argument's name. */
  predicate IsBoundary(s: string, argPos: nat, boundary: Option<nat>) {
    if boundary.None? then forall m :: m in Starts(s, 0) ==> m > argPos
    else && boundary.value in Starts(s, 0) && boundary.value <= argPos
         && forall m :: m in Starts(s, 0) && m <= argPos ==> m <= boundary.value
  }

  method FindBoundary(s: string, argPos: nat) returns (boundary: Option<nat>)
    ensures IsBoundary(s, argPos, boundary)
  {
    hide Starts;
    boundary := None;
    ghost var seen: seq<nat> := [];
    var i := 0;
    while i <= argPos && i < |s|
      invariant 0 <= i <= |s|
      invariant seen + Starts(s, i) == Starts(s, 0)
      invariant seen != [] ==> seen[|seen| - 1] <= argPos
      invariant boundary == if seen == [] then None else Some(seen[|seen| - 1])
      decreases |s| - i
    {
      StartsStep(s, i, seen);
      var c := s[i];
      var end := |s|;
      if IsOpener(c) {
        end := i + CloserIndex(s[i..]);
      }
      if end == |s| {
        i := i + 1;
        continue;
      }
      seen := seen + [i];
      boundary := Some(i);
      i := end + 1;
    }
    StartsAreMarkers(s, 0);
    StartsAreMarkers(s, i);
    if i == |s| {
      StartsAtEnd(s);
    }
    LastSeen(Starts(s, 0), seen, Starts(s, i), argPos, i);
  }

  lemma StartsStep(s: string, i: nat, seen: seq<nat>)
    requires i < |s|
    ensures var end := if IsOpener(s[i]) then i + CloserIndex(s[i..]) else |s|;
            seen + Starts(s, i) == if end < |s| then (seen + [i]) + Starts(s, end + 1) else seen + Starts(s, i + 1)
  {
  }

  lemma StartsAtEnd(s: string)
    ensures Starts(s, |s|) == []
  {
  }

  lemma LastSeen(all: seq<nat>, seen: seq<nat>, later: seq<nat>, argPos: nat, i: nat)
    requires all == seen + later
    requires Increasing(all) && forall k :: 0 <= k < |later| ==> i <= later[k]
    requires i > argPos || later == []
    ensures forall m :: m in all && m <= argPos ==> seen != [] && m <= seen[|seen| - 1]
    ensures seen != [] ==> seen[|seen| - 1] in all
  {
    assert forall k :: |seen| <= k < |all| ==> all[k] == later[k - |seen|];
    forall m | m in all && m <= argPos
      ensures seen != [] && m <= seen[|seen| - 1]
    {
      var k :| 0 <= k < |all| && all[k] == m;
      assert k < |seen|;
      assert all[|seen| - 1] == seen[|seen| - 1];
    }
    if seen != [] {
      assert all[|seen| - 1] == seen[|seen| - 1];
    }
  }

  // ---------------------------------------------------------------- agreement with the older scan

  /** Where the older scan stopped: the first marker, or the end of the text. */
  function FirstMarker(s: string, i: nat): (r: nat)
    requires i <= |s|
    ensures i <= r <= |s|
    ensures r < |s| ==> MarkerAt(s, r)
    ensures forall j :: i <= j < r ==> !MarkerAt(s, j)
    decreases |s| - i
  {
    if i == |s| || MarkerAt(s, i) then i else FirstMarker(s, i + 1)
  }

  lemma {:induction false} FirstMarkerIsFirstStart(s: string, i: nat)
    requires i <= |s|
    ensures FirstMarker(s, i) == if Starts(s, i) == [] then |s| else Starts(s, i)[0]
    decreases |s| - i
  {
    if i < |s| && !MarkerAt(s, i) {
      FirstMarkerIsFirstStart(s, i + 1);
    }
  }

  /** What `name_suffix` gains: the text before the boundary, or the older scan's when there is none. */
  function NameSuffix(s: string, boundary: Option<nat>): string
    requires boundary.Some? ==> boundary.value <= |s|
  {
    s[..if boundary.Some? then boundary.value else FirstMarker(s, 0)]
  }

  /** The two scans agree exactly when at most one marker starts at or before the argument's name. */
  lemma AgreesWithOldScanExactly(s: string, argPos: nat, boundary: Option<nat>)
    requires IsBoundary(s, argPos, boundary)
    ensures boundary.Some? ==> boundary.value <= |s|
    ensures NameSuffix(s, boundary) == s[..FirstMarker(s, 0)]
       <==> |Starts(s, 0)| < 2 || Starts(s, 0)[1] > argPos
  {
    hide MarkerAt;
    var starts := Starts(s, 0);
    FirstMarkerIsFirstStart(s, 0);
    StartsAreMarkers(s, 0);
    if |starts| >= 2 {
      assert starts[1] in starts;
    }
    if boundary.Some? {
      var b := boundary.value;
      var k :| 0 <= k < |starts| && starts[k] == b;
      StartsInside(s, 0, k);
      assert |s[..b]| == b && |s[..starts[0]]| == starts[0];
    }
  }

  lemma StartsInside(s: string, i: nat, k: nat)
    requires k < |Starts(s, i)|
    ensures Starts(s, i)[0] <= Starts(s, i)[k] < |s|
  {
    StartsAreMarkers(s, i);
    assert MarkerAt(s, Starts(s, i)[k]);
  }

  // ---------------------------------------------------------------- agreement with the segmentation

  /** Offsets of the marker segments. */
  function Offsets(segs: seq<Segment>, base: nat): seq<nat> {
    if segs == [] then [] else
    (if segs[0].kind == MarkerSegment then [base] else []) + Offsets(segs[1..], base + |segs[0].value|)
  }

  /** Where segmentation gives up: the first opener that is never closed, or the end. */
  function Unclosed(s: string, i: nat): (u: nat)
    requires i <= |s|
    ensures i <= u <= |s|
    decreases |s| - i
  {
    if i == |s| then i else
    var g := FirstSegment(s[i..]);
    if g.kind == TextSegment && IsOpener(s[i]) then i else Unclosed(s, i + |g.value|)
  }

  lemma {:induction false} SkipText(s: string, i: nat, n: nat)
    requires i + n <= |s| && forall j :: i <= j < i + n ==> !IsOpener(s[j])
    ensures Starts(s, i) == Starts(s, i + n)
    decreases n
  {
    if n > 0 {
      SkipText(s, i + 1, n - 1);
    }
  }

  lemma OffsetsCons(g: Segment, rest: seq<Segment>, base: nat)
    ensures Offsets([g] + rest, base)
         == (if g.kind == MarkerSegment then [base] else []) + Offsets(rest, base + |g.value|)
  {
    assert ([g] + rest)[1..] == rest;
  }

  /** How the scan moves over one segment. */
  lemma StartsOverSegment(s: string, i: nat)
    requires i < |s|
    ensures var g := FirstSegment(s[i..]);
            !(g.kind == TextSegment && IsOpener(s[i])) ==>
              Starts(s, i) == (if g.kind == MarkerSegment then [i] else []) + Starts(s, i + |g.value|)
  {
    hide Starts, CloserIndex, OpenerIndex;
    var t := s[i..];
    var g := FirstSegment(t);
    if g.kind == MarkerSegment {
      StartsAtMarker(s, i);
    } else if !IsOpener(s[i]) {
      assert forall j :: i <= j < i + |g.value| ==> s[j] == t[j - i];
      SkipText(s, i, |g.value|);
      assert [] + Starts(s, i + |g.value|) == Starts(s, i + |g.value|);
    }
  }

  lemma StartsAtMarker(s: string, i: nat)
    requires i < |s| && FirstSegment(s[i..]).kind == MarkerSegment
    ensures Starts(s, i) == [i] + Starts(s, i + |FirstSegment(s[i..]).value|)
  {
    hide CloserIndex, OpenerIndex;
    var t := s[i..];
    assert t[0] == s[i];
    assert MarkerAt(s, i) && MarkerEnd(s, i) + 1 == i + |FirstSegment(t).value|;
  }

  /** An opener that is never closed takes the rest of the text. */
  lemma UnclosedIsLast(s: string, i: nat)
    requires i < |s| && FirstSegment(s[i..]).kind == TextSegment && IsOpener(s[i])
    ensures i + |FirstSegment(s[i..]).value| == |s|
  {
    assert s[i..][0] == s[i];
  }

  lemma SegmentedFirst(t: string)
    requires t != []
    ensures Segmented(t) == [FirstSegment(t)] + Segmented(t[|FirstSegment(t).value|..])
  {
    hide FirstSegment;
  }

  lemma NoSegments(t: string, i: nat)
    requires t == []
    ensures Segmented(t) == [] && Offsets([], i) == []
  {
  }

  /** The scan finds the markers of the segmentation, then goes on behind the opener where segmentation gave up. */
  lemma {:induction false} StartsAndSegments(s: string, i: nat)
    requires i <= |s|
    ensures Starts(s, i) == Offsets(Segmented(s[i..]), i) + Starts(s, Unclosed(s, i))
    decreases |s| - i
  {
    hide MarkerAt, FirstSegment, Starts, Segmented, Offsets;
    NoSegments([], i);
    assert s[|s|..] == [];
    if i < |s| {
      var g := FirstSegment(s[i..]);
      var next := i + |g.value|;
      assert s[i..][|g.value|..] == s[next..];
      OffsetsCons(g, Segmented(s[next..]), i);
      SegmentedFirst(s[i..]);
      if g.kind == TextSegment && IsOpener(s[i]) {
        UnclosedIsLast(s, i);
        NoSegments(s[next..], next);
      } else {
        StartsOverSegment(s, i);
        StartsAndSegments(s, next);
      }
    }
  }

  /** Scan and segmentation find the same markers exactly when no marker closes behind a never-closed opener. */
  lemma AgreesWithSegmentationExactly(s: string)
    ensures Starts(s, 0) == Offsets(Segmented(s), 0) <==> Starts(s, Unclosed(s, 0)) == []
    ensures Unclosed(s, 0) == |s| ==> Starts(s, 0) == Offsets(Segmented(s), 0)
  {
    assert s[0..] == s;
    StartsAndSegments(s, 0);
  }
}
