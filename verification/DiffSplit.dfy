/**
 `calculate_diff_split` of common/chat-auto-parser-helpers.cpp: two texts are walked from
 both ends, segment by segment, into a common prefix, a common suffix and two middles.
 The lemmas say exactly when prefix, middle and suffix rebuild both inputs.
 */
module DiffSplit {
  import opened Segments

  datatype Split = Split(prefix: string, suffix: string, left: string, right: string)

  /** Both inputs can be put together again from the parts. */
  predicate Conserves(d: Split, left: string, right: string) {
    d.prefix + d.left + d.suffix == left && d.prefix + d.right + d.suffix == right
  }

  // ---------------------------------------------------------------- common prefix and suffix of two texts

  /** The `i`-th character from the back. */
  function Back(s: string, i: nat): char
    requires i < |s|
  {
    s[|s| - 1 - i]
  }

  function PrefixLenFrom(l: string, r: string, n: nat): (k: nat)
    requires n <= |l| && n <= |r| && forall i :: 0 <= i < n ==> l[i] == r[i]
    ensures k <= |l| && k <= |r| && forall i :: 0 <= i < k ==> l[i] == r[i]
    ensures k < |l| && k < |r| ==> l[k] != r[k]
    decreases |l| - n
  {
    if n < |l| && n < |r| && l[n] == r[n] then PrefixLenFrom(l, r, n + 1) else n
  }

  function SuffixLenFrom(l: string, r: string, n: nat): (k: nat)
    requires n <= |l| && n <= |r| && forall i :: 0 <= i < n ==> Back(l, i) == Back(r, i)
    ensures k <= |l| && k <= |r| && forall i :: 0 <= i < k ==> Back(l, i) == Back(r, i)
    ensures k < |l| && k < |r| ==> Back(l, k) != Back(r, k)
    decreases |l| - n
  {
    if n < |l| && n < |r| && Back(l, n) == Back(r, n) then SuffixLenFrom(l, r, n + 1) else n
  }

  /** Length of the longest common prefix. */
  function PrefixLen(l: string, r: string): (n: nat)
    ensures n <= |l| && n <= |r|
  {
    PrefixLenFrom(l, r, 0)
  }

  /** Length of the longest common suffix. */
  function SuffixLen(l: string, r: string): (n: nat)
    ensures n <= |l| && n <= |r|
  {
    SuffixLenFrom(l, r, 0)
  }

  method CommonPrefixLen(l: string, r: string) returns (n: nat)
    ensures n == PrefixLen(l, r)
  {
    n := 0;
    var min := if |l| < |r| then |l| else |r|;
    while n < min && l[n] == r[n]
      invariant n <= min && forall i :: 0 <= i < n ==> l[i] == r[i]
      invariant PrefixLenFrom(l, r, n) == PrefixLen(l, r)
    {
      n := n + 1;
    }
  }

  method CommonSuffixLen(l: string, r: string) returns (n: nat)
    ensures n == SuffixLen(l, r)
  {
    n := 0;
    var min := if |l| < |r| then |l| else |r|;
    while n < min && l[|l| - 1 - n] == r[|r| - 1 - n]
      invariant n <= min && forall i :: 0 <= i < n ==> Back(l, i) == Back(r, i)
      invariant SuffixLenFrom(l, r, n) == SuffixLen(l, r)
    {
      assert Back(l, n) == Back(r, n);
      n := n + 1;
    }
  }

  lemma CommonEnds(l: string, r: string)
    ensures var p := PrefixLen(l, r); p <= |l| && p <= |r| && l[..p] == r[..p]
    ensures var s := SuffixLen(l, r); s <= |l| && s <= |r| && l[|l| - s..] == r[|r| - s..]
  {
    var s := SuffixLen(l, r);
    var a, b := l[|l| - s..], r[|r| - s..];
    forall j | 0 <= j < s
      ensures a[j] == b[j]
    {
      assert Back(l, s - 1 - j) == Back(r, s - 1 - j);
    }
  }

  lemma {:induction false} EqualEnds(l: string, n: nat)
    requires n <= |l|
    ensures SuffixLenFrom(l, l, n) == |l|
    decreases |l| - n
  {
    if n < |l| {
      EqualEnds(l, n + 1);
    }
  }

  // ---------------------------------------------------------------- the walk from both ends

  /** Cursors (first and last remaining segment of each side), what was taken, and the two flags. */
  datatype Walk = Walk(prefix: string, suffix: string, ls: nat, le: nat, rs: nat, re: nat, leftDone: bool,
                       rightDone: bool)

  predicate InRange(L: seq<Segment>, R: seq<Segment>, w: Walk) {
    && w.ls <= w.le < |L| && w.rs <= w.re < |R|
    && (w.leftDone ==> w.ls == w.le) && (w.rightDone ==> w.rs == w.re)
  }

  function TakeFront(L: seq<Segment>, w: Walk): Walk
    requires w.ls < |L|
  {
    w.(prefix := w.prefix + L[w.ls].value, ls := w.ls + 1, rs := w.rs + 1)
  }

  function TakeBack(L: seq<Segment>, w: Walk): Walk
    requires w.ls <= w.le < |L| && w.rs <= w.re
  {
    w.(suffix := L[w.le].value + w.suffix,
       le := if w.ls != w.le then w.le - 1 else w.le,
       leftDone := w.leftDone || w.ls == w.le,
       re := if w.rs != w.re then w.re - 1 else w.re,
       rightDone := w.rightDone || w.rs == w.re)
  }

  /** One turn of the loop; a turn that takes nothing leaves the walk as it is. */
  function Turn(L: seq<Segment>, R: seq<Segment>, w: Walk): (w': Walk)
    requires InRange(L, R, w) && w.ls < w.le && w.rs < w.re
    ensures InRange(L, R, w')
    ensures w' == w || (w'.le - w'.ls) + (w'.re - w'.rs) < (w.le - w.ls) + (w.re - w.rs)
  {
    var f := if L[w.ls] == R[w.rs] then TakeFront(L, w) else w;
    if L[f.le] == R[f.re] then TakeBack(L, f) else f
  }

  function WalkFrom(L: seq<Segment>, R: seq<Segment>, w: Walk): (w': Walk)
    requires InRange(L, R, w)
    ensures InRange(L, R, w')
    decreases (w.le - w.ls) + (w.re - w.rs)
  {
    if w.ls == w.le || w.rs == w.re then w else
    var next := Turn(L, R, w);
    if next == w then w else WalkFrom(L, R, next)
  }

  function Start(L: seq<Segment>, R: seq<Segment>): Walk
    requires L != [] && R != []
  {
    Walk("", "", 0, |L| - 1, 0, |R| - 1, false, false)
  }

  /** What the loop leaves behind. */
  function Exit(L: seq<Segment>, R: seq<Segment>): (w: Walk)
    requires L != [] && R != []
    ensures InRange(L, R, w)
  {
    WalkFrom(L, R, Start(L, R))
  }

  // ---------------------------------------------------------------- the tail and the texts that remain

  /** Whether the code after the loop takes one more segment. */
  predicate TailMatches(L: seq<Segment>, R: seq<Segment>, w: Walk)
    requires InRange(L, R, w)
  {
    if w.ls == w.le && w.rs != w.re then L[w.ls] == R[w.re] || L[w.ls] == R[w.rs]
    else if w.rs == w.re && w.ls != w.le then L[w.le] == R[w.rs] || L[w.ls] == R[w.rs]
    else w.ls == w.le && w.rs == w.re && L[w.ls] == R[w.rs] && L[w.ls].kind == MarkerSegment
  }

  function Tail(L: seq<Segment>, R: seq<Segment>, w: Walk): (w': Walk)
    requires InRange(L, R, w)
    ensures InRange(L, R, w')
    ensures !TailMatches(L, R, w) ==> w' == w
  {
    if w.ls == w.le && w.rs != w.re then
      if L[w.ls] == R[w.re] then w.(suffix := R[w.re].value + w.suffix, re := w.re - 1, leftDone := true)
      else if L[w.ls] == R[w.rs] then w.(prefix := w.prefix + R[w.rs].value, rs := w.rs + 1, leftDone := true)
      else w
    else if w.rs == w.re && w.ls != w.le then
      if L[w.le] == R[w.rs] then w.(suffix := L[w.le].value + w.suffix, le := w.le - 1, rightDone := true)
      else if L[w.ls] == R[w.rs] then w.(prefix := w.prefix + L[w.ls].value, ls := w.ls + 1, rightDone := true)
      else w
    else if w.ls == w.le && w.rs == w.re && L[w.ls] == R[w.rs] && L[w.ls].kind == MarkerSegment then
      w.(prefix := w.prefix + R[w.rs].value, leftDone := true, rightDone := true)
    else w
  }

  function LeftRest(L: seq<Segment>, w: Walk): string
    requires w.ls <= w.le < |L|
  {
    Joined(if w.leftDone then L[w.ls..w.le] else L[w.ls..w.le + 1])
  }

  function RightRest(R: seq<Segment>, w: Walk): string
    requires w.rs <= w.re < |R|
  {
    Joined(if w.rightDone then R[w.rs..w.re] else R[w.rs..w.re + 1])
  }

  /** The texts that remain, cut `p` characters from the front and `s` from the back. */
  function CutAt(w: Walk, l: string, r: string, p: nat, s: nat): Split
    requires p + s <= |l| && p + s <= |r|
  {
    Split(w.prefix + l[..p], l[|l| - s..] + w.suffix, l[p..|l| - s], r[p..|r| - s])
  }

  /** How much of the end and the start the texts that remain share, where they are plain text. */
  function SharedEnds(l: string, r: string, textSuffix: bool, textPrefix: bool): (ps: (nat, nat))
    ensures ps.0 + ps.1 <= |l| && ps.0 + ps.1 <= |r|
  {
    var s := if textSuffix then SuffixLen(l, r) else 0;
    var p := if textPrefix then PrefixLen(l[..|l| - s], r[..|r| - s]) else 0;
    (p, s)
  }

  function Rests(w: Walk, l: string, r: string, textSuffix: bool, textPrefix: bool): Split {
    var ps := SharedEnds(l, r, textSuffix, textPrefix);
    CutAt(w, l, r, ps.0, ps.1)
  }

  function Parts(L: seq<Segment>, R: seq<Segment>, w: Walk): Split
    requires InRange(L, R, w)
  {
    Rests(w, LeftRest(L, w), RightRest(R, w),
          L[w.le].kind == TextSegment && R[w.re].kind == TextSegment,
          R[w.rs].kind == TextSegment && L[w.ls].kind == TextSegment)
  }

  /** The two corrections for an empty left middle. */
  function Corrected(d: Split, left: string, right: string): Split {
    var e := if d.left == "" && d.right == "" then d.(prefix := left, suffix := "") else d;
    if e.left == "" && e.right != "" && left <= right
    then e.(prefix := left, suffix := "", right := right[|left|..])
    else e
  }

  function CalculatedSplit(left: string, right: string): Split {
    var L, R := Segmented(left), Segmented(right);
    if L == [] then Split("", "", "", right)
    else if R == [] then Split("", "", left, "")
    else Corrected(Parts(L, R, Tail(L, R, Exit(L, R))), left, right)
  }

  // ---------------------------------------------------------------- the method

  method AppendValues(segs: seq<Segment>) returns (text: string)
    ensures text == Joined(segs)
  {
    text := "";
    for i := 0 to |segs|
      invariant text + Joined(segs[i..]) == Joined(segs)
    {
      assert segs[i..][1..] == segs[i + 1..];
      text := text + segs[i].value;
    }
    assert text + "" == text;
  }

  method CalculateDiffSplit(left: string, right: string) returns (result: Split)
    ensures result == CalculatedSplit(left, right)
  {
    var L := SegmentizeMarkers(left);
    var R := SegmentizeMarkers(right);
    if L == [] {
      return Split("", "", "", right);
    }
    if R == [] {
      return Split("", "", left, "");
    }
    var w := WalkSegments(L, R);
    w := WalkTail(L, R, w);
    result := SplitRests(L, R, w);
    if result.left == "" && result.right == "" {
      result := result.(prefix := left, suffix := "");
    }
    if result.left == "" && result.right != "" && |left| <= |right| && right[..|left|] == left {
      result := result.(prefix := left, suffix := "", right := right[|left|..]);
    }
  }

  method WalkSegments(L: seq<Segment>, R: seq<Segment>) returns (w: Walk)
    requires L != [] && R != []
    ensures w == Exit(L, R)
  {
    var prefix, suffix := "", "";
    var leftStart: nat, leftEnd: nat, rightStart: nat, rightEnd: nat := 0, |L| - 1, 0, |R| - 1;
    var leftDone, rightDone := false, false;
    w := Start(L, R);
    while leftStart != leftEnd && rightStart != rightEnd
      invariant w == Walk(prefix, suffix, leftStart, leftEnd, rightStart, rightEnd, leftDone, rightDone)
      invariant InRange(L, R, w) && WalkFrom(L, R, w) == Exit(L, R)
      decreases (leftEnd - leftStart) + (rightEnd - rightStart)
    {
      ghost var next := Turn(L, R, w);
      var advanced := false;
      if L[leftStart] == R[rightStart] {
        prefix := prefix + L[leftStart].value;
        leftStart := leftStart + 1;
        rightStart := rightStart + 1;
        advanced := true;
      }
      if L[leftEnd] == R[rightEnd] {
        suffix := L[leftEnd].value + suffix;
        if leftStart != leftEnd {
          leftEnd := leftEnd - 1;
        } else {
          leftDone := true;
        }
        if rightStart != rightEnd {
          rightEnd := rightEnd - 1;
        } else {
          rightDone := true;
        }
        advanced := true;
      }
      w := Walk(prefix, suffix, leftStart, leftEnd, rightStart, rightEnd, leftDone, rightDone);
      assert w == next;
      if !advanced {
        break;
      }
    }
  }

  method WalkTail(L: seq<Segment>, R: seq<Segment>, walk: Walk) returns (w: Walk)
    requires InRange(L, R, walk)
    ensures w == Tail(L, R, walk)
  {
    w := walk;
    if w.ls == w.le && w.rs != w.re {
      if L[w.ls] == R[w.re] {
        w := w.(suffix := R[w.re].value + w.suffix, re := w.re - 1, leftDone := true);
      } else if L[w.ls] == R[w.rs] {
        w := w.(prefix := w.prefix + R[w.rs].value, rs := w.rs + 1, leftDone := true);
      }
    } else if w.rs == w.re && w.ls != w.le {
      if L[w.le] == R[w.rs] {
        w := w.(suffix := L[w.le].value + w.suffix, le := w.le - 1, rightDone := true);
      } else if L[w.ls] == R[w.rs] {
        w := w.(prefix := w.prefix + L[w.ls].value, ls := w.ls + 1, rightDone := true);
      }
    } else if w.ls == w.le && w.rs == w.re && L[w.ls] == R[w.rs] && L[w.ls].kind == MarkerSegment {
      w := w.(prefix := w.prefix + R[w.rs].value, leftDone := true, rightDone := true);
    }
  }

  method SplitRests(L: seq<Segment>, R: seq<Segment>, w: Walk) returns (result: Split)
    requires InRange(L, R, w)
    ensures result == Parts(L, R, w)
  {
    hide Joined, PrefixLen, SuffixLen, CutAt;
    var textSuffix := L[w.le].kind == TextSegment && R[w.re].kind == TextSegment;
    var textPrefix := R[w.rs].kind == TextSegment && L[w.ls].kind == TextSegment;
    var l := AppendValues(if w.leftDone then L[w.ls..w.le] else L[w.ls..w.le + 1]);
    var r := AppendValues(if w.rightDone then R[w.rs..w.re] else R[w.rs..w.re + 1]);
    var s, p := 0, 0;
    if textSuffix {
      s := CommonSuffixLen(l, r);
    }
    if textPrefix {
      p := CommonPrefixLen(l[..|l| - s], r[..|r| - s]);
    }
    assert (p, s) == SharedEnds(l, r, textSuffix, textPrefix);
    result := CutAt(w, l, r, p, s);
  }

  // ---------------------------------------------------------------- conservation

  predicate LeftKept(L: seq<Segment>, w: Walk)
    requires w.ls <= w.le < |L|
  {
    w.prefix + LeftRest(L, w) + w.suffix == Joined(L)
  }

  predicate RightKept(R: seq<Segment>, w: Walk)
    requires w.rs <= w.re < |R|
  {
    w.prefix + RightRest(R, w) + w.suffix == Joined(R)
  }

  lemma JoinedFirst(segs: seq<Segment>, i: nat, j: nat)
    requires i < j <= |segs|
    ensures Joined(segs[i..j]) == segs[i].value + Joined(segs[i + 1..j])
  {
    assert segs[i..j][1..] == segs[i + 1..j];
  }

  lemma JoinedLast(segs: seq<Segment>, i: nat, j: nat)
    requires i < j <= |segs|
    ensures Joined(segs[i..j]) == Joined(segs[i..j - 1]) + segs[j - 1].value
  {
    assert segs[i..j] == segs[i..j - 1] + [segs[j - 1]];
    JoinedAppend(segs[i..j - 1], [segs[j - 1]]);
    assert [segs[j - 1]][1..] == [];
    assert Joined([segs[j - 1]]) == segs[j - 1].value;
  }

  /** Moving a segment from the front of a range to the prefix. */
  lemma FrontMoves(segs: seq<Segment>, i: nat, j: nat, prefix: string, suffix: string)
    requires i < j <= |segs|
    ensures prefix + Joined(segs[i..j]) + suffix == (prefix + segs[i].value) + Joined(segs[i + 1..j]) + suffix
  {
    JoinedFirst(segs, i, j);
  }

  lemma BackMoves(segs: seq<Segment>, i: nat, j: nat, prefix: string, suffix: string)
    requires i < j <= |segs|
    ensures prefix + Joined(segs[i..j]) + suffix == prefix + Joined(segs[i..j - 1]) + (segs[j - 1].value + suffix)
  {
    JoinedLast(segs, i, j);
  }

  lemma TurnKeeps(L: seq<Segment>, R: seq<Segment>, w: Walk)
    requires InRange(L, R, w) && w.ls < w.le && w.rs < w.re
    requires LeftKept(L, w) && RightKept(R, w)
    ensures var w' := Turn(L, R, w); LeftKept(L, w') && RightKept(R, w')
  {
    hide Joined;
    var f := w;
    if L[w.ls] == R[w.rs] {
      f := TakeFront(L, w);
      FrontMoves(L, w.ls, w.le + 1, w.prefix, w.suffix);
      FrontMoves(R, w.rs, w.re + 1, w.prefix, w.suffix);
    }
    assert LeftKept(L, f) && RightKept(R, f);
    if L[f.le] == R[f.re] {
      BackMoves(L, f.ls, f.le + 1, f.prefix, f.suffix);
      BackMoves(R, f.rs, f.re + 1, f.prefix, f.suffix);
    }
  }

  lemma {:induction false} WalkKeeps(L: seq<Segment>, R: seq<Segment>, w: Walk)
    requires InRange(L, R, w) && LeftKept(L, w) && RightKept(R, w)
    ensures var w' := WalkFrom(L, R, w); LeftKept(L, w') && RightKept(R, w')
    decreases (w.le - w.ls) + (w.re - w.rs)
  {
    hide LeftKept, RightKept;
    if w.ls < w.le && w.rs < w.re {
      TurnKeeps(L, R, w);
      if Turn(L, R, w) != w {
        WalkKeeps(L, R, Turn(L, R, w));
      }
    }
  }

  lemma ExitKeeps(L: seq<Segment>, R: seq<Segment>)
    requires L != [] && R != []
    ensures LeftKept(L, Exit(L, R)) && RightKept(R, Exit(L, R))
  {
    assert L[0..|L|] == L && R[0..|R|] == R;
    assert "" + Joined(L) + "" == Joined(L) && "" + Joined(R) + "" == Joined(R);
    WalkKeeps(L, R, Start(L, R));
  }

  lemma SharedEndsAgree(l: string, r: string, textSuffix: bool, textPrefix: bool)
    ensures var ps := SharedEnds(l, r, textSuffix, textPrefix);
            l[..ps.0] == r[..ps.0] && l[|l| - ps.1..] == r[|r| - ps.1..]
  {
    hide PrefixLen, SuffixLen;
    var s := if textSuffix then SuffixLen(l, r) else 0;
    CommonEnds(l, r);
    var l', r' := l[..|l| - s], r[..|r| - s];
    CommonEnds(l', r');
    var p := if textPrefix then PrefixLen(l', r') else 0;
    assert l[..p] == l'[..p] && r[..p] == r'[..p];
    assert p == 0 ==> l[..p] == r[..p];
  }

  lemma CutAtKeepsLeft(w: Walk, l: string, r: string, p: nat, s: nat)
    requires p + s <= |l| && p + s <= |r|
    ensures var d := CutAt(w, l, r, p, s); d.prefix + d.left + d.suffix == w.prefix + l + w.suffix
  {
    MiddleKeeps(w.prefix, w.suffix, l, p, |l| - s);
  }

  lemma CutAtKeepsRight(w: Walk, l: string, r: string, p: nat, s: nat)
    requires p + s <= |l| && p + s <= |r| && l[..p] == r[..p] && l[|l| - s..] == r[|r| - s..]
    ensures var d := CutAt(w, l, r, p, s); d.prefix + d.right + d.suffix == w.prefix + r + w.suffix
  {
    MiddleKeeps(w.prefix, w.suffix, r, p, |r| - s);
  }

  lemma CutAtSizes(w: Walk, l: string, r: string, p: nat, s: nat)
    requires p + s <= |l| && p + s <= |r|
    ensures var d := CutAt(w, l, r, p, s);
            && |d.left| == |l| - p - s && |d.right| == |r| - p - s
            && (p == s == 0 ==> d.left == l && d.right == r)
  {
  }

  /** Trimming the texts that remain keeps what each side adds up to. */
  lemma RestsKeep(w: Walk, l: string, r: string, textSuffix: bool, textPrefix: bool)
    ensures var d := Rests(w, l, r, textSuffix, textPrefix);
            && d.prefix + d.left + d.suffix == w.prefix + l + w.suffix
            && d.prefix + d.right + d.suffix == w.prefix + r + w.suffix
            && (l == "" ==> d.left == "" && d.right == r)
            && (r == "" ==> d.right == "" && d.left == l)
  {
    hide SharedEnds, CutAt;
    var ps := SharedEnds(l, r, textSuffix, textPrefix);
    SharedEndsAgree(l, r, textSuffix, textPrefix);
    CutAtKeepsLeft(w, l, r, ps.0, ps.1);
    CutAtKeepsRight(w, l, r, ps.0, ps.1);
    CutAtSizes(w, l, r, ps.0, ps.1);
  }

  lemma MiddleKeeps(prefix: string, suffix: string, l: string, p: nat, k: nat)
    requires p <= k <= |l|
    ensures (prefix + l[..p]) + l[p..k] + (l[k..] + suffix) == prefix + l + suffix
  {
    assert l == l[..p] + l[p..k] + l[k..];
    Regroup(prefix, l[..p], l[p..k], l[k..], suffix);
  }

  lemma Regroup(a: string, b: string, c: string, d: string, e: string)
    ensures a + b + c + (d + e) == a + (b + c + d) + e
  {
  }

  /** A tail step after an unflagged loop keeps both sides. */
  lemma TailKeeps(L: seq<Segment>, R: seq<Segment>, w: Walk)
    requires InRange(L, R, w) && !w.leftDone && !w.rightDone && LeftKept(L, w) && RightKept(R, w)
    ensures var w' := Tail(L, R, w); LeftKept(L, w') && RightKept(R, w')
  {
    hide Joined;
    if TailMatches(L, R, w) {
      if w.ls == w.le {
        assert L[w.ls..w.le] == [] == L[w.ls + 1..w.le + 1];
      }
      if w.rs == w.re {
        assert R[w.rs..w.re] == [] == R[w.rs + 1..w.re + 1];
      }
      FrontMoves(L, w.ls, w.le + 1, w.prefix, w.suffix);
      FrontMoves(R, w.rs, w.re + 1, w.prefix, w.suffix);
      BackMoves(L, w.ls, w.le + 1, w.prefix, w.suffix);
      BackMoves(R, w.rs, w.re + 1, w.prefix, w.suffix);
    }
  }

  /** The guard of the failing branches: one side ran out in the loop and the tail matches its segment once more. */
  predicate TakenTwice(L: seq<Segment>, R: seq<Segment>, w: Walk)
    requires InRange(L, R, w)
  {
    w.leftDone != w.rightDone && TailMatches(L, R, w)
  }

  /** The correction that repairs a left input consumed twice. */
  predicate Repaired(left: string, right: string, w: Walk) {
    w.leftDone && w.rs != w.re && left <= right
  }

  lemma CorrectedConserves(d: Split, left: string, right: string)
    requires Conserves(d, left, right)
    ensures Conserves(Corrected(d, left, right), left, right)
  {
    if d.left == "" && d.right == "" {
      assert d.prefix + d.left + d.suffix == d.prefix + d.right + d.suffix;
      assert left + "" + "" == left;
    } else if d.left == "" && d.right != "" && left <= right {
      assert left + "" + "" == left;
      assert left + right[|left|..] + "" == right;
    }
  }

  /** Walk parts that conserve give a split that conserves. */
  lemma KeptConserves(L: seq<Segment>, R: seq<Segment>, w: Walk, left: string, right: string)
    requires InRange(L, R, w) && LeftKept(L, w) && RightKept(R, w) && Joined(L) == left && Joined(R) == right
    ensures Conserves(Corrected(Parts(L, R, w), left, right), left, right)
  {
    PartsKeep(L, R, w);
    CorrectedConserves(Parts(L, R, w), left, right);
  }

  /** When both sides ran out together nothing remains and the inputs are equal. */
  lemma BothDone(L: seq<Segment>, R: seq<Segment>, w: Walk)
    requires InRange(L, R, w) && w.leftDone && w.rightDone
    ensures LeftRest(L, Tail(L, R, w)) == "" && RightRest(R, Tail(L, R, w)) == ""
    ensures LeftKept(L, w) && RightKept(R, w) ==> Joined(L) == Joined(R)
  {
    hide Joined;
    JoinedNone();
    assert L[w.ls..w.le] == [] && R[w.rs..w.re] == [];
  }

  /** The first correction sets an empty diff of equal inputs right. */
  lemma NothingRemains(d: Split, text: string)
    requires d.left == "" && d.right == ""
    ensures Corrected(d, text, text) == Split(text, "", "", "")
    ensures Conserves(Corrected(d, text, text), text, text)
  {
    assert text + "" + "" == text;
  }

  /** A range that still holds a segment is not the empty text. */
  lemma RangeNotEmpty(segs: seq<Segment>, i: nat, j: nat)
    requires i < j <= |segs| && segs[i].value != ""
    ensures Joined(segs[i..j]) != ""
  {
    JoinedFirst(segs, i, j);
  }

  lemma PartsKeep(L: seq<Segment>, R: seq<Segment>, w: Walk)
    requires InRange(L, R, w)
    ensures var d, l, r := Parts(L, R, w), LeftRest(L, w), RightRest(R, w);
            && d.prefix + d.left + d.suffix == w.prefix + l + w.suffix
            && d.prefix + d.right + d.suffix == w.prefix + r + w.suffix
            && (l == "" ==> d.left == "" && d.right == r)
            && (r == "" ==> d.right == "" && d.left == l)
  {
    hide Rests, LeftRest, RightRest;
    RestsKeep(w, LeftRest(L, w), RightRest(R, w),
              L[w.le].kind == TextSegment && R[w.re].kind == TextSegment,
              R[w.rs].kind == TextSegment && L[w.ls].kind == TextSegment);
  }

  lemma TooLongLeft(d: Split, left: string, right: string)
    requires d.left == "" && d.right != "" && |d.prefix| + |d.suffix| > |left|
    ensures Conserves(Corrected(d, left, right), left, right) <==> left <= right
  {
    if left <= right {
      assert left + "" + "" == left && left + right[|left|..] + "" == right;
    } else {
      assert |d.prefix + d.left + d.suffix| > |left|;
    }
  }

  lemma TooLongRight(d: Split, left: string, right: string)
    requires d.right == "" && d.left != "" && |d.prefix| + |d.suffix| > |right|
    ensures !Conserves(Corrected(d, left, right), left, right)
  {
    assert |d.prefix + d.right + d.suffix| > |right|;
  }

  lemma NothingLeft(d: Split, left: string, right: string)
    requires d.left == "" && d.right == "" && |left| != |right|
    ensures !Conserves(Corrected(d, left, right), left, right)
  {
    assert Corrected(d, left, right) == Split(left, "", "", "");
    assert |left + "" + ""| == |left|;
  }

  lemma LeftTail(L: seq<Segment>, R: seq<Segment>, w: Walk)
    requires InRange(L, R, w) && w.leftDone && !w.rightDone && TailMatches(L, R, w)
    requires forall i :: 0 <= i < |R| ==> R[i].value != ""
    ensures var t := Tail(L, R, w);
            && LeftRest(L, t) == ""
            && if w.rs == w.re then RightRest(R, t) == ""
               else |t.prefix| + |t.suffix| > |w.prefix| + |w.suffix| && RightRest(R, t) != ""
  {
    hide Joined;
    var t := Tail(L, R, w);
    JoinedNone();
    assert L[w.ls..w.le] == [];
    if w.rs == w.re {
      assert R[t.rs..t.re] == [];
    } else {
      RangeNotEmpty(R, t.rs, t.re + 1);
    }
  }

  lemma RightTail(L: seq<Segment>, R: seq<Segment>, w: Walk)
    requires InRange(L, R, w) && !w.leftDone && w.rightDone && TailMatches(L, R, w)
    requires forall i :: 0 <= i < |L| ==> L[i].value != ""
    ensures var t := Tail(L, R, w);
            && RightRest(R, t) == ""
            && if w.ls == w.le then LeftRest(L, t) == ""
               else |t.prefix| + |t.suffix| > |w.prefix| + |w.suffix| && LeftRest(L, t) != ""
  {
    hide Joined;
    var t := Tail(L, R, w);
    JoinedNone();
    assert R[w.rs..w.re] == [];
    if w.ls == w.le {
      assert L[t.ls..t.le] == [];
    } else {
      RangeNotEmpty(L, t.ls, t.le + 1);
    }
  }

  /** What one side that ran out and one that did not have to do with the inputs. */
  lemma OneDoneSizes(segs: seq<Segment>, done: seq<Segment>, from: nat, to: nat, at: nat, prefix: string,
                     suffix: string)
    requires from <= to < |segs| && at < |done| && segs[from].value != ""
    requires prefix + Joined(segs[from..to + 1]) + suffix == Joined(segs)
    requires prefix + Joined(done[at..at]) + suffix == Joined(done)
    ensures |Joined(done)| == |prefix| + |suffix| < |Joined(segs)|
  {
    RangeNotEmpty(segs, from, to + 1);
    assert done[at..at] == [];
  }

  lemma LeftSizes(L: seq<Segment>, R: seq<Segment>, w: Walk)
    requires InRange(L, R, w) && w.leftDone && !w.rightDone && LeftKept(L, w) && RightKept(R, w) && R[w.rs].value != ""
    ensures |Joined(L)| == |w.prefix| + |w.suffix| < |Joined(R)|
  {
    OneDoneSizes(R, L, w.rs, w.re, w.le, w.prefix, w.suffix);
  }

  lemma RightSizes(L: seq<Segment>, R: seq<Segment>, w: Walk)
    requires InRange(L, R, w) && !w.leftDone && w.rightDone && LeftKept(L, w) && RightKept(R, w) && L[w.ls].value != ""
    ensures |Joined(R)| == |w.prefix| + |w.suffix| < |Joined(L)|
  {
    OneDoneSizes(L, R, w.ls, w.le, w.re, w.prefix, w.suffix);
  }

  lemma JoinedNone()
    ensures Joined([]) == ""
  {
  }

  lemma EmptySide(left: string, right: string)
    requires Segmented(left) == [] || Segmented(right) == []
    ensures Conserves(CalculatedSplit(left, right), left, right)
  {
    hide Corrected, Parts, Segmented;
    SegmentationIsCanonical(left);
    SegmentationIsCanonical(right);
    assert "" + right + "" == right && "" + left + "" == left;
  }

  /**
   Prefix, middle and suffix rebuild both inputs exactly when no segment is taken twice,
   or the one that is belongs to a left input that is a prefix of the right one.
   */
  lemma ConservesExactly(left: string, right: string)
    requires Segmented(left) != [] && Segmented(right) != []
    ensures var L, R := Segmented(left), Segmented(right);
            Conserves(CalculatedSplit(left, right), left, right) <==>
            TakenTwice(L, R, Exit(L, R)) ==> Repaired(left, right, Exit(L, R))
  {
    hide Segmented, Exit, Tail, TailMatches, LeftKept, RightKept, Parts, Corrected, Joined, Canonical;
    var L, R := Segmented(left), Segmented(right);
    var w := Exit(L, R);
    SegmentationIsCanonical(left);
    SegmentationIsCanonical(right);
    ExitKeeps(L, R);
    var t := Tail(L, R, w);
    if !TailMatches(L, R, w) {
      KeptConserves(L, R, w, left, right);
    } else if !w.leftDone && !w.rightDone {
      TailKeeps(L, R, w);
      KeptConserves(L, R, t, left, right);
    } else {
      PartsKeep(L, R, t);
      TakenAgain(L, R, w, Parts(L, R, t), left, right);
    }
  }

  /** A segment taken twice makes one side too long, unless the left input is a prefix of the right one. */
  lemma TakenAgain(L: seq<Segment>, R: seq<Segment>, w: Walk, d: Split, left: string, right: string)
    requires InRange(L, R, w) && TailMatches(L, R, w) && (w.leftDone || w.rightDone)
    requires LeftKept(L, w) && RightKept(R, w) && Joined(L) == left && Joined(R) == right
    requires (forall i :: 0 <= i < |L| ==> L[i].value != "") && (forall i :: 0 <= i < |R| ==> R[i].value != "")
    requires var t := Tail(L, R, w);
             var l, r := LeftRest(L, t), RightRest(R, t);
             && d.prefix + d.left + d.suffix == t.prefix + l + t.suffix
             && d.prefix + d.right + d.suffix == t.prefix + r + t.suffix
             && (l == "" ==> d.left == "" && d.right == r)
             && (r == "" ==> d.right == "" && d.left == l)
    ensures Conserves(Corrected(d, left, right), left, right)
            <==> w.leftDone == w.rightDone || Repaired(left, right, w)
  {
    hide Joined, Corrected, Conserves, Tail, LeftRest, RightRest, TailMatches, LeftKept, RightKept;
    if w.leftDone && w.rightDone {
      BothDone(L, R, w);
      NothingRemains(d, left);
    } else if w.leftDone {
      LeftSizes(L, R, w);
      LeftTail(L, R, w);
      if w.rs == w.re { NothingLeft(d, left, right); } else { TooLongLeft(d, left, right); }
    } else {
      RightSizes(L, R, w);
      RightTail(L, R, w);
      if w.ls == w.le { NothingLeft(d, left, right); } else { TooLongRight(d, left, right); }
    }
  }

  // ---------------------------------------------------------------- sufficient conditions a caller can check

  /** Every segment of `L` outside the remaining range occurs in `R`. */
  predicate TakenFrom(L: seq<Segment>, R: seq<Segment>, from: nat, to: nat, done: bool) {
    && (forall i :: 0 <= i < |L| && i < from ==> L[i] in R)
    && (forall i :: to < i < |L| ==> L[i] in R)
    && (done ==> forall i :: 0 <= i < |L| ==> L[i] in R)
  }

  lemma {:induction false} WalkTakesShared(L: seq<Segment>, R: seq<Segment>, w: Walk)
    requires InRange(L, R, w)
    requires TakenFrom(L, R, w.ls, w.le, w.leftDone) && TakenFrom(R, L, w.rs, w.re, w.rightDone)
    ensures var w' := WalkFrom(L, R, w);
            TakenFrom(L, R, w'.ls, w'.le, w'.leftDone) && TakenFrom(R, L, w'.rs, w'.re, w'.rightDone)
    decreases (w.le - w.ls) + (w.re - w.rs)
  {
    if w.ls < w.le && w.rs < w.re {
      var f := if L[w.ls] == R[w.rs] then TakeFront(L, w) else w;
      assert TakenFrom(L, R, f.ls, f.le, false) && TakenFrom(R, L, f.rs, f.re, false);
      var next := Turn(L, R, w);
      if next != w {
        WalkTakesShared(L, R, next);
      }
    }
  }

  /** If each input has a segment that the other lacks, the split rebuilds both. */
  lemma OwnSegmentsConserve(left: string, right: string, a: Segment, b: Segment)
    requires a in Segmented(left) && a !in Segmented(right)
    requires b in Segmented(right) && b !in Segmented(left)
    ensures Conserves(CalculatedSplit(left, right), left, right)
  {
    var L, R := Segmented(left), Segmented(right);
    WalkTakesShared(L, R, Start(L, R));
    var i :| 0 <= i < |L| && L[i] == a;
    var j :| 0 <= j < |R| && R[j] == b;
    assert !Exit(L, R).leftDone && !Exit(L, R).rightDone;
    ConservesExactly(left, right);
  }

  lemma {:induction false} WalkOnEqual(L: seq<Segment>, w: Walk)
    requires InRange(L, L, w) && w.ls == w.rs && w.le == w.re && w.leftDone == w.rightDone
    ensures var w' := WalkFrom(L, L, w);
            w'.ls == w'.rs == w'.le == w'.re && w'.leftDone == w'.rightDone
    decreases w.le - w.ls
  {
    if w.ls < w.le {
      WalkOnEqual(L, Turn(L, L, w));
    }
  }

  /** Equal inputs are all prefix. */
  lemma EqualInputs(text: string)
    ensures CalculatedSplit(text, text) == Split(text, "", "", "")
  {
    var L := Segmented(text);
    SegmentationIsCanonical(text);
    if L != [] {
      var w := Exit(L, L);
      WalkOnEqual(L, Start(L, L));
      ExitKeeps(L, L);
      if w.leftDone {
        BothDone(L, L, w);
        PartsKeep(L, L, Tail(L, L, w));
        NothingRemains(Parts(L, L, Tail(L, L, w)), text);
      } else {
        var t := Tail(L, L, w);
        assert LeftRest(L, t) == RightRest(L, t);
        EqualRests(t, LeftRest(L, t), L[w.le].kind == TextSegment);
        if t.leftDone {
          assert L[t.ls..t.le] == [];
        }
      }
    }
  }

  lemma EqualRests(w: Walk, l: string, isText: bool)
    requires isText || l == ""
    ensures var d := Rests(w, l, l, isText, isText); d.left == "" && d.right == ""
  {
    if isText {
      EqualEnds(l, 0);
    }
  }

  // ---------------------------------------------------------------- as much as possible is shared

  /** The loop goes on until one side is down to one segment, or the segments at both ends differ. */
  lemma ExitStops(L: seq<Segment>, R: seq<Segment>)
    requires L != [] && R != []
    ensures var w := Exit(L, R); w.ls == w.le || w.rs == w.re || (L[w.ls] != R[w.rs] && L[w.le] != R[w.re])
  {
    WalkStops(L, R, Start(L, R));
  }

  lemma {:induction false} WalkStops(L: seq<Segment>, R: seq<Segment>, w: Walk)
    requires InRange(L, R, w)
    ensures var e := WalkFrom(L, R, w); e.ls == e.le || e.rs == e.re || (L[e.ls] != R[e.rs] && L[e.le] != R[e.re])
    decreases (w.le - w.ls) + (w.re - w.rs)
  {
    if w.ls < w.le && w.rs < w.re {
      var next := Turn(L, R, w);
      if next == w { TurnTakes(L, R, w); } else { WalkStops(L, R, next); }
    }
  }

  lemma TurnTakes(L: seq<Segment>, R: seq<Segment>, w: Walk)
    requires InRange(L, R, w) && w.ls < w.le && w.rs < w.re
    ensures Turn(L, R, w) == w ==> L[w.ls] != R[w.rs] && L[w.le] != R[w.re]
  {
    if L[w.ls] == R[w.rs] { assert Turn(L, R, w).ls == w.ls + 1; }
  }

  /** Where texts may share an end, what is left of both differs there. */
  lemma SharedIsMaximal(l: string, r: string, textSuffix: bool, textPrefix: bool)
    ensures var ps := SharedEnds(l, r, textSuffix, textPrefix);
            var p, s := ps.0, ps.1;
            && (p + s < |l| && p + s < |r| ==>
                  (textPrefix ==> l[p] != r[p]) && (textSuffix ==> Back(l, s) != Back(r, s)))
            && (textSuffix ==> s == SuffixLen(l, r))
            && (textPrefix && l <= r ==> p + s == |l|)
  {
    var ps := SharedEnds(l, r, textSuffix, textPrefix);
    var p, s := ps.0, ps.1;
    var a, b := l[..|l| - s], r[..|r| - s];
    assert forall i :: 0 <= i < |a| ==> a[i] == l[i];
    assert forall i :: 0 <= i < |b| ==> b[i] == r[i];
  }

  /** In the method's result, non-empty middles differ at each end where both sides still have text. */
  lemma MiddlesDiffer(left: string, right: string)
    requires Segmented(left) != [] && Segmented(right) != []
    ensures var L, R := Segmented(left), Segmented(right);
            var t, d := Tail(L, R, Exit(L, R)), CalculatedSplit(left, right);
            d.left != "" && d.right != "" ==>
              && (L[t.ls].kind == TextSegment && R[t.rs].kind == TextSegment ==> d.left[0] != d.right[0])
              && (L[t.le].kind == TextSegment && R[t.re].kind == TextSegment ==> Back(d.left, 0) != Back(d.right, 0))
  {
    hide Segmented, Exit, Tail, Joined;
    var L, R := Segmented(left), Segmented(right);
    var t := Tail(L, R, Exit(L, R));
    RestsDiffer(t, LeftRest(L, t), RightRest(R, t), L[t.le].kind == TextSegment && R[t.re].kind == TextSegment,
                R[t.rs].kind == TextSegment && L[t.ls].kind == TextSegment);
  }

  lemma RestsDiffer(w: Walk, l: string, r: string, textSuffix: bool, textPrefix: bool)
    ensures var d := Rests(w, l, r, textSuffix, textPrefix);
            d.left != "" && d.right != "" ==>
              (textPrefix ==> d.left[0] != d.right[0]) && (textSuffix ==> Back(d.left, 0) != Back(d.right, 0))
  {
    SharedIsMaximal(l, r, textSuffix, textPrefix);
  }

  predicate NoOpeners(s: string) { forall i :: 0 <= i < |s| ==> !IsOpener(s[i]) }

  /** The split of two texts without markers: as much suffix as possible, then as much prefix. */
  predicate PlainSplit(d: Split, left: string, right: string) {
    && Conserves(d, left, right)
    && if left <= right then d == Split(left, "", "", right[|left|..]) else
       var s := |d.suffix|;
       && s <= |left| && s <= |right| && (s < |left| && s < |right| ==> Back(left, s) != Back(right, s))
       && (d.left != "" && d.right != "" ==> d.left[0] != d.right[0])
  }

  /**
   Two texts without markers: if the left one is a prefix of the right one it is all prefix. Otherwise
   the suffix is the longest common one, and behind the prefix the middles differ.
   */
  lemma PlainTexts(left: string, right: string)
    requires NoOpeners(left) && NoOpeners(right)
    ensures PlainSplit(CalculatedSplit(left, right), left, right)
  {
    hide Segmented, Corrected, Rests, PlainSplit;
    if left == "" || right == "" {
      EmptyPlain(left, right);
    } else {
      CutLast(left);
      CutLast(right);
      var L, R := [Segment(TextSegment, left)], [Segment(TextSegment, right)];
      var w := Start(L, R);
      PlainWalk(left, right);
      PlainRests(w, left, right);
    }
  }

  lemma PlainWalk(left: string, right: string)
    ensures var L, R := [Segment(TextSegment, left)], [Segment(TextSegment, right)];
            var w := Start(L, R);
            && Tail(L, R, Exit(L, R)) == w
            && Parts(L, R, w) == Rests(w, left, right, true, true)
  {
    hide Rests;
    var L, R := [Segment(TextSegment, left)], [Segment(TextSegment, right)];
    JoinedOne(left);
    JoinedOne(right);
    assert L[0..1] == L && R[0..1] == R;
  }

  lemma JoinedOne(s: string)
    ensures Joined([Segment(TextSegment, s)]) == s
  {
    assert [Segment(TextSegment, s)][1..] == [];
    assert Joined([Segment(TextSegment, s)]) == s + Joined([]);
  }

  lemma EmptyPlain(left: string, right: string)
    requires left == "" || right == ""
    ensures PlainSplit(CalculatedSplit(left, right), left, right)
  {
    hide Corrected, Parts;
    assert left == "" ==> Segmented(left) == [];
    assert right == "" ==> Segmented(right) == [];
    SegmentationIsCanonical(left);
    EmptySide(left, right);
  }

  lemma PlainRests(w: Walk, left: string, right: string)
    requires left != "" && right != "" && w.prefix == "" && w.suffix == ""
    ensures PlainSplit(Corrected(Rests(w, left, right, true, true), left, right), left, right)
  {
    hide SharedEnds;
    var ps, d := SharedEnds(left, right, true, true), Rests(w, left, right, true, true);
    SharedIsMaximal(left, right, true, true);
    RestsDiffer(w, left, right, true, true);
    RestsKeep(w, left, right, true, true);
    NoWrap(left);
    NoWrap(right);
    if left <= right {
      PrefixCorrected(d, left, right);
    } else {
      assert d.left == "" && d.right == "" ==> left == right;
      assert |d.suffix| == ps.1 == SuffixLen(left, right);
    }
  }

  lemma NoWrap(s: string)
    ensures "" + s + "" == s
  {
  }

  lemma PrefixCorrected(d: Split, left: string, right: string)
    requires left <= right && d.left == "" && Conserves(d, left, right)
    ensures Corrected(d, left, right) == Split(left, "", "", right[|left|..])
    ensures Conserves(Corrected(d, left, right), left, right)
  {
    assert left + "" + "" == left && left + right[|left|..] + "" == right;
  }

  // ---------------------------------------------------------------- the two ways it fails

  function Mark(c: char): Segment { Segment(MarkerSegment, "<" + [c] + ">") }

  function Marks(cs: string): seq<Segment> {
    if cs == [] then [] else [Mark(cs[0])] + Marks(cs[1..])
  }

  function Tags(cs: string): string {
    if cs == [] then "" else "<" + [cs[0]] + ">" + Tags(cs[1..])
  }

  lemma {:induction false} TagsSegments(cs: string)
    requires forall i :: 0 <= i < |cs| ==> cs[i] != '>'
    ensures Segmented(Tags(cs)) == Marks(cs) && Joined(Marks(cs)) == Tags(cs)
  {
    MarksShape(cs);
    SegmentationIsUnique(Marks(cs));
  }

  lemma {:induction false} MarksShape(cs: string)
    requires forall i :: 0 <= i < |cs| ==> cs[i] != '>'
    ensures Canonical(Marks(cs)) && Joined(Marks(cs)) == Tags(cs)
    decreases |cs|
  {
    if cs != [] {
      var v := Mark(cs[0]).value;
      assert v[0] == '<' && v[1] == cs[0] && v[2] == '>';
      assert CloserIndex(v) == 2;
      MarksShape(cs[1..]);
      assert Marks(cs)[1..] == Marks(cs[1..]);
    }
  }

  lemma MarksCons(c: char, cs: string)
    ensures Marks([c] + cs) == [Mark(c)] + Marks(cs)
  {
    assert ([c] + cs)[1..] == cs;
  }

  lemma FourMarks(a: char, b: char, c: char, d: char)
    ensures Marks([a, b]) == [Mark(a), Mark(b)]
    ensures Marks([a, b, c]) == [Mark(a), Mark(b), Mark(c)]
    ensures Marks([a, b, c, d]) == [Mark(a), Mark(b), Mark(c), Mark(d)]
  {
    MarksCons(d, []); MarksCons(c, []); MarksCons(b, []);
    assert [b] + [] == [b] && [c] + [] == [c] && [d] + [] == [d];
    MarksCons(c, [d]); MarksCons(b, [c]); MarksCons(a, [b]);
    assert [a] + [b] == [a, b] && [b] + [c] == [b, c] && [c] + [d] == [c, d];
    MarksCons(b, [c, d]); MarksCons(a, [b, c]);
    assert [b] + [c, d] == [b, c, d] && [a] + [b, c] == [a, b, c];
    MarksCons(a, [b, c, d]);
    assert [a] + [b, c, d] == [a, b, c, d];
  }

  /** `<a><b>` against `<a><c><b><b>`: the last marker of the left input is taken twice. */
  lemma MarkerTakenTwice()
    ensures !Conserves(CalculatedSplit(Tags("ab"), Tags("acbb")), Tags("ab"), Tags("acbb"))
  {
    hide Tags, Segmented, Joined;
    TagsSegments("ab");
    TagsSegments("acbb");
    FourMarks('a', 'c', 'b', 'b');
    FourMarks('a', 'b', 'b', 'b');
    var L, R := Marks("ab"), Marks("acbb");
    assert L == [Mark('a'), Mark('b')] && R == [Mark('a'), Mark('c'), Mark('b'), Mark('b')];
    var w := Turn(L, R, Start(L, R));
    assert w.ls == w.le == 1 && w.rs == 1 && w.re == 2 && w.leftDone && !w.rightDone;
    assert Exit(L, R) == w;
    TagsDiffer("b", "cbb");
    assert "ab" == ['a'] + "b" && "acbb" == ['a'] + "cbb";
    ConservesExactly(Tags("ab"), Tags("acbb"));
  }

  lemma TagsDiffer(x: string, y: string)
    requires x != [] && y != [] && x[0] != y[0]
    ensures !(Tags(['a'] + x) <= Tags(['a'] + y))
  {
    assert (['a'] + x)[1..] == x && (['a'] + y)[1..] == y;
    assert Tags(x)[1] == x[0] && Tags(y)[1] == y[0];
    assert Tags(['a'] + x)[4] == x[0] && Tags(['a'] + y)[4] == y[0];
  }

  /** `<a><b>` against `<a><b><b>`: the inputs differ, the middles are empty. */
  lemma DifferenceLost()
    ensures Tags("ab") != Tags("abb") && CalculatedSplit(Tags("ab"), Tags("abb")) == Split(Tags("ab"), "", "", "")
  {
    hide Tags, Segmented, Joined;
    TagsSegments("ab");
    TagsSegments("abb");
    FourMarks('a', 'b', 'b', 'b');
    var L, R := Marks("ab"), Marks("abb");
    assert L == [Mark('a'), Mark('b')] && R == [Mark('a'), Mark('b'), Mark('b')];
    var w := Turn(L, R, Start(L, R));
    assert w.ls == w.le == w.rs == w.re == 1 && w.leftDone && !w.rightDone;
    assert Exit(L, R) == w;
    var t := Tail(L, R, w);
    JoinedNone();
    assert L[t.ls..t.le] == [] && R[t.rs..t.re] == [];
    PartsKeep(L, R, t);
  }
}
