/** Searching a text for a word, as `std::string::find` does. */
module Search {
  import opened Text

  predicate At(s: string, w: string, i: nat) { i + |w| <= |s| && s[i..i + |w|] == w }

  ghost predicate Absent(s: string, w: string) { forall i: nat :: !At(s, w, i) }

  /** First index at or after `from` at which `w` occurs. */
  function Find(s: string, w: string, from: nat): (r: Option<nat>)
    ensures r.Some? ==> from <= r.value && At(s, w, r.value)
    ensures r.Some? ==> forall i: nat :: from <= i < r.value ==> !At(s, w, i)
    ensures r.None? ==> forall i: nat :: from <= i ==> !At(s, w, i)
    decreases |s| - from
  {
    if At(s, w, from) then Some(from) else
    if from >= |s| then None else Find(s, w, from + 1)
  }

  lemma AtChars(s: string, w: string, i: nat)
    requires i + |w| <= |s|
    ensures At(s, w, i) <==> forall k :: 0 <= k < |w| ==> w[k] == s[i + k]
  {
    if forall k :: 0 <= k < |w| ==> w[k] == s[i + k] {
      assert s[i..i + |w|] == w;
    } else {
      var k :| 0 <= k < |w| && w[k] != s[i + k];
      assert s[i..i + |w|][k] != w[k];
    }
  }

  /** What a search finds. */
  lemma Found(s: string, w: string, from: nat)
    ensures var f := Find(s, w, from);
            f.Some? ==> from <= f.value && f.value + |w| <= |s| && s[f.value..f.value + |w|] == w
  {
  }

  lemma AtShift(s: string, w: string, n: nat, i: nat)
    requires n <= |s|
    ensures At(s[n..], w, i) <==> At(s, w, n + i)
  {
    if n + i + |w| <= |s| {
      assert s[n..][i..i + |w|] == s[n + i..n + i + |w|];
    }
  }

  /** The first occurrence is the one with none before it. */
  lemma FindIs(s: string, w: string, from: nat, i: nat)
    requires from <= i && At(s, w, i)
    requires forall j: nat :: from <= j < i ==> !At(s, w, j)
    ensures Find(s, w, from) == Some(i)
  {
  }

  /** Searching a suffix is searching from its start. */
  lemma FindShift(s: string, w: string, n: nat, from: nat)
    requires n <= |s|
    ensures Find(s, w, n + from) == (match Find(s[n..], w, from) case None => None case Some(i) => Some(n + i))
  {
    hide At;
    match Find(s[n..], w, from)
    case Some(i) =>
      AtShift(s, w, n, i);
      forall j: nat | n + from <= j < n + i ensures !At(s, w, j) {
        AtShift(s, w, n, j - n);
      }
      FindIs(s, w, n + from, n + i);
    case None =>
      forall j: nat | n + from <= j ensures !At(s, w, j) {
        AtShift(s, w, n, j - n);
      }
      FindsNothing(s, w, n + from);
  }

  lemma FindsNothing(s: string, w: string, from: nat)
    requires forall j: nat :: from <= j ==> !At(s, w, j)
    ensures Find(s, w, from) == None
  {
  }

  /** The first character of `w` comes nowhere else in `w`. */
  ghost predicate HeadOnlyOnce(w: string) { w != [] && forall k :: 1 <= k < |w| ==> w[k] != w[0] }

  /** The last character of `w` comes nowhere else in `w`. */
  ghost predicate LastOnlyOnce(w: string) { w != [] && forall k :: 0 <= k < |w| - 1 ==> w[k] != w[|w| - 1] }

  /** `w` cannot lie across the seam between `a` and `b`. */
  ghost predicate Seam(a: string, b: string, w: string) {
    || a == [] || b == []
    || (HeadOnlyOnce(w) && b[0] == w[0])
    || (LastOnlyOnce(w) && a[|a| - 1] == w[|w| - 1])
  }

  lemma AtSeam(a: string, b: string, w: string, i: nat)
    requires w != [] && Seam(a, b, w)
    ensures At(a + b, w, i) <==> At(a, w, i) || (i >= |a| && At(b, w, i - |a|))
  {
    if i + |w| <= |a + b| {
      AtChars(a + b, w, i);
      if i + |w| <= |a| {
        AtChars(a, w, i);
      } else if i >= |a| {
        AtChars(b, w, i - |a|);
      } else {
        var k := |a| - i;
        assert (a + b)[i + k] == b[0] && (a + b)[i + (k - 1)] == a[|a| - 1];
        assert w[k] != (a + b)[i + k] || w[k - 1] != (a + b)[i + (k - 1)];
      }
    }
  }

  lemma AbsentSeam(a: string, b: string, w: string)
    requires w != [] && Seam(a, b, w)
    ensures Absent(a + b, w) <==> Absent(a, w) && Absent(b, w)
  {
    forall i: nat ensures At(a + b, w, i) <==> At(a, w, i) || (i >= |a| && At(b, w, i - |a|)) {
      AtSeam(a, b, w, i);
    }
    if Absent(a + b, w) {
      forall i: nat ensures !At(a, w, i) && !At(b, w, i) {
        assert !At(a + b, w, |a| + i);
      }
    }
  }

  /** A word right after a text without it is found there, when it cannot begin earlier. */
  lemma FindAfter(a: string, w: string, rest: string)
    requires HeadOnlyOnce(w) && Absent(a, w)
    ensures Find(a + (w + rest), w, 0) == Some(|a|)
  {
    var b := w + rest;
    assert b[0] == w[0];
    forall i: nat ensures At(a + b, w, i) <==> At(a, w, i) || (i >= |a| && At(b, w, i - |a|)) {
      AtSeam(a, b, w, i);
    }
    assert At(b, w, 0);
    FindIs(a + b, w, 0, |a|);
  }

  /** What comes before the first occurrence does not contain the word. */
  lemma AbsentBefore(s: string, w: string)
    ensures var f := Find(s, w, 0);
            && (f.None? ==> Absent(s, w))
            && (f.Some? && w != [] ==> Absent(s[..f.value], w))
  {
    var f := Find(s, w, 0);
    if f.Some? && w != [] {
      forall i: nat ensures !At(s[..f.value], w, i) {
        if i + |w| <= f.value {
          assert s[..f.value][i..i + |w|] == s[i..i + |w|];
          assert !At(s, w, i);
        }
      }
    }
  }

  lemma AbsentWithoutHead(s: string, w: string)
    requires w != [] && w[0] !in s
    ensures Absent(s, w)
  {
    AbsentWithout(s, w, 0);
  }

  /** A word is not found where one of its characters does not occur. */
  lemma AbsentWithout(s: string, w: string, k: nat)
    requires k < |w| && w[k] !in s
    ensures Absent(s, w)
  {
    forall i: nat ensures !At(s, w, i) {
      if i + |w| <= |s| {
        AtChars(s, w, i);
        assert s[i + k] in s;
      }
    }
  }
}
