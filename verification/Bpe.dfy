/**
 The greedy byte-pair merge of `QwenModel.bpe` in convert_hf_to_gguf.py: of all adjacent
 pairs that have a rank, the first one of lowest rank is merged, until none is left or
 the lowest rank reaches a limit.
 */
module Bpe {
  import opened Text

  type Bytes = seq<bv8>
  type Ranks = map<Bytes, int>

  // ---------------------------------------------------------------- choosing a pair

  datatype Choice = Choice(index: nat, rank: int)

  /** `i` is the start of an adjacent pair that has a rank. */
  predicate Ranked(parts: seq<Bytes>, ranks: Ranks, i: nat) {
    i + 1 < |parts| && parts[i] + parts[i + 1] in ranks
  }

  function RankAt(parts: seq<Bytes>, ranks: Ranks, i: nat): int
    requires Ranked(parts, ranks, i)
  {
    ranks[parts[i] + parts[i + 1]]
  }

  /** The choice among the pairs that start before `n`: lowest rank, and the first of those. */
  predicate IsBest(parts: seq<Bytes>, ranks: Ranks, n: nat, best: Option<Choice>) {
    match best
    case None => forall i :: 0 <= i < n ==> !Ranked(parts, ranks, i)
    case Some(c) =>
      && c.index < n && Ranked(parts, ranks, c.index) && RankAt(parts, ranks, c.index) == c.rank
      && (forall i :: 0 <= i < n && Ranked(parts, ranks, i) ==> c.rank <= RankAt(parts, ranks, i))
      && (forall i :: 0 <= i < c.index && Ranked(parts, ranks, i) ==> c.rank < RankAt(parts, ranks, i))
  }

  lemma BestIsUnique(parts: seq<Bytes>, ranks: Ranks, n: nat, a: Option<Choice>, b: Option<Choice>)
    requires IsBest(parts, ranks, n, a) && IsBest(parts, ranks, n, b)
    ensures a == b
  {
    if a.Some? && b.Some? {
      assert a.value.rank <= RankAt(parts, ranks, b.value.index);
      assert b.value.rank <= RankAt(parts, ranks, a.value.index);
    }
  }

  /** The best pair among those that start before `n`. */
  function BestBefore(parts: seq<Bytes>, ranks: Ranks, n: nat): (best: Option<Choice>)
    ensures IsBest(parts, ranks, n, best)
  {
    if n == 0 then None else
    var best := BestBefore(parts, ranks, n - 1);
    if Ranked(parts, ranks, n - 1) && (best.None? || RankAt(parts, ranks, n - 1) < best.value.rank)
    then Some(Choice(n - 1, RankAt(parts, ranks, n - 1))) else best
  }

  function Best(parts: seq<Bytes>, ranks: Ranks): (best: Option<Choice>)
    ensures IsBest(parts, ranks, |parts|, best)
  {
    BestBefore(parts, ranks, |parts|)
  }

  /** The pair that is merged has the lowest rank of all, and is the leftmost of those. */
  lemma LowestFirst(parts: seq<Bytes>, ranks: Ranks, i: nat)
    requires i + 1 < |parts| && parts[i] + parts[i + 1] in ranks
    ensures var best := Best(parts, ranks);
            && best.Some? && best.value.index + 1 < |parts|
            && parts[best.value.index] + parts[best.value.index + 1] in ranks
            && best.value.rank == ranks[parts[best.value.index] + parts[best.value.index + 1]]
            && (best.value.rank < ranks[parts[i] + parts[i + 1]]
                || (best.value.rank == ranks[parts[i] + parts[i + 1]] && best.value.index <= i))
  {
    assert Ranked(parts, ranks, i);
  }

  // ---------------------------------------------------------------- merging

  function Merged(parts: seq<Bytes>, i: nat): (r: seq<Bytes>)
    requires i + 1 < |parts|
    ensures |r| == |parts| - 1
  {
    parts[..i] + [parts[i] + parts[i + 1]] + parts[i + 2..]
  }

  /** Whether a merge of rank `rank` is still allowed. */
  predicate Allowed(rank: int, maxRank: Option<int>) { maxRank.None? || rank < maxRank.value }

  /** The merge loop from any parts on. */
  function MergedFrom(parts: seq<Bytes>, ranks: Ranks, maxRank: Option<int>): seq<Bytes>
    decreases |parts|
  {
    var best := Best(parts, ranks);
    if best.None? || !Allowed(best.value.rank, maxRank) then parts
    else MergedFrom(Merged(parts, best.value.index), ranks, maxRank)
  }

  function Singles(token: Bytes): (r: seq<Bytes>)
    ensures |r| == |token|
  {
    seq(|token|, i requires 0 <= i < |token| => [token[i]])
  }

  /** The leftmost pair of lowest rank. */
  method FindPair(parts: seq<Bytes>, ranks: Ranks) returns (minIndex: nat, minRank: Option<int>)
    ensures Best(parts, ranks) == if minRank.None? then None else Some(Choice(minIndex, minRank.value))
    ensures minRank.Some? ==> minIndex + 1 < |parts|
  {
    minIndex, minRank := 0, None;
    var pairs := if |parts| == 0 then 0 else |parts| - 1;
    for i := 0 to pairs
      invariant IsBest(parts, ranks, i, if minRank.None? then None else Some(Choice(minIndex, minRank.value)))
    {
      var pair := parts[i] + parts[i + 1];
      if pair in ranks && (minRank.None? || ranks[pair] < minRank.value) {
        minIndex, minRank := i, Some(ranks[pair]);
      }
    }
    ghost var best := if minRank.None? then None else Some(Choice(minIndex, minRank.value));
    assert IsBest(parts, ranks, |parts|, best);
    BestIsUnique(parts, ranks, |parts|, best, Best(parts, ranks));
  }

  method Merge(ranks: Ranks, token: Bytes, maxRank: Option<int>) returns (parts: seq<Bytes>)
    ensures parts == MergedFrom(Singles(token), ranks, maxRank)
  {
    hide Best;
    parts := Singles(token);
    while true
      invariant MergedFrom(parts, ranks, maxRank) == MergedFrom(Singles(token), ranks, maxRank)
      decreases |parts|
    {
      var minIndex, minRank := FindPair(parts, ranks);
      if minRank.None? || (maxRank.Some? && minRank.value >= maxRank.value) {
        break;
      }
      parts := parts[..minIndex] + [parts[minIndex] + parts[minIndex + 1]] + parts[minIndex + 2..];
    }
  }

  // ---------------------------------------------------------------- what a run keeps

  function Joined(parts: seq<Bytes>): Bytes {
    if parts == [] then [] else parts[0] + Joined(parts[1..])
  }

  lemma {:induction false} JoinedMerged(parts: seq<Bytes>, i: nat)
    requires i + 1 < |parts|
    ensures Joined(Merged(parts, i)) == Joined(parts)
    decreases i
  {
    var m := Merged(parts, i);
    if i == 0 {
      var x, y, rest := parts[0], parts[1], Joined(parts[2..]);
      assert m[1..] == parts[2..] && parts[1..][1..] == parts[2..];
      assert Joined(parts[1..]) == y + rest;
      assert (x + y) + rest == x + (y + rest);
    } else {
      assert m[0] == parts[0] && m[1..] == Merged(parts[1..], i - 1);
      JoinedMerged(parts[1..], i - 1);
    }
  }

  lemma {:induction false} JoinedSingles(token: Bytes)
    ensures Joined(Singles(token)) == token
    decreases |token|
  {
    if token != [] {
      assert Singles(token)[1..] == Singles(token[1..]);
      JoinedSingles(token[1..]);
    }
  }

  /** Every adjacent pair that has a rank has the limit or a higher one; without a limit there is none. */
  predicate Settled(parts: seq<Bytes>, ranks: Ranks, maxRank: Option<int>) {
    forall i :: 0 <= i < |parts| && Ranked(parts, ranks, i) ==>
                  maxRank.Some? && RankAt(parts, ranks, i) >= maxRank.value
  }

  /** Every run ends settled, with parts that join to what it started from. */
  lemma {:induction false} RunSettles(parts: seq<Bytes>, ranks: Ranks, maxRank: Option<int>)
    ensures var r := MergedFrom(parts, ranks, maxRank);
            Joined(r) == Joined(parts) && |r| <= |parts| && Settled(r, ranks, maxRank)
    decreases |parts|
  {
    var best := Best(parts, ranks);
    if best.Some? && Allowed(best.value.rank, maxRank) {
      JoinedMerged(parts, best.value.index);
      RunSettles(Merged(parts, best.value.index), ranks, maxRank);
    }
  }

  /** The parts of a token join to the token and no pair below the limit is left. */
  lemma TokenIsKept(ranks: Ranks, token: Bytes, maxRank: Option<int>)
    ensures var r := MergedFrom(Singles(token), ranks, maxRank);
            Joined(r) == token && Settled(r, ranks, maxRank)
  {
    RunSettles(Singles(token), ranks, maxRank);
    JoinedSingles(token);
  }

  /** A run stops at once exactly on settled parts. */
  lemma SettledExactly(parts: seq<Bytes>, ranks: Ranks, maxRank: Option<int>)
    ensures MergedFrom(parts, ranks, maxRank) == parts <==> Settled(parts, ranks, maxRank)
  {
    RunSettles(parts, ranks, maxRank);
    var best := Best(parts, ranks);
    if best.Some? && Allowed(best.value.rank, maxRank) {
      RunSettles(Merged(parts, best.value.index), ranks, maxRank);
    }
  }

  // ---------------------------------------------------------------- what the parts are

  /** A part of more than one byte has a rank below the limit. */
  predicate RankedBelow(part: Bytes, ranks: Ranks, maxRank: Option<int>) {
    |part| > 1 ==> part in ranks && (maxRank.Some? ==> ranks[part] < maxRank.value)
  }

  predicate AllRankedBelow(parts: seq<Bytes>, ranks: Ranks, maxRank: Option<int>) {
    forall i :: 0 <= i < |parts| ==> RankedBelow(parts[i], ranks, maxRank)
  }

  lemma {:induction false} RunRanksBelow(parts: seq<Bytes>, ranks: Ranks, maxRank: Option<int>)
    requires AllRankedBelow(parts, ranks, maxRank)
    ensures AllRankedBelow(MergedFrom(parts, ranks, maxRank), ranks, maxRank)
    decreases |parts|
  {
    var best := Best(parts, ranks);
    if best.Some? && Allowed(best.value.rank, maxRank) {
      var m, k := Merged(parts, best.value.index), best.value.index;
      forall i | 0 <= i < |m| ensures RankedBelow(m[i], ranks, maxRank) {
        if i == k {
          assert m[i] == parts[k] + parts[k + 1];
        } else {
          assert m[i] == if i < k then parts[i] else parts[i + 1];
        }
      }
      RunRanksBelow(m, ranks, maxRank);
    }
  }

  /** Every part of a token is one byte, or a merge with a rank below the limit. */
  lemma PartsRankBelow(ranks: Ranks, token: Bytes, maxRank: Option<int>)
    ensures AllRankedBelow(MergedFrom(Singles(token), ranks, maxRank), ranks, maxRank)
  {
    RunRanksBelow(Singles(token), ranks, maxRank);
  }

  /** Limited to its own rank a token is never put together again, as the search for its merge needs. */
  lemma OwnRankSplits(ranks: Ranks, token: Bytes)
    requires |token| > 1 && token in ranks
    ensures |MergedFrom(Singles(token), ranks, Some(ranks[token]))| > 1
  {
    var r := MergedFrom(Singles(token), ranks, Some(ranks[token]));
    TokenIsKept(ranks, token, Some(ranks[token]));
    PartsRankBelow(ranks, token, Some(ranks[token]));
    if |r| == 1 { JoinedOne(r); }
  }

  lemma JoinedOne(parts: seq<Bytes>)
    requires |parts| == 1
    ensures Joined(parts) == parts[0]
  {
    assert parts[1..] == [];
  }

  // ---------------------------------------------------------------- limits

  /** The limit `a` is not above the limit `b`. */
  predicate NotAbove(a: Option<int>, b: Option<int>) {
    b.None? || (a.Some? && a.value <= b.value)
  }

  /** Stopping at a limit and resuming under a higher one is the run under the higher one. */
  lemma {:induction false} Resume(parts: seq<Bytes>, ranks: Ranks, a: Option<int>, b: Option<int>)
    requires NotAbove(a, b)
    ensures MergedFrom(MergedFrom(parts, ranks, a), ranks, b) == MergedFrom(parts, ranks, b)
    decreases |parts|
  {
    var best := Best(parts, ranks);
    if best.Some? && Allowed(best.value.rank, a) {
      Resume(Merged(parts, best.value.index), ranks, a, b);
    }
  }

  /** Where parts end, counted from the start. */
  function Cuts(parts: seq<Bytes>, from: nat): set<nat> {
    if parts == [] then {} else {from + |parts[0]|} + Cuts(parts[1..], from + |parts[0]|)
  }

  /** `q` groups consecutive parts of `p`. */
  predicate Coarsens(q: seq<Bytes>, p: seq<Bytes>) {
    Joined(q) == Joined(p) && Cuts(q, 0) <= Cuts(p, 0)
  }

  lemma {:induction false} MergedCuts(parts: seq<Bytes>, i: nat, from: nat)
    requires i + 1 < |parts|
    ensures Cuts(Merged(parts, i), from) <= Cuts(parts, from)
    decreases i
  {
    var m, x := Merged(parts, i), parts[0];
    if i == 0 {
      assert m[1..] == parts[2..] && parts[1..][1..] == parts[2..];
      assert from + |x + parts[1]| == from + |x| + |parts[1]|;
    } else {
      assert m[0] == x && m[1..] == Merged(parts[1..], i - 1);
      MergedCuts(parts[1..], i - 1, from + |x|);
    }
  }

  lemma {:induction false} RunCoarsens(parts: seq<Bytes>, ranks: Ranks, maxRank: Option<int>)
    ensures Coarsens(MergedFrom(parts, ranks, maxRank), parts)
    decreases |parts|
  {
    var best := Best(parts, ranks);
    if best.Some? && Allowed(best.value.rank, maxRank) {
      var m := Merged(parts, best.value.index);
      JoinedMerged(parts, best.value.index);
      MergedCuts(parts, best.value.index, 0);
      RunCoarsens(m, ranks, maxRank);
    }
  }

  /** A higher limit gives a coarser split of the same token. */
  lemma HigherLimitCoarsens(ranks: Ranks, token: Bytes, a: Option<int>, b: Option<int>)
    requires NotAbove(a, b)
    ensures Coarsens(MergedFrom(Singles(token), ranks, b), MergedFrom(Singles(token), ranks, a))
  {
    var limited := MergedFrom(Singles(token), ranks, a);
    Resume(Singles(token), ranks, a, b);
    RunCoarsens(limited, ranks, b);
  }
}
