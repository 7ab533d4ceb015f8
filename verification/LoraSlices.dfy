/**
 Indexing a factored tensor with a bare slice, without a tuple: with more than two axes the
 source then slices both factors, although the leading axes of A have size one.
 */
module LoraSlices {
  import opened Text
  import opened NdArrays
  import opened LoraTensor

  /** A Python slice with a positive step. */
  datatype Slice = Slice(start: Option<int>, stop: Option<int>, step: nat)

  /** A position that may count from the end, cut to the length. */
  function Clip(i: int, n: nat): (k: nat)
    ensures k <= n
  {
    if i < 0 then (if i + n < 0 then 0 else i + n) else if i < n then i else n
  }

  /** `first`, `first + step` and so on, below `last`. */
  function Steps(first: nat, last: nat, step: nat): (r: seq<nat>)
    requires step > 0
    ensures forall i :: 0 <= i < |r| ==> first <= r[i] < last
    decreases if first < last then last - first else 0
  {
    if first >= last then [] else [first] + Steps(first + step, last, step)
  }

  /** The positions that a slice selects on an axis of this length. */
  function Selected(s: Slice, n: nat): (r: seq<nat>)
    requires s.step > 0
    ensures forall i :: 0 <= i < |r| ==> r[i] < n
  {
    var first := if s.start.Some? then Clip(s.start.value, n) else 0;
    var last := if s.stop.Some? then Clip(s.stop.value, n) else n;
    Steps(first, last, s.step)
  }

  /** On an axis of size one a slice selects the only position or nothing. */
  lemma SelectedOfOne(s: Slice)
    requires s.step > 0
    ensures Selected(s, 1) == [0] || Selected(s, 1) == []
  {
    var first := if s.start.Some? then Clip(s.start.value, 1) else 0;
    var last := if s.stop.Some? then Clip(s.stop.value, 1) else 1;
    assert first < last ==> Steps(first, last, s.step) == [first] + Steps(first + s.step, last, s.step);
  }

  /** A selection on the first axis alone. */
  lemma FirstAxis(shape: seq<nat>, pick: seq<nat>)
    requires shape != [] && forall i :: 0 <= i < |pick| ==> pick[i] < shape[0]
    ensures PicksFit(shape, FullPicks(shape, [pick]))
    ensures PickedShape(FullPicks(shape, [pick])) == [|pick|] + shape[1..]
  {
    var all := FullPicks(shape, [pick]);
    forall i | 1 <= i < |all| ensures all[i] == Range(shape[i]) {
    }
    var l, r := PickedShape(all), [|pick|] + shape[1..];
    assert forall i :: 0 <= i < |l| ==> l[i] == r[i];
    assert l == r;
  }

  /** The pair with only B sliced. */
  function WithSlicedB(x: Lora, s: Slice): (r: Lora)
    requires IsLora(x) && s.step > 0
    ensures IsLora(r)
  {
    var picks := FullPicks(x.b.shape, [Selected(s, x.b.shape[0])]);
    FirstAxis(x.b.shape, Selected(s, x.b.shape[0]));
    PickedRows(x.b, picks, x.rank);
    x.(b := Picked(x.b, picks))
  }

  /** No rows, under leading axes that start with a zero. */
  function NoRows(shape: seq<nat>, width: nat): Full
    requires shape != []
  {
    Full(NdArray([0] + shape[1..], []), width)
  }

  /**
   What `x[s]` multiplies out to. With two axes only B is sliced. With more, A is sliced too:
   if nothing of its leading axis of size one is left, it goes with a B of at most one group,
   to an empty product, and does not go with a longer B at all.
   */
  function BareSlice(x: Lora, s: Slice): Option<Full>
    requires IsLora(x) && s.step > 0
  {
    if |x.b.shape| == 1 || Selected(s, 1) == [0] then Some(Meaning(WithSlicedB(x, s)))
    else if |Selected(s, x.b.shape[0])| <= 1 then Some(NoRows(x.b.shape, x.width))
    else None
  }

  /** The product sliced the same way. */
  function SlicedFull(t: Full, s: Slice): Full
    requires Valid(t.rows) && t.rows.shape != [] && s.step > 0
  {
    FirstAxis(t.rows.shape, Selected(s, t.rows.shape[0]));
    t.(rows := Picked(t.rows, FullPicks(t.rows.shape, [Selected(s, t.rows.shape[0])])))
  }

  lemma SlicedBMeaning(x: Lora, s: Slice)
    requires IsLora(x) && s.step > 0
    ensures Meaning(WithSlicedB(x, s)) == SlicedFull(Meaning(x), s)
  {
    FirstAxis(x.b.shape, Selected(s, x.b.shape[0]));
    PickedNatural(x.b, Times(x.a, x.width), FullPicks(x.b.shape, [Selected(s, x.b.shape[0])]));
  }

  /**
   A bare slice means the slice of the product if and only if there are two axes, or the slice
   selects the only position of A's leading axis, or it selects nothing at all.
   */
  lemma BareSliceExactly(x: Lora, s: Slice)
    requires IsLora(x) && s.step > 0
    ensures BareSlice(x, s) == Some(SlicedFull(Meaning(x), s))
       <==> |x.b.shape| == 1 || Selected(s, 1) == [0] || Selected(s, x.b.shape[0]) == []
  {
    var picks := FullPicks(x.b.shape, [Selected(s, x.b.shape[0])]);
    var full := SlicedFull(Meaning(x), s).rows;
    SlicedBMeaning(x, s);
    FirstAxis(x.b.shape, Selected(s, x.b.shape[0]));
    assert full.shape == PickedShape(picks) && full.shape[0] == |Selected(s, x.b.shape[0])|;
    if full.shape[0] == 0 {
      ShapeOfNone(x.b.shape, picks);
      assert Size(full.shape) == 0;
    }
  }

  lemma ShapeOfNone(shape: seq<nat>, picks: seq<seq<nat>>)
    requires shape != [] && picks == FullPicks(shape, [[]])
    ensures PickedShape(picks) == [0] + shape[1..] && Size(PickedShape(picks)) == 0
  {
    FirstAxis(shape, []);
    SizeWithZero(PickedShape(picks));
  }

  lemma {:induction false} SizeWithZero(shape: seq<nat>)
    requires 0 in shape
    ensures Size(shape) == 0
    decreases |shape|
  {
    var n := |shape| - 1;
    if shape[n] != 0 {
      assert shape == shape[..n] + [shape[n]];
      SizeWithZero(shape[..n]);
    }
  }

  /** A pair with two groups of one row: the second group is lost. */
  lemma SecondGroupIsLost()
    ensures var x, s := Lora([[1]], NdArray([2, 1], [[1], [1]]), 1, 1), Slice(Some(1), Some(2), 1);
            && IsLora(x) && BareSlice(x, s) == Some(NoRows([2, 1], 1))
            && SlicedFull(Meaning(x), s).rows.shape == [1, 1]
  {
    var x, s := Lora([[1]], NdArray([2, 1], [[1], [1]]), 1, 1), Slice(Some(1), Some(2), 1);
    assert Size([2, 1]) == 2 by {
      assert [2, 1][..1] == [2] && [2][..0] == [];
    }
    assert Steps(2, 2, 1) == [] && Selected(s, 2) == [1] + Steps(2, 2, 1);
    assert Selected(s, 1) == Steps(1, 1, 1) == [];
    FirstAxis([2, 1], [1]);
  }
}
