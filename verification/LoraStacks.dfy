/**
 Factored tensors with three axes, where A may have a leading axis of its own: `torch.stack`,
 `torch.cat`, indices and slices of `LoraTorchTensor` in convert_lora_to_gguf.py, and for
 which pairs they mean the same on the product.
 */
module LoraStacks {
  import opened Text
  import opened NdArrays
  import opened LoraTensor
  import opened LoraSlices

  type Matrix = seq<Row>

  predicate IsMatrix(m: Matrix, rows: nat, width: nat) { |m| == rows && AllOf(m, width) }

  /** `a` holds matrices of `rank` rows of `width`, `b` matrices of `height` rows of `rank`. */
  datatype Stack = Stack(a: seq<Matrix>, b: seq<Matrix>, height: nat, rank: nat, width: nat)

  predicate IsStack(x: Stack) {
    && (forall i :: 0 <= i < |x.a| ==> IsMatrix(x.a[i], x.rank, x.width))
    && (forall i :: 0 <= i < |x.b| ==> IsMatrix(x.b[i], x.height, x.rank))
  }

  function MatTimes(b: Matrix, a: Matrix, width: nat): (r: Matrix)
    ensures |r| == |b|
  {
    seq(|b|, i requires 0 <= i < |b| => RowTimes(b[i], a, width))
  }

  /** The length of two leading axes that are broadcast against each other. */
  function Broadcast(m: nat, n: nat): Option<nat> {
    if m == n || n == 1 then Some(m) else if m == 1 then Some(n) else None
  }

  /** The position on an axis that may be broadcast. */
  function At1(j: nat, n: nat): nat { if n == 1 then 0 else j }

  function ProductAt(x: Stack, j: nat): Matrix {
    if At1(j, |x.b|) < |x.b| && At1(j, |x.a|) < |x.a|
    then MatTimes(x.b[At1(j, |x.b|)], x.a[At1(j, |x.a|)], x.width) else []
  }

  /** B·A for every position of the leading axis, when the axes go together. */
  function Product3(x: Stack): Option<seq<Matrix>> {
    match Broadcast(|x.a|, |x.b|)
    case None => None
    case Some(n) => Some(seq(n, j requires 0 <= j < n => ProductAt(x, j)))
  }

  // ---------------------------------------------------------------- stack and cat

  function AMatrices(xs: seq<Lora>): (r: seq<Matrix>)
    ensures |r| == |xs|
  {
    seq(|xs|, i requires 0 <= i < |xs| => xs[i].a)
  }

  function BMatrices(xs: seq<Lora>): (r: seq<Matrix>)
    ensures |r| == |xs|
  {
    seq(|xs|, i requires 0 <= i < |xs| => xs[i].b.items)
  }

  predicate SameShape(x: Lora, y: Lora) { x.rank == y.rank && x.width == y.width && x.b.shape == y.b.shape }

  /** `torch.stack` of two-dimensional pairs: both factors are stacked. */
  function StackPairs(xs: seq<Lora>): (r: Result<Stack, TensorError>)
    requires xs != [] && forall i :: 0 <= i < |xs| ==> Is2D(xs[i])
  {
    if exists i :: 0 <= i < |xs| && !SameShape(xs[0], xs[i]) then Err(ShapeMismatch)
    else assert Is2D(xs[0]); Ok(Stack(AMatrices(xs), BMatrices(xs), xs[0].b.shape[0], xs[0].rank, xs[0].width))
  }

  /** Stacking the pairs means stacking the products. */
  lemma StackMeaning(xs: seq<Lora>)
    requires xs != [] && (forall i :: 0 <= i < |xs| ==> Is2D(xs[i])) && StackPairs(xs).Ok?
    ensures IsStack(StackPairs(xs).value)
    ensures var p := Product3(StackPairs(xs).value);
            && p.Some? && |p.value| == |xs|
            && forall i :: 0 <= i < |xs| ==> p.value[i] == Meaning(xs[i]).rows.items
  {
    var x := StackPairs(xs).value;
    forall i | 0 <= i < |xs|
      ensures IsMatrix(x.a[i], x.rank, x.width) && IsMatrix(x.b[i], x.height, x.rank)
      ensures MatTimes(x.b[i], x.a[i], x.width) == Meaning(xs[i]).rows.items
    {
      assert SameShape(xs[0], xs[i]);
      OneAxis(xs[i].b.shape);
      assert forall k :: 0 <= k < |x.b[i]| ==> MatTimes(x.b[i], x.a[i], x.width)[k] == Meaning(xs[i]).rows.items[k];
    }
  }

  lemma OneAxis(shape: seq<nat>)
    requires |shape| == 1
    ensures Size(shape) == shape[0]
  {
    assert shape[..0] == [];
  }

  function AllA(xs: seq<Stack>): seq<Matrix> { if xs == [] then [] else xs[0].a + AllA(xs[1..]) }

  function AllB(xs: seq<Stack>): seq<Matrix> { if xs == [] then [] else xs[0].b + AllB(xs[1..]) }

  function AllProducts(xs: seq<Stack>): seq<Matrix> {
    if xs == [] then [] else
    (match Product3(xs[0]) case Some(p) => p case None => []) + AllProducts(xs[1..])
  }

  /** `torch.cat` along the first of three axes: both factors are concatenated. */
  function CatStacks(xs: seq<Stack>): Stack
    requires xs != []
  {
    xs[0].(a := AllA(xs), b := AllB(xs))
  }

  predicate Matched(x: Stack) { |x.a| == |x.b| }

  lemma {:induction false} MatchedConcatenates(xs: seq<Stack>, width: nat)
    requires forall i :: 0 <= i < |xs| ==> Matched(xs[i]) && xs[i].width == width
    ensures |AllA(xs)| == |AllB(xs)| == |AllProducts(xs)|
    ensures forall j :: 0 <= j < |AllA(xs)| ==> AllProducts(xs)[j] == MatTimes(AllB(xs)[j], AllA(xs)[j], width)
    decreases |xs|
  {
    if xs != [] {
      var n := |xs[0].a|;
      MatchedConcatenates(xs[1..], width);
      assert Matched(xs[0]) && Product3(xs[0]).Some?;
      forall j | 0 <= j < |AllA(xs)|
        ensures AllProducts(xs)[j] == MatTimes(AllB(xs)[j], AllA(xs)[j], width)
      {
        if j < n {
          assert AllProducts(xs)[j] == ProductAt(xs[0], j);
        } else {
          assert AllProducts(xs)[j] == AllProducts(xs[1..])[j - n];
        }
      }
    }
  }

  /** Concatenating stacks whose factors go together one by one means concatenating the products. */
  lemma CatStacksMeaning(xs: seq<Stack>)
    requires xs != [] && forall i :: 0 <= i < |xs| ==> Matched(xs[i]) && xs[i].width == xs[0].width
    ensures Product3(CatStacks(xs)) == Some(AllProducts(xs))
  {
    MatchedConcatenates(xs, xs[0].width);
    var x := CatStacks(xs);
    var p := Product3(x).value;
    forall j | 0 <= j < |p| ensures p[j] == AllProducts(xs)[j] {
    }
    assert p == AllProducts(xs);
  }

  /** Pairs that were reshaped to three axes have one A for several groups of B: their concatenation has no product. */
  lemma ReshapedPairsDoNotCat(a1: Matrix, a2: Matrix, b: Matrix, height: nat, rank: nat, width: nat)
    ensures var x, y := Stack([a1], [b, b], height, rank, width), Stack([a2], [b, b], height, rank, width);
            Product3(x).Some? && Product3(y).Some? && Product3(CatStacks([x, y])) == None
  {
    var x, y := Stack([a1], [b, b], height, rank, width), Stack([a2], [b, b], height, rank, width);
    assert [x, y][1..] == [y] && [y][1..] == [];
    assert AllA([y]) == [a2] + AllA([]) && AllA([x, y]) == [a1] + AllA([y]);
    assert AllB([y]) == [b, b] + AllB([]) && AllB([x, y]) == [b, b] + AllB([y]);
    assert |AllA([x, y])| == 2 && |AllB([x, y])| == 4;
  }

  // ---------------------------------------------------------------- one index

  /** A Python index, which may count from the end. */
  function Position1(i: int, n: nat): (r: Option<nat>)
    ensures r.Some? ==> r.value < n
  {
    if 0 <= i < n then Some(i) else if i < 0 <= i + n then Some(i + n) else None
  }

  /** `x[i]`: both factors are indexed. */
  function IndexBoth(x: Stack, i: int): Option<Matrix> {
    var p, q := Position1(i, |x.b|), Position1(i, |x.a|);
    if p.Some? && q.Some? then Some(MatTimes(x.b[p.value], x.a[q.value], x.width)) else None
  }

  /** `x[i, ...]`: A is indexed modulo its own length. */
  function IndexWrapped(x: Stack, i: int): Option<Matrix> {
    var p := Position1(i, |x.b|);
    if p.Some? && |x.a| > 0 then Some(MatTimes(x.b[p.value], x.a[i % |x.a|], x.width)) else None
  }

  /**
   A bare index gives the matrix of the product at that position if and only if the factors
   go together one by one, or the index is the first or the last one.
   */
  lemma IndexExactly(x: Stack, i: int)
    requires Product3(x).Some? && Position1(i, |Product3(x).value|).Some?
    ensures var p := Product3(x).value;
            IndexBoth(x, i) == Some(p[Position1(i, |p|).value]) <==> Matched(x) || i == 0 || i == -1
  {
    var n := |Product3(x).value|;
    var j := Position1(i, n).value;
    assert Product3(x).value[j] == ProductAt(x, j);
  }

  /** With the index in a tuple it always does, for stacks and for reshaped pairs. */
  lemma WrappedIndexMeaning(x: Stack, i: int)
    requires Matched(x) || |x.a| == 1
    requires Product3(x).Some? && Position1(i, |Product3(x).value|).Some?
    ensures var p := Product3(x).value; IndexWrapped(x, i) == Some(p[Position1(i, |p|).value])
  {
    var n := |Product3(x).value|;
    var j := Position1(i, n).value;
    assert Product3(x).value[j] == ProductAt(x, j);
    if |x.a| == 1 {
      assert i % 1 == 0;
    } else {
      SmallModulo(i, n);
    }
  }

  lemma SmallModulo(i: int, n: nat)
    requires i < n && 0 <= i + n
    ensures i % n == if i < 0 then i + n else i
  {
  }

  // ---------------------------------------------------------------- slices

  function Chosen<T>(s: seq<T>, picks: seq<nat>): (r: seq<T>)
    requires forall i :: 0 <= i < |picks| ==> picks[i] < |s|
    ensures |r| == |picks|
  {
    seq(|picks|, i requires 0 <= i < |picks| => s[picks[i]])
  }

  /** `x[s]`: both factors are sliced. */
  function SliceBoth(x: Stack, s: Slice): Stack
    requires s.step > 0
  {
    x.(a := Chosen(x.a, Selected(s, |x.a|)), b := Chosen(x.b, Selected(s, |x.b|)))
  }

  /** `x[s, ...]`: only B is sliced on the first axis. */
  function SliceB(x: Stack, s: Slice): Stack
    requires s.step > 0
  {
    x.(b := Chosen(x.b, Selected(s, |x.b|)))
  }

  function SlicedProduct(x: Stack, s: Slice): Option<seq<Matrix>>
    requires s.step > 0
  {
    match Product3(x)
    case None => None
    case Some(p) => Some(Chosen(p, Selected(s, |p|)))
  }

  /** A bare slice means the slice of the product for every stack whose factors go together one by one. */
  lemma SliceBothMeaning(x: Stack, s: Slice)
    requires s.step > 0 && Matched(x)
    ensures Product3(SliceBoth(x, s)) == SlicedProduct(x, s)
  {
    var n := |x.a|;
    var picks, y := Selected(s, n), SliceBoth(x, s);
    var l, r := Product3(y).value, SlicedProduct(x, s).value;
    forall j | 0 <= j < |picks| ensures l[j] == r[j] {
      assert l[j] == ProductAt(y, j) && r[j] == ProductAt(x, picks[j]);
    }
    assert l == r;
  }

  /** Increasing positions of which the first is at least `first` and the last is below `last`. */
  predicate Apart(r: seq<nat>, first: nat, last: nat) {
    forall i :: 0 <= i < |r| ==> first + i <= r[i] && r[i] + |r| <= last + i
  }

  lemma {:induction false} StepsApart(first: nat, last: nat, step: nat)
    requires step > 0
    ensures Apart(Steps(first, last, step), first, last)
    decreases if first < last then last - first else 0
  {
    if first < last {
      StepsApart(first + step, last, step);
      var r, rest := Steps(first, last, step), Steps(first + step, last, step);
      assert r == [first] + rest;
      if rest != [] { assert rest[0] + |rest| <= last + 0; }
      forall i | 0 <= i < |r| ensures first + i <= r[i] && r[i] + |r| <= last + i {
        if i > 0 { assert r[i] == rest[i - 1]; }
      }
    }
  }

  /** A slice that selects as many positions as there are selects all of them in order. */
  lemma AllSelected(s: Slice, n: nat)
    requires s.step > 0 && |Selected(s, n)| == n
    ensures Selected(s, n) == Range(n)
  {
    var first := if s.start.Some? then Clip(s.start.value, n) else 0;
    var last := if s.stop.Some? then Clip(s.stop.value, n) else n;
    StepsApart(first, last, s.step);
  }

  /**
   A slice in a tuple cuts B and leaves A: on a stack that means the slice of the product if
   and only if there is one matrix, or the slice selects all of them.
   */
  lemma SliceBExactly(x: Stack, s: Slice)
    requires s.step > 0 && Matched(x)
    ensures Product3(SliceB(x, s)) == SlicedProduct(x, s) <==> |x.a| == 1 || Selected(s, |x.a|) == Range(|x.a|)
  {
    var n := |x.a|;
    var picks, y := Selected(s, n), SliceB(x, s);
    if |picks| == n { AllSelected(s, n); }
    if picks == Range(n) {
      assert y.b == x.b;
      var p := Product3(x).value;
      assert Chosen(p, picks) == p;
    } else if n == 1 {
      SelectedOfOne(s);
      var l, r := Product3(y), SlicedProduct(x, s);
      assert l.Some? && r.Some? && |l.value| == |r.value| == 0;
    } else if |picks| == 1 {
      assert |Product3(y).value| == n && |SlicedProduct(x, s).value| == 1;
    }
  }

  /** On a pair that was reshaped to three axes a slice in a tuple always means the slice of the product. */
  lemma SliceBOfReshaped(x: Stack, s: Slice)
    requires s.step > 0 && |x.a| == 1
    ensures Product3(SliceB(x, s)) == SlicedProduct(x, s)
  {
    var n := |x.b|;
    var picks, y := Selected(s, n), SliceB(x, s);
    var l, r := Product3(y).value, SlicedProduct(x, s).value;
    forall j | 0 <= j < |picks| ensures l[j] == r[j] {
      assert l[j] == ProductAt(y, j) && r[j] == ProductAt(x, picks[j]);
    }
    assert l == r;
  }
}
