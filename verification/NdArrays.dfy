/** Row-major arrays of any rank, with the layout operations that the converters use. */
module NdArrays {

  datatype NdArray<T> = NdArray(shape: seq<nat>, items: seq<T>)

  function Size(shape: seq<nat>): nat {
    if shape == [] then 1 else Size(shape[..|shape| - 1]) * shape[|shape| - 1]
  }

  predicate Valid<T>(a: NdArray<T>) { |a.items| == Size(a.shape) }

  predicate InBounds(shape: seq<nat>, index: seq<nat>) {
    |index| == |shape| && forall i :: 0 <= i < |shape| ==> index[i] < shape[i]
  }

  lemma MulOrder(a: int, b: int, n: nat)
    requires a <= b
    ensures a * n <= b * n
  {
  }

  lemma MulApart(a: int, b: int, n: nat)
    requires a < b
    ensures a * n + n <= b * n
  {
    MulOrder(a + 1, b, n);
    assert (a + 1) * n == a * n + n;
  }

  lemma DivUnique(k: nat, n: nat, q: nat, r: nat)
    requires r < n && k == q * n + r
    ensures k / n == q && k % n == r
  {
    var d, m := k / n, k % n;
    assert k == d * n + m && m < n;
    if d < q {
      MulApart(d, q, n);
    } else if q < d {
      MulApart(q, d, n);
    }
  }

  lemma ProductBound(q: nat, r: nat, m: nat, n: nat)
    requires q < m && r < n
    ensures q * n + r < m * n
    ensures (q * n + r) / n == q && (q * n + r) % n == r
  {
    MulApart(q, m, n);
    DivUnique(q * n + r, n, q, r);
  }

  lemma QuotientBound(k: nat, m: nat, n: nat)
    requires k < m * n
    ensures n > 0 && k / n < m && k % n < n && k / n * n + k % n == k
  {
    assert n > 0;
    var q, r := k / n, k % n;
    assert k == q * n + r;
    MulOrder(if m <= q then m else q, q, n);
    assert q < m;
  }

  /** Position of an index in row-major order. */
  function Offset(shape: seq<nat>, index: seq<nat>): (k: nat)
    requires InBounds(shape, index)
    ensures k < Size(shape)
  {
    if shape == [] then 0 else
    var n := |shape| - 1;
    var front := Offset(shape[..n], index[..n]);
    ProductBound(front, index[n], Size(shape[..n]), shape[n]);
    front * shape[n] + index[n]
  }

  /** The index at a position. */
  function IndexAt(shape: seq<nat>, k: nat): (index: seq<nat>)
    requires k < Size(shape)
    ensures InBounds(shape, index)
  {
    if shape == [] then [] else
    var n := |shape| - 1;
    QuotientBound(k, Size(shape[..n]), shape[n]);
    IndexAt(shape[..n], k / shape[n]) + [k % shape[n]]
  }

  lemma {:induction false} IndexAtOfOffset(shape: seq<nat>, index: seq<nat>)
    requires InBounds(shape, index)
    ensures IndexAt(shape, Offset(shape, index)) == index
    decreases |shape|
  {
    if shape != [] {
      var n := |shape| - 1;
      var front := Offset(shape[..n], index[..n]);
      ProductBound(front, index[n], Size(shape[..n]), shape[n]);
      IndexAtOfOffset(shape[..n], index[..n]);
      assert index == index[..n] + [index[n]];
    }
  }

  // ---------------------------------------------------------------- operations

  function At<T>(a: NdArray<T>, index: seq<nat>): T
    requires Valid(a) && InBounds(a.shape, index)
  {
    a.items[Offset(a.shape, index)]
  }

  function Reshaped<T>(a: NdArray<T>, shape: seq<nat>): (r: NdArray<T>)
    requires Valid(a) && Size(shape) == Size(a.shape)
    ensures Valid(r)
  {
    NdArray(shape, a.items)
  }

  /** Splitting an axis of `n * m` items: index (i, j) is item `i * m + j`. */
  lemma SplitAxisAt<T>(a: NdArray<T>, n: nat, m: nat, i: nat, j: nat)
    requires a.shape == [n * m] && Valid(a) && i < n && j < m
    ensures Size([n, m]) == Size(a.shape) && InBounds([n, m], [i, j]) && i * m + j < n * m
    ensures InBounds(a.shape, [i * m + j]) && At(Reshaped(a, [n, m]), [i, j]) == At(a, [i * m + j])
  {
    ProductBound(i, j, n, m);
    OffsetOne(n * m, i * m + j);
    OffsetTwo(n, m, i, j);
  }

  lemma OffsetOne(n: nat, i: nat)
    requires i < n
    ensures Size([n]) == n && InBounds([n], [i]) && Offset([n], [i]) == i
  {
    assert [n][..0] == [] && [i][..0] == [];
    assert Size([]) == 1 && Offset([], []) == 0;
  }

  lemma OffsetTwo(n: nat, m: nat, i: nat, j: nat)
    requires i < n && j < m
    ensures Size([n, m]) == n * m && InBounds([n, m], [i, j]) && Offset([n, m], [i, j]) == i * m + j
  {
    assert [n, m][..1] == [n] && [i, j][..1] == [i];
    OffsetOne(n, i);
  }

  /** `dims` names every axis. */
  predicate IsPermutation(dims: seq<nat>) {
    (forall i :: 0 <= i < |dims| ==> dims[i] < |dims|) && (forall j :: 0 <= j < |dims| ==> j in dims)
  }

  function Position(dims: seq<nat>, j: nat): (p: nat)
    requires j in dims
    ensures p < |dims| && dims[p] == j
  {
    if dims[0] == j then 0 else 1 + Position(dims[1..], j)
  }

  function PermutedShape(shape: seq<nat>, dims: seq<nat>): (r: seq<nat>)
    requires |dims| == |shape| && IsPermutation(dims)
    ensures |r| == |shape| && forall i :: 0 <= i < |r| ==> r[i] == shape[dims[i]]
  {
    seq(|dims|, i requires 0 <= i < |dims| => shape[dims[i]])
  }

  /** Where the element at `index` of the permuted array comes from. */
  function Unpermuted(dims: seq<nat>, index: seq<nat>): (r: seq<nat>)
    requires |index| == |dims| && IsPermutation(dims)
    ensures |r| == |dims| && forall j :: 0 <= j < |dims| ==> j in dims && r[j] == index[Position(dims, j)]
  {
    seq(|dims|, j requires 0 <= j < |dims| => index[Position(dims, j)])
  }

  lemma UnpermutedInBounds(shape: seq<nat>, dims: seq<nat>, index: seq<nat>)
    requires |dims| == |shape| && IsPermutation(dims) && InBounds(PermutedShape(shape, dims), index)
    ensures InBounds(shape, Unpermuted(dims, index))
  {
    forall j | 0 <= j < |shape|
      ensures Unpermuted(dims, index)[j] < shape[j]
    {
      var p := Position(dims, j);
      assert index[p] < PermutedShape(shape, dims)[p];
    }
  }

  function PermutedItem<T>(a: NdArray<T>, dims: seq<nat>, k: nat): T
    requires Valid(a) && |dims| == |a.shape| && IsPermutation(dims) && k < Size(PermutedShape(a.shape, dims))
  {
    var index := IndexAt(PermutedShape(a.shape, dims), k);
    UnpermutedInBounds(a.shape, dims, index);
    At(a, Unpermuted(dims, index))
  }

  /** Axis `i` of the result is axis `dims[i]` of `a`. */
  function Permuted<T>(a: NdArray<T>, dims: seq<nat>): (r: NdArray<T>)
    requires Valid(a) && |dims| == |a.shape| && IsPermutation(dims)
    ensures Valid(r)
  {
    var shape := PermutedShape(a.shape, dims);
    NdArray(shape, seq(Size(shape), k requires 0 <= k < Size(shape) => PermutedItem(a, dims, k)))
  }

  lemma PermutedAt<T>(a: NdArray<T>, dims: seq<nat>, index: seq<nat>)
    requires Valid(a) && |dims| == |a.shape| && IsPermutation(dims) && InBounds(PermutedShape(a.shape, dims), index)
    ensures InBounds(a.shape, Unpermuted(dims, index))
    ensures At(Permuted(a, dims), index) == At(a, Unpermuted(dims, index))
  {
    UnpermutedInBounds(a.shape, dims, index);
    IndexAtOfOffset(PermutedShape(a.shape, dims), index);
  }

  /** One list of positions for every axis: what slices and index lists select. */
  predicate PicksFit(shape: seq<nat>, picks: seq<seq<nat>>) {
    |picks| == |shape|
    && forall i, j :: 0 <= i < |picks| && 0 <= j < |picks[i]| ==> picks[i][j] < shape[i]
  }

  function PickedShape(picks: seq<seq<nat>>): (r: seq<nat>)
    ensures |r| == |picks| && forall i :: 0 <= i < |r| ==> r[i] == |picks[i]|
  {
    seq(|picks|, i requires 0 <= i < |picks| => |picks[i]|)
  }

  function Unpicked(picks: seq<seq<nat>>, index: seq<nat>): (r: seq<nat>)
    requires InBounds(PickedShape(picks), index)
    ensures |r| == |picks| && forall i :: 0 <= i < |r| ==> r[i] == picks[i][index[i]]
  {
    seq(|picks|, i requires 0 <= i < |picks| => picks[i][index[i]])
  }

  function PickedItem<T>(a: NdArray<T>, picks: seq<seq<nat>>, k: nat): T
    requires Valid(a) && PicksFit(a.shape, picks) && k < Size(PickedShape(picks))
  {
    At(a, Unpicked(picks, IndexAt(PickedShape(picks), k)))
  }

  function Picked<T>(a: NdArray<T>, picks: seq<seq<nat>>): (r: NdArray<T>)
    requires Valid(a) && PicksFit(a.shape, picks)
    ensures Valid(r)
  {
    var shape := PickedShape(picks);
    NdArray(shape, seq(Size(shape), k requires 0 <= k < Size(shape) => PickedItem(a, picks, k)))
  }

  lemma PickedAt<T>(a: NdArray<T>, picks: seq<seq<nat>>, index: seq<nat>)
    requires Valid(a) && PicksFit(a.shape, picks) && InBounds(PickedShape(picks), index)
    ensures InBounds(a.shape, Unpicked(picks, index))
    ensures At(Picked(a, picks), index) == At(a, Unpicked(picks, index))
  {
    IndexAtOfOffset(PickedShape(picks), index);
  }

  // ---------------------------------------------------------------- layouts do not look at the items

  function Mapped<T, U>(a: NdArray<T>, f: T -> U): (r: NdArray<U>)
    ensures r.shape == a.shape && |r.items| == |a.items|
    ensures forall k :: 0 <= k < |a.items| ==> r.items[k] == f(a.items[k])
  {
    NdArray(a.shape, seq(|a.items|, k requires 0 <= k < |a.items| => f(a.items[k])))
  }

  /** Reshaping, permuting and picking commute with any change made to the items one by one. */
  lemma LayoutIsNatural<T, U>(a: NdArray<T>, f: T -> U)
    requires Valid(a)
    ensures Valid(Mapped(a, f))
    ensures forall shape: seq<nat> :: Size(shape) == Size(a.shape) ==>
              Reshaped(Mapped(a, f), shape) == Mapped(Reshaped(a, shape), f)
    ensures forall dims: seq<nat> :: |dims| == |a.shape| && IsPermutation(dims) ==>
              Permuted(Mapped(a, f), dims) == Mapped(Permuted(a, dims), f)
    ensures forall picks: seq<seq<nat>> :: PicksFit(a.shape, picks) ==>
              Picked(Mapped(a, f), picks) == Mapped(Picked(a, picks), f)
  {
    forall shape: seq<nat> | Size(shape) == Size(a.shape)
      ensures Reshaped(Mapped(a, f), shape) == Mapped(Reshaped(a, shape), f)
    {
    }
    forall dims: seq<nat> | |dims| == |a.shape| && IsPermutation(dims)
      ensures Permuted(Mapped(a, f), dims) == Mapped(Permuted(a, dims), f)
    {
      PermutedNatural(a, f, dims);
    }
    forall picks: seq<seq<nat>> | PicksFit(a.shape, picks)
      ensures Picked(Mapped(a, f), picks) == Mapped(Picked(a, picks), f)
    {
      PickedNatural(a, f, picks);
    }
  }

  lemma PermutedNatural<T, U>(a: NdArray<T>, f: T -> U, dims: seq<nat>)
    requires Valid(a) && |dims| == |a.shape| && IsPermutation(dims)
    ensures Permuted(Mapped(a, f), dims) == Mapped(Permuted(a, dims), f)
  {
    var l, r := Permuted(Mapped(a, f), dims), Mapped(Permuted(a, dims), f);
    forall k | 0 <= k < |l.items|
      ensures l.items[k] == r.items[k]
    {
      assert l.items[k] == PermutedItem(Mapped(a, f), dims, k) == f(PermutedItem(a, dims, k));
    }
  }

  lemma PickedNatural<T, U>(a: NdArray<T>, f: T -> U, picks: seq<seq<nat>>)
    requires Valid(a) && PicksFit(a.shape, picks)
    ensures Picked(Mapped(a, f), picks) == Mapped(Picked(a, picks), f)
  {
    var l, r := Picked(Mapped(a, f), picks), Mapped(Picked(a, picks), f);
    forall k | 0 <= k < |l.items|
      ensures l.items[k] == r.items[k]
    {
      assert l.items[k] == PickedItem(Mapped(a, f), picks, k) == f(PickedItem(a, picks, k));
    }
  }
}
