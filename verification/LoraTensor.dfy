/**
 Factored tensors: `LoraTorchTensor` of convert_lora_to_gguf.py keeps a weight as a pair
 (A, B) and lets the converters reshape, permute, slice and concatenate the pair as if
 it were the product B·A. Here the leading axes of A have size one; for these pairs the
 operations are proved to mean the same on the product. LoraSlices treats bare slices,
 LoraStacks pairs whose A has a leading axis of its own, and LoraLayouts the layouts of
 convert_hf_to_gguf.py.
 */
module LoraTensor {
  import opened Text
  import opened NdArrays

  type Row = seq<int>

  /** A is `rank` rows of `width`; B is an array of rows of `rank`. Leading axes of A, all of size one, are implicit. */
  datatype Lora = Lora(a: seq<Row>, b: NdArray<Row>, rank: nat, width: nat)

  /** The tensor itself: an array of rows of `width`; its shape is `rows.shape + [width]`. */
  datatype Full = Full(rows: NdArray<Row>, width: nat)

  datatype TensorError = NotImplemented | AssertionFailed | ShapeMismatch

  predicate AllOf(rows: seq<Row>, width: nat) {
    forall q :: 0 <= q < |rows| ==> |rows[q]| == width
  }

  predicate IsLora(x: Lora) {
    && |x.a| == x.rank && AllOf(x.a, x.width)
    && Valid(x.b) && x.b.shape != [] && AllOf(x.b.items, x.rank)
  }

  predicate Is2D(x: Lora) { IsLora(x) && |x.b.shape| == 1 }

  // ---------------------------------------------------------------- the product

  function DotTo(b: Row, a: seq<Row>, j: nat, k: nat): int
    requires k <= |b| && k <= |a| && forall q :: 0 <= q < |a| ==> j < |a[q]|
  {
    if k == 0 then 0 else DotTo(b, a, j, k - 1) + b[k - 1] * a[k - 1][j]
  }

  predicate Fits(b: Row, a: seq<Row>, width: nat) { |b| == |a| && AllOf(a, width) }

  /** One row of the product. */
  function RowTimes(b: Row, a: seq<Row>, width: nat): (r: Row)
    ensures Fits(b, a, width) ==> |r| == width && forall j :: 0 <= j < width ==> r[j] == DotTo(b, a, j, |b|)
  {
    if Fits(b, a, width) then seq(width, j requires 0 <= j < width => DotTo(b, a, j, |b|)) else []
  }

  /** A row that is one at `i` and zero elsewhere picks row `i` of A. */
  lemma UnitRowPicks(b: Row, a: seq<Row>, width: nat, i: nat)
    requires Fits(b, a, width) && i < |b| && b[i] == 1 && forall q :: 0 <= q < |b| && q != i ==> b[q] == 0
    ensures RowTimes(b, a, width) == a[i]
  {
    forall j | 0 <= j < width ensures RowTimes(b, a, width)[j] == a[i][j] { UnitDot(b, a, j, i, |b|); }
  }

  lemma {:induction false} UnitDot(b: Row, a: seq<Row>, j: nat, i: nat, k: nat)
    requires k <= |b| == |a| && i < |b| && forall q :: 0 <= q < |a| ==> j < |a[q]|
    requires b[i] == 1 && forall q :: 0 <= q < |b| && q != i ==> b[q] == 0
    ensures DotTo(b, a, j, k) == if i < k then a[i][j] else 0
    decreases k
  {
    if k > 0 { UnitDot(b, a, j, i, k - 1); }
  }

  function Combined(s: int, b: Row, t: int, c: Row): (r: Row)
    requires |b| == |c|
    ensures |r| == |b| && forall q :: 0 <= q < |r| ==> r[q] == s * b[q] + t * c[q]
  {
    seq(|b|, q requires 0 <= q < |b| => s * b[q] + t * c[q])
  }

  /** The product is linear in the row of B; with the rows it picks this fixes it. */
  lemma RowTimesIsLinear(s: int, b: Row, t: int, c: Row, a: seq<Row>, width: nat)
    requires Fits(b, a, width) && Fits(c, a, width)
    ensures RowTimes(Combined(s, b, t, c), a, width) == Combined(s, RowTimes(b, a, width), t, RowTimes(c, a, width))
  {
    forall j | 0 <= j < width
      ensures DotTo(Combined(s, b, t, c), a, j, |b|) == s * DotTo(b, a, j, |b|) + t * DotTo(c, a, j, |b|)
    {
      DotIsLinear(s, b, t, c, a, j, |b|);
    }
  }

  lemma {:induction false} DotIsLinear(s: int, b: Row, t: int, c: Row, a: seq<Row>, j: nat, k: nat)
    requires k <= |b| == |c| == |a| && forall q :: 0 <= q < |a| ==> j < |a[q]|
    ensures DotTo(Combined(s, b, t, c), a, j, k) == s * DotTo(b, a, j, k) + t * DotTo(c, a, j, k)
    decreases k
  {
    if k > 0 {
      DotIsLinear(s, b, t, c, a, j, k - 1);
      LinearStep(s, DotTo(b, a, j, k - 1), b[k - 1], t, DotTo(c, a, j, k - 1), c[k - 1], a[k - 1][j]);
    }
  }

  lemma LinearStep(s: int, x: int, b: int, t: int, y: int, c: int, v: int)
    ensures (s * x + t * y) + (s * b + t * c) * v == s * (x + b * v) + t * (y + c * v)
  {
  }

  function Times(a: seq<Row>, width: nat): Row -> Row { b => RowTimes(b, a, width) }

  /** What a pair stands for: B·A, with B's leading axes. */
  function Meaning(x: Lora): Full { Full(Mapped(x.b, Times(x.a, x.width)), x.width) }

  // ---------------------------------------------------------------- reshape

  function Product(dims: seq<int>): int {
    if dims == [] then 1 else dims[0] * Product(dims[1..])
  }

  /** Every -1 counts as one when the missing size is computed. */
  function Known(dims: seq<int>): (r: seq<int>)
    ensures |r| == |dims|
  {
    seq(|dims|, i requires 0 <= i < |dims| => if dims[i] == -1 then 1 else dims[i])
  }

  function Expanded(dims: seq<int>, elements: nat): Result<seq<nat>, TensorError> {
    if exists i :: 0 <= i < |dims| && dims[i] < -1 then Err(ShapeMismatch)
    else if -1 in dims then
      var known := Product(Known(dims));
      if known <= 0 then Err(ShapeMismatch)
      else if elements % known != 0 then Err(AssertionFailed)
      else Ok(seq(|dims|, i requires 0 <= i < |dims| => if dims[i] == -1 then elements / known else dims[i]))
    else Ok(seq(|dims|, i requires 0 <= i < |dims| => dims[i]))
  }

  function Reshape(x: Lora, dims: seq<int>): (r: Result<Lora, TensorError>)
    requires IsLora(x)
    ensures r.Ok? ==> IsLora(r.value)
  {
    if |dims| < 2 then Err(NotImplemented) else
    var shape :- Expanded(dims, Size(x.b.shape) * x.width);
    var n := |shape| - 1;
    if |shape| < 2 || shape[n] != x.width then Err(NotImplemented)
    else if Size(shape[..n]) != Size(x.b.shape) then Err(ShapeMismatch)
    else Ok(x.(b := Reshaped(x.b, shape[..n])))
  }

  /** A full tensor with the same rows under other leading axes. */
  function FullReshaped(t: Full, lead: seq<nat>): Full
    requires Valid(t.rows) && Size(lead) == Size(t.rows.shape)
  {
    t.(rows := Reshaped(t.rows, lead))
  }

  lemma ReshapeMeaning(x: Lora, dims: seq<int>)
    requires IsLora(x) && Reshape(x, dims).Ok?
    ensures var y := Reshape(x, dims).value;
            && Expanded(dims, Size(x.b.shape) * x.width) == Ok(y.b.shape + [x.width])
            && Size(y.b.shape) == Size(x.b.shape)
            && Meaning(y) == FullReshaped(Meaning(x), y.b.shape)
  {
    var shape := Expanded(dims, Size(x.b.shape) * x.width).value;
    assert shape == shape[..|shape| - 1] + [x.width];
    LayoutIsNatural(x.b, Times(x.a, x.width));
  }

  function Ints(dims: seq<nat>): (r: seq<int>)
    ensures |r| == |dims| && forall i :: 0 <= i < |r| ==> r[i] == dims[i]
  {
    seq(|dims|, i requires 0 <= i < |dims| => dims[i])
  }

  lemma ExpandedNats(dims: seq<nat>, elements: nat)
    ensures Expanded(Ints(dims), elements) == Ok(dims)
  {
    var d := Ints(dims);
    assert forall i :: 0 <= i < |d| ==> d[i] >= 0;
    var e := Expanded(d, elements).value;
    assert e == dims;
  }

  lemma {:induction false} ProductSnoc(dims: seq<int>, x: int)
    ensures Product(dims + [x]) == Product(dims) * x
    decreases |dims|
  {
    if dims == [] {
      assert [x][1..] == [];
      assert Product([x]) == x * Product([]);
    } else {
      assert (dims + [x])[1..] == dims[1..] + [x];
      ProductSnoc(dims[1..], x);
      TimesAssociates(dims[0], Product(dims[1..]), x);
    }
  }

  lemma TimesAssociates(a: int, b: int, c: int)
    ensures a * (b * c) == (a * b) * c
  {
  }

  function Filled(dims: seq<int>, q: nat): (r: seq<nat>)
    requires forall i :: 0 <= i < |dims| ==> dims[i] >= -1
    ensures |r| == |dims|
  {
    seq(|dims|, i requires 0 <= i < |dims| => if dims[i] == -1 then q else dims[i])
  }

  lemma {:induction false} FilledSize(dims: seq<int>, q: nat, k: nat)
    requires k < |dims| && dims[k] == -1 && forall i :: 0 <= i < |dims| && i != k ==> dims[i] > 0
    ensures Size(Filled(dims, q)) == Product(Known(dims)) * q && Product(Known(dims)) > 0
    decreases |dims|
  {
    var n := |dims| - 1;
    var front := dims[..n];
    assert Filled(dims, q)[..n] == Filled(front, q);
    assert Known(dims) == Known(front) + [Known(dims)[n]];
    ProductSnoc(Known(front), Known(dims)[n]);
    if k < n {
      FilledSize(front, q, k);
      Swapped(Product(Known(front)), q, dims[n]);
      ProductPositive(Product(Known(front)), dims[n]);
    } else {
      NothingFilled(front, q);
    }
  }

  lemma Swapped(a: int, b: int, c: int)
    ensures (a * b) * c == (a * c) * b
  {
  }

  lemma ProductPositive(a: int, b: int)
    requires a > 0 && b > 0
    ensures a * b > 0
  {
  }

  lemma {:induction false} NothingFilled(dims: seq<int>, q: nat)
    requires forall i :: 0 <= i < |dims| ==> dims[i] > 0
    ensures Size(Filled(dims, q)) == Product(Known(dims)) && Product(Known(dims)) > 0
    decreases |dims|
  {
    if dims != [] {
      var n := |dims| - 1;
      assert Filled(dims, q)[..n] == Filled(dims[..n], q);
      assert Known(dims) == Known(dims[..n]) + [dims[n]];
      ProductSnoc(Known(dims[..n]), dims[n]);
      NothingFilled(dims[..n], q);
      ProductPositive(Product(Known(dims[..n])), dims[n]);
    }
  }

  lemma DivisionParts(k: nat, n: nat)
    requires n > 0
    ensures 0 <= k / n && k == n * (k / n) + k % n
  {
  }

  /** A size of -1 is the one that makes the shape hold all elements; when none does, that is an error. */
  lemma MissingSizeFills(dims: seq<int>, k: nat, elements: nat)
    requires k < |dims| && dims[k] == -1 && forall i :: 0 <= i < |dims| && i != k ==> dims[i] > 0
    ensures match Expanded(dims, elements)
            case Ok(shape) =>
              && |shape| == |dims| && Size(shape) == elements
              && forall i :: 0 <= i < |dims| && i != k ==> shape[i] == dims[i]
            case Err(e) => e == AssertionFailed && forall q: nat :: Size(Filled(dims, q)) != elements
  {
    var known := Product(Known(dims));
    FilledSize(dims, 0, k);
    DivisionParts(elements, known);
    FilledSize(dims, elements / known, k);
    if elements % known == 0 {
      assert Expanded(dims, elements) == Ok(Filled(dims, elements / known));
    } else {
      forall q: nat ensures Size(Filled(dims, q)) != elements {
        FilledSize(dims, q, k);
        DivUnique(known * q, known, q, 0);
      }
    }
  }

  /** A shape without -1 is accepted exactly when it keeps the row size and the number of rows. */
  lemma ReshapeExactly(x: Lora, lead: seq<nat>, last: nat)
    requires IsLora(x) && lead != []
    ensures var r := Reshape(x, Ints(lead + [last]));
            && (r.Ok? <==> last == x.width && Size(lead) == Size(x.b.shape))
            && (r.Ok? ==> r.value == x.(b := Reshaped(x.b, lead)))
  {
    hide Expanded;
    ExpandedNats(lead + [last], Size(x.b.shape) * x.width);
    assert (lead + [last])[..|lead|] == lead;
  }

  // ---------------------------------------------------------------- permute and transpose

  function Wrapped(dims: seq<int>): (r: seq<int>)
    ensures |r| == |dims|
  {
    seq(|dims|, i requires 0 <= i < |dims| => if dims[i] < 0 then dims[i] + |dims| else dims[i])
  }

  predicate IsAxes(dims: seq<int>) {
    && (forall i :: 0 <= i < |dims| ==> 0 <= dims[i] < |dims|)
    && (forall j :: 0 <= j < |dims| ==> j in dims)
  }

  function Front(dims: seq<int>): (r: seq<nat>)
    requires dims != [] && IsAxes(dims)
    ensures |r| == |dims| - 1 && forall i :: 0 <= i < |r| ==> r[i] == dims[i]
  {
    seq(|dims| - 1, i requires 0 <= i < |dims| - 1 => dims[i])
  }

  lemma FrontPermutes(dims: seq<int>)
    requires dims != [] && IsAxes(dims) && dims[|dims| - 1] == |dims| - 1
    ensures IsPermutation(Front(dims))
  {
    var n := |dims| - 1;
    var r := Front(dims);
    forall j | 0 <= j < n
      ensures j in r
    {
      assert j in dims;
      var i :| 0 <= i < |dims| && dims[i] == j;
      assert r[i] == j;
    }
    AxesDistinct(dims);
    forall i | 0 <= i < n
      ensures r[i] < n
    {
      assert dims[i] != dims[n];
    }
  }

  /** Naming every axis, `dims` names none twice. */
  lemma AxesDistinct(dims: seq<int>)
    requires IsAxes(dims)
    ensures forall i, j :: 0 <= i < j < |dims| ==> dims[i] != dims[j]
  {
    forall i, j | 0 <= i < j < |dims|
      ensures dims[i] != dims[j]
    {
      if dims[i] == dims[j] {
        var rest := dims[..j] + dims[j + 1..];
        forall k | 0 <= k < |dims|
          ensures k in rest
        {
          assert k in dims;
          var p :| 0 <= p < |dims| && dims[p] == k;
          var q := if p == j then i else p;
          assert dims[q] == k;
          assert if q < j then rest[q] == k else rest[q - 1] == k;
        }
        TooFew(rest, |dims|);
        assert false;
      }
    }
  }

  lemma {:induction false} TooFew(s: seq<int>, n: nat)
    requires forall k :: 0 <= k < n ==> k in s
    ensures |s| >= n
    decreases n
  {
    if n > 0 {
      assert n - 1 in s;
      var p :| 0 <= p < |s| && s[p] == n - 1;
      var rest := s[..p] + s[p + 1..];
      forall k | 0 <= k < n - 1
        ensures k in rest
      {
        assert k in s;
        var q :| 0 <= q < |s| && s[q] == k;
        assert if q < p then rest[q] == k else rest[q - 1] == k;
      }
      TooFew(rest, n - 1);
    }
  }

  function Column(rows: seq<Row>, j: nat): (r: Row)
    requires forall q :: 0 <= q < |rows| ==> j < |rows[q]|
    ensures |r| == |rows| && forall q :: 0 <= q < |rows| ==> r[q] == rows[q][j]
  {
    seq(|rows|, q requires 0 <= q < |rows| => rows[q][j])
  }

  function Columns(rows: seq<Row>, width: nat): (r: seq<Row>)
    requires AllOf(rows, width)
    ensures |r| == width && AllOf(r, |rows|)
    ensures forall j, q :: 0 <= j < width && 0 <= q < |rows| ==> r[j][q] == rows[q][j]
  {
    seq(width, j requires 0 <= j < width => Column(rows, j))
  }

  lemma SizeOne(n: nat)
    ensures Size([n]) == n
  {
    assert [n][..0] == [];
  }

  function Transposed2D(x: Lora): (r: Lora)
    requires Is2D(x)
    ensures Is2D(r)
  {
    SizeOne(x.width);
    Lora(Columns(x.b.items, x.rank), NdArray([x.width], Columns(x.a, x.width)), x.rank, |x.b.items|)
  }

  function FullTransposed(t: Full): Full
    requires AllOf(t.rows.items, t.width)
  {
    Full(NdArray([t.width], Columns(t.rows.items, t.width)), |t.rows.items|)
  }

  function Permute(x: Lora, dims: seq<int>): (r: Result<Lora, TensorError>)
    requires IsLora(x)
    ensures r.Ok? ==> IsLora(r.value)
  {
    var n := |x.b.shape| + 1;
    var axes := Wrapped(dims);
    if |dims| != n || !IsAxes(axes) then Err(ShapeMismatch)
    else if axes[n - 1] == n - 1 then
      FrontPermutes(axes);
      PermutedRows(x.b, Front(axes), x.rank);
      Ok(x.(b := Permuted(x.b, Front(axes))))
    else if n == 2 then Ok(Transposed2D(x))
    else Err(NotImplemented)
  }

  lemma PermutedRows(b: NdArray<Row>, dims: seq<nat>, width: nat)
    requires Valid(b) && |dims| == |b.shape| && IsPermutation(dims) && AllOf(b.items, width)
    ensures AllOf(Permuted(b, dims).items, width)
  {
    forall k | 0 <= k < |Permuted(b, dims).items|
      ensures |Permuted(b, dims).items[k]| == width
    {
      assert Permuted(b, dims).items[k] == PermutedItem(b, dims, k);
    }
  }

  /** Permuting axes, the row axis staying last, is the same on the pair and on the product. */
  lemma PermuteMeaning(x: Lora, dims: seq<int>)
    requires IsLora(x) && Permute(x, dims).Ok? && Wrapped(dims)[|x.b.shape|] == |x.b.shape|
    ensures IsAxes(Wrapped(dims)) && IsPermutation(Front(Wrapped(dims)))
    ensures Meaning(Permute(x, dims).value)
         == Meaning(x).(rows := Permuted(Meaning(x).rows, Front(Wrapped(dims))))
  {
    FrontPermutes(Wrapped(dims));
    LayoutIsNatural(x.b, Times(x.a, x.width));
  }

  lemma {:induction false} DotSwaps(b: Row, a: seq<Row>, i: nat, j: nat, bs: seq<Row>, k: nat)
    requires k <= |b| && k <= |a| && i < |bs| && bs[i] == b && AllOf(bs, |b|)
    requires |a| == |b| && (forall q :: 0 <= q < |a| ==> j < |a[q]|)
    ensures DotTo(Column(a, j), Columns(bs, |b|), i, k) == DotTo(b, a, j, k)
    decreases k
  {
    if k > 0 {
      DotSwaps(b, a, i, j, bs, k - 1);
      var c, cs := Column(a, j), Columns(bs, |b|);
      assert cs[k - 1][i] == b[k - 1] && c[k - 1] == a[k - 1][j];
    }
  }

  lemma ProductRows(x: Lora)
    requires IsLora(x)
    ensures var m := Meaning(x);
            && |m.rows.items| == |x.b.items| && AllOf(m.rows.items, x.width)
            && forall k, j :: 0 <= k < |x.b.items| && 0 <= j < x.width ==>
                 m.rows.items[k][j] == DotTo(x.b.items[k], x.a, j, x.rank)
  {
    var m := Meaning(x);
    forall k | 0 <= k < |x.b.items|
      ensures |m.rows.items[k]| == x.width
      ensures forall j :: 0 <= j < x.width ==> m.rows.items[k][j] == DotTo(x.b.items[k], x.a, j, x.rank)
    {
      assert m.rows.items[k] == RowTimes(x.b.items[k], x.a, x.width);
    }
  }

  /** The transpose of a product: (B·A)ᵀ = Aᵀ·Bᵀ. */
  lemma TransposeMeaning(x: Lora)
    requires Is2D(x)
    ensures AllOf(Meaning(x).rows.items, x.width)
    ensures Permute(x, [1, 0]) == Ok(Transposed2D(x))
    ensures Meaning(Transposed2D(x)) == FullTransposed(Meaning(x))
  {
    var axes := Wrapped([1, 0]);
    assert axes == [1, 0];
    assert 0 in axes && 1 in axes;
    var y := Transposed2D(x);
    ProductRows(x);
    ProductRows(y);
    var l, r := Meaning(y).rows.items, FullTransposed(Meaning(x)).rows.items;
    forall j | 0 <= j < x.width
      ensures l[j] == r[j]
    {
      forall i | 0 <= i < |x.b.items|
        ensures l[j][i] == r[j][i]
      {
        assert y.b.items[j] == Column(x.a, j);
        DotSwaps(x.b.items[i], x.a, i, j, x.b.items, x.rank);
      }
    }
  }

  /** Transposing twice gives the pair back. */
  lemma TransposeInvolution(x: Lora)
    requires Is2D(x)
    ensures Transposed2D(Transposed2D(x)) == x
  {
    var y := Transposed2D(x);
    var z := Transposed2D(y);
    SizeOne(x.b.shape[0]);
    assert x.b.shape == [x.b.shape[0]];
    forall q | 0 <= q < x.rank
      ensures z.a[q] == x.a[q]
    {
      forall j | 0 <= j < x.width ensures z.a[q][j] == x.a[q][j] {
        assert z.a[q][j] == y.b.items[j][q];
      }
    }
    forall i | 0 <= i < |x.b.items|
      ensures z.b.items[i] == x.b.items[i]
    {
      forall q | 0 <= q < x.rank ensures z.b.items[i][q] == x.b.items[i][q] {
        assert z.b.items[i][q] == y.a[q][i];
      }
    }
  }

  // ---------------------------------------------------------------- slices

  function Range(n: nat): (r: seq<nat>)
    ensures |r| == n && forall i :: 0 <= i < n ==> r[i] == i
  {
    seq(n, i requires 0 <= i < n => i)
  }

  /** A row with the chosen columns. */
  function PickRow(row: Row, cols: seq<nat>): (r: Row) {
    if forall i :: 0 <= i < |cols| ==> cols[i] < |row|
    then seq(|cols|, i requires 0 <= i < |cols| => row[cols[i]]) else []
  }

  function PickCols(cols: seq<nat>): Row -> Row { row => PickRow(row, cols) }

  /** Missing trailing indices select everything. */
  function FullPicks(shape: seq<nat>, picks: seq<seq<nat>>): (r: seq<seq<nat>>)
    requires |picks| <= |shape|
    ensures |r| == |shape|
  {
    picks + seq(|shape| - |picks|, i requires 0 <= i < |shape| - |picks| => Range(shape[|picks| + i]))
  }

  predicate ColsFit(cols: seq<nat>, width: nat) { forall i :: 0 <= i < |cols| ==> cols[i] < width }

  /** Indexing with a slice or an index list for each axis. */
  function GetItem(x: Lora, picks: seq<seq<nat>>): (r: Result<Lora, TensorError>)
    requires IsLora(x)
    ensures r.Ok? ==> IsLora(r.value)
  {
    var n := |x.b.shape| + 1;
    if |picks| == 0 || |picks| > n then Err(AssertionFailed) else
    var all := FullPicks(x.b.shape + [x.width], picks);
    var lead, cols := all[..n - 1], all[n - 1];
    if !PicksFit(x.b.shape, lead) || !ColsFit(cols, x.width) then Err(ShapeMismatch) else
    PickedRows(x.b, lead, x.rank);
    Ok(Lora(seq(x.rank, q requires 0 <= q < x.rank => PickRow(x.a[q], cols)), Picked(x.b, lead), x.rank, |cols|))
  }

  lemma PickedRows(b: NdArray<Row>, picks: seq<seq<nat>>, width: nat)
    requires Valid(b) && PicksFit(b.shape, picks) && AllOf(b.items, width)
    ensures AllOf(Picked(b, picks).items, width)
  {
    forall k | 0 <= k < |Picked(b, picks).items|
      ensures |Picked(b, picks).items[k]| == width
    {
      assert Picked(b, picks).items[k] == PickedItem(b, picks, k);
    }
  }

  /** The full tensor indexed the same way. */
  function FullPicked(t: Full, picks: seq<seq<nat>>): Full
    requires Valid(t.rows) && picks != [] && PicksFit(t.rows.shape, picks[..|picks| - 1])
  {
    var n := |picks| - 1;
    Full(Mapped(Picked(t.rows, picks[..n]), PickCols(picks[n])), |picks[n]|)
  }

  lemma {:induction false} DotOfPicked(b: Row, a: seq<Row>, a': seq<Row>, cols: seq<nat>, width: nat, j: nat, k: nat)
    requires k <= |b| == |a| == |a'| && AllOf(a, width) && AllOf(a', |cols|) && ColsFit(cols, width) && j < |cols|
    requires forall q :: 0 <= q < |a| ==> a'[q] == PickRow(a[q], cols)
    ensures DotTo(b, a', j, k) == DotTo(b, a, cols[j], k)
    decreases k
  {
    if k > 0 {
      DotOfPicked(b, a, a', cols, width, j, k - 1);
      assert a'[k - 1][j] == a[k - 1][cols[j]];
    }
  }

  lemma RowTimesPicked(b: Row, a: seq<Row>, a': seq<Row>, cols: seq<nat>, width: nat)
    requires |b| == |a| == |a'| && AllOf(a, width) && ColsFit(cols, width)
    requires forall q :: 0 <= q < |a| ==> a'[q] == PickRow(a[q], cols)
    ensures RowTimes(b, a', |cols|) == PickRow(RowTimes(b, a, width), cols)
  {
    forall q | 0 <= q < |a'|
      ensures |a'[q]| == |cols|
    {
      assert |a[q]| == width;
    }
    var l, r := RowTimes(b, a', |cols|), PickRow(RowTimes(b, a, width), cols);
    assert |r| == |cols|;
    forall j | 0 <= j < |cols|
      ensures l[j] == r[j]
    {
      DotOfPicked(b, a, a', cols, width, j, |b|);
    }
  }

  /** Slicing the pair means slicing the product. */
  lemma GetItemMeaning(x: Lora, picks: seq<seq<nat>>)
    requires IsLora(x) && GetItem(x, picks).Ok?
    ensures var all := FullPicks(x.b.shape + [x.width], picks);
            && PicksFit(x.b.shape, all[..|all| - 1])
            && Meaning(GetItem(x, picks).value) == FullPicked(Meaning(x), all)
  {
    var all := FullPicks(x.b.shape + [x.width], picks);
    var n := |all| - 1;
    var lead, cols := all[..n], all[n];
    var y := GetItem(x, picks).value;
    PickedNatural(x.b, Times(x.a, x.width), lead);
    hide RowTimes, PickRow, Picked, FullPicks, DotTo;
    var rows := Picked(x.b, lead);
    var l, r := Meaning(y).rows, FullPicked(Meaning(x), all).rows;
    assert r == Mapped(Mapped(rows, Times(x.a, x.width)), PickCols(cols));
    forall k | 0 <= k < |rows.items|
      ensures l.items[k] == r.items[k]
    {
      var b := rows.items[k];
      assert |y.b.items[k]| == y.rank;
      RowTimesPicked(b, x.a, y.a, cols, x.width);
      assert r.items[k] == PickCols(cols)(Times(x.a, x.width)(b));
    }
  }

  // ---------------------------------------------------------------- concatenation

  function AllRows(xs: seq<Lora>): seq<Row> {
    if xs == [] then [] else xs[0].b.items + AllRows(xs[1..])
  }

  function AllFullRows(ts: seq<Full>): seq<Row> {
    if ts == [] then [] else ts[0].rows.items + AllFullRows(ts[1..])
  }

  lemma {:induction false} AllRowsWide(xs: seq<Lora>, rank: nat)
    requires forall i :: 0 <= i < |xs| ==> IsLora(xs[i]) && xs[i].rank == rank
    ensures AllOf(AllRows(xs), rank)
    decreases |xs|
  {
    if xs != [] {
      AllRowsWide(xs[1..], rank);
    }
  }

  /** `torch.cat` along the first axis of two-dimensional pairs: allowed while they share one A. */
  function Cat(xs: seq<Lora>): (r: Result<Lora, TensorError>)
    requires xs != [] && forall i :: 0 <= i < |xs| ==> Is2D(xs[i])
    ensures r.Ok? ==> Is2D(r.value)
  {
    if exists i :: 1 <= i < |xs| && (xs[i].a != xs[0].a || xs[i].width != xs[0].width) then Err(NotImplemented) else
    assert forall i :: 0 <= i < |xs| ==> xs[i].a == xs[0].a;
    assert forall i :: 0 <= i < |xs| ==> Is2D(xs[i]) && xs[i].rank == |xs[i].a|;
    AllRowsWide(xs, xs[0].rank);
    SizeOne(|AllRows(xs)|);
    Ok(xs[0].(b := NdArray([|AllRows(xs)|], AllRows(xs))))
  }

  function FullCat(ts: seq<Full>): Full
    requires ts != []
  {
    Full(NdArray([|AllFullRows(ts)|], AllFullRows(ts)), ts[0].width)
  }

  function Meanings(xs: seq<Lora>): seq<Full> {
    if xs == [] then [] else [Meaning(xs[0])] + Meanings(xs[1..])
  }

  lemma {:induction false} RowsOfMeanings(xs: seq<Lora>, a: seq<Row>, width: nat)
    requires forall i :: 0 <= i < |xs| ==> Is2D(xs[i]) && xs[i].a == a && xs[i].width == width
    ensures var l, r := AllRows(xs), AllFullRows(Meanings(xs));
            |l| == |r| && forall k :: 0 <= k < |l| ==> r[k] == RowTimes(l[k], a, width)
    decreases |xs|
  {
    if xs != [] {
      RowsOfMeanings(xs[1..], a, width);
      assert Meanings(xs)[1..] == Meanings(xs[1..]);
    }
  }

  /** Concatenating pairs that share A means concatenating the products. */
  lemma CatMeaning(xs: seq<Lora>)
    requires xs != [] && forall i :: 0 <= i < |xs| ==> Is2D(xs[i])
    requires Cat(xs).Ok?
    ensures Meaning(Cat(xs).value) == FullCat(Meanings(xs))
  {
    RowsOfMeanings(xs, xs[0].a, xs[0].width);
    var l, r := Meaning(Cat(xs).value).rows.items, AllFullRows(Meanings(xs));
    assert l == r;
  }
}
