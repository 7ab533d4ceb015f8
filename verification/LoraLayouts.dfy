/**
 Two layout transformations of convert_hf_to_gguf.py that run unchanged on plain tensors
 and on factored ones: the rotary permutation of `LlamaModel.permute` and Falcon's
 regrouping of the fused query/key/value weights.
 */
module LoraLayouts {
  import opened Text
  import opened NdArrays
  import opened LoraTensor

  // ---------------------------------------------------------------- three axes

  lemma SizeTwo(a: nat, b: nat)
    ensures Size([a, b]) == a * b
  {
    SizeOne(a);
    assert [a, b][..1] == [a];
  }

  lemma SizeThree(a: nat, b: nat, c: nat)
    ensures Size([a, b, c]) == a * b * c
  {
    SizeTwo(a, b);
    assert [a, b, c][..2] == [a, b];
  }

  lemma OffsetThree(a: nat, b: nat, c: nat, i: nat, j: nat, k: nat)
    requires i < a && j < b && k < c
    ensures InBounds([a, b, c], [i, j, k]) && Offset([a, b, c], [i, j, k]) == (i * b + j) * c + k
    ensures (i * b + j) * c + k < a * b * c
  {
    SizeThree(a, b, c);
    assert [a, b, c][..2] == [a, b] && [i, j, k][..2] == [i, j];
    assert [a, b][..1] == [a] && [i, j][..1] == [i];
    assert [a][..0] == [] && [i][..0] == [];
    assert Offset([a], [i]) == i;
    assert Offset([a, b], [i, j]) == i * b + j;
  }

  /** Row-major position in three axes of which the last two have sizes `b` and `c`. */
  function Flat3(b: nat, c: nat, i: nat, j: nat, k: nat): nat { (i * b + j) * c + k }

  lemma AtThree<T>(r: NdArray<T>, a: nat, b: nat, c: nat, i: nat, j: nat, k: nat)
    requires Valid(r) && r.shape == [a, b, c] && i < a && j < b && k < c
    ensures InBounds(r.shape, [i, j, k])
    ensures Flat3(b, c, i, j, k) < |r.items| && At(r, [i, j, k]) == r.items[Flat3(b, c, i, j, k)]
  {
    SizeThree(a, b, c);
    OffsetThree(a, b, c, i, j, k);
  }

  // ---------------------------------------------------------------- LlamaModel.permute

  function SwappedAxes(n: nat, dim0: nat, dim1: nat): (r: seq<int>)
    requires dim0 < n && dim1 < n
    ensures |r| == n
  {
    var axes := Ints(Range(n));
    axes[dim0 := axes[dim1]][dim1 := axes[dim0]]
  }

  function Transpose(x: Lora, dim0: nat, dim1: nat): (r: Result<Lora, TensorError>)
    requires IsLora(x) && dim0 <= |x.b.shape| && dim1 <= |x.b.shape|
    ensures r.Ok? ==> IsLora(r.value)
  {
    Permute(x, SwappedAxes(|x.b.shape| + 1, dim0, dim1))
  }

  /** The number of heads that counts: the key/value one when it is given and differs. */
  function Heads(nHead: nat, nHeadKv: Option<nat>): nat {
    if nHeadKv.Some? && nHead != nHeadKv.value then nHeadKv.value else nHead
  }

  function LlamaPermute(w: Lora, nHead: nat, nHeadKv: Option<nat>): (r: Result<Lora, TensorError>)
    requires Is2D(w)
    ensures r.Ok? ==> IsLora(r.value)
  {
    var h, m := Heads(nHead, nHeadKv), w.b.shape[0];
    if h == 0 then Err(ShapeMismatch) else
    var split :- Reshape(w, Ints([h, 2, m / h / 2] + [w.width]));
    if |split.b.shape| != 3 then Err(ShapeMismatch) else
    var swapped :- Transpose(split, 1, 2);
    Reshape(swapped, Ints([m] + [w.width]))
  }

  /** The same transformation on an array of rows of any kind. */
  function LlamaRows<T>(rows: NdArray<T>, h: nat, d: nat): NdArray<T>
    requires Valid(rows) && Size([h, 2, d]) == Size(rows.shape)
  {
    NdArray(rows.shape, Permuted(Reshaped(rows, [h, 2, d]), [0, 2, 1]).items)
  }

  lemma SwapsOneTwo()
    ensures SwappedAxes(4, 1, 2) == [0, 2, 1, 3] && Wrapped([0, 2, 1, 3]) == [0, 2, 1, 3]
    ensures IsAxes([0, 2, 1, 3]) && Front([0, 2, 1, 3]) == [0, 2, 1] && IsPermutation([0, 2, 1])
  {
    var axes := [0, 2, 1, 3];
    assert axes[0] == 0 && axes[2] == 1 && axes[1] == 2 && axes[3] == 3;
    assert SwappedAxes(4, 1, 2) == axes && Wrapped(axes) == axes;
    assert 0 in axes && 1 in axes && 2 in axes && 3 in axes;
    assert IsAxes(axes);
    assert Front(axes) == [0, 2, 1];
    FrontPermutes(axes);
  }

  lemma PermutedSize(h: nat, d: nat)
    requires IsPermutation([0, 2, 1])
    ensures PermutedShape([h, 2, d], [0, 2, 1]) == [h, d, 2]
    ensures Size([h, d, 2]) == Size([h, 2, d])
  {
    assert PermutedShape([h, 2, d], [0, 2, 1]) == [h, d, 2];
    SizeThree(h, 2, d);
    SizeThree(h, d, 2);
    assert h * d * 2 == h * 2 * d;
  }

  /** Llama's permutation is accepted exactly for head sizes that fit, and then permutes the rows of B alone. */
  lemma LlamaPermuteExactly(w: Lora, nHead: nat, nHeadKv: Option<nat>)
    requires Is2D(w)
    ensures var r, h, m := LlamaPermute(w, nHead, nHeadKv), Heads(nHead, nHeadKv), w.b.shape[0];
            && (r.Ok? <==> h > 0 && h * 2 * (m / h / 2) == m)
            && (r.Ok? ==> Size([h, 2, m / h / 2]) == Size(w.b.shape))
            && (r.Ok? ==> r.value == w.(b := LlamaRows(w.b, h, m / h / 2)))
  {
    var h, m := Heads(nHead, nHeadKv), w.b.shape[0];
    assert w.b.shape == [m];
    SizeOne(m);
    if h > 0 {
      var d := m / h / 2;
      SizeThree(h, 2, d);
      ReshapeExactly(w, [h, 2, d], w.width);
      if h * 2 * d == m {
        var split := Reshape(w, Ints([h, 2, d] + [w.width])).value;
        SwapsOneTwo();
        PermutedSize(h, d);
        var swapped := Transpose(split, 1, 2).value;
        assert swapped == split.(b := Permuted(split.b, [0, 2, 1]));
        ReshapeExactly(swapped, [m], w.width);
      }
    }
  }

  /** Permuting the pair and multiplying out is permuting the product. */
  lemma LlamaPermuteMeaning(w: Lora, nHead: nat, nHeadKv: Option<nat>)
    requires Is2D(w) && LlamaPermute(w, nHead, nHeadKv).Ok?
    ensures var h, m := Heads(nHead, nHeadKv), w.b.shape[0];
            && Size([h, 2, m / h / 2]) == Size(Meaning(w).rows.shape)
            && Meaning(LlamaPermute(w, nHead, nHeadKv).value)
               == Meaning(w).(rows := LlamaRows(Meaning(w).rows, h, m / h / 2))
  {
    var h, m := Heads(nHead, nHeadKv), w.b.shape[0];
    var f := Times(w.a, w.width);
    LlamaPermuteExactly(w, nHead, nHeadKv);
    SwapsOneTwo();
    LayoutIsNatural(w.b, f);
    LayoutIsNatural(Reshaped(w.b, [h, 2, m / h / 2]), f);
  }

  /** In each head the two halves are interleaved: row `(a·d + u)·2 + j` comes from row `(a·2 + j)·d + u`. */
  lemma LlamaRowsInterleave<T>(rows: NdArray<T>, h: nat, d: nat, a: nat, u: nat, j: nat)
    requires Valid(rows) && rows.shape == [h * 2 * d] && a < h && u < d && j < 2
    ensures Size([h, 2, d]) == Size(rows.shape)
    ensures var from, to := Flat3(2, d, a, j, u), Flat3(d, 2, a, u, j);
            && from < |rows.items| && to < |LlamaRows(rows, h, d).items|
            && LlamaRows(rows, h, d).items[to] == rows.items[from]
  {
    SizeOne(h * 2 * d);
    SizeThree(h, 2, d);
    SwapsOneTwo();
    PermutedSize(h, d);
    hide Size, Offset, At, Flat3, PermutedShape, Unpermuted, InBounds, IsPermutation, PermutedItem;
    var split := Reshaped(rows, [h, 2, d]);
    var dims := [0, 2, 1];
    AtThree(split, h, 2, d, a, j, u);
    AtThree(Permuted(split, dims), h, d, 2, a, u, j);
    PermutedAt(split, dims, [a, u, j]);
    UnpermutedThree(a, u, j);
  }

  lemma UnpermutedThree(a: nat, u: nat, j: nat)
    requires IsPermutation([0, 2, 1])
    ensures Unpermuted([0, 2, 1], [a, u, j]) == [a, j, u]
  {
    var dims := [0, 2, 1];
    assert dims[1..] == [2, 1] && [2, 1][1..] == [1];
    assert dims[0] == 0 && dims[1] == 2 && dims[2] == 1;
    assert Position(dims, 0) == 0;
    assert Position(dims, 2) == 1;
    assert Position(dims, 1) == 2;
    assert Unpermuted(dims, [a, u, j]) == [a, j, u];
  }

  // ---------------------------------------------------------------- Falcon

  function FalconQkv(x: Lora, nHead: nat, nHeadKv: nat, headDim: nat): (r: Result<Lora, TensorError>)
    requires Is2D(x)
    ensures r.Ok? ==> IsLora(r.value)
  {
    if nHeadKv == 0 then Err(ShapeMismatch) else
    var g, w := nHead / nHeadKv, headDim * nHead;
    var qkv :- Reshape(x, Ints([nHeadKv, g + 2, headDim] + [w]));
    var qs :- GetItem(qkv, [Range(nHeadKv), Range(g)]);
    var q :- Reshape(qs, Ints([nHead * headDim] + [w]));
    var ks :- GetItem(qkv, [Range(nHeadKv), [g]]);
    var k :- Reshape(ks, Ints([nHeadKv * headDim] + [w]));
    var vs :- GetItem(qkv, [Range(nHeadKv), [g + 1]]);
    var v :- Reshape(vs, Ints([nHeadKv * headDim] + [w]));
    if !Is2D(q) || !Is2D(k) || !Is2D(v) then Err(ShapeMismatch) else
    var all :- Cat([q, k, v]);
    Reshape(all, Ints(x.b.shape + [x.width]))
  }

  function Group<T>(rows: NdArray<T>, kv: nat, g: nat, d: nat, members: seq<nat>): NdArray<T>
    requires Valid(rows) && Size([kv, g + 2, d]) == Size(rows.shape)
    requires forall i :: 0 <= i < |members| ==> members[i] < g + 2
  {
    Picked(Reshaped(rows, [kv, g + 2, d]), [Range(kv), members, Range(d)])
  }

  /** The same regrouping on an array of rows of any kind: queries, then keys, then values. */
  function FalconRows<T>(rows: NdArray<T>, kv: nat, g: nat, d: nat): NdArray<T>
    requires Valid(rows) && Size([kv, g + 2, d]) == Size(rows.shape)
  {
    NdArray(rows.shape, Group(rows, kv, g, d, Range(g)).items + Group(rows, kv, g, d, [g]).items
                        + Group(rows, kv, g, d, [g + 1]).items)
  }

  lemma GroupSize<T>(rows: NdArray<T>, kv: nat, g: nat, d: nat, members: seq<nat>)
    requires Valid(rows) && Size([kv, g + 2, d]) == Size(rows.shape)
    requires forall i :: 0 <= i < |members| ==> members[i] < g + 2
    ensures Group(rows, kv, g, d, members).shape == [kv, |members|, d]
    ensures |Group(rows, kv, g, d, members).items| == kv * |members| * d
  {
    assert PickedShape([Range(kv), members, Range(d)]) == [kv, |members|, d];
    SizeThree(kv, |members|, d);
  }

  /** Slicing a middle axis of a pair leaves A alone. */
  lemma SliceMiddle(x: Lora, kv: nat, n: nat, d: nat, members: seq<nat>)
    requires IsLora(x) && x.b.shape == [kv, n, d] && forall i :: 0 <= i < |members| ==> members[i] < n
    ensures PicksFit(x.b.shape, [Range(kv), members, Range(d)])
    ensures GetItem(x, [Range(kv), members]) == Ok(x.(b := Picked(x.b, [Range(kv), members, Range(d)])))
  {
    var picks := [Range(kv), members];
    var all := FullPicks(x.b.shape + [x.width], picks);
    assert all == [Range(kv), members, Range(d), Range(x.width)];
    assert all[..3] == [Range(kv), members, Range(d)];
    var y := GetItem(x, picks).value;
    forall q | 0 <= q < x.rank
      ensures y.a[q] == x.a[q]
    {
      assert PickRow(x.a[q], Range(x.width)) == x.a[q];
    }
    assert y.a == x.a;
  }

  /** One of the three parts, flattened to two dimensions. */
  lemma FalconPart(x: Lora, kv: nat, g: nat, d: nat, members: seq<nat>, total: nat)
    requires Is2D(x) && Size([kv, g + 2, d]) == Size(x.b.shape)
    requires forall i :: 0 <= i < |members| ==> members[i] < g + 2
    ensures var qkv := x.(b := Reshaped(x.b, [kv, g + 2, d]));
            var part := GetItem(qkv, [Range(kv), members]);
            && part == Ok(x.(b := Group(x.b, kv, g, d, members)))
            && (Reshape(part.value, Ints([total] + [x.width])).Ok? <==> total == kv * |members| * d)
            && (total == kv * |members| * d ==>
                  Reshape(part.value, Ints([total] + [x.width]))
                  == Ok(x.(b := NdArray([total], Group(x.b, kv, g, d, members).items))))
  {
    var qkv := x.(b := Reshaped(x.b, [kv, g + 2, d]));
    SliceMiddle(qkv, kv, g + 2, d, members);
    GroupSize(x.b, kv, g, d, members);
    SizeOne(total);
    ReshapeExactly(GetItem(qkv, [Range(kv), members]).value, [total], x.width);
  }

  lemma CatThree(x: Lora, q: Lora, k: Lora, v: Lora)
    requires Is2D(q) && Is2D(k) && Is2D(v)
    requires q == x.(b := q.b) && k == x.(b := k.b) && v == x.(b := v.b)
    ensures var items := q.b.items + k.b.items + v.b.items;
            Cat([q, k, v]) == Ok(x.(b := NdArray([|items|], items)))
  {
    var xs := [q, k, v];
    assert xs[1..] == [k, v] && [k, v][1..] == [v] && [v][1..] == [];
    assert AllRows([v]) == v.b.items + [];
    assert AllRows(xs) == q.b.items + (k.b.items + v.b.items);
    assert AllRows(xs) == q.b.items + k.b.items + v.b.items;
  }

  lemma FalconTotal(kv: nat, g: nat, d: nat)
    ensures kv * (g + 2) * d == kv * g * d + kv * 1 * d + kv * 1 * d
  {
    assert kv * (g + 2) == kv * g + kv + kv;
    assert (kv * g + kv + kv) * d == kv * g * d + kv * d + kv * d;
  }

  /** The sizes with which the regrouping is accepted. */
  predicate FalconFits(x: Lora, nHead: nat, kv: nat, d: nat)
    requires Is2D(x)
  {
    && kv > 0 && d * nHead == x.width
    && kv * (nHead / kv + 2) * d == x.b.shape[0]
    && kv * (nHead / kv) * d == nHead * d
  }

  lemma FalconExactly(x: Lora, nHead: nat, kv: nat, d: nat)
    requires Is2D(x)
    ensures var r := FalconQkv(x, nHead, kv, d);
            && (r.Ok? <==> FalconFits(x, nHead, kv, d))
            && (r.Ok? ==> Size([kv, nHead / kv + 2, d]) == Size(x.b.shape))
            && (r.Ok? ==> r.value == x.(b := FalconRows(x.b, kv, nHead / kv, d)))
  {
    hide Reshape, GetItem, Cat, Group;
    if kv > 0 {
      var g, m := nHead / kv, x.b.shape[0];
      assert x.b.shape == [m];
      SizeOne(m);
      SizeThree(kv, g + 2, d);
      ReshapeExactly(x, [kv, g + 2, d], d * nHead);
      if d * nHead == x.width && kv * (g + 2) * d == m {
        FalconPart(x, kv, g, d, Range(g), nHead * d);
        FalconPart(x, kv, g, d, [g], kv * d);
        FalconPart(x, kv, g, d, [g + 1], kv * d);
        if kv * g * d == nHead * d {
          FalconJoin(x, nHead, kv, g, d);
        }
      }
    }
  }

  lemma FalconJoin(x: Lora, nHead: nat, kv: nat, g: nat, d: nat)
    requires Is2D(x) && x.b.shape == [kv * (g + 2) * d] && Size([kv, g + 2, d]) == Size(x.b.shape)
    requires kv * g * d == nHead * d
    ensures var q := x.(b := NdArray([nHead * d], Group(x.b, kv, g, d, Range(g)).items));
            var k := x.(b := NdArray([kv * d], Group(x.b, kv, g, d, [g]).items));
            var v := x.(b := NdArray([kv * d], Group(x.b, kv, g, d, [g + 1]).items));
            && Is2D(q) && Is2D(k) && Is2D(v)
            && Cat([q, k, v]).Ok?
            && Reshape(Cat([q, k, v]).value, Ints(x.b.shape + [x.width]))
               == Ok(x.(b := FalconRows(x.b, kv, g, d)))
  {
    var q := x.(b := NdArray([nHead * d], Group(x.b, kv, g, d, Range(g)).items));
    var k := x.(b := NdArray([kv * d], Group(x.b, kv, g, d, [g]).items));
    var v := x.(b := NdArray([kv * d], Group(x.b, kv, g, d, [g + 1]).items));
    JoinedSize(x, kv, g, d);
    GroupSize(x.b, kv, g, d, Range(g));
    hide Group, Size, Cat, Reshape;
    GroupIsLora(x, kv, g, d, Range(g), nHead * d);
    GroupIsLora(x, kv, g, d, [g], kv * d);
    GroupIsLora(x, kv, g, d, [g + 1], kv * d);
    CatThree(x, q, k, v);
    ReshapeExactly(Cat([q, k, v]).value, x.b.shape, x.width);
  }

  lemma JoinedSize(x: Lora, kv: nat, g: nat, d: nat)
    requires Is2D(x) && x.b.shape == [kv * (g + 2) * d] && Size([kv, g + 2, d]) == Size(x.b.shape)
    ensures Size([|FalconRows(x.b, kv, g, d).items|]) == Size(x.b.shape)
  {
    GroupSize(x.b, kv, g, d, Range(g));
    GroupSize(x.b, kv, g, d, [g]);
    GroupSize(x.b, kv, g, d, [g + 1]);
    hide Group;
    FalconTotal(kv, g, d);
    SizeOne(kv * (g + 2) * d);
    SizeOne(|FalconRows(x.b, kv, g, d).items|);
  }

  lemma GroupIsLora(x: Lora, kv: nat, g: nat, d: nat, members: seq<nat>, total: nat)
    requires Is2D(x) && Size([kv, g + 2, d]) == Size(x.b.shape) && total == kv * |members| * d
    requires forall i :: 0 <= i < |members| ==> members[i] < g + 2
    ensures Is2D(x.(b := NdArray([total], Group(x.b, kv, g, d, members).items)))
  {
    GroupSize(x.b, kv, g, d, members);
    SizeOne(total);
    PickedRows(Reshaped(x.b, [kv, g + 2, d]), [Range(kv), members, Range(d)], x.rank);
  }

  /** Regrouping the pair and multiplying out is regrouping the product. */
  lemma FalconMeaning(x: Lora, nHead: nat, kv: nat, d: nat)
    requires Is2D(x) && FalconQkv(x, nHead, kv, d).Ok?
    ensures kv > 0 && Size([kv, nHead / kv + 2, d]) == Size(Meaning(x).rows.shape)
    ensures Meaning(FalconQkv(x, nHead, kv, d).value)
         == Meaning(x).(rows := FalconRows(Meaning(x).rows, kv, nHead / kv, d))
  {
    var f, g := Times(x.a, x.width), nHead / kv;
    FalconExactly(x, nHead, kv, d);
    GroupNatural(x.b, f, kv, g, d, Range(g));
    GroupNatural(x.b, f, kv, g, d, [g]);
    GroupNatural(x.b, f, kv, g, d, [g + 1]);
    hide Group, Size;
    var q, k, v := Group(x.b, kv, g, d, Range(g)), Group(x.b, kv, g, d, [g]), Group(x.b, kv, g, d, [g + 1]);
    MappedThree(q.items, k.items, v.items, x.b.shape, f, Mapped(q, f).items, Mapped(k, f).items, Mapped(v, f).items);
  }

  lemma MappedThree<T, U>(q: seq<T>, k: seq<T>, v: seq<T>, shape: seq<nat>, f: T -> U, q': seq<U>, k': seq<U>,
                          v': seq<U>)
    requires |q'| == |q| && |k'| == |k| && |v'| == |v|
    requires forall i :: 0 <= i < |q| ==> q'[i] == f(q[i])
    requires forall i :: 0 <= i < |k| ==> k'[i] == f(k[i])
    requires forall i :: 0 <= i < |v| ==> v'[i] == f(v[i])
    ensures Mapped(NdArray(shape, q + k + v), f) == NdArray(shape, q' + k' + v')
  {
  }

  lemma GroupNatural<T, U>(rows: NdArray<T>, f: T -> U, kv: nat, g: nat, d: nat, members: seq<nat>)
    requires Valid(rows) && Size([kv, g + 2, d]) == Size(rows.shape)
    requires forall i :: 0 <= i < |members| ==> members[i] < g + 2
    ensures Group(Mapped(rows, f), kv, g, d, members) == Mapped(Group(rows, kv, g, d, members), f)
  {
    LayoutIsNatural(rows, f);
    PickedNatural(Reshaped(rows, [kv, g + 2, d]), f, [Range(kv), members, Range(d)]);
  }

  lemma GroupAt<T>(rows: NdArray<T>, kv: nat, g: nat, d: nat, members: seq<nat>, i: nat, a: nat, b: nat)
    requires Valid(rows) && Size([kv, g + 2, d]) == Size(rows.shape) && i < kv && a < |members| && b < d
    requires forall i :: 0 <= i < |members| ==> members[i] < g + 2
    ensures var qkv, group := Reshaped(rows, [kv, g + 2, d]), Group(rows, kv, g, d, members);
            && Valid(group) && group.shape == [kv, |members|, d]
            && InBounds(group.shape, [i, a, b]) && InBounds(qkv.shape, [i, members[a], b])
            && At(group, [i, a, b]) == At(qkv, [i, members[a], b])
  {
    var picks := [Range(kv), members, Range(d)];
    assert PickedShape(picks) == [kv, |members|, d];
    hide Size, Offset, At, PickedItem;
    PickedAt(Reshaped(rows, [kv, g + 2, d]), picks, [i, a, b]);
    assert Unpicked(picks, [i, a, b]) == [i, members[a], b];
  }

  lemma GroupRow<T>(rows: NdArray<T>, kv: nat, g: nat, d: nat, members: seq<nat>, i: nat, a: nat, b: nat)
    requires Valid(rows) && Size([kv, g + 2, d]) == Size(rows.shape) && i < kv && a < |members| && b < d
    requires forall i :: 0 <= i < |members| ==> members[i] < g + 2
    ensures var from, to := Flat3(g + 2, d, i, members[a], b), Flat3(|members|, d, i, a, b);
            && from < |rows.items| && to < |Group(rows, kv, g, d, members).items|
            && Group(rows, kv, g, d, members).items[to] == rows.items[from]
  {
    hide Size, At, Flat3, Group, InBounds;
    GroupAt(rows, kv, g, d, members, i, a, b);
    AtThree(Reshaped(rows, [kv, g + 2, d]), kv, g + 2, d, i, members[a], b);
    AtThree(Group(rows, kv, g, d, members), kv, |members|, d, i, a, b);
  }

  /**
   Row `b` of member `a` of group `i` ends among the queries, the keys or the values, each
   of them contiguous; a single member per group counts as an axis of size one.
   */
  lemma FalconRowsRegroup<T>(rows: NdArray<T>, kv: nat, g: nat, d: nat, i: nat, a: nat, b: nat)
    requires Valid(rows) && Size([kv, g + 2, d]) == Size(rows.shape) && i < kv && a < g + 2 && b < d
    ensures var from := Flat3(g + 2, d, i, a, b);
            var queries, keys := |Group(rows, kv, g, d, Range(g)).items|, |Group(rows, kv, g, d, [g]).items|;
            var to := if a < g then Flat3(g, d, i, a, b)
                      else if a == g then queries + Flat3(1, d, i, 0, b)
                      else queries + keys + Flat3(1, d, i, 0, b);
            && from < |rows.items| && to < |FalconRows(rows, kv, g, d).items|
            && FalconRows(rows, kv, g, d).items[to] == rows.items[from]
  {
    hide Group, Size, Flat3;
    if a < g {
      GroupRow(rows, kv, g, d, Range(g), i, a, b);
    } else {
      GroupRow(rows, kv, g, d, [a], i, 0, b);
    }
  }
}
