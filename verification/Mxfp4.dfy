/**
 MXFP4 weights in convert_hf_to_gguf.py: the repacking of `_pack_mxfp4_blocks` into
 17-byte blocks and the direct unpacking of `_unpack_mxfp4_blocks` give every logical
 index the same nibble and the same scale byte. Both reject the same shapes.
 */
module Mxfp4 {
  import opened Text
  import NdArrays

  type Byte = bv8
  type Matrix = seq<seq<Byte>>

  datatype PackError = NotMultipleOf32 | ScaleShape

  predicate Rectangular(m: Matrix, cols: nat) {
    forall r :: 0 <= r < |m| ==> |m[r]| == cols
  }

  /** The shape checks that both functions make, for rows of `cols` packed bytes. */
  function CheckShapes(rows: nat, cols: nat, scale: Matrix): Option<PackError> {
    if cols * 2 % 32 != 0 then Some(NotMultipleOf32)
    else if |scale| != rows || !Rectangular(scale, cols * 2 / 32) then Some(ScaleShape)
    else None
  }

  /** Rows of whole blocks of 16 bytes, and one scale byte for each block of each row. */
  lemma ShapesExactly(rows: nat, cols: nat, scale: Matrix)
    ensures CheckShapes(rows, cols, scale).None? <==>
            cols % 16 == 0 && |scale| == rows && forall r :: 0 <= r < rows ==> |scale[r]| == cols / 16
  {
    assert cols * 2 / 32 == cols / 16;
  }

  // ---------------------------------------------------------------- direct unpacking

  /** Adjacent logical values are the low and the high nibble of one byte. */
  function Nibble(packed: seq<Byte>, i: nat): Byte
    requires i < 2 * |packed|
  {
    if i % 2 == 0 then packed[i / 2] & 0x0F else packed[i / 2] >> 4
  }

  /** The sixteen values of a nibble. */
  const E2M1: seq<real> :=
    [0.0, 0.5, 1.0, 1.5, 2.0, 3.0, 4.0, 6.0, 0.0, -0.5, -1.0, -1.5, -2.0, -3.0, -4.0, -6.0]

  function TwoTo(k: int): real
    decreases if k < 0 then -k else k
  {
    if k == 0 then 1.0 else if k > 0 then 2.0 * TwoTo(k - 1) else TwoTo(k + 1) / 2.0
  }

  /** A nibble with its scale byte: a table entry times a power of two. */
  function Value(nibble: Byte, scale: Byte): real
    requires nibble < 16
  {
    E2M1[nibble as nat] * TwoTo(scale as int - 127)
  }

  /** Sign bit, two exponent bits and one bit behind the binary point, with small values below one. */
  function FloatOf(nibble: Byte): real {
    var exponent, fraction := (nibble >> 1) & 3, (nibble & 1) as int as real / 2.0;
    var size := if exponent == 0 then fraction else (1.0 + fraction) * TwoTo(exponent as int - 1);
    if nibble & 8 != 0 then -size else size
  }

  /** The table holds the four-bit floats with two exponent bits. */
  lemma TableIsE2M1(nibble: Byte)
    requires nibble < 16
    ensures E2M1[nibble as nat] == FloatOf(nibble)
  {
    assert TwoTo(0) == 1.0 && TwoTo(1) == 2.0 && TwoTo(2) == 4.0;
    assert nibble in {0, 1, 2, 3, 4, 5, 6, 7, 8, 9, 10, 11, 12, 13, 14, 15};
  }

  /** Scale byte 127 leaves the table value as it is, and each step of the scale byte doubles it. */
  lemma ScaleDoubles(nibble: Byte, scale: Byte)
    requires nibble < 16
    ensures Value(nibble, 127) == FloatOf(nibble)
    ensures scale < 255 ==> Value(nibble, scale + 1) == 2.0 * Value(nibble, scale)
  {
    hide TwoTo, FloatOf;
    TableIsE2M1(nibble);
    AtBias();
    if scale < 255 {
      NextScale(scale);
      NextPower(scale as int - 127);
      Doubled(E2M1[nibble as nat], TwoTo(scale as int - 127));
    }
  }

  lemma AtBias()
    ensures (127 as Byte) as int - 127 == 0 && TwoTo(0) == 1.0
  {
  }

  lemma NextScale(scale: Byte)
    requires scale < 255
    ensures (scale + 1) as int == scale as int + 1
  {
  }

  lemma NextPower(k: int)
    ensures TwoTo(k + 1) == 2.0 * TwoTo(k)
  {
  }

  lemma Doubled(x: real, y: real)
    ensures x * (2.0 * y) == 2.0 * (x * y)
  {
  }

  /** The values of all rows; the value at column `i` has the scale of block `i / 32`. */
  method Unpack(weight: Matrix, cols: nat, scale: Matrix) returns (r: Result<array2<real>, PackError>)
    requires Rectangular(weight, cols)
    ensures r.Err? <==> CheckShapes(|weight|, cols, scale).Some?
    ensures r.Err? ==> CheckShapes(|weight|, cols, scale) == Some(r.error)
    ensures r.Ok? ==> fresh(r.value) && r.value.Length0 == |weight| && r.value.Length1 == 2 * cols
    ensures r.Ok? ==> forall row, i :: 0 <= row < |weight| && 0 <= i < 2 * cols ==>
                        Nibble(weight[row], i) < 16 && i / 32 < |scale[row]|
                        && r.value[row, i] == Value(Nibble(weight[row], i), scale[row][i / 32])
  {
    var failure := CheckShapes(|weight|, cols, scale);
    if failure.Some? {
      return Err(failure.value);
    }
    var vals := new Byte[|weight|, 2 * cols];
    for row := 0 to |weight|
      invariant forall r, i :: 0 <= r < row && 0 <= i < 2 * cols ==> vals[r, i] == Nibble(weight[r], i)
    {
      for k := 0 to cols
        invariant forall r, i :: 0 <= r < row && 0 <= i < 2 * cols ==> vals[r, i] == Nibble(weight[r], i)
        invariant forall i :: 0 <= i < 2 * k ==> vals[row, i] == Nibble(weight[row], i)
      {
        vals[row, 2 * k] := weight[row][k] & 0x0F;
        vals[row, 2 * k + 1] := weight[row][k] >> 4;
      }
    }
    forall row, i | 0 <= row < |weight| && 0 <= i < 2 * cols ensures vals[row, i] < 16 {
      NibbleIsSmall(weight[row], i);
    }
    var out := Scaled(vals, scale, cols);
    return Ok(out);
  }

  /** Looks every nibble up and multiplies it by the scale of its block. */
  method Scaled(vals: array2<Byte>, scale: Matrix, cols: nat) returns (out: array2<real>)
    requires vals.Length1 == 2 * cols && CheckShapes(vals.Length0, cols, scale).None?
    requires forall row, i :: 0 <= row < vals.Length0 && 0 <= i < 2 * cols ==> vals[row, i] < 16
    ensures fresh(out) && out.Length0 == vals.Length0 && out.Length1 == vals.Length1
    ensures forall row, i :: 0 <= row < vals.Length0 && 0 <= i < 2 * cols ==>
              i / 32 < |scale[row]| && out[row, i] == Value(vals[row, i], scale[row][i / 32])
  {
    out := new real[vals.Length0, vals.Length1];
    for row := 0 to vals.Length0
      invariant forall r, i :: 0 <= r < row && 0 <= i < 2 * cols ==>
                  i / 32 < |scale[r]| && out[r, i] == Value(vals[r, i], scale[r][i / 32])
    {
      assert |scale[row]| == cols * 2 / 32;
      for i := 0 to 2 * cols
        invariant forall r, i :: 0 <= r < row && 0 <= i < 2 * cols ==>
                    i / 32 < |scale[r]| && out[r, i] == Value(vals[r, i], scale[r][i / 32])
        invariant forall k :: 0 <= k < i ==>
                    k / 32 < |scale[row]| && out[row, k] == Value(vals[row, k], scale[row][k / 32])
      {
        out[row, i] := Value(vals[row, i], scale[row][i / 32]);
      }
    }
  }

  // ---------------------------------------------------------------- repacking

  /** Byte `j` of the sixteen in a block: value `j` low, value `16 + j` high. */
  function PackedPair(packed: seq<Byte>, block: nat, j: nat): Byte
    requires j < 16 && 32 * block + 32 <= 2 * |packed|
  {
    Nibble(packed, 32 * block + j) | (Nibble(packed, 32 * block + 16 + j) << 4)
  }

  predicate RowFits(packed: seq<Byte>, scale: seq<Byte>) { 2 * |packed| == 32 * |scale| }

  function RawByte(packed: seq<Byte>, scale: seq<Byte>, k: nat): Byte
    requires RowFits(packed, scale) && k < 17 * |scale|
  {
    if k % 17 == 0 then scale[k / 17] else PackedPair(packed, k / 17, k % 17 - 1)
  }

  /** One row: for each block its scale byte and sixteen bytes of nibble pairs. */
  function PackedRow(packed: seq<Byte>, scale: seq<Byte>): (raw: seq<Byte>)
    requires RowFits(packed, scale)
    ensures |raw| == 17 * |scale|
  {
    seq(17 * |scale|, k requires 0 <= k < 17 * |scale| => RawByte(packed, scale, k))
  }

  function Pack(weight: Matrix, cols: nat, scale: Matrix): Result<Matrix, PackError>
    requires Rectangular(weight, cols)
  {
    var failure := CheckShapes(|weight|, cols, scale);
    if failure.Some? then Err(failure.value)
    else Ok(seq(|weight|, r requires 0 <= r < |weight| => PackedRow(weight[r], scale[r])))
  }

  // ---------------------------------------------------------------- reading the blocks

  /** The nibble of logical index `i` as the block layout stores it. */
  function BlockNibble(raw: seq<Byte>, i: nat): Byte
    requires 17 * (i / 32) + 17 <= |raw|
  {
    var byte := raw[17 * (i / 32) + 1 + i % 16];
    if i % 32 < 16 then byte & 0x0F else byte >> 4
  }

  function BlockScale(raw: seq<Byte>, i: nat): Byte
    requires 17 * (i / 32) + 17 <= |raw|
  {
    raw[17 * (i / 32)]
  }

  lemma NibblePair(a: Byte, b: Byte)
    requires a < 16 && b < 16
    ensures (a | (b << 4)) & 0x0F == a && (a | (b << 4)) >> 4 == b
  {
  }

  lemma NibbleIsSmall(packed: seq<Byte>, i: nat)
    requires i < 2 * |packed|
    ensures Nibble(packed, i) < 16
  {
  }

  /** Reading a repacked row gives what unpacking the row gives. */
  lemma RowKeepsValues(packed: seq<Byte>, scale: seq<Byte>, i: nat)
    requires RowFits(packed, scale) && i < 2 * |packed|
    ensures 17 * (i / 32) + 17 <= |PackedRow(packed, scale)|
    ensures BlockNibble(PackedRow(packed, scale), i) == Nibble(packed, i)
    ensures BlockScale(PackedRow(packed, scale), i) == scale[i / 32]
  {
    hide Nibble, PackedRow, PackedPair;
    var block, j := i / 32, i % 16;
    IndexSplit(i);
    assert block < |scale|;
    RawAt(packed, scale, block, j);
    PairKeeps(packed, block, j);
  }

  lemma PairKeeps(packed: seq<Byte>, block: nat, j: nat)
    requires j < 16 && 32 * block + 32 <= 2 * |packed|
    ensures PackedPair(packed, block, j) & 0x0F == Nibble(packed, 32 * block + j)
    ensures PackedPair(packed, block, j) >> 4 == Nibble(packed, 32 * block + 16 + j)
  {
    NibbleIsSmall(packed, 32 * block + j);
    NibbleIsSmall(packed, 32 * block + 16 + j);
    hide Nibble;
    NibblePair(Nibble(packed, 32 * block + j), Nibble(packed, 32 * block + 16 + j));
  }

  lemma IndexSplit(i: nat)
    ensures i == 32 * (i / 32) + (if i % 32 < 16 then i % 16 else 16 + i % 16)
  {
  }

  lemma RawAt(packed: seq<Byte>, scale: seq<Byte>, block: nat, j: nat)
    requires RowFits(packed, scale) && block < |scale| && j < 16
    ensures 17 * block + 17 <= |PackedRow(packed, scale)|
    ensures PackedRow(packed, scale)[17 * block] == scale[block]
    ensures PackedRow(packed, scale)[17 * block + 1 + j] == PackedPair(packed, block, j)
  {
    hide PackedPair;
    NdArrays.DivUnique(17 * block + 1 + j, 17, block, j + 1);
    NdArrays.DivUnique(17 * block, 17, block, 0);
    assert RawByte(packed, scale, 17 * block) == scale[block];
    assert RawByte(packed, scale, 17 * block + 1 + j) == PackedPair(packed, block, j);
  }

  /** Repacking succeeds exactly on the shapes that unpacking accepts and preserves nibble and scale at every index. */
  lemma RepackingPreservesValues(weight: Matrix, cols: nat, scale: Matrix)
    requires Rectangular(weight, cols)
    ensures Pack(weight, cols, scale).Err? <==> CheckShapes(|weight|, cols, scale).Some?
    ensures Pack(weight, cols, scale).Ok? ==>
              forall r, i :: 0 <= r < |weight| && 0 <= i < 2 * cols ==>
                var raw := Pack(weight, cols, scale).value[r];
                && |raw| == 17 * |scale[r]| && 17 * (i / 32) + 17 <= |raw|
                && BlockNibble(raw, i) == Nibble(weight[r], i) < 16
                && BlockScale(raw, i) == scale[r][i / 32]
                && Value(BlockNibble(raw, i), BlockScale(raw, i)) == Value(Nibble(weight[r], i), scale[r][i / 32])
  {
    if Pack(weight, cols, scale).Ok? {
      forall r, i | 0 <= r < |weight| && 0 <= i < 2 * cols
        ensures var raw := Pack(weight, cols, scale).value[r];
                && |raw| == 17 * |scale[r]| && 17 * (i / 32) + 17 <= |raw|
                && BlockNibble(raw, i) == Nibble(weight[r], i) < 16
                && BlockScale(raw, i) == scale[r][i / 32]
                && Value(BlockNibble(raw, i), BlockScale(raw, i)) == Value(Nibble(weight[r], i), scale[r][i / 32])
      {
        NibbleIsSmall(weight[r], i);
        RowKeepsValues(weight[r], scale[r], i);
      }
    }
  }

  lemma SplitByte(b: Byte)
    ensures (b & 0x0F) | ((b >> 4) << 4) == b
  {
  }

  /** Nothing is lost: the source bytes can be read back from the blocks. */
  lemma RepackingIsLossless(packed: seq<Byte>, scale: seq<Byte>, k: nat)
    requires RowFits(packed, scale) && k < |packed|
    ensures 17 * (2 * k / 32) + 17 <= |PackedRow(packed, scale)|
        && 17 * ((2 * k + 1) / 32) + 17 <= |PackedRow(packed, scale)|
    ensures var raw := PackedRow(packed, scale);
            BlockNibble(raw, 2 * k) | (BlockNibble(raw, 2 * k + 1) << 4) == packed[k]
  {
    RowKeepsValues(packed, scale, 2 * k);
    RowKeepsValues(packed, scale, 2 * k + 1);
    assert (2 * k) % 2 == 0 && (2 * k + 1) % 2 == 1 && (2 * k) / 2 == k && (2 * k + 1) / 2 == k;
    SplitByte(packed[k]);
  }
}
