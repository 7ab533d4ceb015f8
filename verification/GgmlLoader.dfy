/**
 The loader of old GGML model files in convert_llama_ggml_to_gguf.py: a header, the
 vocabulary and the tensor headers, read at a moving offset. The classes advance the offset
 as the source does; the functions beside them say what a file holds.
 */
module GgmlLoader {
  import opened Text

  newtype Byte = x: int | 0 <= x < 256

  type Bytes = seq<Byte>

  datatype FileFormat = Ggml | Ggmf | Ggjt

  /** A token of the vocabulary; the score is kept as its four bytes. */
  datatype Token = Token(text: Bytes, score: Bytes)

  datatype TensorInfo = TensorInfo(name: Bytes, dims: seq<nat>, dtype: nat, start: int, length: int)

  /** The block size of a tensor type and the bytes of one block. */
  datatype Quant = Quant(block: nat, bytes: nat)

  type Quants = q: map<nat, Quant> | forall t :: t in q ==> q[t].block > 0 witness map[]

  datatype Header = Header(format: FileFormat, version: nat)

  datatype Params = Params(vocab: nat, embd: nat, mult: nat, head: nat, layer: nat, rot: nat, ftype: nat)

  datatype LoadError =
    | Truncated | AlreadyGguf | UnknownMagic | UnknownVersion | InvalidFtype | NotConvertible
    | AbsurdToken | InvalidDims | AbsurdName | UnknownType | Stalls | MissingFeedForward | TooFewDims

  // ---------------------------------------------------------------- reading numbers

  const Word32: nat := 0x1_0000_0000

  function Word(data: Bytes, o: nat): (r: nat)
    requires o + 4 <= |data|
    ensures r < Word32
  {
    data[o] as nat + 256 * (data[o + 1] as nat) + 65536 * (data[o + 2] as nat) + 16777216 * (data[o + 3] as nat)
  }

  /** `struct.unpack` of consecutive words, which needs every byte of them. */
  function Words(data: Bytes, o: nat, n: nat): (r: Result<seq<nat>, LoadError>)
    ensures r.Ok? <==> o + 4 * n <= |data|
    ensures r.Ok? ==> |r.value| == n && forall i :: 0 <= i < n ==> r.value[i] == Word(data, o + 4 * i)
    ensures r.Err? ==> r.error == Truncated
  {
    if o + 4 * n <= |data| then Ok(seq(n, i requires 0 <= i < n => Word(data, o + 4 * i))) else Err(Truncated)
  }

  /** A slice stops at the end of the data. */
  function Slice(data: Bytes, from: nat, to: nat): Bytes {
    var a := if from < |data| then from else |data|;
    var b := if to < |data| then to else |data|;
    if a <= b then data[a..b] else []
  }

  /** Two's complement in 64 bits. */
  function Wrap64(x: int): (r: int)
    ensures -0x8000_0000_0000_0000 <= r < 0x8000_0000_0000_0000
    ensures -0x8000_0000_0000_0000 <= x < 0x8000_0000_0000_0000 ==> r == x
  {
    (x + 0x8000_0000_0000_0000) % 0x1_0000_0000_0000_0000 - 0x8000_0000_0000_0000
  }

  function Product(dims: seq<nat>): nat {
    if dims == [] then 1 else Product(dims[..|dims| - 1]) * dims[|dims| - 1]
  }

  /** The number of bytes of a tensor, in 64-bit arithmetic. */
  function ByteCount(dims: seq<nat>, q: Quant): int
    requires q.block > 0
  {
    Wrap64(Wrap64(Product(dims)) * q.bytes) / q.block
  }

  /** The byte count is the true one when it does not overflow. */
  lemma ByteCountFits(dims: seq<nat>, q: Quant)
    requires q.block > 0
    requires Product(dims) < 0x8000_0000_0000_0000 && Product(dims) * q.bytes < 0x8000_0000_0000_0000
    ensures ByteCount(dims, q) == Product(dims) * q.bytes / q.block >= 0
  {
    assert Product(dims) * q.bytes >= 0;
  }

  function PadLength(o: nat): (r: nat)
    ensures r < 32 && (o + r) % 32 == 0
  {
    (32 - o % 32) % 32
  }

  // ---------------------------------------------------------------- what a file holds

  const MagicGguf: Bytes := [0x47, 0x47, 0x55, 0x46]
  const MagicGgml: Bytes := [0x6c, 0x6d, 0x67, 0x67]
  const MagicGgmf: Bytes := [0x66, 0x6d, 0x67, 0x67]
  const MagicGgjt: Bytes := [0x74, 0x6a, 0x67, 0x67]
  const FeedForwardName: Bytes :=
    [0x6c, 0x61, 0x79, 0x65, 0x72, 0x73, 0x2e, 0x30, 0x2e, 0x66, 0x65, 0x65, 0x64, 0x5f, 0x66, 0x6f, 0x72,
     0x77, 0x61, 0x72, 0x64, 0x2e, 0x77, 0x31, 0x2e, 0x77, 0x65, 0x69, 0x67, 0x68, 0x74]

  function ReadHeader(data: Bytes, o: nat): Result<(Header, nat), LoadError> {
    var magic := Slice(data, o, o + 4);
    if magic == MagicGguf then Err(AlreadyGguf)
    else if magic == MagicGgml then Ok((Header(Ggml, 1), o + 4))
    else
      var words :- Words(data, o + 4, 1);
      var version := words[0];
      if magic == MagicGgmf then
        if version == 1 then Ok((Header(Ggmf, version), o + 8)) else Err(UnknownVersion)
      else if magic == MagicGgjt then
        if 1 <= version <= 3 then Ok((Header(Ggjt, version), o + 8)) else Err(UnknownVersion)
      else Err(UnknownMagic)
  }

  predicate KnownFtype(ftype: nat) { ftype <= 4 || 7 <= ftype <= 18 }

  function ReadParams(data: Bytes, o: nat): Result<(Params, nat), LoadError> {
    var w :- Words(data, o, 7);
    if KnownFtype(w[6]) then Ok((Params(w[0], w[1], w[2], w[3], w[4], w[5], w[6]), o + 28)) else Err(InvalidFtype)
  }

  /** Quantised files are convertible only from the format versions that kept their layout. */
  predicate Convertible(h: Header, ftype: nat) {
    if h.format != Ggjt || h.version < 2 then ftype <= 1
    else h.version == 2 ==> ftype !in {2, 3, 4, 7}
  }

  function ReadToken(data: Bytes, o: nat, scores: bool): Result<(Token, nat), LoadError> {
    var w :- Words(data, o, 1);
    if w[0] >= 4096 then Err(AbsurdToken) else
    var text := Slice(data, o + 4, o + 4 + w[0]);
    var next := o + 4 + w[0];
    if !scores then Ok((Token(text, [0, 0, 0, 0]), next))
    else if next + 4 <= |data| then Ok((Token(text, data[next..next + 4]), next + 4))
    else Err(Truncated)
  }

  function ReadVocab(data: Bytes, o: nat, n: nat, scores: bool): Result<(seq<Token>, nat), LoadError>
    decreases n
  {
    if n == 0 then Ok(([], o)) else
    var first :- ReadToken(data, o, scores);
    var rest :- ReadVocab(data, first.1, n - 1, scores);
    Ok(([first.0] + rest.0, rest.1))
  }

  function ReadTensor(data: Bytes, o: nat, padded: bool, quants: Quants): (r: Result<(TensorInfo, int), LoadError>)
    ensures r.Err? ==> r.error != Stalls
    ensures r.Ok? ==> r.value.1 == r.value.0.start + r.value.0.length && r.value.0.start >= o + 12
    ensures r.Ok? && padded ==> r.value.0.start % 32 == 0
    ensures r.Ok? ==>
              r.value.0.dtype in quants && r.value.0.length == ByteCount(r.value.0.dims, quants[r.value.0.dtype])
  {
    var w :- Words(data, o, 3);
    if w[0] > 4 then Err(InvalidDims)
    else if w[1] >= 4096 then Err(AbsurdName)
    else if w[2] !in quants then Err(UnknownType)
    else
      var dims :- Words(data, o + 12, w[0]);
      var nameAt := o + 12 + 4 * w[0];
      var end := nameAt + w[1];
      var start := end + if padded then PadLength(end) else 0;
      var length := ByteCount(dims, quants[w[2]]);
      Ok((TensorInfo(Slice(data, nameAt, end), dims, w[2], start, length), start + length))
  }

  /** Tensors up to the end of the data. A tensor that does not advance the offset would be read for ever. */
  function ReadTensors(data: Bytes, o: nat, padded: bool, quants: Quants): Result<(seq<TensorInfo>, nat), LoadError>
    decreases |data| - o
  {
    if o >= |data| then Ok(([], o)) else
    var first :- ReadTensor(data, o, padded, quants);
    if first.1 <= o then Err(Stalls) else
    var rest :- ReadTensors(data, first.1, padded, quants);
    Ok(([first.0] + rest.0, rest.1))
  }

  /** Later tensors of a name hide earlier ones. */
  function MapOf(tensors: seq<TensorInfo>): (r: map<Bytes, nat>)
    ensures forall n :: n in r ==> r[n] < |tensors| && tensors[r[n]].name == n
  {
    if tensors == [] then map[] else
    var last := |tensors| - 1;
    MapOf(tensors[..last])[tensors[last].name := last]
  }

  /** The feed-forward size is the second dimension of layer 0's first projection. */
  function FeedForward(tensors: seq<TensorInfo>): Result<nat, LoadError> {
    var m := MapOf(tensors);
    if FeedForwardName !in m then Err(MissingFeedForward)
    else if |tensors[m[FeedForwardName]].dims| < 2 then Err(TooFewDims)
    else Ok(tensors[m[FeedForwardName]].dims[1])
  }

  lemma NameText()
    ensures |FeedForwardName| == |"layers.0.feed_forward.w1.weight"|
    ensures forall i :: 0 <= i < |FeedForwardName| ==>
              FeedForwardName[i] as int == "layers.0.feed_forward.w1.weight"[i] as int
  {
  }

  lemma {:induction false} MapHolds(tensors: seq<TensorInfo>, name: Bytes)
    ensures name in MapOf(tensors) <==> exists i :: 0 <= i < |tensors| && tensors[i].name == name
    ensures name in MapOf(tensors) ==> forall i :: MapOf(tensors)[name] < i < |tensors| ==> tensors[i].name != name
  {
    if tensors != [] {
      var last := |tensors| - 1;
      MapHolds(tensors[..last], name);
      if name in MapOf(tensors[..last]) { assert tensors[MapOf(tensors[..last])[name]].name == name; }
    }
  }

  predicate LastFeedForward(tensors: seq<TensorInfo>, i: int) {
    && 0 <= i < |tensors| && tensors[i].name == FeedForwardName
    && forall j :: i < j < |tensors| ==> tensors[j].name != FeedForwardName
  }

  /** The feed-forward size is `dims[1]` of the last tensor with that name; without one there is an error. */
  lemma FeedForwardIsLast(tensors: seq<TensorInfo>)
    ensures (exists i :: 0 <= i < |tensors| && tensors[i].name == FeedForwardName)
            <==> FeedForward(tensors) != Err(MissingFeedForward)
    ensures forall i :: LastFeedForward(tensors, i) ==>
              FeedForward(tensors) == if |tensors[i].dims| < 2 then Err(TooFewDims) else Ok(tensors[i].dims[1])
  {
    hide FeedForwardName;
    MapHolds(tensors, FeedForwardName);
    var m := MapOf(tensors);
    forall i | LastFeedForward(tensors, i)
      ensures FeedForward(tensors) == if |tensors[i].dims| < 2 then Err(TooFewDims) else Ok(tensors[i].dims[1])
    {
      assert m[FeedForwardName] == i;
    }
  }

  // ---------------------------------------------------------------- what is accepted

  /** The first byte counts least. */
  lemma WordIsLittleEndian(a: Byte, b: Byte, c: Byte, d: Byte)
    ensures Word([a, b, c, d], 0) == a as nat + 0x100 * b as nat + 0x1_0000 * c as nat + 0x100_0000 * d as nat
  {
  }

  /**
   Plain files without a version, version 1 with scores, and versions 1 to 3 with padding; anything
   else is refused.
   */
  lemma HeaderExactly(data: Bytes, o: nat)
    requires o + 8 <= |data|
    ensures var magic, version := data[o..o + 4], Word(data, o + 4);
            ReadHeader(data, o)
              == if magic == MagicGgml then Ok((Header(Ggml, 1), o + 4))
                 else if magic == MagicGgmf && version == 1 then Ok((Header(Ggmf, 1), o + 8))
                 else if magic == MagicGgjt && version in {1, 2, 3} then Ok((Header(Ggjt, version), o + 8))
                 else if magic == MagicGguf then Err(AlreadyGguf)
                 else if magic == MagicGgmf || magic == MagicGgjt then Err(UnknownVersion)
                 else Err(UnknownMagic)
  {
  }

  /** File types 5 and 6 were dropped; of the others only those that kept their layout are converted. */
  lemma FtypesExactly(h: Header, ftype: nat)
    requires h.version <= 3
    ensures KnownFtype(ftype) <==> ftype in {0, 1, 2, 3, 4, 7, 8, 9, 10, 11, 12, 13, 14, 15, 16, 17, 18}
    ensures h.format == Ggjt && h.version == 3 ==> Convertible(h, ftype)
    ensures h.format == Ggjt && h.version == 2 ==> (Convertible(h, ftype) <==> ftype !in {2, 3, 4, 7})
    ensures h.format != Ggjt || h.version < 2 ==> (Convertible(h, ftype) <==> ftype == 0 || ftype == 1)
  {
  }

  /** A token is refused exactly when its length is absurd, or its length or its score is cut off. */
  lemma TokenExactly(data: Bytes, o: nat, scores: bool)
    ensures var r := ReadToken(data, o, scores);
            && (r == Err(AbsurdToken) <==> o + 4 <= |data| && Word(data, o) >= 4096)
            && (r == Err(Truncated) <==>
                  o + 4 > |data| || (scores && Word(data, o) < 4096 && o + 4 + Word(data, o) + 4 > |data|))
            && (r.Err? ==> r.error in {AbsurdToken, Truncated})
  {
  }

  /**
   A tensor header is refused exactly for more than four dimensions, a long name, an unknown type,
   or for missing bytes.
   */
  lemma TensorExactly(data: Bytes, o: nat, padded: bool, quants: Quants)
    ensures var r := ReadTensor(data, o, padded, quants);
            if o + 12 > |data| then r == Err(Truncated) else
            var dims, name, dtype := Word(data, o), Word(data, o + 4), Word(data, o + 8);
            if dims > 4 then r == Err(InvalidDims)
            else if name >= 4096 then r == Err(AbsurdName)
            else if dtype !in quants then r == Err(UnknownType)
            else if o + 12 + 4 * dims > |data| then r == Err(Truncated)
            else r.Ok?
  {
  }

  datatype File = File(header: Header, params: Params, ff: nat, vocab: seq<Token>, tensors: seq<TensorInfo>)

  function ReadFile(data: Bytes, o: nat, quants: Quants): Result<(File, nat), LoadError> {
    var h :- ReadHeader(data, o);
    var hp :- ReadParams(data, h.1);
    if !Convertible(h.0, hp.0.ftype) then Err(NotConvertible) else
    var v :- ReadVocab(data, hp.1, hp.0.vocab, h.0.format != Ggml);
    var t :- ReadTensors(data, v.1, h.0.format == Ggjt, quants);
    var ff :- FeedForward(t.0);
    Ok((File(h.0, hp.0, ff, v.0, t.0), t.1))
  }

  // ---------------------------------------------------------------- the classes

  class Hyperparameters {
    var params: Params
    var nFf: nat

    constructor ()
    {
      params, nFf := Params(0, 0, 0, 0, 0, 0, 0), 0;
    }

    method Load(data: Bytes, offset: nat) returns (r: Result<nat, LoadError>)
      modifies this
      ensures match ReadParams(data, offset)
              case Ok(v) => r == Ok(v.1 - offset) && params == v.0 && nFf == old(nFf)
              case Err(e) => r == Err(e)
    {
      var w :- Words(data, offset, 7);
      params := Params(w[0], w[1], w[2], w[3], w[4], w[5], params.ftype);
      if !KnownFtype(w[6]) {
        return Err(InvalidFtype);
      }
      params := params.(ftype := w[6]);
      return Ok(28);
    }

    method SetNFf(model: GgmlModel) returns (r: Result<(), LoadError>)
      requires model.tensorMap == MapOf(model.tensors)
      modifies this
      ensures match FeedForward(model.tensors)
              case Ok(n) => r == Ok(()) && nFf == n && params == old(params)
              case Err(e) => r == Err(e)
    {
      if FeedForwardName !in model.tensorMap {
        return Err(MissingFeedForward);
      }
      var tensor := model.tensors[model.tensorMap[FeedForwardName]];
      if |tensor.dims| < 2 {
        return Err(TooFewDims);
      }
      nFf := tensor.dims[1];
      return Ok(());
    }
  }

  class Vocab {
    var items: seq<Token>
    const loadScores: bool

    constructor (loadScores: bool)
      ensures items == [] && this.loadScores == loadScores
    {
      items := [];
      this.loadScores := loadScores;
    }

    method Load(data: Bytes, offset: nat, nVocab: nat) returns (r: Result<nat, LoadError>)
      modifies this
      ensures match ReadVocab(data, offset, nVocab, loadScores)
              case Ok(v) => r == Ok(v.1 - offset) && v.1 >= offset && items == old(items) + v.0
              case Err(e) => r == Err(e)
    {
      hide ReadVocab, Word, Slice, Continued;
      var at := offset;
      ghost var read: seq<Token> := [];
      NothingRead(ReadVocab(data, offset, nVocab, loadScores));
      for i := 0 to nVocab
        invariant at >= offset && items == old(items) + read
        invariant ReadVocab(data, offset, nVocab, loadScores)
               == Continued(read, ReadVocab(data, at, nVocab - i, loadScores))
      {
        VocabNext(data, read, at, nVocab - i, loadScores);
        var w :- Words(data, at, 1);
        if w[0] >= 4096 {
          return Err(AbsurdToken);
        }
        at := at + 4;
        var text := Slice(data, at, at + w[0]);
        at := at + w[0];
        var score: Bytes := [0, 0, 0, 0];
        if loadScores {
          if at + 4 > |data| {
            return Err(Truncated);
          }
          score := data[at..at + 4];
          at := at + 4;
        }
        items := items + [Token(text, score)];
        read := read + [Token(text, score)];
      }
      VocabDone(data, read, at, loadScores);
      return Ok(at - offset);
    }
  }

  lemma NothingRead<T>(r: Result<(seq<T>, nat), LoadError>)
    ensures Continued([], r) == r
  {
    if r.Ok? { assert [] + r.value.0 == r.value.0; }
  }

  lemma VocabNext(data: Bytes, read: seq<Token>, at: nat, n: nat, scores: bool)
    requires n > 0
    ensures var t := ReadToken(data, at, scores);
            Continued(read, ReadVocab(data, at, n, scores))
              == if t.Err? then Err(t.error)
                 else Continued(read + [t.value.0], ReadVocab(data, t.value.1, n - 1, scores))
  {
    hide ReadToken;
    var t := ReadToken(data, at, scores);
    if t.Ok? { ContinuedMore(read, t.value.0, ReadVocab(data, t.value.1, n - 1, scores)); }
  }

  lemma VocabDone(data: Bytes, read: seq<Token>, at: nat, scores: bool)
    ensures Continued(read, ReadVocab(data, at, 0, scores)) == Ok((read, at))
  {
    assert read + [] == read;
  }

  function Continued<T>(read: seq<T>, rest: Result<(seq<T>, nat), LoadError>): Result<(seq<T>, nat), LoadError> {
    if rest.Ok? then Ok((read + rest.value.0, rest.value.1)) else rest
  }

  lemma ContinuedMore<T>(read: seq<T>, x: T, rest: Result<(seq<T>, nat), LoadError>)
    ensures rest.Ok? ==> Continued(read, Ok(([x] + rest.value.0, rest.value.1))) == Continued(read + [x], rest)
  {
    if rest.Ok? { assert read + ([x] + rest.value.0) == read + [x] + rest.value.0; }
  }

  class Tensor {
    var name: Bytes
    var dims: seq<nat>
    var dtype: nat
    var startOffset: int
    var lenBytes: int
    const usePadding: bool

    constructor (usePadding: bool)
      ensures this.usePadding == usePadding
    {
      name, dims, dtype, startOffset, lenBytes := [], [], 0, 0, 0;
      this.usePadding := usePadding;
    }

    function Info(): TensorInfo
      reads this
    {
      TensorInfo(name, dims, dtype, startOffset, lenBytes)
    }

    method Load(data: Bytes, offset: nat, quants: Quants) returns (r: Result<int, LoadError>)
      modifies this
      ensures match ReadTensor(data, offset, usePadding, quants)
              case Ok(v) => r == Ok(v.1 - offset) && Info() == v.0
              case Err(e) => r == Err(e)
    {
      hide Word, Slice, ByteCount, PadLength;
      var w :- Words(data, offset, 3);
      if w[0] > 4 {
        return Err(InvalidDims);
      }
      if w[1] >= 4096 {
        return Err(AbsurdName);
      }
      if w[2] !in quants {
        return Err(UnknownType);
      }
      var quant := quants[w[2]];
      var at := offset + 12;
      dtype := w[2];
      dims :- Words(data, at, w[0]);
      at := at + 4 * w[0];
      name := Slice(data, at, at + w[1]);
      at := at + w[1];
      var pad := if usePadding then PadLength(at) else 0;
      at := at + pad;
      startOffset := at;
      lenBytes := ByteCount(dims, quant);
      return Ok(at + lenBytes - offset);
    }
  }

  class GgmlModel {
    var header: Header
    var hyperparameters: Hyperparameters?
    var vocab: Vocab?
    var tensorMap: map<Bytes, nat>
    var tensors: seq<TensorInfo>

    constructor ()
    {
      header, hyperparameters, vocab, tensorMap, tensors := Header(Ggml, 0), null, null, map[], [];
    }

    method ValidateHeader(data: Bytes, offset: nat) returns (r: Result<nat, LoadError>)
      modifies this`header
      ensures match ReadHeader(data, offset)
              case Ok(v) => r == Ok(v.1 - offset) && header == v.0
              case Err(e) => r == Err(e)
    {
      var magic := Slice(data, offset, offset + 4);
      if magic == MagicGguf {
        return Err(AlreadyGguf);
      }
      if magic == MagicGgml {
        header := Header(Ggml, 1);
        return Ok(4);
      }
      var w :- Words(data, offset + 4, 1);
      var version := w[0];
      if magic == MagicGgmf {
        if version != 1 {
          return Err(UnknownVersion);
        }
        header := Header(Ggmf, version);
        return Ok(8);
      }
      if magic == MagicGgjt {
        if version < 1 || version > 3 {
          return Err(UnknownVersion);
        }
        header := Header(Ggjt, version);
        return Ok(8);
      }
      return Err(UnknownMagic);
    }

    method LoadTensors(data: Bytes, start: nat, quants: Quants) returns (r: Result<nat, LoadError>)
      modifies this`tensors, this`tensorMap
      ensures match ReadTensors(data, start, header.format == Ggjt, quants)
              case Ok(v) => r == Ok(v.1) && tensors == v.0 && tensorMap == MapOf(v.0)
              case Err(e) => r == Err(e)
    {
      hide ReadTensor, ReadTensors, Words, Continued, MapOf;
      var padded := header.format == Ggjt;
      var offset := start;
      tensors, tensorMap := [], map[];
      NothingRead(ReadTensors(data, start, padded, quants));
      NoNames();
      while offset < |data|
        invariant tensorMap == MapOf(tensors)
        invariant ReadTensors(data, start, padded, quants)
               == Continued(tensors, ReadTensors(data, offset, padded, quants))
        decreases |data| - offset
      {
        TensorsNext(data, tensors, offset, padded, quants);
        var tensor := new Tensor(padded);
        var advance :- tensor.Load(data, offset, quants);
        if advance <= 0 {
          return Err(Stalls);
        }
        offset := offset + advance;
        OneMoreName(tensors, tensor.Info());
        tensorMap := tensorMap[tensor.name := |tensors|];
        tensors := tensors + [tensor.Info()];
      }
      TensorsDone(data, tensors, offset, padded, quants);
      return Ok(offset);
    }

    method Load(data: Bytes, start: nat, quants: Quants) returns (r: Result<nat, LoadError>)
      modifies this
      ensures match ReadFile(data, start, quants)
              case Ok(v) =>
                && r == Ok(v.1) && header == v.0.header && tensors == v.0.tensors && tensorMap == MapOf(tensors)
                && hyperparameters != null && hyperparameters.params == v.0.params && hyperparameters.nFf == v.0.ff
                && vocab != null && vocab.items == v.0.vocab
              case Err(e) => r == Err(e)
    {
      hide ReadHeader, ReadParams, ReadVocab, ReadTensors, FeedForward;
      var offset := start;
      var n :- ValidateHeader(data, offset);
      offset := offset + n;
      var hp := new Hyperparameters();
      n :- hp.Load(data, offset);
      offset := offset + n;
      if !Convertible(header, hp.params.ftype) {
        return Err(NotConvertible);
      }
      var v := new Vocab(header.format != Ggml);
      n :- v.Load(data, offset, hp.params.vocab);
      offset := offset + n;
      offset :- LoadTensors(data, offset, quants);
      hyperparameters := hp;
      vocab := v;
      var _ :- hp.SetNFf(this);
      return Ok(offset);
    }
  }

  lemma NoNames()
    ensures MapOf([]) == map[]
  {
  }

  lemma OneMoreName(tensors: seq<TensorInfo>, t: TensorInfo)
    ensures MapOf(tensors + [t]) == MapOf(tensors)[t.name := |tensors|]
  {
    assert (tensors + [t])[..|tensors|] == tensors;
  }

  lemma TensorsNext(data: Bytes, read: seq<TensorInfo>, at: nat, padded: bool, quants: Quants)
    requires at < |data|
    ensures var t := ReadTensor(data, at, padded, quants);
            Continued(read, ReadTensors(data, at, padded, quants))
              == if t.Err? then Err(t.error)
                 else if t.value.1 <= at then Err(Stalls)
                 else Continued(read + [t.value.0], ReadTensors(data, t.value.1, padded, quants))
  {
    hide ReadTensor;
    var t := ReadTensor(data, at, padded, quants);
    if t.Ok? && t.value.1 > at { ContinuedMore(read, t.value.0, ReadTensors(data, t.value.1, padded, quants)); }
  }

  lemma TensorsDone(data: Bytes, read: seq<TensorInfo>, at: nat, padded: bool, quants: Quants)
    requires at >= |data|
    ensures Continued(read, ReadTensors(data, at, padded, quants)) == Ok((read, at))
  {
    assert read + [] == read;
  }

  // ---------------------------------------------------------------- layout of every loaded file

  /** What every load that ends guarantees about the byte ranges of the tensors. */
  ghost predicate LaidOut(tensors: seq<TensorInfo>, o: nat, next: nat, padded: bool, size: nat) {
    && next >= size
    && (tensors == [] ==> next == o)
    && (tensors != [] ==> next == tensors[|tensors| - 1].start + tensors[|tensors| - 1].length)
    && (forall i :: 0 <= i < |tensors| ==> tensors[i].start >= o + 12)
    && (padded ==> forall i :: 0 <= i < |tensors| ==> tensors[i].start % 32 == 0)
    && (forall i :: 0 <= i < |tensors| - 1 ==> tensors[i].start + tensors[i].length < size)
    && (forall i, j :: 0 <= i < j < |tensors| ==> tensors[i].start + tensors[i].length + 12 <= tensors[j].start)
  }

  lemma LaidOutCons(t: TensorInfo, rest: seq<TensorInfo>, o: nat, mid: nat, next: nat, padded: bool, size: nat)
    requires LaidOut(rest, mid, next, padded, size)
    requires o < size && o < mid == t.start + t.length && t.start >= o + 12 && (padded ==> t.start % 32 == 0)
    requires mid >= size ==> rest == []
    ensures LaidOut([t] + rest, o, next, padded, size)
  {
    var all := [t] + rest;
    assert forall i :: 1 <= i < |all| ==> all[i] == rest[i - 1];
  }

  lemma {:induction false} TensorsAreLaidOut(data: Bytes, o: nat, padded: bool, quants: Quants)
    ensures var r := ReadTensors(data, o, padded, quants);
            r.Ok? ==> LaidOut(r.value.0, o, r.value.1, padded, |data|) && (o >= |data| ==> r.value.0 == [])
    decreases |data| - o
  {
    hide ReadTensor, LaidOut;
    if o >= |data| {
      EmptyLaidOut(o, padded, |data|);
    } else {
      var first := ReadTensor(data, o, padded, quants);
      if first.Ok? && first.value.1 > o {
        TensorsAreLaidOut(data, first.value.1, padded, quants);
        var rest := ReadTensors(data, first.value.1, padded, quants);
        if rest.Ok? {
          LaidOutCons(first.value.0, rest.value.0, o, first.value.1, rest.value.1, padded, |data|);
        }
      }
    }
  }

  lemma EmptyLaidOut(o: nat, padded: bool, size: nat)
    requires o >= size
    ensures LaidOut([], o, o, padded, size)
  {
  }

  /**
   Every load that succeeds: with padding each tensor starts at a multiple of 32, each range
   ends before the next header, and the final offset is the length of the file exactly when
   every range lies within the file.
   */
  lemma LoadedRanges(data: Bytes, o: nat, quants: Quants)
    ensures var r := ReadFile(data, o, quants);
            r.Ok? ==>
              var (file, next) := r.value;
              && (file.header.format == Ggjt ==>
                    forall i :: 0 <= i < |file.tensors| ==> file.tensors[i].start % 32 == 0)
              && (forall i, j :: 0 <= i < j < |file.tensors| ==>
                    file.tensors[i].start + file.tensors[i].length + 12 <= file.tensors[j].start)
              && (next == |data| <==> forall i :: 0 <= i < |file.tensors| ==>
                    file.tensors[i].start + file.tensors[i].length <= |data|)
  {
    hide ReadTensor, ReadTensors, ReadVocab, ReadHeader, ReadParams;
    var r := ReadFile(data, o, quants);
    if r.Ok? {
      var h := ReadHeader(data, o).value;
      var hp := ReadParams(data, h.1).value;
      var v := ReadVocab(data, hp.1, hp.0.vocab, h.0.format != Ggml).value;
      TensorsAreLaidOut(data, v.1, h.0.format == Ggjt, quants);
      var tensors := r.value.0.tensors;
      assert FeedForwardName in MapOf(tensors);
      assert tensors != [];
    }
  }

  /**
   An overflowing tensor header can leave the offset where it is: the source then reads the
   same header again without end.
   */
  lemma OverflowStalls(name: Bytes)
    requires |name| == 21
    ensures var header := WordBytes(3) + WordBytes(21) + WordBytes(24) + WordBytes(11071) + WordBytes(844709)
                          + WordBytes(1972539689) + name;
            var r := ReadTensor(header, 0, false, map[24 := Quant(1, 1)]);
            r.Ok? && r.value.1 == 0
  {
    hide WordBytes;
    var quants: Quants := map[24 := Quant(1, 1)];
    var t := SourceTensor(name, [11071, 844709, 1972539689], 24, [], []);
    OverflowCount(quants[24]);
    ThreeWords(11071, 844709, 1972539689);
    var header := HeadBytes(t);
    assert header == WordBytes(3) + WordBytes(21) + WordBytes(24) + WordBytes(11071) + WordBytes(844709)
                     + WordBytes(1972539689) + name;
    ReadHead(header, 0, t, quants, false);
  }

  /** The byte count of a tensor leaves the range of 64-bit integers. */
  predicate Overflows(dims: seq<nat>, q: Quant) {
    Product(dims) >= 0x8000_0000_0000_0000 || Product(dims) * q.bytes >= 0x8000_0000_0000_0000
  }

  /** Nothing else makes the loop stall: without overflow every tensor advances the offset. */
  lemma {:induction false} StallsOnlyOnOverflow(data: Bytes, o: nat, padded: bool, quants: Quants)
    requires ReadTensors(data, o, padded, quants) == Err(Stalls)
    ensures exists at: nat :: o <= at < |data| && OverflowsAt(data, at, padded, quants)
    decreases |data| - o
  {
    var t := ReadTensor(data, o, padded, quants);
    if t.value.1 <= o {
      var info := t.value.0;
      if !Overflows(info.dims, quants[info.dtype]) { ByteCountFits(info.dims, quants[info.dtype]); }
      assert OverflowsAt(data, o, padded, quants);
    } else {
      StallsOnlyOnOverflow(data, t.value.1, padded, quants);
    }
  }

  predicate OverflowsAt(data: Bytes, at: nat, padded: bool, quants: Quants) {
    var t := ReadTensor(data, at, padded, quants);
    t.Ok? && Overflows(t.value.0.dims, quants[t.value.0.dtype])
  }

  lemma OverflowCount(q: Quant)
    requires q == Quant(1, 1)
    ensures ByteCount([11071, 844709, 1972539689], q) == -45
  {
    var dims := [11071, 844709, 1972539689];
    assert dims[..2] == [11071, 844709] && [11071, 844709][..1] == [11071] && [11071][..0] == [];
    assert Product([11071]) == Product([]) * 11071;
    assert Product([11071, 844709]) == Product([11071]) * 844709;
    assert Product(dims) == Product([11071, 844709]) * 1972539689;
  }

  /** Wrapping twice is wrapping once: the byte count is the wrapped product of all its factors. */
  lemma ByteCountExactly(dims: seq<nat>, q: Quant)
    requires q.block > 0
    ensures ByteCount(dims, q) == Wrap64(Product(dims) * q.bytes) / q.block
  {
    var p, m := Product(dims), 0x1_0000_0000_0000_0000;
    var k := (p - Wrap64(p)) / m;
    WrapDiffers(p);
    assert p == Wrap64(p) + k * m;
    ProductOfSum(Wrap64(p), k, m, q.bytes);
    WrapShift(Wrap64(p) * q.bytes, k * q.bytes);
  }

  lemma WrapDiffers(x: int)
    ensures (x - Wrap64(x)) % 0x1_0000_0000_0000_0000 == 0
  {
  }

  lemma ProductOfSum(a: int, k: int, m: int, b: int)
    ensures (a + k * m) * b == a * b + k * b * m
  {
  }

  lemma WrapShift(x: int, k: int)
    ensures Wrap64(x + k * 0x1_0000_0000_0000_0000) == Wrap64(x)
  {
  }

  /** The loop comes to this offset. */
  predicate Visits(data: Bytes, o: nat, at: nat, padded: bool, quants: Quants)
    decreases |data| - o
  {
    && o < |data|
    && (at == o ||
        (var t := ReadTensor(data, o, padded, quants);
         t.Ok? && t.value.1 > o && Visits(data, t.value.1, at, padded, quants)))
  }

  /** The wrapped byte count takes back the whole header, with its name and padding. */
  predicate TakesBack(data: Bytes, at: nat, padded: bool, quants: Quants) {
    var t := ReadTensor(data, at, padded, quants);
    t.Ok? && var info := t.value.0;
      Wrap64(Product(info.dims) * quants[info.dtype].bytes) / quants[info.dtype].block <= -(info.start - at)
  }

  /** The loop stalls if and only if it comes to a tensor whose byte count takes its header back. */
  lemma {:induction false} StallsExactly(data: Bytes, o: nat, padded: bool, quants: Quants)
    ensures ReadTensors(data, o, padded, quants) == Err(Stalls)
       <==> exists at: nat :: Visits(data, o, at, padded, quants) && TakesBack(data, at, padded, quants)
    decreases |data| - o
  {
    hide Wrap64, Product;
    if o < |data| {
      var t := ReadTensor(data, o, padded, quants);
      if t.Ok? {
        var info := t.value.0;
        ByteCountExactly(info.dims, quants[info.dtype]);
        assert TakesBack(data, o, padded, quants) <==> t.value.1 <= o;
        if t.value.1 > o {
          StallsExactly(data, t.value.1, padded, quants);
          VisitsNext(data, o, padded, quants);
        } else {
          assert Visits(data, o, o, padded, quants);
        }
      }
    }
  }

  lemma VisitsNext(data: Bytes, o: nat, padded: bool, quants: Quants)
    requires o < |data|
    requires var t := ReadTensor(data, o, padded, quants); t.Ok? && t.value.1 > o
    ensures forall at: nat :: Visits(data, o, at, padded, quants) <==>
              at == o || Visits(data, ReadTensor(data, o, padded, quants).value.1, at, padded, quants)
  {
    hide ReadTensor;
  }

  // ---------------------------------------------------------------- the writer

  function WordBytes(v: nat): (r: Bytes)
    requires v < Word32
    ensures |r| == 4
  {
    [(v % 256) as Byte, (v / 256 % 256) as Byte, (v / 65536 % 256) as Byte, (v / 16777216) as Byte]
  }

  /** A tensor to be written, with the bytes that pad its header and its own bytes. */
  datatype SourceTensor = SourceTensor(name: Bytes, dims: seq<nat>, dtype: nat, padding: Bytes, data: Bytes)

  datatype Model = Model(header: Header, params: Params, vocab: seq<Token>, tensors: seq<SourceTensor>)

  predicate AllWords(values: seq<nat>) { forall i :: 0 <= i < |values| ==> values[i] < Word32 }

  function DimBytes(dims: seq<nat>): (r: Bytes)
    requires AllWords(dims)
    ensures |r| == 4 * |dims|
  {
    if dims == [] then [] else DimBytes(dims[..|dims| - 1]) + WordBytes(dims[|dims| - 1])
  }

  predicate WordsFit(t: SourceTensor) {
    && |t.dims| <= 4 && |t.name| < 4096 && t.dtype < Word32
    && AllWords(t.dims)
  }

  /** The part of a tensor that describes it. */
  function HeadBytes(t: SourceTensor): (r: Bytes)
    requires WordsFit(t)
    ensures |r| == 12 + 4 * |t.dims| + |t.name|
  {
    WordBytes(|t.dims|) + WordBytes(|t.name|) + WordBytes(t.dtype) + DimBytes(t.dims) + t.name
  }

  function TensorBytes(t: SourceTensor): Bytes
    requires WordsFit(t)
  {
    HeadBytes(t) + t.padding + t.data
  }

  predicate TensorFits(t: SourceTensor, o: nat, padded: bool, quants: Quants) {
    && WordsFit(t) && t.dtype in quants
    && |t.padding| == (if padded then PadLength(o + |HeadBytes(t)|) else 0)
    && |t.data| == ByteCount(t.dims, quants[t.dtype])
  }

  predicate TensorsFit(ts: seq<SourceTensor>, o: nat, padded: bool, quants: Quants) {
    ts != [] ==> TensorFits(ts[0], o, padded, quants) && TensorsFit(ts[1..], o + |TensorBytes(ts[0])|, padded, quants)
  }

  function TensorsBytes(ts: seq<SourceTensor>, o: nat, padded: bool, quants: Quants): Bytes
    requires TensorsFit(ts, o, padded, quants)
  {
    if ts == [] then [] else TensorBytes(ts[0]) + TensorsBytes(ts[1..], o + |TensorBytes(ts[0])|, padded, quants)
  }

  /** Where the tensors end up in the file. */
  function InfosOf(ts: seq<SourceTensor>, o: nat): seq<TensorInfo>
    requires forall t :: t in ts ==> WordsFit(t)
  {
    if ts == [] then [] else
    var t := ts[0];
    [TensorInfo(t.name, t.dims, t.dtype, o + |HeadBytes(t)| + |t.padding|, |t.data|)]
      + InfosOf(ts[1..], o + |TensorBytes(t)|)
  }

  predicate TokenFits(t: Token, scores: bool) {
    |t.text| < 4096 && |t.score| == 4 && (!scores ==> t.score == [0, 0, 0, 0])
  }

  function TokenBytes(t: Token, scores: bool): Bytes
    requires TokenFits(t, scores)
  {
    WordBytes(|t.text|) + t.text + if scores then t.score else []
  }

  function VocabBytes(tokens: seq<Token>, scores: bool): Bytes
    requires forall t :: t in tokens ==> TokenFits(t, scores)
  {
    if tokens == [] then [] else TokenBytes(tokens[0], scores) + VocabBytes(tokens[1..], scores)
  }

  function HeaderBytes(h: Header): Bytes
    requires h.version < Word32
  {
    match h.format
    case Ggml => MagicGgml
    case Ggmf => MagicGgmf + WordBytes(h.version)
    case Ggjt => MagicGgjt + WordBytes(h.version)
  }

  predicate ParamsFit(p: Params) {
    && p.vocab < Word32 && p.embd < Word32 && p.mult < Word32 && p.head < Word32
    && p.layer < Word32 && p.rot < Word32 && KnownFtype(p.ftype)
  }

  function ParamsBytes(p: Params): (r: Bytes)
    requires ParamsFit(p)
    ensures |r| == 28
  {
    WordBytes(p.vocab) + WordBytes(p.embd) + WordBytes(p.mult) + WordBytes(p.head)
      + WordBytes(p.layer) + WordBytes(p.rot) + WordBytes(p.ftype)
  }

  predicate VersionFits(h: Header) {
    h.version == 1 || (h.format == Ggjt && 1 <= h.version <= 3)
  }

  predicate FrontFits(m: Model) {
    && VersionFits(m.header) && ParamsFit(m.params) && Convertible(m.header, m.params.ftype)
    && |m.vocab| == m.params.vocab
    && forall t :: t in m.vocab ==> TokenFits(t, m.header.format != Ggml)
  }

  function FrontBytes(m: Model): Bytes
    requires FrontFits(m)
  {
    HeaderBytes(m.header) + ParamsBytes(m.params) + VocabBytes(m.vocab, m.header.format != Ggml)
  }

  /** A model that fits the format and names the feed-forward tensor of layer 0. */
  predicate WellFormed(m: Model, quants: Quants) {
    && FrontFits(m)
    && TensorsFit(m.tensors, |FrontBytes(m)|, m.header.format == Ggjt, quants)
    && (forall t :: t in m.tensors ==> WordsFit(t))
    && FeedForward(InfosOf(m.tensors, |FrontBytes(m)|)).Ok?
  }

  function Written(m: Model, quants: Quants): Bytes
    requires WellFormed(m, quants)
  {
    FrontBytes(m) + TensorsBytes(m.tensors, |FrontBytes(m)|, m.header.format == Ggjt, quants)
  }

  // ---------------------------------------------------------------- reading back

  predicate HasAt(data: Bytes, o: nat, piece: Bytes) {
    o + |piece| <= |data| && data[o..o + |piece|] == piece
  }

  lemma HasParts(data: Bytes, o: nat, a: Bytes, b: Bytes)
    ensures HasAt(data, o, a + b) <==> HasAt(data, o, a) && HasAt(data, o + |a|, b)
  {
    var n, m := |a|, |a + b|;
    if o + m <= |data| {
      assert data[o..o + m] == data[o..o + n] + data[o + n..o + m];
      if HasAt(data, o, a + b) {
        assert data[o..o + n] == (a + b)[..n] == a && data[o + n..o + m] == (a + b)[n..] == b;
      }
    }
  }

  lemma WordReadsBack(data: Bytes, o: nat, v: nat)
    requires v < Word32 && HasAt(data, o, WordBytes(v))
    ensures o + 4 <= |data| && Word(data, o) == v
  {
    var piece := data[o..o + 4];
    assert piece[0] == data[o] && piece[1] == data[o + 1] && piece[2] == data[o + 2] && piece[3] == data[o + 3];
    Digits(v);
  }

  lemma Digits(v: nat)
    requires v < Word32
    ensures v % 256 + 256 * (v / 256 % 256) + 65536 * (v / 65536 % 256) + 16777216 * (v / 16777216) == v
  {
    assert v / 65536 == v / 256 / 256 && v / 16777216 == v / 65536 / 256;
  }

  lemma {:induction false} DimsReadBack(data: Bytes, o: nat, dims: seq<nat>)
    requires AllWords(dims) && HasAt(data, o, DimBytes(dims))
    ensures Words(data, o, |dims|) == Ok(dims)
  {
    hide Word, WordBytes;
    if dims != [] {
      var n := |dims| - 1;
      HasParts(data, o, DimBytes(dims[..n]), WordBytes(dims[n]));
      DimsReadBack(data, o, dims[..n]);
      WordReadsBack(data, o + 4 * n, dims[n]);
      var before, all := Words(data, o, n).value, Words(data, o, n + 1).value;
      assert forall i :: 0 <= i < n ==> all[i] == before[i] == dims[i];
      assert all == dims;
    } else {
      assert Words(data, o, 0).value == dims;
    }
  }

  lemma WordsAre(data: Bytes, o: nat, values: seq<nat>)
    requires AllWords(values) && HasAt(data, o, DimBytes(values))
    ensures Words(data, o, |values|) == Ok(values)
  {
    DimsReadBack(data, o, values);
  }

  lemma SliceReadsBack(data: Bytes, o: nat, piece: Bytes)
    requires HasAt(data, o, piece)
    ensures Slice(data, o, o + |piece|) == piece
  {
  }

  lemma ThreeWords(a: nat, b: nat, c: nat)
    requires a < Word32 && b < Word32 && c < Word32
    ensures DimBytes([a, b, c]) == WordBytes(a) + WordBytes(b) + WordBytes(c)
    ensures DimBytes([a]) == WordBytes(a)
  {
    hide WordBytes;
    assert [a, b, c][..2] == [a, b] && [a, b][..1] == [a] && [a][..0] == [];
    assert DimBytes([a]) == DimBytes([]) + WordBytes(a);
    assert DimBytes([a, b]) == DimBytes([a]) + WordBytes(b);
  }

  lemma HeaderReadsBack(data: Bytes, o: nat, h: Header)
    requires VersionFits(h) && HasAt(data, o, HeaderBytes(h))
    ensures ReadHeader(data, o) == Ok((h, o + |HeaderBytes(h)|))
  {
    hide Word, Slice, DimBytes;
    var magic := match h.format case Ggml => MagicGgml case Ggmf => MagicGgmf case Ggjt => MagicGgjt;
    if h.format == Ggml {
      SliceReadsBack(data, o, magic);
    } else {
      HasParts(data, o, magic, WordBytes(h.version));
      SliceReadsBack(data, o, magic);
      WordReadsBack(data, o + 4, h.version);
      assert Words(data, o + 4, 1).value[0] == Word(data, o + 4 + 4 * 0);
    }
  }

  lemma SevenWords(p: Params)
    requires ParamsFit(p)
    ensures var w := [p.vocab, p.embd, p.mult, p.head, p.layer, p.rot, p.ftype];
            AllWords(w) && DimBytes(w) == ParamsBytes(p)
  {
    hide WordBytes;
    var w := [p.vocab, p.embd, p.mult, p.head, p.layer, p.rot, p.ftype];
    assert w[..6] == [p.vocab, p.embd, p.mult, p.head, p.layer, p.rot];
    assert w[..6][..5] == [p.vocab, p.embd, p.mult, p.head, p.layer];
    assert [p.vocab, p.embd, p.mult, p.head, p.layer][..4] == [p.vocab, p.embd, p.mult, p.head];
    assert [p.vocab, p.embd, p.mult, p.head][..3] == [p.vocab, p.embd, p.mult];
    ThreeWords(p.vocab, p.embd, p.mult);
    assert DimBytes([p.vocab, p.embd, p.mult, p.head]) == DimBytes([p.vocab, p.embd, p.mult]) + WordBytes(p.head);
    assert DimBytes([p.vocab, p.embd, p.mult, p.head, p.layer])
        == DimBytes([p.vocab, p.embd, p.mult, p.head]) + WordBytes(p.layer);
    assert DimBytes(w[..6]) == DimBytes([p.vocab, p.embd, p.mult, p.head, p.layer]) + WordBytes(p.rot);
  }

  lemma ParamsReadBack(data: Bytes, o: nat, p: Params)
    requires ParamsFit(p) && HasAt(data, o, ParamsBytes(p))
    ensures ReadParams(data, o) == Ok((p, o + 28))
  {
    hide DimBytes, ParamsBytes, Word;
    SevenWords(p);
    WordsAre(data, o, [p.vocab, p.embd, p.mult, p.head, p.layer, p.rot, p.ftype]);
  }

  lemma TokenReadsBack(data: Bytes, o: nat, t: Token, scores: bool)
    requires TokenFits(t, scores) && HasAt(data, o, TokenBytes(t, scores))
    ensures ReadToken(data, o, scores) == Ok((t, o + |TokenBytes(t, scores)|))
  {
    hide Word, WordBytes, Slice;
    var length := WordBytes(|t.text|);
    HasParts(data, o, length + t.text, if scores then t.score else []);
    HasParts(data, o, length, t.text);
    WordReadsBack(data, o, |t.text|);
    SliceReadsBack(data, o + 4, t.text);
    assert Words(data, o, 1).value[0] == Word(data, o + 4 * 0);
  }

  lemma {:induction false} VocabReadsBack(data: Bytes, o: nat, tokens: seq<Token>, scores: bool)
    requires (forall t :: t in tokens ==> TokenFits(t, scores)) && HasAt(data, o, VocabBytes(tokens, scores))
    ensures ReadVocab(data, o, |tokens|, scores) == Ok((tokens, o + |VocabBytes(tokens, scores)|))
    decreases |tokens|
  {
    hide ReadToken, TokenBytes;
    if tokens != [] {
      HasParts(data, o, TokenBytes(tokens[0], scores), VocabBytes(tokens[1..], scores));
      TokenReadsBack(data, o, tokens[0], scores);
      VocabReadsBack(data, o + |TokenBytes(tokens[0], scores)|, tokens[1..], scores);
      assert tokens == [tokens[0]] + tokens[1..];
    }
  }

  /** A tensor header reads back wherever it lies, whatever follows it. */
  lemma ReadHead(data: Bytes, o: nat, t: SourceTensor, quants: Quants, padded: bool)
    requires WordsFit(t) && t.dtype in quants && HasAt(data, o, HeadBytes(t))
    ensures var start := o + |HeadBytes(t)| + if padded then PadLength(o + |HeadBytes(t)|) else 0;
            var length := ByteCount(t.dims, quants[t.dtype]);
            ReadTensor(data, o, padded, quants)
              == Ok((TensorInfo(t.name, t.dims, t.dtype, start, length), start + length))
  {
    hide Word, WordBytes, DimBytes, Slice, ByteCount, PadLength;
    var n, l := |t.dims|, |t.name|;
    var three := WordBytes(n) + WordBytes(l) + WordBytes(t.dtype);
    ThreeWords(n, l, t.dtype);
    HasParts(data, o, three + DimBytes(t.dims), t.name);
    HasParts(data, o, three, DimBytes(t.dims));
    WordsAre(data, o, [n, l, t.dtype]);
    WordsAre(data, o + 12, t.dims);
    SliceReadsBack(data, o + 12 + 4 * n, t.name);
  }

  lemma {:induction false} TensorsReadBack(data: Bytes, o: nat, ts: seq<SourceTensor>, padded: bool, quants: Quants)
    requires TensorsFit(ts, o, padded, quants) && (forall t :: t in ts ==> WordsFit(t))
    requires HasAt(data, o, TensorsBytes(ts, o, padded, quants))
    requires o + |TensorsBytes(ts, o, padded, quants)| == |data|
    ensures ReadTensors(data, o, padded, quants) == Ok((InfosOf(ts, o), |data|))
    decreases |ts|
  {
    hide ReadTensor, HeadBytes, ByteCount, PadLength, WordsFit;
    if ts != [] {
      var t := ts[0];
      var next := o + |TensorBytes(t)|;
      HasParts(data, o, TensorBytes(t), TensorsBytes(ts[1..], next, padded, quants));
      HasParts(data, o, HeadBytes(t) + t.padding, t.data);
      HasParts(data, o, HeadBytes(t), t.padding);
      ReadHead(data, o, t, quants, padded);
      TensorsReadBack(data, next, ts[1..], padded, quants);
    }
  }

  /**
   Loading what was written gives back the header, the parameters, the vocabulary and the
   tensor headers with their byte ranges, and the final offset is the length of the file.
   */
  lemma LoadUndoesWrite(m: Model, quants: Quants)
    requires WellFormed(m, quants)
    ensures var data := Written(m, quants);
            var infos := InfosOf(m.tensors, |FrontBytes(m)|);
            ReadFile(data, 0, quants)
              == Ok((File(m.header, m.params, FeedForward(infos).value, m.vocab, infos), |data|))
  {
    hide ReadHeader, ReadParams, ReadVocab, ReadTensors;
    hide HeaderBytes, ParamsBytes, VocabBytes, TensorsBytes, FeedForward;
    var data := Written(m, quants);
    var padded, scores := m.header.format == Ggjt, m.header.format != Ggml;
    var header, params, vocab := HeaderBytes(m.header), ParamsBytes(m.params), VocabBytes(m.vocab, scores);
    var front := FrontBytes(m);
    var tensors := TensorsBytes(m.tensors, |front|, padded, quants);
    assert HasAt(data, 0, front + tensors);
    HasParts(data, 0, front, tensors);
    HasParts(data, 0, header + params, vocab);
    HasParts(data, 0, header, params);
    HeaderReadsBack(data, 0, m.header);
    ParamsReadBack(data, |header|, m.params);
    VocabReadsBack(data, |header| + 28, m.vocab, scores);
    TensorsReadBack(data, |front|, m.tensors, padded, quants);
  }

  /** The byte ranges that loading gives back hold the written bytes. */
  lemma {:induction false} RangesHoldData(data: Bytes, o: nat, ts: seq<SourceTensor>, padded: bool, quants: Quants,
                                          i: nat)
    requires TensorsFit(ts, o, padded, quants) && (forall t :: t in ts ==> WordsFit(t))
    requires HasAt(data, o, TensorsBytes(ts, o, padded, quants)) && i < |ts|
    ensures |InfosOf(ts, o)| == |ts|
    ensures var info := InfosOf(ts, o)[i];
            info.name == ts[i].name && info.length == |ts[i].data| && info.start >= 0
              && HasAt(data, info.start, ts[i].data)
    decreases |ts|
  {
    hide HeadBytes, ByteCount, PadLength, WordsFit, TensorFits;
    var t := ts[0];
    var next := o + |TensorBytes(t)|;
    HasParts(data, o, TensorBytes(t), TensorsBytes(ts[1..], next, padded, quants));
    HasParts(data, o, HeadBytes(t) + t.padding, t.data);
    InfosCount(ts[1..], next);
    if i > 0 {
      RangesHoldData(data, next, ts[1..], padded, quants, i - 1);
    }
  }

  lemma {:induction false} InfosCount(ts: seq<SourceTensor>, o: nat)
    requires forall t :: t in ts ==> WordsFit(t)
    ensures |InfosOf(ts, o)| == |ts|
    decreases |ts|
  {
    if ts != [] { InfosCount(ts[1..], o + |TensorBytes(ts[0])|); }
  }

  // ---------------------------------------------------------------- files that are cut off or stall

  lemma HasAtCut(data: Bytes, o: nat, piece: Bytes, n: nat)
    requires HasAt(data, o, piece) && o + |piece| <= n <= |data|
    ensures HasAt(data[..n], o, piece)
  {
    assert data[..n][o..o + |piece|] == data[o..o + |piece|];
  }

  lemma {:induction false} LastTail(ts: seq<SourceTensor>, o: nat, padded: bool, quants: Quants)
    requires ts != [] && TensorsFit(ts, o, padded, quants)
    ensures var last := ts[|ts| - 1];
            |TensorsBytes(ts, o, padded, quants)| >= 12 + |last.padding| + |last.data|
    decreases |ts|
  {
    if |ts| > 1 { LastTail(ts[1..], o + |TensorBytes(ts[0])|, padded, quants); }
  }

  /** The tensors of a file that ends inside the last tensor's padding or data. */
  lemma {:induction false} TensorsReadCut(data: Bytes, o: nat, ts: seq<SourceTensor>, padded: bool, quants: Quants,
                                          n: nat)
    requires ts != [] && TensorsFit(ts, o, padded, quants) && (forall t :: t in ts ==> WordsFit(t))
    requires HasAt(data, o, TensorsBytes(ts, o, padded, quants))
    requires o + |TensorsBytes(ts, o, padded, quants)| == |data|
    requires var last := ts[|ts| - 1]; |data| - |last.padding| - |last.data| <= n <= |data|
    ensures ReadTensors(data[..n], o, padded, quants) == Ok((InfosOf(ts, o), |data|))
    decreases |ts|
  {
    hide ReadTensor, HeadBytes, ByteCount, PadLength, WordsFit, HasAt;
    var t, cut := ts[0], data[..n];
    var next := o + |TensorBytes(t)|;
    HasParts(data, o, TensorBytes(t), TensorsBytes(ts[1..], next, padded, quants));
    HasParts(data, o, HeadBytes(t) + t.padding, t.data);
    HasParts(data, o, HeadBytes(t), t.padding);
    HeadSize(t);
    if |ts| == 1 {
      assert ts[1..] == [];
    } else {
      LastTail(ts[1..], next, padded, quants);
      TensorsReadCut(data, next, ts[1..], padded, quants, n);
    }
    HasAtCut(data, o, HeadBytes(t), n);
    ReadHead(cut, o, t, quants, padded);
  }

  lemma HeadSize(t: SourceTensor)
    requires WordsFit(t)
    ensures |HeadBytes(t)| == 12 + 4 * |t.dims| + |t.name|
  {
  }

  /**
   A file that was cut anywhere inside the padding or the data of its last tensor loads like
   the whole file, with a final offset behind its end.
   */
  lemma CutFileLoads(m: Model, quants: Quants, n: nat)
    requires WellFormed(m, quants)
    requires m.tensors != [] ==>
               var last := m.tensors[|m.tensors| - 1];
               |Written(m, quants)| - |last.padding| - |last.data| <= n < |Written(m, quants)|
    ensures m.tensors != []
    ensures var data := Written(m, quants);
            && n <= |data| && ReadFile(data[..n], 0, quants) == ReadFile(data, 0, quants)
            && ReadFile(data[..n], 0, quants).Ok? && ReadFile(data[..n], 0, quants).value.1 > |data[..n]|
  {
    hide ReadHeader, ReadParams, ReadVocab, ReadTensors;
    hide HeaderBytes, ParamsBytes, VocabBytes, TensorsBytes, FeedForward;
    hide TensorsFit;
    HasTensors(m, quants);
    LoadUndoesWrite(m, quants);
    var data, front := Written(m, quants), FrontBytes(m);
    var cut, padded, scores := data[..n], m.header.format == Ggjt, m.header.format != Ggml;
    var header, params, vocab := HeaderBytes(m.header), ParamsBytes(m.params), VocabBytes(m.vocab, scores);
    var tensors := TensorsBytes(m.tensors, |front|, padded, quants);
    LastTail(m.tensors, |front|, padded, quants);
    assert HasAt(data, 0, front + tensors);
    HasParts(data, 0, front, tensors);
    HasAtCut(data, 0, front, n);
    HasParts(cut, 0, header + params, vocab);
    HasParts(cut, 0, header, params);
    HeaderReadsBack(cut, 0, m.header);
    ParamsReadBack(cut, |header|, m.params);
    VocabReadsBack(cut, |header| + 28, m.vocab, scores);
    TensorsReadCut(data, |front|, m.tensors, padded, quants, n);
  }

  lemma HasTensors(m: Model, quants: Quants)
    requires WellFormed(m, quants)
    ensures m.tensors != []
  {
  }

  /** An unpadded file without tokens, with one tensor of 8-bit integers whose byte count is -45. */
  function StallingFile(): Bytes {
    MagicGgmf + WordBytes(1) + ParamsBytes(Params(0, 0, 0, 0, 0, 0, 0)) + HeadBytes(StallingTensor())
  }

  function StallingTensor(): (t: SourceTensor)
    ensures WordsFit(t)
  {
    SourceTensor([0x61, 0x61, 0x61, 0x61, 0x61, 0x61, 0x61, 0x61, 0x61, 0x61, 0x61, 0x61, 0x61, 0x61, 0x61,
                  0x61, 0x61, 0x61, 0x61, 0x61, 0x61], [11071, 844709, 1972539689], 24, [], [])
  }

  /** A whole file that the loader never finishes, with the size of 8-bit integers that the table has. */
  lemma StallingFileStalls(quants: Quants)
    requires 24 in quants && quants[24] == Quant(1, 1)
    ensures ReadFile(StallingFile(), 0, quants) == Err(Stalls)
  {
    hide ReadHeader, ReadParams, ReadTensor, HeaderBytes, ParamsBytes, HeadBytes, WordBytes, ByteCount, HasAt;
    var h, p, t := Header(Ggmf, 1), Params(0, 0, 0, 0, 0, 0, 0), StallingTensor();
    var header, params, head, data := HeaderBytes(h), ParamsBytes(p), HeadBytes(t), StallingFile();
    GgmfHeader();
    assert data == (header + params) + head;
    HasItself(data);
    HasParts(data, 0, header + params, head);
    HasParts(data, 0, header, params);
    HeaderReadsBack(data, 0, h);
    ParamsReadBack(data, |header|, p);
    ReadHead(data, |header| + 28, t, quants, false);
    OverflowCount(quants[24]);
    HeadSize(t);
  }

  lemma HasItself(data: Bytes)
    ensures HasAt(data, 0, data)
  {
    assert data[0..|data|] == data;
  }

  lemma GgmfHeader()
    ensures HeaderBytes(Header(Ggmf, 1)) == MagicGgmf + WordBytes(1)
  {
  }
}
