/**
 `Qwen2MoeModel` in convert_hf_to_gguf.py collects the expert weights of each layer in a
 buffer and stacks them once the layer is complete. Whatever the order in which the
 tensors arrive, each merged tensor comes out once, with the experts in index order.
 */
module ExpertStacking {
  import opened Text

  datatype Proj = Down | Gate | Up

  /** One expert weight of a layer. */
  datatype Key = Key(xid: nat, proj: Proj)

  datatype Arrival<T> = Arrival(layer: nat, key: Key, data: T)

  /** A merged tensor: the weights of all experts of a layer, stacked. */
  datatype Output<T> = Merged(layer: nat, proj: Proj, stack: seq<T>)

  datatype ConversionError = NoSuchLayer | MissingExpert | UnprocessedExperts

  type Buffers<T> = seq<map<Key, T>>

  type Outcome<T> = Result<(Buffers<T>, seq<Output<T>>), ConversionError>

  // ---------------------------------------------------------------- one arrival

  function ProjKeys(n: nat, proj: Proj): (r: set<Key>)
    ensures forall k :: k in r <==> k.xid < n && k.proj == proj
  {
    if n == 0 then {} else ProjKeys(n - 1, proj) + {Key(n - 1, proj)}
  }

  function LayerKeys(n: nat): (r: set<Key>)
    ensures forall k :: k in r <==> k.xid < n
  {
    ProjKeys(n, Down) + ProjKeys(n, Gate) + ProjKeys(n, Up)
  }

  function Stacked<T>(buffer: map<Key, T>, n: nat, proj: Proj): (r: seq<T>)
    requires ProjKeys(n, proj) <= buffer.Keys
    ensures |r| == n && forall x :: 0 <= x < n ==> r[x] == buffer[Key(x, proj)]
  {
    seq(n, x requires 0 <= x < n => buffer[Key(x, proj)])
  }

  function LayerOutputs<T>(layer: nat, buffer: map<Key, T>, n: nat): (r: seq<Output<T>>)
    requires LayerKeys(n) <= buffer.Keys
    ensures |r| == 3
  {
    [Merged(layer, Down, Stacked(buffer, n, Down)),
     Merged(layer, Gate, Stacked(buffer, n, Gate)),
     Merged(layer, Up, Stacked(buffer, n, Up))]
  }

  function Step<T>(buffers: Buffers<T>, a: Arrival<T>, n: nat): Outcome<T> {
    if a.layer >= |buffers| then Err(NoSuchLayer) else
    var buffer := buffers[a.layer][a.key := a.data];
    if |buffer| >= n * 3 then
      if LayerKeys(n) <= buffer.Keys
      then Ok((buffers[a.layer := buffer - LayerKeys(n)], LayerOutputs(a.layer, buffer, n)))
      else Err(MissingExpert)
    else Ok((buffers[a.layer := buffer], []))
  }

  // ---------------------------------------------------------------- the class

  class Qwen2Moe<T> {
    const nExperts: nat
    const blockCount: nat
    var experts: Option<Buffers<T>>

    ghost function View(): Buffers<T>
      reads this
    {
      if experts.Some? then experts.value else seq(blockCount, _ => map[])
    }

    constructor (nExperts: nat, blockCount: nat)
      ensures this.nExperts == nExperts && this.blockCount == blockCount
      ensures View() == seq(blockCount, _ => map[])
    {
      this.nExperts := nExperts;
      this.blockCount := blockCount;
      experts := None;
    }

    /** Takes the weights of one projection out of a buffer, in expert order. */
    method TakeProjection(buffer: map<Key, T>, proj: Proj) returns (r: Option<seq<T>>, rest: map<Key, T>)
      ensures r.Some? <==> ProjKeys(nExperts, proj) <= buffer.Keys
      ensures r.Some? ==> r.value == Stacked(buffer, nExperts, proj) && rest == buffer - ProjKeys(nExperts, proj)
    {
      var datas: seq<T> := [];
      rest := buffer;
      for xid := 0 to nExperts
        invariant |datas| == xid
        invariant forall x :: 0 <= x < xid ==> Key(x, proj) in buffer && datas[x] == buffer[Key(x, proj)]
        invariant rest == buffer - ProjKeys(xid, proj)
      {
        var ename := Key(xid, proj);
        assert ename !in ProjKeys(xid, proj);
        if ename !in rest {
          assert ename in ProjKeys(nExperts, proj);
          return None, rest;
        }
        datas := datas + [rest[ename]];
        rest := rest - {ename};
      }
      return Some(datas), rest;
    }

    method ModifyTensors(a: Arrival<T>) returns (r: Result<seq<Output<T>>, ConversionError>)
      modifies this
      ensures var s := Step(old(View()), a, nExperts);
              if s.Err? then r == Err(s.error) else r == Ok(s.value.1) && View() == s.value.0
    {
      if experts.None? {
        experts := Some(seq(blockCount, _ => map[]));
      }
      var buffers := experts.value;
      if a.layer >= |buffers| {
        return Err(NoSuchLayer);
      }
      var buffer := buffers[a.layer][a.key := a.data];
      experts := Some(buffers[a.layer := buffer]);
      if |buffer| >= nExperts * 3 {
        ProjectionsApart(buffer, nExperts);
        var down, rest1 := TakeProjection(buffer, Down);
        if down.None? {
          return Err(MissingExpert);
        }
        var gate, rest2 := TakeProjection(rest1, Gate);
        if gate.None? {
          return Err(MissingExpert);
        }
        var up, rest3 := TakeProjection(rest2, Up);
        if up.None? {
          return Err(MissingExpert);
        }
        experts := Some(buffers[a.layer := rest3]);
        return Ok([Merged(a.layer, Down, down.value), Merged(a.layer, Gate, gate.value),
          Merged(a.layer, Up, up.value)]);
      }
      return Ok([]);
    }

    /** The check after all tensors: nothing may be left in a buffer. */
    method CheckLeftovers() returns (r: Result<(), ConversionError>)
      ensures r.Ok? <==> forall i :: 0 <= i < |View()| ==> View()[i] == map[]
    {
      if experts.Some? {
        for i := 0 to |experts.value|
          invariant forall j :: 0 <= j < i ==> experts.value[j] == map[]
        {
          if |experts.value[i]| > 0 {
            assert View()[i] != map[];
            return Err(UnprocessedExperts);
          }
        }
      }
      return Ok(());
    }
  }

  /** Taking one projection away leaves the others complete and unchanged. */
  lemma ProjectionsApart<T>(buffer: map<Key, T>, n: nat)
    ensures var rest1 := buffer - ProjKeys(n, Down);
            var rest2 := rest1 - ProjKeys(n, Gate);
            && (ProjKeys(n, Gate) <= rest1.Keys <==> ProjKeys(n, Gate) <= buffer.Keys)
            && (ProjKeys(n, Up) <= rest2.Keys <==> ProjKeys(n, Up) <= buffer.Keys)
            && (ProjKeys(n, Gate) <= rest1.Keys ==> Stacked(rest1, n, Gate) == Stacked(buffer, n, Gate))
            && (ProjKeys(n, Up) <= rest2.Keys ==> Stacked(rest2, n, Up) == Stacked(buffer, n, Up))
            && rest2 - ProjKeys(n, Up) == buffer - LayerKeys(n)
  {
    assert ProjKeys(n, Down) !! ProjKeys(n, Gate) && ProjKeys(n, Down) + ProjKeys(n, Gate) !! ProjKeys(n, Up);
  }

  // ---------------------------------------------------------------- whole streams

  function Run<T>(buffers: Buffers<T>, stream: seq<Arrival<T>>, n: nat): Outcome<T>
    decreases |stream|
  {
    if stream == [] then Ok((buffers, [])) else
    var first := Step(buffers, stream[0], n);
    if first.Err? then first else
    var rest := Run(first.value.0, stream[1..], n);
    if rest.Err? then rest else Ok((rest.value.0, first.value.1 + rest.value.1))
  }

  /** The weights of a model: one per layer, expert and projection. */
  type Weights<!T> = (nat, Key) -> T

  /** Every tensor of the stream is an expert weight of the model. */
  ghost predicate Expected<T>(stream: seq<Arrival<T>>, layers: nat, n: nat, weights: Weights<T>) {
    forall i :: 0 <= i < |stream| ==>
      (&& stream[i].layer < layers
       && stream[i].key.xid < n
       && stream[i].data == weights(stream[i].layer, stream[i].key))
  }

  ghost predicate SamePlace<T>(a: Arrival<T>, b: Arrival<T>) {
    a.layer == b.layer && a.key == b.key
  }

  ghost predicate NoRepeats<T>(stream: seq<Arrival<T>>) {
    forall i, j :: 0 <= i < j < |stream| ==> !SamePlace(stream[i], stream[j])
  }

  ghost predicate Arrives<T>(stream: seq<Arrival<T>>, layer: nat, key: Key) {
    exists i :: 0 <= i < |stream| && stream[i].layer == layer && stream[i].key == key
  }

  /** The keys of a layer that a stream brings. */
  function KeysOf<T>(stream: seq<Arrival<T>>, layer: nat): (r: set<Key>)
    ensures forall key :: key in r <==> Arrives(stream, layer, key)
  {
    set i | 0 <= i < |stream| && stream[i].layer == layer :: stream[i].key
  }

  ghost predicate LayerArrives<T>(stream: seq<Arrival<T>>, layer: nat, n: nat) {
    forall key: Key :: key.xid < n ==> Arrives(stream, layer, key)
  }

  /** The layers in the order in which their last weight arrives, after `before` has arrived. */
  function Finished<T>(before: seq<Arrival<T>>, stream: seq<Arrival<T>>, n: nat): (r: seq<nat>)
    decreases |stream|
  {
    if stream == [] then [] else
    var now := before + [stream[0]];
    var layer := stream[0].layer;
    (if KeysOf(now, layer) == LayerKeys(n) then [layer] else []) + Finished(now, stream[1..], n)
  }

  /** The merged tensors of one layer of the model. */
  function LayerMerged<T>(layer: nat, n: nat, weights: Weights<T>): (r: seq<Output<T>>) {
    [Merged(layer, Down, StackOf(layer, Down, n, weights)),
     Merged(layer, Gate, StackOf(layer, Gate, n, weights)),
     Merged(layer, Up, StackOf(layer, Up, n, weights))]
  }

  /** The weights of a projection for experts 0, 1, ..., n - 1. */
  function StackOf<T>(layer: nat, proj: Proj, n: nat, weights: Weights<T>): (r: seq<T>) {
    seq(n, x requires 0 <= x < n => weights(layer, Key(x, proj)))
  }

  function AllMerged<T>(order: seq<nat>, n: nat, weights: Weights<T>): (r: seq<Output<T>>) {
    if order == [] then [] else LayerMerged(order[0], n, weights) + AllMerged(order[1..], n, weights)
  }

  // ---------------------------------------------------------------- what the buffers hold

  /** A buffer holds what has arrived for its layer, and nothing once the layer is complete. */
  ghost predicate Holds<T>(buffer: map<Key, T>, seen: set<Key>, layer: nat, n: nat, weights: Weights<T>) {
    && (seen == LayerKeys(n) ==> buffer == map[])
    && (seen != LayerKeys(n) ==> buffer.Keys == seen)
    && (forall key :: key in buffer ==> buffer[key] == weights(layer, key))
  }

  ghost predicate AllHold<T>(buffers: Buffers<T>, before: seq<Arrival<T>>, layers: nat, n: nat, weights: Weights<T>) {
    && |buffers| == layers
    && forall l :: 0 <= l < layers ==> Holds(buffers[l], KeysOf(before, l), l, n, weights)
  }

  lemma {:induction false} ProjKeysCount(n: nat, proj: Proj)
    ensures |ProjKeys(n, proj)| == n
  {
    if n > 0 {
      ProjKeysCount(n - 1, proj);
      assert Key(n - 1, proj) !in ProjKeys(n - 1, proj);
    }
  }

  lemma LayerKeysCount(n: nat)
    ensures |LayerKeys(n)| == n * 3
  {
    ProjKeysCount(n, Down);
    ProjKeysCount(n, Gate);
    ProjKeysCount(n, Up);
    assert ProjKeys(n, Down) !! ProjKeys(n, Gate) && ProjKeys(n, Down) + ProjKeys(n, Gate) !! ProjKeys(n, Up);
  }

  lemma SubsetOfSameSize<X>(a: set<X>, b: set<X>)
    requires a <= b
    ensures |a| <= |b|
    ensures |a| == |b| ==> a == b
  {
    assert b == a + (b - a);
    assert |b| == |a| + |b - a|;
  }

  /** The size test fires exactly when the layer is complete. */
  lemma SizeTest(seen: set<Key>, n: nat)
    requires seen <= LayerKeys(n)
    ensures |seen| >= n * 3 <==> seen == LayerKeys(n)
  {
    LayerKeysCount(n);
    SubsetOfSameSize(seen, LayerKeys(n));
  }

  lemma KeysOfLast<T>(before: seq<Arrival<T>>, a: Arrival<T>, layer: nat)
    ensures KeysOf(before + [a], layer) == KeysOf(before, layer) + (if a.layer == layer then {a.key} else {})
  {
    var now := before + [a];
    assert now[|before|] == a;
    forall key
      ensures key in KeysOf(now, layer) <==> key in KeysOf(before, layer) || (a.layer == layer && a.key == key)
    {
      if Arrives(before, layer, key) {
        var i :| 0 <= i < |before| && before[i].layer == layer && before[i].key == key;
        assert now[i] == before[i];
      }
    }
  }

  lemma NewKey<T>(before: seq<Arrival<T>>, a: Arrival<T>, rest: seq<Arrival<T>>)
    requires NoRepeats(before + [a] + rest)
    ensures a.key !in KeysOf(before, a.layer)
  {
    var all := before + [a] + rest;
    assert all[|before|] == a;
    forall i | 0 <= i < |before| ensures !SamePlace(before[i], a) {
      assert all[i] == before[i];
    }
  }

  /** One new weight in the buffer of its layer. */
  lemma BufferHolds<T>(buffer: map<Key, T>, seen: set<Key>, a: Arrival<T>, n: nat, weights: Weights<T>)
    requires Holds(buffer, seen, a.layer, n, weights)
    requires seen <= LayerKeys(n) && a.key !in seen && a.key.xid < n
    requires a.data == weights(a.layer, a.key)
    ensures var now := buffer[a.key := a.data];
            && (|now| >= n * 3 <==> seen + {a.key} == LayerKeys(n))
            && (|now| >= n * 3 ==> now.Keys == LayerKeys(n) && now - LayerKeys(n) == map[])
            && (|now| < n * 3 ==> Holds(now, seen + {a.key}, a.layer, n, weights))
            && (forall key :: key in now ==> now[key] == weights(a.layer, key))
  {
    hide ProjKeys;
    var now := buffer[a.key := a.data];
    assert a.key in LayerKeys(n);
    hide LayerKeys;
    assert seen != LayerKeys(n);
    assert now.Keys == seen + {a.key};
    assert |now| == |now.Keys|;
    SizeTest(seen + {a.key}, n);
    if now.Keys == LayerKeys(n) {
      assert (now - LayerKeys(n)).Keys == {};
    }
  }

  /** One new weight: the layer's three merged tensors come out exactly when it is the last one. */
  lemma StepHolds<T>(buffers: Buffers<T>, before: seq<Arrival<T>>, a: Arrival<T>, layers: nat, n: nat,
                     weights: Weights<T>)
    requires AllHold(buffers, before, layers, n, weights)
    requires a.layer < layers && a.key.xid < n && a.data == weights(a.layer, a.key)
    requires a.key !in KeysOf(before, a.layer) && KeysOf(before, a.layer) <= LayerKeys(n)
    ensures var complete := KeysOf(before + [a], a.layer) == LayerKeys(n);
            var s := Step(buffers, a, n);
            && s.Ok?
            && AllHold(s.value.0, before + [a], layers, n, weights)
            && s.value.1 == if complete then LayerMerged(a.layer, n, weights) else []
  {
    hide LayerKeys, KeysOf, LayerMerged, LayerOutputs;
    var l := a.layer;
    var now := buffers[l][a.key := a.data];
    BufferHolds(buffers[l], KeysOf(before, l), a, n, weights);
    KeysOfLast(before, a, l);
    if |now| >= n * 3 {
      LayerOutputsAre(l, now, n, weights);
    }
    var next := Step(buffers, a, n).value.0;
    forall k | 0 <= k < layers ensures Holds(next[k], KeysOf(before + [a], k), k, n, weights) {
      KeysOfLast(before, a, k);
      assert Holds(buffers[k], KeysOf(before, k), k, n, weights);
      if k != l {
        assert KeysOf(before, k) + {} == KeysOf(before, k);
      }
    }
  }

  lemma LayerOutputsAre<T>(layer: nat, buffer: map<Key, T>, n: nat, weights: Weights<T>)
    requires buffer.Keys == LayerKeys(n)
    requires forall key :: key in buffer ==> buffer[key] == weights(layer, key)
    ensures LayerOutputs(layer, buffer, n) == LayerMerged(layer, n, weights)
  {
    assert forall p :: Stacked(buffer, n, p) == StackOf(layer, p, n, weights);
  }

  /**
   Any stream without repeats, in any order: the conversion does not fail, the layers that
   become complete come out stacked, and the buffers hold the rest.
   */
  lemma {:induction false} RunHolds<T>(buffers: Buffers<T>, before: seq<Arrival<T>>, stream: seq<Arrival<T>>,
                                        layers: nat, n: nat, weights: Weights<T>)
    requires AllHold(buffers, before, layers, n, weights)
    requires Expected(before + stream, layers, n, weights) && NoRepeats(before + stream)
    ensures var r := Run(buffers, stream, n);
            && r.Ok?
            && AllHold(r.value.0, before + stream, layers, n, weights)
            && r.value.1 == AllMerged(Finished(before, stream, n), n, weights)
    decreases |stream|
  {
    hide Step, AllHold, KeysOf, LayerKeys, LayerMerged, NoRepeats;
    if stream == [] {
      assert before + stream == before;
    } else {
      var a := stream[0];
      var now := before + [a];
      assert now + stream[1..] == before + stream;
      NextIsNew(before, stream, layers, n, weights);
      StepHolds(buffers, before, a, layers, n, weights);
      RunHolds(Step(buffers, a, n).value.0, now, stream[1..], layers, n, weights);
      AllMergedFirst(a.layer, Finished(now, stream[1..], n), n, weights);
    }
  }

  lemma AllMergedFirst<T>(layer: nat, order: seq<nat>, n: nat, weights: Weights<T>)
    ensures AllMerged([layer] + order, n, weights) == LayerMerged(layer, n, weights) + AllMerged(order, n, weights)
    ensures [] + order == order && [] + AllMerged(order, n, weights) == AllMerged(order, n, weights)
  {
    assert ([layer] + order)[1..] == order;
  }

  /** The next tensor of the stream is an expected one that has not arrived yet. */
  lemma NextIsNew<T>(before: seq<Arrival<T>>, stream: seq<Arrival<T>>, layers: nat, n: nat, weights: Weights<T>)
    requires stream != []
    requires Expected(before + stream, layers, n, weights) && NoRepeats(before + stream)
    ensures var a := stream[0];
            && a.layer < layers && a.key.xid < n && a.data == weights(a.layer, a.key)
            && a.key !in KeysOf(before, a.layer) && a.key in KeysOf(before + stream, a.layer)
            && (forall l :: KeysOf(before, l) <= KeysOf(before + stream, l) <= LayerKeys(n))
  {
    var a := stream[0];
    assert before + [a] + stream[1..] == before + stream;
    NewKey(before, a, stream[1..]);
    assert (before + stream)[|before|] == a;
    forall l ensures KeysOf(before, l) <= KeysOf(before + stream, l) <= LayerKeys(n) {
      KeysGrow(before, stream, l);
      KeysWithin(before + stream, l, layers, n, weights);
    }
  }

  // ---------------------------------------------------------------- order independence

  ghost predicate IsPermutationOf(order: seq<nat>, layers: nat) {
    && (forall i :: 0 <= i < |order| ==> order[i] < layers)
    && NoDuplicates(order)
    && (forall l: nat :: l < layers ==> l in order)
  }

  ghost predicate IsWhole<T>(stream: seq<Arrival<T>>, layer: nat, n: nat) {
    KeysOf(stream, layer) == LayerKeys(n)
  }

  ghost predicate NoDuplicates(order: seq<nat>) {
    forall i, j :: 0 <= i < j < |order| ==> order[i] != order[j]
  }

  /** Exactly the layers that become complete are finished, each once. */
  lemma {:induction false} FinishedExactly<T>(before: seq<Arrival<T>>, stream: seq<Arrival<T>>, layers: nat, n: nat,
                                              weights: Weights<T>)
    requires Expected(before + stream, layers, n, weights) && NoRepeats(before + stream)
    ensures var order := Finished(before, stream, n);
            && NoDuplicates(order)
            && (forall l: nat :: l in order ==> l < layers)
            && (forall l: nat :: l in order <==> !IsWhole(before, l, n) && IsWhole(before + stream, l, n))
    decreases |stream|
  {
    hide KeysOf, LayerKeys, NoRepeats, Expected, NoDuplicates, IsWhole;
    NoDuplicatesAtFront([], 0);
    if stream == [] {
      assert before + stream == before;
    } else {
      var a := stream[0];
      var now := before + [a];
      assert now + stream[1..] == before + stream;
      NextIsNew(before, stream, layers, n, weights);
      FinishedExactly(now, stream[1..], layers, n, weights);
      var rest := Finished(now, stream[1..], n);
      var order := Finished(before, stream, n);
      IsWholeMeans(now, a.layer, n);
      NoDuplicatesAtFront(rest, a.layer);
      assert order == (if IsWhole(now, a.layer, n) then [a.layer] + rest else rest);
      forall l: nat ensures l in order <==> !IsWhole(before, l, n) && IsWhole(before + stream, l, n) {
        WholeSteps(before, stream, layers, n, weights, l);
        assert l in order <==> l in rest || (l == a.layer && IsWhole(now, l, n));
      }
    }
  }

  lemma NoDuplicatesAtFront(order: seq<nat>, l: nat)
    ensures NoDuplicates([])
    ensures NoDuplicates(order) && l !in order ==> NoDuplicates([l] + order)
  {
  }

  lemma IsWholeMeans<T>(stream: seq<Arrival<T>>, l: nat, n: nat)
    ensures IsWhole(stream, l, n) <==> KeysOf(stream, l) == LayerKeys(n)
  {
  }

  ghost predicate WholeStep<T>(before: seq<Arrival<T>>, a: Arrival<T>, now: seq<Arrival<T>>, all: seq<Arrival<T>>,
                               l: nat, n: nat) {
    && (a.layer == l ==> !IsWhole(before, l, n) && (IsWhole(now, l, n) ==> IsWhole(all, l, n)))
    && (a.layer != l ==> (IsWhole(now, l, n) <==> IsWhole(before, l, n)))
  }

  lemma WholeSteps<T>(before: seq<Arrival<T>>, stream: seq<Arrival<T>>, layers: nat, n: nat, weights: Weights<T>,
                      l: nat)
    requires stream != []
    requires Expected(before + stream, layers, n, weights) && NoRepeats(before + stream)
    ensures WholeStep(before, stream[0], before + [stream[0]], before + stream, l, n)
  {
    hide KeysOf, LayerKeys, NoRepeats, Expected;
    var a := stream[0];
    var now := before + [a];
    assert now + stream[1..] == before + stream;
    NextIsNew(before, stream, layers, n, weights);
    KeysOfLast(before, a, l);
    if a.layer == l {
      KeysGrow(now, stream[1..], l);
      FinishedStep(KeysOf(before, l), KeysOf(now, l), KeysOf(before + stream, l), a.key, n);
    } else {
      assert KeysOf(before, l) + {} == KeysOf(before, l);
    }
  }

  lemma FinishedStep(seen: set<Key>, now: set<Key>, all: set<Key>, key: Key, n: nat)
    requires now == seen + {key} && key !in seen && now <= all <= LayerKeys(n)
    ensures seen != LayerKeys(n)
    ensures now == LayerKeys(n) ==> all == LayerKeys(n)
  {
  }

  lemma KeysGrow<T>(before: seq<Arrival<T>>, stream: seq<Arrival<T>>, layer: nat)
    ensures KeysOf(before, layer) <= KeysOf(before + stream, layer)
  {
    forall key | key in KeysOf(before, layer) ensures key in KeysOf(before + stream, layer) {
      var i :| 0 <= i < |before| && before[i].layer == layer && before[i].key == key;
      assert (before + stream)[i] == before[i];
    }
  }

  lemma KeysWithin<T>(stream: seq<Arrival<T>>, layer: nat, layers: nat, n: nat, weights: Weights<T>)
    requires Expected(stream, layers, n, weights)
    ensures KeysOf(stream, layer) <= LayerKeys(n)
  {
  }

  function Empty<T>(layers: nat): Buffers<T> { seq(layers, _ => map[]) }

  /**
   The leftover check passes after a stream without repeats exactly when no layer got only
   some of its weights.
   */
  lemma LeftoversExactly<T>(stream: seq<Arrival<T>>, layers: nat, n: nat, weights: Weights<T>)
    requires n > 0
    requires Expected(stream, layers, n, weights) && NoRepeats(stream)
    ensures var r := Run(Empty<T>(layers), stream, n);
            && r.Ok?
            && (r.value.0 == Empty<T>(layers) <==>
                  forall l: nat :: l < layers ==> LayerArrives(stream, l, n) || KeysOf(stream, l) == {})
  {
    StartHolds<T>(layers, n, weights);
    assert [] + stream == stream;
    RunHolds(Empty<T>(layers), [], stream, layers, n, weights);
    var buffers := Run(Empty<T>(layers), stream, n).value.0;
    forall l: nat | l < layers
      ensures buffers[l] == map[] <==> LayerArrives(stream, l, n) || KeysOf(stream, l) == {}
    {
      assert Holds(buffers[l], KeysOf(stream, l), l, n, weights);
      KeysWithin(stream, l, layers, n, weights);
      assert LayerArrives(stream, l, n) <==> KeysOf(stream, l) == LayerKeys(n);
      assert buffers[l] == map[] <==> buffers[l].Keys == {};
    }
    if forall l: nat :: l < layers ==> LayerArrives(stream, l, n) || KeysOf(stream, l) == {} {
      assert buffers == Empty<T>(layers);
    } else {
      var l: nat :| l < layers && !(LayerArrives(stream, l, n) || KeysOf(stream, l) == {});
      assert buffers[l] != Empty<T>(layers)[l];
    }
  }

  lemma StartHolds<T>(layers: nat, n: nat, weights: Weights<T>)
    requires n > 0
    ensures AllHold(Empty<T>(layers), [], layers, n, weights)
  {
    assert Key(0, Down) in LayerKeys(n);
    forall l: nat | l < layers ensures KeysOf<T>([], l) == {} {}
  }

  /**
   Order independence: for every order of a complete stream, the merged tensors are those of
   the layers in the order in which they become complete, each layer exactly once, and every
   buffer ends empty, so the leftover check passes.
   */
  lemma StackingIsOrderIndependent<T>(stream: seq<Arrival<T>>, layers: nat, n: nat, weights: Weights<T>)
    requires n > 0
    requires Expected(stream, layers, n, weights) && NoRepeats(stream)
    requires forall l: nat :: l < layers ==> LayerArrives(stream, l, n)
    ensures var order := Finished([], stream, n);
            && IsPermutationOf(order, layers)
            && Run(Empty<T>(layers), stream, n) == Ok((Empty<T>(layers), AllMerged(order, n, weights)))
  {
    hide KeysOf, LayerKeys, NoRepeats, AllHold, Run, Finished;
    StartHolds<T>(layers, n, weights);
    assert [] + stream == stream;
    RunHolds(Empty<T>(layers), [], stream, layers, n, weights);
    FinishedExactly([], stream, layers, n, weights);
    LeftoversExactly(stream, layers, n, weights);
    var order := Finished([], stream, n);
    forall l: nat | l < layers ensures l in order {
      KeysWithin(stream, l, layers, n, weights);
      WholeLayer(stream, l, n);
      assert IsWhole(stream, l, n) && !IsWhole<T>([], l, n);
    }
    forall i | 0 <= i < |order| ensures order[i] < layers {
      assert order[i] in order;
    }
  }

  lemma WholeLayer<T>(stream: seq<Arrival<T>>, l: nat, n: nat)
    requires n > 0 && LayerArrives(stream, l, n) && KeysOf(stream, l) <= LayerKeys(n)
    ensures KeysOf(stream, l) == LayerKeys(n) && KeysOf<T>([], l) != LayerKeys(n)
  {
    assert KeysOf<T>([], l) == {} && Key(0, Down) in LayerKeys(n);
  }

  // ---------------------------------------------------------------- each merged tensor once

  function ProjOf(i: nat): Proj
    requires i < 3
  {
    if i == 0 then Down else if i == 1 then Gate else Up
  }

  lemma {:induction false} MergedAt<T>(order: seq<nat>, n: nat, weights: Weights<T>, i: nat)
    requires i < |order| * 3
    ensures |AllMerged(order, n, weights)| == |order| * 3
    ensures var layer := order[i / 3];
            var proj := ProjOf(i % 3);
            AllMerged(order, n, weights)[i] == Merged(layer, proj, StackOf(layer, proj, n, weights))
  {
    if i >= 3 {
      MergedAt(order[1..], n, weights, i - 3);
      assert (i - 3) / 3 == i / 3 - 1 && (i - 3) % 3 == i % 3;
    } else {
      MergedCount(order[1..], n, weights);
    }
  }

  lemma {:induction false} MergedCount<T>(order: seq<nat>, n: nat, weights: Weights<T>)
    ensures |AllMerged(order, n, weights)| == |order| * 3
  {
    if order != [] { MergedCount(order[1..], n, weights); }
  }

  ghost predicate ComesOut<T>(outputs: seq<Output<T>>, i: nat, layer: nat, proj: Proj) {
    i < |outputs| && outputs[i].layer == layer && outputs[i].proj == proj
  }

  /** The weights of a projection, in expert order. */
  ghost predicate IsStackOf<T>(stack: seq<T>, layer: nat, proj: Proj, n: nat, weights: Weights<T>) {
    |stack| == n && forall x :: 0 <= x < n ==> stack[x] == weights(layer, Key(x, proj))
  }

  /** For each layer and projection there is exactly one merged tensor, in expert order. */
  lemma EachMergedOnce<T>(stream: seq<Arrival<T>>, layers: nat, n: nat, weights: Weights<T>, layer: nat, proj: Proj)
    requires n > 0
    requires Expected(stream, layers, n, weights) && NoRepeats(stream)
    requires forall l: nat :: l < layers ==> LayerArrives(stream, l, n)
    requires layer < layers
    ensures var r := Run(Empty<T>(layers), stream, n);
            && r.Ok?
            && (exists i: nat :: ComesOut(r.value.1, i, layer, proj))
            && (forall i, j: nat ::
                  ComesOut(r.value.1, i, layer, proj) && ComesOut(r.value.1, j, layer, proj) ==> i == j)
            && (forall i: nat :: ComesOut(r.value.1, i, layer, proj) ==>
                  IsStackOf(r.value.1[i].stack, layer, proj, n, weights))
  {
    StackingIsOrderIndependent(stream, layers, n, weights);
    var order := Finished([], stream, n);
    var outputs := AllMerged(order, n, weights);
    MergedCount(order, n, weights);
    forall i: nat | i < |order| * 3
      ensures outputs[i] == Merged(order[i / 3], ProjOf(i % 3), StackOf(order[i / 3], ProjOf(i % 3), n, weights))
    {
      MergedAt(order, n, weights, i);
    }
    assert layer in order;
    var k :| 0 <= k < |order| && order[k] == layer;
    var p := if proj.Down? then 0 else if proj.Gate? then 1 else 2;
    assert (3 * k + p) / 3 == k && (3 * k + p) % 3 == p;
    assert ComesOut(outputs, 3 * k + p, layer, proj);
    forall i: nat | ComesOut(outputs, i, layer, proj) ensures i == 3 * k + p {
      assert order[i / 3] == layer;
    }
  }
}
