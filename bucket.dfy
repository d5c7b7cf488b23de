/**
 * The render-side re-binding of buckets to live style layers
 * (`deserialize` in src/data/bucket.ts).
 *
 * Buckets are built off the rendering thread and carry only the string ids
 * of the style layers they serve. After they cross back, `Deserialize`
 * looks every id up in the live style, drops the ids that no longer resolve,
 * drops a bucket whose ids all fail to resolve, stores the resolved layers
 * (and the first-match resolution of the state-dependent layer ids) in the
 * bucket, and indexes the surviving buckets by layer id.
 */
module Buckets {
  import opened Wrappers

  /** A live style layer. Only its `id` matters here; the rest is opaque. */
  datatype StyleLayer = StyleLayer(id: string, layerType: string)

  /** The live style, seen through its partial layer lookup `getLayer`. */
  datatype Style = Style(layers: map<string, StyleLayer>) {
    function GetLayer(id: string): Option<StyleLayer> {
      if id in layers then Some(layers[id]) else None
    }
  }

  /** The bucket fields that the re-binding reads and writes. */
  class Bucket {
    /** Ids of the style layers that share this bucket (serialized as plain strings). */
    const layerIds: seq<string>
    var hasPattern: bool
    /** Live layers, filled in on the render side. */
    var layers: seq<StyleLayer>
    /** First-match resolution of `stateDependentLayerIds`; `None` entries are `undefined`. */
    var stateDependentLayers: seq<Option<StyleLayer>>
    /** `None` when the bucket has no such list (the field is `undefined`). */
    const stateDependentLayerIds: Option<seq<string>>

    /** A bucket as it arrives from the builder: ids only, no live layers yet. */
    constructor (layerIds: seq<string>, stateDependentLayerIds: Option<seq<string>>, hasPattern: bool)
      ensures this.layerIds == layerIds && this.stateDependentLayerIds == stateDependentLayerIds
      ensures this.hasPattern == hasPattern
      ensures layers == [] && stateDependentLayers == []
    {
      this.layerIds := layerIds;
      this.stateDependentLayerIds := stateDependentLayerIds;
      this.hasPattern := hasPattern;
      layers := [];
      stateDependentLayers := [];
    }
  }

  // ---------------------------------------------------------------------------
  // Resolving layer ids: `layerIds.map(id => style.getLayer(id)).filter(Boolean)`
  // ---------------------------------------------------------------------------

  /** The present values of `xs`, in order (`filter(Boolean)` on lookup results). */
  function Present(xs: seq<Option<StyleLayer>>): (r: seq<StyleLayer>)
    ensures |r| <= |xs|
    ensures forall x :: x in r <==> Some(x) in xs
  {
    if xs == [] then []
    else
      assert xs == [xs[0]] + xs[1..];
      if xs[0].Some? then [xs[0].value] + Present(xs[1..]) else Present(xs[1..])
  }

  /** Every id looked up in the style, position by position. */
  function LookUp(ids: seq<string>, style: Style): (r: seq<Option<StyleLayer>>)
    ensures |r| == |ids|
    ensures forall i :: 0 <= i < |ids| ==> (r[i] == None <==> ids[i] !in style.layers)
  {
    seq(|ids|, i requires 0 <= i < |ids| => style.GetLayer(ids[i]))
  }

  /** The live layers of `ids`, unresolved ids removed. */
  function Resolve(ids: seq<string>, style: Style): (r: seq<StyleLayer>)
    ensures |r| <= |ids|
  {
    Present(LookUp(ids, style))
  }

  lemma {:induction false} PresentAppend(xs: seq<Option<StyleLayer>>, ys: seq<Option<StyleLayer>>)
    ensures Present(xs + ys) == Present(xs) + Present(ys)
  {
    if xs == [] {
      assert xs + ys == ys;
    } else {
      assert (xs + ys)[0] == xs[0];
      assert (xs + ys)[1..] == xs[1..] + ys;
      PresentAppend(xs[1..], ys);
    }
  }

  /**
   * Resolution works id by id and keeps the order of `ids`: resolving a
   * concatenation concatenates the resolutions, and a single id yields its
   * layer or nothing.
   */
  lemma ResolveAppend(a: seq<string>, b: seq<string>, style: Style)
    ensures Resolve(a + b, style) == Resolve(a, style) + Resolve(b, style)
    ensures forall id :: Resolve([id], style) == if id in style.layers then [style.layers[id]] else []
  {
    assert LookUp(a + b, style) == LookUp(a, style) + LookUp(b, style);
    PresentAppend(LookUp(a, style), LookUp(b, style));
  }

  /** A layer is resolved exactly when some id of the bucket looks it up; none is, exactly when no id is in the style. */
  lemma ResolveMembership(ids: seq<string>, style: Style)
    ensures forall l :: l in Resolve(ids, style) <==> exists i :: 0 <= i < |ids| && style.GetLayer(ids[i]) == Some(l)
    ensures Resolve(ids, style) == [] <==> forall i :: 0 <= i < |ids| ==> ids[i] !in style.layers
    ensures |Resolve(ids, style)| <= |ids|
  {
    var look := LookUp(ids, style);
    forall l ensures Some(l) in look <==> exists i :: 0 <= i < |ids| && style.GetLayer(ids[i]) == Some(l) {
      if Some(l) in look {
        var i :| 0 <= i < |look| && look[i] == Some(l);
        assert style.GetLayer(ids[i]) == Some(l);
      }
      if exists i :: 0 <= i < |ids| && style.GetLayer(ids[i]) == Some(l) {
        var i :| 0 <= i < |ids| && style.GetLayer(ids[i]) == Some(l);
        assert look[i] == Some(l);
      }
    }
    if Resolve(ids, style) != [] {
      assert Resolve(ids, style)[0] in Resolve(ids, style);
    }
  }

  /** When every id resolves, nothing is dropped: the layers line up with the ids one to one, duplicates included. */
  lemma {:induction false} ResolveAllPresent(ids: seq<string>, style: Style)
    requires forall i :: 0 <= i < |ids| ==> ids[i] in style.layers
    ensures |Resolve(ids, style)| == |ids|
    ensures forall i :: 0 <= i < |ids| ==> Resolve(ids, style)[i] == style.layers[ids[i]]
  {
    if ids != [] {
      var last := |ids| - 1;
      assert ids == ids[..last] + [ids[last]];
      ResolveAllPresent(ids[..last], style);
      ResolveAppend(ids[..last], [ids[last]], style);
    }
  }

  // ---------------------------------------------------------------------------
  // First match: `layers.filter(l => l.id === lId)[0]`
  // ---------------------------------------------------------------------------

  /** The layers whose id is `id`, in order. */
  function Matching(layers: seq<StyleLayer>, id: string): (r: seq<StyleLayer>)
    ensures forall l :: l in r <==> l in layers && l.id == id
  {
    if layers == [] then []
    else
      assert layers == [layers[0]] + layers[1..];
      if layers[0].id == id then [layers[0]] + Matching(layers[1..], id) else Matching(layers[1..], id)
  }

  /** Element 0 of the matching layers, `None` (`undefined`) when there is none. */
  function FirstMatch(layers: seq<StyleLayer>, id: string): (r: Option<StyleLayer>)
    ensures r.Some? ==> r.value in layers && r.value.id == id
    ensures r == None <==> forall l :: l in layers ==> l.id != id
  {
    var matching := Matching(layers, id);
    if |matching| == 0 then None else Some(matching[0])
  }

  /**
   * The lookup finds the first layer with the id, or nothing exactly when no
   * layer has it; duplicated ids are not an error, the earlier one wins.
   */
  lemma {:induction false} FirstMatchIsFirst(layers: seq<StyleLayer>, id: string)
    ensures FirstMatch(layers, id) == None <==> forall k :: 0 <= k < |layers| ==> layers[k].id != id
    ensures forall k :: 0 <= k < |layers| && layers[k].id == id && (forall j :: 0 <= j < k ==> layers[j].id != id) ==>
              FirstMatch(layers, id) == Some(layers[k])
  {
    if layers != [] {
      FirstMatchIsFirst(layers[1..], id);
      if layers[0].id != id {
        assert Matching(layers, id) == Matching(layers[1..], id);
        forall k | 0 < k < |layers| && layers[k].id == id && (forall j :: 0 <= j < k ==> layers[j].id != id)
          ensures FirstMatch(layers, id) == Some(layers[k])
        {
          assert layers[1..][k - 1] == layers[k];
          assert forall j :: 0 <= j < k - 1 ==> layers[1..][j] == layers[j + 1];
        }
        assert (forall k :: 0 <= k < |layers| ==> layers[k].id != id) <==>
               (forall k :: 0 <= k < |layers[1..]| ==> layers[1..][k].id != id);
      }
    }
  }

  /** `stateDependentLayerIds.map(lId => FirstMatch(layers, lId))`. */
  function StateDependent(sdIds: seq<string>, layers: seq<StyleLayer>): (r: seq<Option<StyleLayer>>)
    ensures |r| == |sdIds|
    ensures forall i :: 0 <= i < |sdIds| && r[i].Some? ==> r[i].value in layers && r[i].value.id == sdIds[i]
  {
    seq(|sdIds|, i requires 0 <= i < |sdIds| => FirstMatch(layers, sdIds[i]))
  }

  /**
   * One entry per state-dependent id: the first resolved layer carrying that
   * id, or `None` when no resolved layer carries it.
   */
  lemma StateDependentLayers(sdIds: seq<string>, layers: seq<StyleLayer>)
    ensures |StateDependent(sdIds, layers)| == |sdIds|
    ensures forall i :: 0 <= i < |sdIds| ==>
              (StateDependent(sdIds, layers)[i] == None <==> forall k :: 0 <= k < |layers| ==> layers[k].id != sdIds[i])
    ensures forall i, k :: 0 <= i < |sdIds| && 0 <= k < |layers| && layers[k].id == sdIds[i] &&
                           (forall j :: 0 <= j < k ==> layers[j].id != sdIds[i]) ==>
              StateDependent(sdIds, layers)[i] == Some(layers[k])
  {
    forall i | 0 <= i < |sdIds| ensures StateDependent(sdIds, layers)[i] == FirstMatch(layers, sdIds[i]) {
    }
    forall id | id in sdIds {
      FirstMatchIsFirst(layers, id);
    }
  }

  // ---------------------------------------------------------------------------
  // Grouping: the output map from layer id to bucket
  // ---------------------------------------------------------------------------

  /** The ids carried by `layers`. */
  function Ids(layers: seq<StyleLayer>): set<string> {
    set l | l in layers :: l.id
  }

  /** Extending a prefix of `layers` by one layer adds that layer's id. */
  lemma IdsOfPrefix(layers: seq<StyleLayer>, j: nat)
    requires j < |layers|
    ensures Ids(layers[..j + 1]) == Ids(layers[..j]) + {layers[j].id}
  {
    assert layers[..j + 1] == layers[..j] + [layers[j]];
  }

  /** `for (const layer of layers) output[layer.id] = bucket`. */
  function Register<B>(output: map<string, B>, b: B, layers: seq<StyleLayer>): (r: map<string, B>)
    ensures r.Keys == output.Keys + Ids(layers)
    ensures forall k :: k in r ==> r[k] == if k in Ids(layers) then b else output[k]
    decreases layers
  {
    if layers == [] then output
    else
      assert Ids(layers) == {layers[0].id} + Ids(layers[1..]) by {
        assert layers == [layers[0]] + layers[1..];
      }
      Register(output[layers[0].id := b], b, layers[1..])
  }

  /**
   * The output map after processing `entries` (each a bucket with its
   * resolved layers) in input order: a bucket without layers is skipped, the
   * others are registered under the ids of their layers.
   */
  function Index<B>(entries: seq<(B, seq<StyleLayer>)>): map<string, B> {
    if entries == [] then map[]
    else
      var prior := Index(entries[..|entries| - 1]);
      var last := entries[|entries| - 1];
      if |last.1| == 0 then prior else Register(prior, last.0, last.1)
  }

  /** Each bucket paired with its resolved layers. */
  function ResolveAll<B>(entries: seq<(B, seq<string>)>, style: Style): (r: seq<(B, seq<StyleLayer>)>)
    ensures |r| == |entries|
    ensures forall i :: 0 <= i < |entries| ==> r[i].0 == entries[i].0
  {
    seq(|entries|, i requires 0 <= i < |entries| => (entries[i].0, Resolve(entries[i].1, style)))
  }

  /** The output after one more entry of a longer input. */
  lemma IndexPrefix<B>(entries: seq<(B, seq<StyleLayer>)>, i: nat)
    requires i < |entries|
    ensures Index(entries[..i + 1]) ==
            if |entries[i].1| == 0 then Index(entries[..i]) else Register(Index(entries[..i]), entries[i].0, entries[i].1)
  {
    assert entries[..i + 1][..i] == entries[..i];
  }

  /** The last entry's ids point at its bucket. */
  lemma IndexLast<B>(entries: seq<(B, seq<StyleLayer>)>, k: string)
    requires entries != [] && k in Ids(entries[|entries| - 1].1)
    ensures k in Index(entries) && Index(entries)[k] == entries[|entries| - 1].0
  {
  }

  /** Any other key is as the earlier entries left it. */
  lemma IndexPrior<B>(entries: seq<(B, seq<StyleLayer>)>, k: string)
    requires entries != [] && k !in Ids(entries[|entries| - 1].1)
    ensures k in Index(entries) <==> k in Index(entries[..|entries| - 1])
    ensures k in Index(entries) ==> Index(entries)[k] == Index(entries[..|entries| - 1])[k]
  {
  }

  /** The keys are exactly the ids of the layers of all entries. */
  lemma {:induction false} IndexKeys<B>(entries: seq<(B, seq<StyleLayer>)>)
    ensures forall k :: k in Index(entries) <==> exists i :: 0 <= i < |entries| && k in Ids(entries[i].1)
  {
    if entries != [] {
      var n := |entries| - 1;
      var front := entries[..n];
      IndexKeys(front);
      forall k | k in Index(entries)
        ensures exists i :: 0 <= i < |entries| && k in Ids(entries[i].1)
      {
        if k !in Ids(entries[n].1) {
          IndexPrior(entries, k);
          var i :| 0 <= i < |front| && k in Ids(front[i].1);
          assert entries[i] == front[i];
        }
      }
      forall k, i | 0 <= i < |entries| && k in Ids(entries[i].1)
        ensures k in Index(entries)
      {
        if k in Ids(entries[n].1) {
          IndexLast(entries, k);
        } else {
          assert i < n && front[i] == entries[i];
          IndexPrior(entries, k);
        }
      }
    }
  }

  /** Entry `i` is the last one whose layers carry the id `k`. */
  ghost predicate LastWith<B>(entries: seq<(B, seq<StyleLayer>)>, k: string, i: int) {
    && 0 <= i < |entries|
    && k in Ids(entries[i].1)
    && forall j :: i < j < |entries| ==> k !in Ids(entries[j].1)
  }

  /** Last writer wins: a key maps to the bucket of the last entry, in input order, that registers it. */
  lemma {:induction false} IndexLastWriter<B>(entries: seq<(B, seq<StyleLayer>)>, k: string)
    requires k in Index(entries)
    ensures exists i :: LastWith(entries, k, i) && Index(entries)[k] == entries[i].0
  {
    var n := |entries| - 1;
    if k in Ids(entries[n].1) {
      IndexLast(entries, k);
      assert LastWith(entries, k, n);
    } else {
      var front := entries[..n];
      IndexPrior(entries, k);
      IndexLastWriter(front, k);
      var i :| LastWith(front, k, i) && Index(front)[k] == front[i].0;
      assert entries[i] == front[i];
      forall j | i < j < |entries| ensures k !in Ids(entries[j].1) {
        if j < n {
          assert entries[j] == front[j];
        } else {
          assert j == n;
        }
      }
      assert LastWith(entries, k, i);
    }
  }

  /** Every value of the output is one of the input buckets. */
  lemma IndexValues<B>(entries: seq<(B, seq<StyleLayer>)>)
    ensures forall k :: k in Index(entries) ==> exists i :: 0 <= i < |entries| && Index(entries)[k] == entries[i].0
  {
    forall k | k in Index(entries)
      ensures exists i :: 0 <= i < |entries| && Index(entries)[k] == entries[i].0
    {
      IndexLastWriter(entries, k);
    }
  }

  /** Inputs that end alike and agree before the end produce the same output. */
  lemma IndexSameLast<B>(xs: seq<(B, seq<StyleLayer>)>, ys: seq<(B, seq<StyleLayer>)>)
    requires xs != [] && ys != [] && xs[|xs| - 1] == ys[|ys| - 1]
    requires Index(xs[..|xs| - 1]) == Index(ys[..|ys| - 1])
    ensures Index(xs) == Index(ys)
  {
  }

  /** A bucket without layers can be removed from the input without changing the output. */
  lemma {:induction false} IndexSkipsEmpty<B>(before: seq<(B, seq<StyleLayer>)>, entry: (B, seq<StyleLayer>),
                                              after: seq<(B, seq<StyleLayer>)>)
    requires entry.1 == []
    ensures Index(before + [entry] + after) == Index(before + after)
  {
    if after == [] {
      assert (before + [entry])[..|before|] == before;
      assert before + [entry] + after == before + [entry] && before + after == before;
    } else {
      var n := |after| - 1;
      IndexSkipsEmpty(before, entry, after[..n]);
      var withEntry := before + [entry] + after;
      var without := before + after;
      assert withEntry[..|withEntry| - 1] == before + [entry] + after[..n];
      assert without[..|without| - 1] == before + after[..n];
      IndexSameLast(withEntry, without);
    }
  }

  /** A style whose lookup returns, for each id, a layer carrying that id. */
  ghost predicate Consistent(style: Style) {
    forall id :: id in style.layers ==> style.layers[id].id == id
  }

  /** With a consistent style, a bucket registers exactly those of its ids that the style still knows. */
  lemma ResolvedIdsConsistent(ids: seq<string>, style: Style)
    requires Consistent(style)
    ensures forall k :: k in Ids(Resolve(ids, style)) <==> k in ids && k in style.layers
  {
    ResolveMembership(ids, style);
    forall k ensures k in Ids(Resolve(ids, style)) <==> k in ids && k in style.layers {
      if k in Ids(Resolve(ids, style)) {
        var l :| l in Resolve(ids, style) && l.id == k;
        var j :| 0 <= j < |ids| && style.GetLayer(ids[j]) == Some(l);
        assert ids[j] == k;
      }
      if k in ids && k in style.layers {
        var j :| 0 <= j < |ids| && ids[j] == k;
        assert style.GetLayer(ids[j]) == Some(style.layers[k]);
        assert style.layers[k] in Resolve(ids, style);
      }
    }
  }

  /**
   * With a consistent style the keys are exactly the bucket ids that the
   * style still knows: a bucket with ids "a" and "x" in a style holding only
   * "a" is registered under "a" alone.
   */
  lemma IndexKeysConsistent<B>(entries: seq<(B, seq<string>)>, style: Style)
    requires Consistent(style)
    ensures forall k :: k in Index(ResolveAll(entries, style)) <==> k in style.layers && exists i :: 0 <= i < |entries| && k in entries[i].1
  {
    var resolved := ResolveAll(entries, style);
    IndexKeys(resolved);
    forall k ensures k in Index(resolved) <==> k in style.layers && exists i :: 0 <= i < |entries| && k in entries[i].1 {
      if k in Index(resolved) {
        var i :| 0 <= i < |resolved| && k in Ids(resolved[i].1);
        ResolvedIdsConsistent(entries[i].1, style);
      }
      if k in style.layers && exists i :: 0 <= i < |entries| && k in entries[i].1 {
        var i :| 0 <= i < |entries| && k in entries[i].1;
        ResolvedIdsConsistent(entries[i].1, style);
        assert k in Ids(resolved[i].1);
      }
    }
  }

  /** The keys are exactly the ids of the layers that the entries' ids resolve to. */
  lemma ResolveAllKeys<B>(entries: seq<(B, seq<string>)>, style: Style)
    ensures forall k :: k in Index(ResolveAll(entries, style)) <==>
              exists i :: 0 <= i < |entries| && k in Ids(Resolve(entries[i].1, style))
  {
    var resolved := ResolveAll(entries, style);
    IndexKeys(resolved);
    assert forall i :: 0 <= i < |entries| ==> resolved[i].1 == Resolve(entries[i].1, style);
  }

  /** A key belongs to a bucket one of whose resolved layers carries that key. */
  lemma ResolveAllOwner<B>(entries: seq<(B, seq<string>)>, style: Style, k: string)
    requires k in Index(ResolveAll(entries, style))
    ensures exists i :: 0 <= i < |entries| && Index(ResolveAll(entries, style))[k] == entries[i].0 &&
                        k in Ids(Resolve(entries[i].1, style))
  {
    var resolved := ResolveAll(entries, style);
    IndexLastWriter(resolved, k);
    var i :| LastWith(resolved, k, i) && Index(resolved)[k] == resolved[i].0;
    assert resolved[i] == (entries[i].0, Resolve(entries[i].1, style));
  }

  // ---------------------------------------------------------------------------
  // deserialize
  // ---------------------------------------------------------------------------

  /** The (bucket, layerIds) pairs of the input, read from the current heap. */
  function Entries(input: seq<Bucket>): seq<(Bucket, seq<string>)> {
    seq(|input|, i requires 0 <= i < |input| => (input[i], input[i].layerIds))
  }

  /**
   * The state of `b` after re-binding against `style`, given its previous
   * `layers` and `stateDependentLayers`: untouched if nothing resolves;
   * otherwise the resolved layers, and the first-match state-dependent
   * layers when the bucket has state-dependent ids.
   */
  ghost predicate Rebound(b: Bucket, resolved: seq<StyleLayer>, layers0: seq<StyleLayer>, sd0: seq<Option<StyleLayer>>)
    reads b
  {
    if resolved == [] then
      b.layers == layers0 && b.stateDependentLayers == sd0
    else
      && b.layers == resolved
      && b.stateDependentLayers == match b.stateDependentLayerIds
                                   case None => sd0
                                   case Some(sdIds) => StateDependent(sdIds, resolved)
  }

  /**
   * One iteration of the re-binding loop: resolves the bucket's layer ids;
   * a bucket that resolves nothing is skipped; otherwise the bucket gets its
   * live layers (and state-dependent layers) and is registered under each
   * layer id.
   */
  method RebindOne(bucket: Bucket, style: Style, output: map<string, Bucket>) returns (result: map<string, Bucket>)
    modifies bucket`layers, bucket`stateDependentLayers
    ensures Rebound(bucket, Resolve(bucket.layerIds, style), old(bucket.layers), old(bucket.stateDependentLayers))
    ensures var resolved := Resolve(bucket.layerIds, style);
            result == if |resolved| == 0 then output else Register(output, bucket, resolved)
  {
    var layers := Resolve(bucket.layerIds, style);
    if |layers| == 0 {
      return output;
    }
    bucket.layers := layers;
    if bucket.stateDependentLayerIds.Some? {
      bucket.stateDependentLayers := StateDependent(bucket.stateDependentLayerIds.value, layers);
    }
    result := RegisterAll(output, bucket, layers);
  }

  /** Registers `bucket` under the id of each of `layers`, one after the other. */
  method RegisterAll(output: map<string, Bucket>, bucket: Bucket, layers: seq<StyleLayer>)
    returns (result: map<string, Bucket>)
    ensures result == Register(output, bucket, layers)
  {
    result := output;
    for j := 0 to |layers|
      invariant result.Keys == output.Keys + Ids(layers[..j])
      invariant forall k :: k in result ==> result[k] == if k in Ids(layers[..j]) then bucket else output[k]
    {
      IdsOfPrefix(layers, j);
      result := result[layers[j].id := bucket];
    }
    assert layers[..|layers|] == layers;
  }

  /**
   * What the finished output looks like once every surviving bucket holds its
   * resolved layers: each value is an input bucket, and the keys are exactly
   * the ids of the resolved layers, each one a key of its own bucket's layers.
   */
  lemma OutputShape(input: seq<Bucket>, style: Style, output: map<string, Bucket>)
    requires output == Index(ResolveAll(Entries(input), style))
    requires forall b :: b in input && Resolve(b.layerIds, style) != [] ==> b.layers == Resolve(b.layerIds, style)
    ensures forall k :: k in output ==> output[k] in input
    ensures forall k :: k in output <==> exists i :: 0 <= i < |input| && k in Ids(Resolve(input[i].layerIds, style))
    ensures forall k :: k in output ==> k in Ids(output[k].layers)
  {
    var entries := Entries(input);
    assert forall i :: 0 <= i < |input| ==> entries[i].1 == input[i].layerIds && entries[i].0 == input[i];
    assert forall k :: k in output <==> exists i :: 0 <= i < |input| && k in Ids(Resolve(input[i].layerIds, style)) by {
      ResolveAllKeys(entries, style);
    }
    forall k | k in output ensures output[k] in input && k in Ids(output[k].layers) {
      ResolveAllOwner(entries, style, k);
    }
  }

  /**
   * Re-binds the buckets that crossed from the builder to the live style and
   * returns them indexed by layer id. Only `layers` and
   * `stateDependentLayers` of the input buckets may change.
   */
  method Deserialize(input: seq<Bucket>, style: Option<Style>) returns (output: map<string, Bucket>)
    modifies (set b | b in input)`layers, (set b | b in input)`stateDependentLayers
    ensures style == None ==> output == map[] && forall b :: b in input ==> unchanged(b)
    ensures forall b :: b in input ==> b.hasPattern == old(b.hasPattern)
    ensures style.Some? ==> forall b :: b in input ==>
              Rebound(b, Resolve(b.layerIds, style.value), old(b.layers), old(b.stateDependentLayers))
    ensures style.Some? ==> output == Index(ResolveAll(Entries(input), style.value))
    ensures forall k :: k in output ==> output[k] in input
    ensures input == [] ==> output == map[]
    ensures style.Some? ==> forall k :: k in output <==>
              exists i :: 0 <= i < |input| && k in Ids(Resolve(input[i].layerIds, style.value))
    ensures forall k :: k in output ==> k in Ids(output[k].layers)
  {
    output := map[];
    if style == None {
      return;
    }
    var s := style.value;
    ghost var entries := ResolveAll(Entries(input), s);
    ghost var done: set<Bucket> := {};
    for i := 0 to |input|
      invariant done == set k | 0 <= k < i :: input[k]
      invariant forall b :: b in done ==> old(allocated(b))
      invariant forall b :: b in done ==> Rebound(b, Resolve(b.layerIds, s), old(b.layers), old(b.stateDependentLayers))
      invariant forall b :: b in input && b !in done ==> b.layers == old(b.layers) && b.stateDependentLayers == old(b.stateDependentLayers)
      invariant output == Index(entries[..i])
    {
      var bucket := input[i];
      IndexPrefix(entries, i);
      assert entries[i] == (bucket, Resolve(bucket.layerIds, s));
      output := RebindOne(bucket, s, output);
      done := done + {bucket};
    }
    assert entries[..|input|] == entries;
    OutputShape(input, s, output);
  }

  // ---------------------------------------------------------------------------
  // Worked scenarios
  // ---------------------------------------------------------------------------

  /** Ids "a" and "x" in a style holding only "a": one layer, registered under "a" alone. */
  lemma ScenarioPartlyResolved()
    ensures var style := Style(map["a" := StyleLayer("a", "fill")]);
            && Resolve(["a", "x"], style) == [StyleLayer("a", "fill")]
            && Index(ResolveAll([(1, ["a", "x"])], style)) == map["a" := 1]
  {
    var style := Style(map["a" := StyleLayer("a", "fill")]);
    ResolveAppend(["a"], ["x"], style);
    assert ["a", "x"] == ["a"] + ["x"];
    assert Ids([StyleLayer("a", "fill")]) == {"a"};
  }

  /** Ids "a" and "b", both in the style: two layers, and both ids lead to the same bucket. */
  lemma ScenarioFullyResolved()
    ensures var style := Style(map["a" := StyleLayer("a", "fill"), "b" := StyleLayer("b", "line")]);
            && Resolve(["a", "b"], style) == [StyleLayer("a", "fill"), StyleLayer("b", "line")]
            && Index(ResolveAll([(1, ["a", "b"])], style)) == map["a" := 1, "b" := 1]
  {
    var style := Style(map["a" := StyleLayer("a", "fill"), "b" := StyleLayer("b", "line")]);
    ResolveAllPresent(["a", "b"], style);
    var layers := [StyleLayer("a", "fill"), StyleLayer("b", "line")];
    assert Ids(layers) == {"a", "b"} by {
      assert layers[0] in layers && layers[1] in layers;
    }
  }

  /** Ids "x" only, unknown to the style: the bucket resolves nothing and registers nothing. */
  lemma ScenarioOrphan()
    ensures var style := Style(map["a" := StyleLayer("a", "fill")]);
            && Resolve(["x"], style) == []
            && Index(ResolveAll([(1, ["x"])], style)) == map[]
  {
    ResolveMembership(["x"], Style(map["a" := StyleLayer("a", "fill")]));
  }

  /** Two buckets both resolving "a": the later one owns "a". */
  lemma ScenarioLastWriter()
    ensures var style := Style(map["a" := StyleLayer("a", "fill"), "b" := StyleLayer("b", "line")]);
            Index(ResolveAll([(1, ["a"]), (2, ["a", "b"])], style)) == map["a" := 2, "b" := 2]
  {
    var style := Style(map["a" := StyleLayer("a", "fill"), "b" := StyleLayer("b", "line")]);
    var ab := [StyleLayer("a", "fill"), StyleLayer("b", "line")];
    assert Resolve(["a"], style) == [StyleLayer("a", "fill")] by {
      ResolveAllPresent(["a"], style);
    }
    assert Resolve(["a", "b"], style) == ab by {
      ResolveAllPresent(["a", "b"], style);
    }
    var entries: seq<(int, seq<StyleLayer>)> := ResolveAll([(1, ["a"]), (2, ["a", "b"])], style);
    assert entries[0] == (1, [StyleLayer("a", "fill")]);
    assert entries[1] == (2, ab);
    assert Index(entries[..1]) == map["a" := 1] by {
      assert |entries[..1][..0]| == 0;
      assert Ids([StyleLayer("a", "fill")]) == {"a"};
    }
    assert Ids(ab) == {"a", "b"} by {
      assert ab[0] in ab && ab[1] in ab;
    }
    assert Index(entries) == Register(map["a" := 1], 2, ab);
  }

  /** State-dependent ids "b" and "c" over the layers "a", "b": the layer "b", then nothing. */
  lemma ScenarioStateDependent()
    ensures var a, b := StyleLayer("a", "fill"), StyleLayer("b", "line");
            StateDependent(["b", "c"], [a, b]) == [Some(b), None]
  {
    var a, b := StyleLayer("a", "fill"), StyleLayer("b", "line");
    FirstMatchIsFirst([a, b], "b");
    FirstMatchIsFirst([a, b], "c");
    assert [a, b][0].id != "b" && [a, b][1] == b;
  }
}
