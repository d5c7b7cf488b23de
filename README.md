# Bucket re-binding (`deserialize`) of the vector-map renderer

A bucket turns the features of one tile into GPU-ready geometry for a group of
style layers that share the same layout. Buckets are built off the rendering
thread and cross back carrying only the string ids of their layers
(`layerIds`, `stateDependentLayerIds`), never the live style-layer objects.
`deserialize` re-binds them on the render side: it looks every id up in the
live style, drops ids that no longer resolve, drops a bucket none of whose
ids resolve, stores the resolved layers (and the first-match resolution of the
state-dependent ids) in the bucket, and returns a map from layer id to bucket.

The model (`bucket.dfy`, module `Buckets`; `wrappers.dfy`, module `Wrappers`):

- `StyleLayer` is a value with an `id` (the rest of a layer is opaque).
  `Style` is the live style seen through its partial lookup `GetLayer`. A
  missing style (`null`/`undefined`) is `None` of an `Option<Style>`.
  `GetLayer` is not required to return a layer whose `id` equals the looked-up
  key. The lemmas marked "consistent" add that assumption (`Consistent`).
- `Bucket` is a class. `layerIds` and `stateDependentLayerIds` are constant.
  `layers` and `stateDependentLayers` are fields that re-binding assigns.
  `stateDependentLayerIds` is an `Option`, where `None` is the absent field.
- The pure pieces are functions: `Resolve` (`map(getLayer)` then
  `filter(Boolean)`), `FirstMatch` (`filter(l => l.id === id)[0]`),
  `StateDependent`, `Register` (one bucket written under the ids of its
  layers), and `Index` (the output built bucket by bucket, in input order).
- `Deserialize` is the method with the source's loop. It is proved to produce
  `Index(ResolveAll(Entries(input), style))` and to leave every bucket in the
  state that `Rebound` describes.

## Model

| member | source | states |
|---|---|---|
| Buckets.Bucket.constructor | src/data/bucket.ts:80-85 | A bucket as it arrives from the builder holds its ids and the builder's `hasPattern`. It has no live layers and no state-dependent layers yet. |
| Buckets.LookUp | src/data/bucket.ts:108 | `layerIds.map(id => style.getLayer(id))` gives one result per id. Result i is absent exactly when the style does not know id i. |
| Buckets.Resolve | src/data/bucket.ts:107-109 | The resolved layers are never more than the ids. Resolution is characterised by `ResolveAppend` and `ResolveMembership`. |
| Buckets.Present | src/data/bucket.ts:109 | `filter(Boolean)` keeps exactly the present lookup results and never lengthens the sequence. |
| Buckets.ResolveAppend | src/data/bucket.ts:107-109 | Resolution works id by id and keeps input order. Resolving a concatenation concatenates the resolutions. A single id gives its layer, or nothing if the style does not know it. |
| Buckets.ResolveMembership | src/data/bucket.ts:107-111 | A layer is resolved iff some id of the bucket looks it up. The resolution is empty iff no id of the bucket is in the style. It is never longer than the ids. |
| Buckets.ResolveAllPresent | src/data/bucket.ts:107-109 | When every id resolves, nothing is dropped. Layer i is the lookup of id i, so duplicated ids stay duplicated. |
| Buckets.Matching | src/data/bucket.ts:119 | The filter keeps exactly the layers whose id equals the requested id. |
| Buckets.FirstMatch | src/data/bucket.ts:119 | A found layer is one of the resolved layers and carries the requested id. The result is `None` exactly when no resolved layer carries it. Which layer is found is stated by `FirstMatchIsFirst`. |
| Buckets.FirstMatchIsFirst | src/data/bucket.ts:119 | `[0]` of the filter is `None` iff no layer has the id. Otherwise it is the earliest layer with that id, so a duplicate is not an error and the first one wins. |
| Buckets.StateDependent | src/data/bucket.ts:119 | `stateDependentLayerIds.map(...)` has one entry per id. A present entry i is a resolved layer carrying id i. |
| Buckets.StateDependentLayers | src/data/bucket.ts:118-119 | There is one state-dependent entry per state-dependent id. Entry i is the first resolved layer carrying id i, or `None` when no resolved layer carries it. |
| Buckets.Register | src/data/bucket.ts:121-123 | Registering a bucket adds the ids of its layers as keys and points each of them at the bucket. All other keys keep their values. |
| Buckets.RegisterAll | src/data/bucket.ts:121-123 | The inner loop `output[layer.id] = bucket` computes exactly `Register`. |
| Buckets.Index | src/data/bucket.ts:106-124 | The output of the outer loop, built entry by entry in input order. It is characterised by `IndexKeys`, `IndexLastWriter`, `IndexValues` and `IndexSkipsEmpty`. |
| Buckets.ResolveAll | src/data/bucket.ts:106-109 | Each bucket paired with its resolved layers: one pair per input bucket, each with its own bucket. |
| Buckets.Entries | src/data/bucket.ts:106-107 | Each input bucket paired with its `layerIds`, in input order. It is used only in contracts. |
| Buckets.IndexKeys | src/data/bucket.ts:106-124 | The output's key set is exactly the union of the ids of the resolved layers of all buckets. |
| Buckets.IndexLastWriter | src/data/bucket.ts:106-123 | Last writer wins: each key maps to the bucket of the last input entry, in input order, whose resolved layers carry that key. |
| Buckets.IndexValues | src/data/bucket.ts:106-123 | Every output value is one of the input buckets. |
| Buckets.IndexSkipsEmpty | src/data/bucket.ts:111-113 | A bucket with no resolved layers can be removed from the input without changing the output, so it adds no entries. |
| Buckets.ResolvedIdsConsistent | src/data/bucket.ts:107-109 | Take a style whose lookup returns layers carrying the looked-up id. With such a style, a bucket's resolved ids are exactly those of its ids that the style knows. |
| Buckets.IndexKeysConsistent | src/data/bucket.ts:106-124 | With such a consistent style, the output keys are exactly the ids that some bucket carries and the style still knows. |
| Buckets.ResolveAllKeys | src/data/bucket.ts:106-124 | After every bucket's ids are resolved against the style, the output keys are exactly the ids of the resolved layers. |
| Buckets.ResolveAllOwner | src/data/bucket.ts:117-123 | Each key belongs to an input bucket whose resolved layers carry that key. |
| Buckets.Rebound | src/data/bucket.ts:111-119 | The state of a bucket after re-binding. If nothing resolves, `layers` and `stateDependentLayers` are untouched. Otherwise `layers` is the resolution. `stateDependentLayers` is the first-match resolution when the bucket has state-dependent ids, and untouched when it has none. |
| Buckets.RebindOne | src/data/bucket.ts:107-123 | One loop iteration does the following. A bucket resolving nothing is skipped: its fields are untouched and the output is unchanged. Any other bucket gets the resolved layers. When it has state-dependent ids, it gets their first-match layers; when it has none, that field is untouched. The bucket is then registered under its layers' ids. |
| Buckets.OutputShape | src/data/bucket.ts:106-126 | Once surviving buckets hold their resolved layers, every output value is an input bucket. The key set is the union of the resolved ids. Each key is the id of one of its bucket's own `layers`. |
| Buckets.Deserialize | src/data/bucket.ts:99-127 | A missing style gives the empty map and modifies no bucket. An empty input gives the empty map. Otherwise each bucket is re-bound as in `RebindOne` and the output is the in-order grouping `Index`, with the key set and ownership of `OutputShape`. `hasPattern` is never changed. |
| Buckets.ScenarioPartlyResolved | src/data/bucket.ts:107-123 | Ids "a" and "x" in a style holding only "a" give one layer, and the bucket is registered under "a" alone. |
| Buckets.ScenarioFullyResolved | src/data/bucket.ts:107-123 | Ids "a" and "b" that both resolve give two layers, and both keys lead to the same bucket. |
| Buckets.ScenarioOrphan | src/data/bucket.ts:107-113 | A bucket whose only id is unknown to the style resolves nothing and registers nothing. |
| Buckets.ScenarioLastWriter | src/data/bucket.ts:106-123 | Take two buckets that both resolve "a". The later one owns "a". |
| Buckets.ScenarioStateDependent | src/data/bucket.ts:118-119 | State-dependent ids "b" and "c" over resolved layers "a" and "b" give the layer "b", then `None`. |

## Left out

- The `Bucket` interface operations `populate`, `update`, `isEmpty`, `upload`, `uploadPending` and `destroy` (src/data/bucket.ts:86-96). They are declared as signatures only and have no implementation in this file. `upload` and `destroy` handle WebGL resources.
- The parameter and feature types `BucketParameters`, `PopulateParameters`, `IndexedFeature` and `BucketFeature` (src/data/bucket.ts:13-56). No code in this file operates on them.
- The internals of the style's `getLayer` and of style layers. They are foreign code, and the lookup is modelled as a partial map from id to a layer carrying an `id`.
- The transfer of buckets between the worker and the main thread (message passing and concurrency).
- The output is a plain JavaScript object. Special keys such as `__proto__` behave differently on such an object; the model uses an ordinary map.
- Style layers are values (`StyleLayer(id, layerType)`). Two distinct layer objects with equal fields cannot be told apart, and `FirstMatch` returns a value, not an object reference.
- The output JavaScript object keeps its keys in insertion order, and callers that iterate over it see that order. The model's `map` has no key order.
- JavaScript truthiness of the style and of `stateDependentLayerIds` is modelled as presence (`Some`). An empty array is truthy, so `Some([])` still assigns an empty `stateDependentLayers`.
- The interface declares `stateDependentLayerIds` as an always-present array (src/data/bucket.ts:85), but `deserialize` tests it for presence (src/data/bucket.ts:118). The model follows the code and lets the field be absent.
