# BLE role provisioning and cluster feature bitmaps

This project models two small parts of matter.js in Dafny.

**`BleNode`**: the Node.js BLE back end's node object. It holds one optional
peripheral session (a `BlenoBleServer`) and one optional central session (a
`NobleBleClient`). Each of its four capability getters creates its role's
session on first use and then returns a new facade. Three facades wrap the
stored session: `BlePeripheralInterface`, `BleBroadcaster` and `BleScanner`.
The network interface, `NobleBleCentralInterface`, is built without one.
In `ble_node.dfy`, `BleNode` is a class with nullable fields that its
methods assign in place. Ghost counters record how often each
session's constructor has run. The drivers and facades are opaque classes,
so object identity says whether two facades share one session. A slot-level
specification (`Serve`, `ServeAll`, `ConstructionsAll`) describes any
sequence of requests. Each method's postcondition ties the node's new state
to that specification.

**Feature bitmaps** (`feature_bitmap.dfy`): `FeatureBitmap` normalises a
list of feature names, a bitmap object or nothing into a bitmap object.
`translateBitmap` renames a bitmap's keys from feature codes to feature
names through the cluster's feature map, keeping the values. A JavaScript
object is modelled as its sequence of entries in property order
(`object_entries.dfy`). The `Bitmap` type does not itself forbid a repeated
key, so inputs may be any entry sequence. Every result of
`Object.fromEntries`, and so of `translateBitmap` and of `FeatureBitmap` on a
list, is proved to be an object with no key repeated (`IsObject`); a bitmap
argument to `FeatureBitmap` is returned as it is. `Object.entries` is that
sequence.
`Object.fromEntries` is a left-to-right fold of property assignments: a later
entry overwrites the value of an earlier entry with the same key, and the key
keeps the place of its first insertion. `LastValue` is the independent
reference for "the later entry wins". `Dedup` is the reference for key order.

Where the documentation and the code disagree, the model follows the code:
- `translateBitmap`'s comment says a name that is not found "leaves the
  feature code intact". The code still passes that code through
  `camelize(…, false)` (`FeatureBitmap.ts:32`). `FeatureName` follows the code.
- `getBleCentralInterface` creates the central client but builds the
  `NobleBleCentralInterface` without a reference to it (`BleNode.ts:37`). The
  model's network interface holds no session.

## Model

| member | source | states |
|---|---|---|
| `NodeBle.BleNode.constructor` | packages/matter-node-ble.js/src/ble/BleNode.ts:19-24 | A new node has both session slots empty and has constructed no session |
| `NodeBle.BleNode.GetBlePeripheralInterface` | packages/matter-node-ble.js/src/ble/BleNode.ts:26-31 | Fills the peripheral slot only if it was empty, constructing one server, and otherwise keeps the stored server. Leaves the central slot and its count unchanged. Returns a fresh interface wrapping the stored server |
| `NodeBle.BleNode.GetBleCentralInterface` | packages/matter-node-ble.js/src/ble/BleNode.ts:33-38 | Fills the central slot only if it was empty, constructing one client. Leaves the peripheral slot unchanged. Returns a fresh network interface that holds no session |
| `NodeBle.BleNode.GetBleBroadcaster` | packages/matter-node-ble.js/src/ble/BleNode.ts:40-45 | Same slot behaviour as the peripheral interface. The fresh broadcaster wraps the stored server and carries exactly the given advertisement data, which may be absent |
| `NodeBle.BleNode.GetBleScanner` | packages/matter-node-ble.js/src/ble/BleNode.ts:47-52 | Same slot behaviour as the central interface. The fresh scanner wraps the stored client |
| `NodeBle.Serve` | packages/matter-node-ble.js/src/ble/BleNode.ts:26-52 | Serving a request fills its role's slot, leaves the other role's slot as it was, and never empties a slot |
| `NodeBle.ServeAllHas` | packages/matter-node-ble.js/src/ble/BleNode.ts:26-52 | After any sequence of requests, a role's slot is filled if and only if it was already filled or some request needed that role |
| `NodeBle.ConstructedAtMostOnce` | packages/matter-node-ble.js/src/ble/BleNode.ts:26-52 | Across any sequence of requests, a role's session is constructed exactly once if its slot started empty and the role was requested, and never otherwise |
| `NodeBle.RolesIndependent` | packages/matter-node-ble.js/src/ble/BleNode.ts:26-52 | Requests of the other role neither fill nor construct a role's session |
| `NodeBle.BroadcasterThenInterface` | packages/matter-node-ble.js/src/ble/BleNode.ts:26-45 | On a fresh node, a broadcaster with payload [1, 2] followed by a transport interface constructs one server. Both facades wrap that server, the broadcaster keeps its payload, and no client is constructed |
| `ObjectEntries.FromEntriesSpec` | packages/matter.js/src/model/logic/cluster-variance/FeatureBitmap.ts:30 | `Object.fromEntries` yields an object whose keys are the entries' keys, each once, in first-occurrence order. Each key holds the value of the last entry with that key. The result has at most as many keys as there are entries, and exactly as many if and only if the keys are distinct |
| `ObjectEntries.FromEntriesGet` | packages/matter.js/src/model/logic/cluster-variance/FeatureBitmap.ts:30 | Looking up a key in `Object.fromEntries(es)` gives the value of the last entry of `es` with that key |
| `ObjectEntries.LastValueIsLast` | packages/matter.js/src/model/logic/cluster-variance/FeatureBitmap.ts:30 | The "later entry wins" value is `v` if and only if some entry carries the key with value `v` and no later entry carries the key |
| `ObjectEntries.FromEntriesOfObject` | packages/matter.js/src/model/logic/cluster-variance/FeatureBitmap.ts:30 | Rebuilding an object from its own entries gives back the same object, with keys in the same order |
| `ObjectEntries.DedupSpec` | packages/matter.js/src/model/logic/cluster-variance/FeatureBitmap.ts:16 | Removing repeated names gives distinct names, keeps the same set of names, and never lengthens the list. The length is unchanged if and only if the names were already distinct |
| `ClusterVariance.FeatureBitmap` | packages/matter.js/src/model/logic/cluster-variance/FeatureBitmap.ts:14-19 | With no argument the result is empty, and a bitmap object comes back unchanged. A list gives an object whose keys are the listed names, each once, all with value `true`. Duplicate names collapse, so the key count equals the list length if and only if the names are distinct |
| `ClusterVariance.FeatureName` | packages/matter.js/src/model/logic/cluster-variance/FeatureBitmap.ts:31-32 | A code whose feature has a description becomes `camelize(description, false)`. A code with no feature, or whose feature has no description, becomes `camelize(code, false)` |
| `ClusterVariance.TranslateBitmap` | packages/matter.js/src/model/logic/cluster-variance/FeatureBitmap.ts:29-34 | The result is an object with no more keys than the input, and an empty bitmap translates to an empty bitmap |
| `ClusterVariance.TranslateKeys` | packages/matter.js/src/model/logic/cluster-variance/FeatureBitmap.ts:30-33 | A name is a key of the result if and only if some input key translates to it |
| `ClusterVariance.TranslateValues` | packages/matter.js/src/model/logic/cluster-variance/FeatureBitmap.ts:30-33 | No new values appear: every value in the result is the value of an input key that translates to that result key |
| `ClusterVariance.TranslateSize` | packages/matter.js/src/model/logic/cluster-variance/FeatureBitmap.ts:30-33 | The result has as many keys as the input if and only if no two input keys translate to the same name |
| `ClusterVariance.TranslateLaterWins` | packages/matter.js/src/model/logic/cluster-variance/FeatureBitmap.ts:30-33 | When several keys translate to one name, the later entry's value wins. An entry that no later entry collides with keeps its value under its new name |
| `ClusterVariance.TranslateInjective` | packages/matter.js/src/model/logic/cluster-variance/FeatureBitmap.ts:30-33 | When translated names are distinct, the key count is unchanged and every value moves to its key's new name |

## Left out

- The internals of `BlenoBleServer`, `NobleBleClient`, `BlePeripheralInterface`, `BleBroadcaster`, `NobleBleCentralInterface` and `BleScanner`. These are hardware drivers and adapters. Here they are opaque classes whose constructors only store their arguments.
- The base class `Ble` and the module imports.
- A constructor that throws. In the source, `new BlenoBleServer()` runs before the assignment, so a throw leaves the slot empty and the next call tries again. Dafny constructors cannot fail, so the model has no failure path. The source has no error handling, retry or teardown of its own.
- Concurrent first calls. The source relies on JavaScript's single-threaded event loop, and the model's methods are sequential.
- `camelize` is not part of this model. It is a function-valued parameter, so every property holds whatever `camelize` does.
- `cluster.featureMap.get(DatatypeModel, code)`. It is a partial map from feature code to the feature's optional description. The lookup's filtering by model type and the `ClusterModel`/`DatatypeModel` internals are not modelled.
- JavaScript puts integer-like keys (such as `"1"`) before other keys regardless of insertion order. The model keeps insertion order for every key.
- `Array.isArray` is the tag of the `FeatureInput` datatype, and the omitted argument is `None`.
- `ByteArray` is an immutable byte sequence. In the source it is a `Uint8Array` that `BleBroadcaster` stores by reference, so a later change by the caller is seen by the broadcaster. The model fixes the payload's value at the time of the call.
- Bitmap values are booleans, as the `FeatureBitmap` type declares. Other values that might reach `translateBitmap` at run time are not modelled.
