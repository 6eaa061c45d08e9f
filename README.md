# long_map in Dafny

A model of `LongMapImpl<V>`, a map from Java `long` keys to values, and of
its entry type `Node<V>`.

`LongMapImpl` keeps one `ArrayList<Node<V>>` and searches it from the front.
A test (src/test/java/de/comparus/opensource/longmap/LongMapImplTest.java:132-148)
expects a `buckets` field that grows from 5 to 10; the code has no buckets,
no load factor and no resizing, and this model follows the code:

- `put` builds a node and removes the node it `equals` (the one with the
  same key). It then appends the new node and returns the value.
- `get` returns the value of the first node with the key.
- `remove` reads that value, then removes the node with the key. It does
  not remove a whole bucket.
- `containsKey` is `List.contains` of a probe node that carries only the key.
- `keys`, `values` and `size` follow the list. `clear` empties it.

`Node.equals` compares keys only. `Node.hashCode` folds the 64-bit key into
32 bits as `(int)(key ^ (key >>> 32))`.

Files and modules:

- `Node.dfy`, module `Nodes`. `Long` and `int32` are the Java integer types
  as bounded newtypes. `Node` is a datatype: the setters become functional
  updates. The argument of `equals` is an `Object` (null, a node, or an
  object of another class). `Probe(key)` is the key-only node that `remove`
  and `containsKey` build; its value is the unit value, standing for the
  `null` it keeps. The hash code is computed on the key's 64 bits (`bv64`).
- `NodeList.dfy`, module `NodeLists`. The effect of the list operations the
  map uses, on `seq<Node<V>>`: `indexOf`, `contains` and `remove(Object)`,
  which all find nodes through `Node.equals`, and the stream lookup
  `filter(...).findFirst()`. `ToMap` abstracts a node list as a
  `map<Long, V>`. The lemmas here relate the two views.
- `LongMapImpl.dfy`, module `LongMap`. Class `LongMapImpl` with the field
  `nodes: seq<Node<V>>`. `Valid()` says there is at most one node per key.
  `Contents()` is `ToMap(nodes)`. `put`, `remove` and `clear` are methods
  that reassign `nodes`. The read-only queries are functions that read
  `this`. `toArray` is a method that copies a list into a new array with a
  loop.
- `Scenarios.dfy`, module `LongMapScenarios`. The unit tests' scenarios,
  proved from the class contracts alone.

## Model

| member | source | states |
|---|---|---|
| `Nodes.SetKey` | src/main/java/de/comparus/opensource/longmap/model/Node.java:11-17 | after `setKey(k)`, `getKey` returns `k` and the value is unchanged |
| `Nodes.SetValue` | src/main/java/de/comparus/opensource/longmap/model/Node.java:19-25 | after `setValue(v)`, `getValue` returns `v` and the key is unchanged |
| `Nodes.Probe` | src/main/java/de/comparus/opensource/longmap/LongMapImpl.java:38-39 | the node built by `new Node<>()` then `setKey(key)` carries exactly that key |
| `Nodes.Equals` | src/main/java/de/comparus/opensource/longmap/model/Node.java:27-39 | false for null and for an object of another class; for a node, true exactly when the keys are equal |
| `Nodes.EqualsIffSameKey` | src/main/java/de/comparus/opensource/longmap/model/Node.java:27-39 | two nodes are `equals` if and only if their keys are equal, whatever their value types |
| `Nodes.EqualsIgnoresValue` | src/main/java/de/comparus/opensource/longmap/model/Node.java:36-38 | nodes with the same key are `equals` whatever their values |
| `Nodes.EqualsReflexive` | src/main/java/de/comparus/opensource/longmap/model/Node.java:29-31 | every node `equals` itself |
| `Nodes.EqualsSymmetric` | src/main/java/de/comparus/opensource/longmap/model/Node.java:27-39 | `a.equals(b)` if and only if `b.equals(a)` |
| `Nodes.EqualsTransitive` | src/main/java/de/comparus/opensource/longmap/model/Node.java:27-39 | `equals` is transitive |
| `Nodes.EqualsNeverNull` | src/main/java/de/comparus/opensource/longmap/model/Node.java:32-34 | a node never `equals` null or an object of another class |
| `Nodes.FoldHash` | src/main/java/de/comparus/opensource/longmap/model/Node.java:41-44 | `(int)(b ^ (b >>> 32))` is the XOR of the low and high 32-bit halves of `b`, read as a signed 32-bit int |
| `Nodes.HashCode` | src/main/java/de/comparus/opensource/longmap/model/Node.java:41-44 | `hashCode` is the XOR of the key's low and high 32 bits, read as a signed 32-bit int; the value plays no part |
| `Nodes.EqualNodesEqualHash` | src/main/java/de/comparus/opensource/longmap/model/Node.java:27-44 | nodes that are `equals` have equal hash codes |
| `Nodes.HashCodeOfSmallKey` | src/main/java/de/comparus/opensource/longmap/model/Node.java:43 | a key whose upper 32 bits are zero hashes to its low 32 bits, read as a signed int |
| `Nodes.FoldHashOfComplement` | src/main/java/de/comparus/opensource/longmap/model/Node.java:43 | a 64-bit pattern and its bitwise complement fold to the same hash |
| `NodeLists.KeysOf` | src/main/java/de/comparus/opensource/longmap/LongMapImpl.java:62-63 | `mapToLong(Node::getKey)`: one key per node, the key of the node at the same index |
| `NodeLists.ValuesOf` | src/main/java/de/comparus/opensource/longmap/LongMapImpl.java:68-69 | `map(Node::getValue)`: one value per node, the value of the node at the same index |
| `NodeLists.IndexOf` | src/main/java/de/comparus/opensource/longmap/LongMapImpl.java:48-52 | `indexOf(o)` is the first index whose node `o` equals, that is the first node with `o`'s key; `|s|` if there is none |
| `NodeLists.Contains` | src/main/java/de/comparus/opensource/longmap/LongMapImpl.java:48-52 | `contains(o)` holds if and only if `o`'s key is among the list's keys |
| `NodeLists.RemoveFirst` | src/main/java/de/comparus/opensource/longmap/LongMapImpl.java:24 | `remove(o)` deletes exactly the node at `indexOf(o)` and keeps the rest in order, or changes nothing if there is none |
| `NodeLists.FindFirst` | src/main/java/de/comparus/opensource/longmap/LongMapImpl.java:30-32 | the stream `filter(...).findFirst()` finds the same node as `indexOf` of a probe with the key |
| `NodeLists.ToMapDomain` | src/main/java/de/comparus/opensource/longmap/LongMapImpl.java:61-65 | a key is in the abstract map if and only if it is among the list's keys |
| `NodeLists.FindFirstIsMapLookup` | src/main/java/de/comparus/opensource/longmap/LongMapImpl.java:29-34 | the stream lookup returns the abstract map's entry for the key, or nothing when the key is absent |
| `NodeLists.RemoveFirstKeepsOthers` | src/main/java/de/comparus/opensource/longmap/LongMapImpl.java:40 | removing a key's first node keeps every other key's nodes, in the same relative order |
| `NodeLists.RemoveFirstOfUnique` | src/main/java/de/comparus/opensource/longmap/LongMapImpl.java:24 | with one node per key, `remove(o)` drops every node of `o`'s key |
| `NodeLists.WithoutKeys` | src/main/java/de/comparus/opensource/longmap/LongMapImpl.java:24 | dropping a key's nodes keeps a sub-list and keeps keys unique |
| `NodeLists.ToMapWithout` | src/main/java/de/comparus/opensource/longmap/LongMapImpl.java:36-42 | dropping a key's nodes removes exactly that key from the abstract map |
| `NodeLists.ToMapAppend` | src/main/java/de/comparus/opensource/longmap/LongMapImpl.java:25 | appending a node of a new key adds exactly that entry to the abstract map |
| `NodeLists.ToMapSize` | src/main/java/de/comparus/opensource/longmap/LongMapImpl.java:74-76 | with one node per key, the list length equals the number of map entries |
| `NodeLists.ToMapValues` | src/main/java/de/comparus/opensource/longmap/LongMapImpl.java:54-59 | with one node per key, a value is in the list if and only if it is a value of the abstract map |
| `LongMap.PutRemovesKey` | src/main/java/de/comparus/opensource/longmap/LongMapImpl.java:21-24 | with one node per key, `put`'s removal leaves no node of the key |
| `LongMap.PutEffect` | src/main/java/de/comparus/opensource/longmap/LongMapImpl.java:20-27 | `put` keeps one node per key, maps the key to the new value, keeps other keys' nodes in order, and grows the list by one exactly when the key was new |
| `LongMap.PutThenGet` | src/main/java/de/comparus/opensource/longmap/LongMapImpl.java:20-34 | after `put(k, v)` the lookup of `k` finds the node `(k, v)`; the list-level form of `Put`'s `get` postcondition |
| `LongMap.PutKeepsOtherLookups` | src/main/java/de/comparus/opensource/longmap/LongMapImpl.java:20-34 | `put(k, v)` does not change the lookup of any other key; the list-level form of `Put`'s frame on the abstract map |
| `LongMap.WithoutAppend` | src/main/java/de/comparus/opensource/longmap/LongMapImpl.java:25 | keeping other keys' nodes distributes over appending |
| `LongMap.RemoveEffect` | src/main/java/de/comparus/opensource/longmap/LongMapImpl.java:36-42 | `remove` keeps one node per key, removes the key from the abstract map, keeps other keys' nodes in order, and shrinks the list by one exactly when the key was present |
| `LongMap.LongMapImpl.constructor` | src/main/java/de/comparus/opensource/longmap/LongMapImpl.java:13-18 | a new map has an empty list |
| `LongMap.LongMapImpl.Put` | src/main/java/de/comparus/opensource/longmap/LongMapImpl.java:20-27 | returns the value; the new list is the old one without the key's node plus the new node at the end; `get` then returns the value; size grows by one only for a new key |
| `LongMap.LongMapImpl.Get` | src/main/java/de/comparus/opensource/longmap/LongMapImpl.java:29-34 | returns the abstract map's value for the key, or nothing when the key is absent |
| `LongMap.LongMapImpl.Remove` | src/main/java/de/comparus/opensource/longmap/LongMapImpl.java:36-42 | returns what `get` returned before; afterwards `containsKey` is false, other keys are unchanged, and size drops by one exactly when the key was present |
| `LongMap.LongMapImpl.IsEmpty` | src/main/java/de/comparus/opensource/longmap/LongMapImpl.java:44-46 | true if and only if `size()` is 0, and if and only if the abstract map is empty |
| `LongMap.LongMapImpl.ContainsKey` | src/main/java/de/comparus/opensource/longmap/LongMapImpl.java:48-52 | true if and only if the key is in `keys()`, and if and only if it is in the abstract map |
| `LongMap.LongMapImpl.ContainsValue` | src/main/java/de/comparus/opensource/longmap/LongMapImpl.java:54-59 | true if and only if the value is in `values()`, and if and only if it is a value of the abstract map |
| `LongMap.LongMapImpl.Keys` | src/main/java/de/comparus/opensource/longmap/LongMapImpl.java:61-65 | the keys in list order, without duplicates, exactly the abstract map's keys |
| `LongMap.LongMapImpl.ValueList` | src/main/java/de/comparus/opensource/longmap/LongMapImpl.java:67-70 | the values in list order, as many as the keys, index-aligned with `keys()` |
| `LongMap.LongMapImpl.Values` | src/main/java/de/comparus/opensource/longmap/LongMapImpl.java:67-72 | the returned array is new and holds the value list |
| `LongMap.LongMapImpl.Size` | src/main/java/de/comparus/opensource/longmap/LongMapImpl.java:74-76 | the number of keys, which is the number of abstract map entries |
| `LongMap.LongMapImpl.Clear` | src/main/java/de/comparus/opensource/longmap/LongMapImpl.java:78-80 | afterwards the map is empty, `size()` is 0 and `isEmpty()` holds |
| `LongMap.LongMapImpl.ToArray` | src/main/java/de/comparus/opensource/longmap/LongMapImpl.java:82-88 | the array is new, has the list's length and each element at the same index |
| `LongMapScenarios.GetAfterPut` | src/test/java/de/comparus/opensource/longmap/LongMapImplTest.java:20-27 | `get(1)` after `put(1, "asd")` returns `"asd"` |
| `LongMapScenarios.PutGrowsSize` | src/test/java/de/comparus/opensource/longmap/LongMapImplTest.java:29-38 | `put` of a new key raises `size()` by 1 and stores the value |
| `LongMapScenarios.RemoveShrinks` | src/test/java/longmap/LongMapImplTest.java:40-49 | `remove` of a present key lowers `size()` by 1 and `containsKey` turns false |
| `LongMapScenarios.Emptiness` | src/test/java/de/comparus/opensource/longmap/LongMapImplTest.java:50-64 | a new map is empty and is not after one `put` |
| `LongMapScenarios.ContainsPutKey` | src/test/java/de/comparus/opensource/longmap/LongMapImplTest.java:65-72 | after `put(1, "fgh")`, `containsKey(1)` is true |
| `LongMapScenarios.LacksOtherKey` | src/test/java/de/comparus/opensource/longmap/LongMapImplTest.java:73-80 | after `put(1, "vbn")`, `containsKey(2)` is false |
| `LongMapScenarios.ContainsPutValue` | src/test/java/de/comparus/opensource/longmap/LongMapImplTest.java:81-88 | after `put(1, "fgh")`, `containsValue("fgh")` is true |
| `LongMapScenarios.LacksOtherValue` | src/test/java/de/comparus/opensource/longmap/LongMapImplTest.java:89-96 | after `put(1, "vbn")`, `containsValue("fgh")` is false |
| `LongMapScenarios.KeysAfterPuts` | src/test/java/de/comparus/opensource/longmap/LongMapImplTest.java:97-114 | `keys()` after putting 1, 2, 3 contains those and not 4 |
| `LongMapScenarios.ValueListHasThree` | src/test/java/de/comparus/opensource/longmap/LongMapImplTest.java:116-130 | the value list of the map after the three puts holds `"qwe"`, `"asd"` and `"zxc"` |
| `LongMapScenarios.ValueListLacksOther` | src/test/java/de/comparus/opensource/longmap/LongMapImplTest.java:116-130 | the value list of the map after the three puts does not hold `"vbn"` |
| `LongMapScenarios.ValuesAfterPuts` | src/test/java/de/comparus/opensource/longmap/LongMapImplTest.java:116-130 | `values()` after three puts contains the three values and not `"vbn"` |

## Left out

- The bucket array, the load factor, growth by 5 buckets and rehashing: the code has none of them. The test at src/test/java/de/comparus/opensource/longmap/LongMapImplTest.java:132-148 reads a `buckets` field that `LongMapImpl` does not declare, so it has nothing to model.
- The reflective `valueArray` and `Array.newInstance`: the element type is Dafny's type parameter. `Arrays.copyOf` fills the new array with `null`; `ToArray` starts from Dafny's default value of `V`, and the loop overwrites every element.
- `null`: `get` and `remove` return `Option<V>` where Java returns `null`. Stored values are never null, as `containsValue` would throw on one.
- Value equality: `containsValue` uses Java's `V.equals`, modelled as Dafny's `==` on `V`.
- `Nodes.EqualsReflexive`: the identity test `this == o` in `equals` is not modelled separately; a node is always key-equal to itself, so the result is the same.
- `Nodes.HashCodeOfSmallKey`: states "upper 32 bits zero" on the key's bits; the link between a key's numeric value and `Bits` is the definition only, with no proved lemma.
- `LongMap.LongMapImpl.Size`: Java returns a `long` from the list's `int` size; lists longer than 2^31 - 1 elements are not modelled.
- `LongMap.LongMapImpl.IsEmpty`, `LongMap.LongMapImpl.ContainsValue`, `LongMap.LongMapImpl.Size`: state their results under the class invariant `Valid()` (one node per key), which the constructor establishes and every method keeps.
- `Node` getters are the datatype's field selectors. The setters are functional updates. Nodes never leave the map, so no aliasing is lost.
- Thread safety: the code has none, and concurrent use is not modelled.
