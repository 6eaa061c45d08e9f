/**
 * `LongMapImpl`: a map from `long` keys to values, kept as one list of
 * nodes that is searched from the front. `put` drops the node of its key
 * and appends a new one, so the list never holds two nodes of one key.
 */
module LongMap {
  import opened Nodes
  import opened NodeLists

  /** `put` first removes the node of its key: with one node per key, none is left. */
  lemma PutRemovesKey<V>(s: seq<Node<V>>, n: Node<V>)
    requires UniqueKeys(s)
    ensures var r := RemoveFirst(s, n);
      r == Without(s, n.key) && UniqueKeys(r) && n.key !in KeysOf(r)
  {
    var r := RemoveFirst(s, n);
    RemoveFirstOfUnique(s, n);
    WithoutKeys(s, n.key);
    assert forall x :: x in r ==> x.key != n.key;
  }

  /** What `put` does to a list with one node per key. */
  lemma PutEffect<V>(s: seq<Node<V>>, n: Node<V>)
    requires UniqueKeys(s)
    ensures var t := RemoveFirst(s, n) + [n];
      && UniqueKeys(t)
      && ToMap(t) == ToMap(s)[n.key := n.value]
      && Without(t, n.key) == Without(s, n.key)
      && |t| == if n.key in KeysOf(s) then |s| else |s| + 1
  {
    var k, r := n.key, RemoveFirst(s, n);
    var t := r + [n];
    PutRemovesKey(s, n);
    assert UniqueKeys(t) by {
      assert forall i :: 0 <= i < |r| ==> r[i].key == KeysOf(r)[i];
    }
    assert ToMap(t) == ToMap(s)[k := n.value] by {
      ToMapWithout(s, k);
      ToMapAppend(r, n);
      assert ToMap(s)[k := n.value] == (ToMap(s) - {k})[k := n.value];
    }
    assert Without(t, k) == Without(s, k) by {
      RemoveFirstKeepsOthers(s, n);
      assert Without([n], k) == [];
      WithoutAppend(r, [n], k);
    }
    assert (IndexOf(s, n) < |s|) == Contains(s, n);
  }

  /**
   * After `put`, the stream lookup of its key finds the node just appended:
   * the list-level form of `Put`'s `Get(key) == Some(value)`, which `Put`
   * establishes through this lemma.
   */
  lemma PutThenGet<V>(s: seq<Node<V>>, n: Node<V>)
    requires UniqueKeys(s)
    ensures FindFirst(RemoveFirst(s, n) + [n], n.key) == Some(n)
  {
    var t := RemoveFirst(s, n) + [n];
    PutEffect(s, n);
    FindFirstIsMapLookup(t, n.key);
  }

  /**
   * `put` does not change what the lookup of any other key finds: the
   * list-level form of the frame `Put` states on `Contents()`.
   */
  lemma PutKeepsOtherLookups<V>(s: seq<Node<V>>, n: Node<V>, key: Long)
    requires UniqueKeys(s) && key != n.key
    ensures FindFirst(RemoveFirst(s, n) + [n], key) == FindFirst(s, key)
  {
    var t := RemoveFirst(s, n) + [n];
    PutEffect(s, n);
    FindFirstIsMapLookup(t, key);
    FindFirstIsMapLookup(s, key);
  }

  /** Filtering distributes over concatenation. */
  lemma {:induction false} WithoutAppend<V>(a: seq<Node<V>>, b: seq<Node<V>>, key: Long)
    ensures Without(a + b, key) == Without(a, key) + Without(b, key)
  {
    if a != [] {
      assert (a + b)[1..] == a[1..] + b;
      WithoutAppend(a[1..], b, key);
    } else {
      assert a + b == b;
    }
  }

  /** What `remove` does to a list with one node per key. */
  lemma RemoveEffect<V>(s: seq<Node<V>>, key: Long)
    requires UniqueKeys(s)
    ensures var t := RemoveFirst(s, Probe(key));
      && UniqueKeys(t)
      && ToMap(t) == ToMap(s) - {key}
      && key !in KeysOf(t)
      && Without(t, key) == Without(s, key)
      && |t| == if key in KeysOf(s) then |s| - 1 else |s|
  {
    var t := RemoveFirst(s, Probe(key));
    RemoveFirstOfUnique(s, Probe(key));
    WithoutKeys(s, key);
    ToMapWithout(s, key);
    RemoveFirstKeepsOthers(s, Probe(key));
    assert (IndexOf(s, Probe(key)) < |s|) == Contains(s, Probe(key));
  }

  class LongMapImpl<V(==, 0)> {
    /** The list of nodes, in insertion order (a re-`put` key moves to the end). */
    var nodes: seq<Node<V>>

    /** The invariant `put` keeps: at most one node per key. */
    ghost predicate Valid()
      reads this
    {
      UniqueKeys(nodes)
    }

    /** The map the object stands for. */
    ghost function Contents(): map<Long, V>
      reads this
    {
      ToMap(nodes)
    }

    constructor ()
      ensures Valid() && nodes == [] && Contents() == map[]
    {
      nodes := [];
    }

    /**
     * `put`: builds a node, removes the node it equals (the one with its key),
     * appends it, and returns the value it was given.
     */
    method Put(key: Long, value: V) returns (r: V)
      requires Valid()
      modifies this
      ensures Valid()
      ensures r == value
      ensures nodes == RemoveFirst(old(nodes), Node(key, value)) + [Node(key, value)]
      ensures Contents() == old(Contents())[key := value]
      ensures Get(key) == Some(value)
      ensures Without(nodes, key) == Without(old(nodes), key)
      ensures nodes[|nodes| - 1] == Node(key, value)
      ensures Size() == if old(ContainsKey(key)) then old(Size()) else old(Size()) + 1
    {
      var node := Node(key, value);
      PutEffect(nodes, node);
      PutThenGet(nodes, node);
      nodes := RemoveFirst(nodes, node);
      nodes := nodes + [node];
      r := node.value;
    }

    /** `get`: the value of the first node with the key, if any. */
    function Get(key: Long): (r: Option<V>)
      reads this
      ensures r == if key in Contents() then Some(Contents()[key]) else None
    {
      FindFirstIsMapLookup(nodes, key);
      match FindFirst(nodes, key)
      case Some(node) => Some(node.value)
      case None => None
    }

    /** `remove`: looks the value up, then removes the node with the key. */
    method Remove(key: Long) returns (r: Option<V>)
      requires Valid()
      modifies this
      ensures Valid()
      ensures r == old(Get(key))
      ensures nodes == RemoveFirst(old(nodes), Probe(key))
      ensures Contents() == old(Contents()) - {key}
      ensures !ContainsKey(key)
      ensures Without(nodes, key) == Without(old(nodes), key)
      ensures Size() == if old(ContainsKey(key)) then old(Size()) - 1 else old(Size())
    {
      r := Get(key);
      var node := Probe(key);
      RemoveEffect(nodes, key);
      nodes := RemoveFirst(nodes, node);
    }

    /** `isEmpty`. */
    function IsEmpty(): (r: bool)
      reads this
      requires Valid()
      ensures r <==> Size() == 0
      ensures r <==> Contents() == map[]
    {
      ToMapDomain(nodes);
      assert nodes != [] ==> KeysOf(nodes)[0] in ToMap(nodes);
      nodes == []
    }

    /** `containsKey`: `nodes.contains` of a probe node with the key. */
    function ContainsKey(key: Long): (r: bool)
      reads this
      ensures r <==> key in Keys()
      ensures r <==> key in Contents()
    {
      ToMapDomain(nodes);
      Contains(nodes, Probe(key))
    }

    /** `containsValue`: some node's value equals the argument. */
    function ContainsValue(value: V): (r: bool)
      reads this
      requires Valid()
      ensures r <==> value in ValueList()
      ensures r <==> value in Contents().Values
    {
      ToMapValues(nodes, value);
      exists i | 0 <= i < |nodes| :: nodes[i].value == value
    }

    /** `keys`: the keys in list order. */
    function Keys(): (r: seq<Long>)
      reads this
      ensures |r| == |nodes|
      ensures forall i :: 0 <= i < |r| ==> r[i] == nodes[i].key
      ensures Valid() ==> forall i, j :: 0 <= i < j < |r| ==> r[i] != r[j]
      ensures forall k :: k in r <==> k in Contents()
    {
      ToMapDomain(nodes);
      KeysOf(nodes)
    }

    /** The list `values` collects: the values in list order, aligned with `Keys()`. */
    function ValueList(): (r: seq<V>)
      reads this
      ensures |r| == |Keys()|
      ensures forall i :: 0 <= i < |r| ==> nodes[i] == Node(Keys()[i], r[i])
    {
      ValuesOf(nodes)
    }

    /** `values`: the value list copied into an array. */
    method Values() returns (result: array<V>)
      ensures fresh(result)
      ensures result[..] == ValueList()
    {
      result := ToArray(ValueList());
    }

    /** `size`. */
    function Size(): (r: nat)
      reads this
      requires Valid()
      ensures r == |Keys()| == |Contents()|
    {
      ToMapSize(nodes);
      |nodes|
    }

    /** `clear`. */
    method Clear()
      modifies this
      ensures Valid() && nodes == [] && Contents() == map[]
      ensures Size() == 0 && IsEmpty()
    {
      nodes := [];
    }

    /** `toArray`: an array as long as the list, filled index by index. */
    method ToArray(list: seq<V>) returns (result: array<V>)
      ensures fresh(result)
      ensures result[..] == list
    {
      result := new V[|list|];
      var i := 0;
      while i < |list|
        invariant 0 <= i <= |list| == result.Length
        invariant result[..i] == list[..i]
      {
        result[i] := list[i];
        i := i + 1;
      }
    }
  }
}
