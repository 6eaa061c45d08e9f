/**
 * What the map's `ArrayList<Node<V>>` and its streams do, stated on
 * sequences of nodes: `indexOf`/`contains`/`remove(Object)`, which find a
 * node through `Node.equals`, the `filter(...).findFirst()` lookup, and the
 * abstraction of a node list as a finite map from keys to values.
 */
module NodeLists {
  import opened Nodes

  datatype Option<T> = None | Some(value: T)

  /** At most one node per key. */
  ghost predicate UniqueKeys<V>(s: seq<Node<V>>)
  {
    forall i, j :: 0 <= i < j < |s| ==> s[i].key != s[j].key
  }

  /** `mapToLong(Node::getKey)`: the stream maps each node to its key, in list order. */
  function KeysOf<V>(s: seq<Node<V>>): (r: seq<Long>)
    ensures |r| == |s|
    ensures forall i :: 0 <= i < |s| ==> r[i] == s[i].key
  {
    if s == [] then [] else [s[0].key] + KeysOf(s[1..])
  }

  /** `map(Node::getValue)`: the stream maps each node to its value, in list order. */
  function ValuesOf<V>(s: seq<Node<V>>): (r: seq<V>)
    ensures |r| == |s|
    ensures forall i :: 0 <= i < |s| ==> r[i] == s[i].value
  {
    if s == [] then [] else [s[0].value] + ValuesOf(s[1..])
  }

  /**
   * The map a node list stands for. The first node of a key wins, as it does
   * for `get`; under `UniqueKeys` there is only one.
   */
  ghost function ToMap<V>(s: seq<Node<V>>): map<Long, V>
  {
    if s == [] then map[] else ToMap(s[1..])[s[0].key := s[0].value]
  }

  /** The nodes whose key is not `key`, in list order. */
  ghost function Without<V>(s: seq<Node<V>>, key: Long): (r: seq<Node<V>>)
  {
    if s == [] then []
    else if s[0].key == key then Without(s[1..], key)
    else [s[0]] + Without(s[1..], key)
  }

  /**
   * `ArrayList.indexOf(o)`: the index of the first node that `o` equals, or
   * `|s|` where Java returns -1. Since `equals` compares keys only, that is
   * the first node with `o`'s key.
   */
  function IndexOf<V, W>(s: seq<Node<V>>, o: Node<W>): (i: nat)
    ensures i <= |s|
    ensures i < |s| ==> Equals(o, OfNode(s[i])) && s[i].key == o.key
    ensures forall j :: 0 <= j < i ==> !Equals(o, OfNode(s[j])) && s[j].key != o.key
  {
    if s == [] then 0
    else if Equals(o, OfNode(s[0])) then 0
    else 1 + IndexOf(s[1..], o)
  }

  /** `ArrayList.contains(o)`: `indexOf(o) >= 0`. */
  function Contains<V, W>(s: seq<Node<V>>, o: Node<W>): (r: bool)
    ensures r <==> o.key in KeysOf(s)
  {
    var i := IndexOf(s, o);
    assert i < |s| ==> KeysOf(s)[i] == o.key;
    i < |s|
  }

  /**
   * `ArrayList.remove(Object o)`: scans for the first node that `o` equals
   * and removes that one node; the list is unchanged if there is none.
   */
  function RemoveFirst<V, W>(s: seq<Node<V>>, o: Node<W>): (r: seq<Node<V>>)
    ensures var i := IndexOf(s, o);
      r == if i < |s| then s[..i] + s[i + 1..] else s
  {
    if s == [] then []
    else if Equals(o, OfNode(s[0])) then s[1..]
    else [s[0]] + RemoveFirst(s[1..], o)
  }

  /**
   * `filter(x -> x.getKey() == key).findFirst()`: it finds the node that
   * `indexOf` of a probe with that key points at.
   */
  function FindFirst<V>(s: seq<Node<V>>, key: Long): (r: Option<Node<V>>)
    ensures var i := IndexOf(s, Probe(key));
      r == if i < |s| then Some(s[i]) else None
  {
    if s == [] then None
    else if s[0].key == key then Some(s[0])
    else FindFirst(s[1..], key)
  }

  lemma KeysOfTail<V>(s: seq<Node<V>>)
    requires s != []
    ensures KeysOf(s) == [s[0].key] + KeysOf(s[1..])
  {
  }

  /** The keys of the map are exactly the keys in the list. */
  lemma {:induction false} ToMapDomain<V>(s: seq<Node<V>>)
    ensures forall key :: key in ToMap(s) <==> key in KeysOf(s)
  {
    if s != [] {
      KeysOfTail(s);
      ToMapDomain(s[1..]);
    }
  }

  /** The stream lookup finds what the map abstraction holds for the key. */
  lemma {:induction false} FindFirstIsMapLookup<V>(s: seq<Node<V>>, key: Long)
    ensures FindFirst(s, key) == if key in ToMap(s) then Some(Node(key, ToMap(s)[key])) else None
  {
    ToMapDomain(s);
    if s != [] && s[0].key != key {
      FindFirstIsMapLookup(s[1..], key);
    }
  }

  /** Removing the first node of a key leaves the nodes of every other key, in order. */
  lemma {:induction false} RemoveFirstKeepsOthers<V, W>(s: seq<Node<V>>, o: Node<W>)
    ensures Without(RemoveFirst(s, o), o.key) == Without(s, o.key)
  {
    if s != [] && !Equals(o, OfNode(s[0])) {
      var r := RemoveFirst(s, o);
      assert r == [s[0]] + RemoveFirst(s[1..], o);
      assert r[1..] == RemoveFirst(s[1..], o);
      RemoveFirstKeepsOthers(s[1..], o);
    }
  }

  /** With one node per key, `remove(Object)` drops every node of that key. */
  lemma {:induction false} RemoveFirstOfUnique<V, W>(s: seq<Node<V>>, o: Node<W>)
    requires UniqueKeys(s)
    ensures RemoveFirst(s, o) == Without(s, o.key)
  {
    if s != [] {
      assert UniqueKeys(s[1..]);
      if Equals(o, OfNode(s[0])) {
        WithoutAbsent(s[1..], o.key);
      } else {
        RemoveFirstOfUnique(s[1..], o);
      }
    }
  }

  /** Filtering out a key that does not occur changes nothing. */
  lemma {:induction false} WithoutAbsent<V>(s: seq<Node<V>>, key: Long)
    requires forall i :: 0 <= i < |s| ==> s[i].key != key
    ensures Without(s, key) == s
  {
    if s != [] {
      WithoutAbsent(s[1..], key);
    }
  }

  /** `Without` keeps a subsequence: no key occurs more often, `key` not at all. */
  lemma {:induction false} WithoutKeys<V>(s: seq<Node<V>>, key: Long)
    ensures forall n :: n in Without(s, key) ==> n in s && n.key != key
    ensures UniqueKeys(s) ==> UniqueKeys(Without(s, key))
  {
    if s != [] {
      WithoutKeys(s[1..], key);
    }
  }

  /** The map of the filtered list is the map without the key. */
  lemma {:induction false} ToMapWithout<V>(s: seq<Node<V>>, key: Long)
    ensures ToMap(Without(s, key)) == ToMap(s) - {key}
  {
    if s != [] {
      ToMapWithout(s[1..], key);
      if s[0].key != key {
        var r := Without(s, key);
        assert r[1..] == Without(s[1..], key);
      }
    }
  }

  /** Appending a node of a new key adds that one entry to the map. */
  lemma {:induction false} ToMapAppend<V>(s: seq<Node<V>>, n: Node<V>)
    requires n.key !in KeysOf(s)
    ensures ToMap(s + [n]) == ToMap(s)[n.key := n.value]
  {
    if s != [] {
      KeysOfTail(s);
      assert (s + [n])[1..] == s[1..] + [n];
      ToMapAppend(s[1..], n);
    }
  }

  /** With one node per key, the map has exactly as many entries as the list has nodes. */
  lemma {:induction false} ToMapSize<V>(s: seq<Node<V>>)
    requires UniqueKeys(s)
    ensures |ToMap(s)| == |s|
  {
    if s != [] {
      assert UniqueKeys(s[1..]);
      ToMapSize(s[1..]);
      ToMapDomain(s[1..]);
      assert s[0].key !in KeysOf(s[1..]);
    }
  }

  /** With one node per key, the list's values are the map's values. */
  lemma {:induction false} ToMapValues<V>(s: seq<Node<V>>, v: V)
    requires UniqueKeys(s)
    ensures v in ValuesOf(s) <==> v in ToMap(s).Values
  {
    if s != [] {
      assert UniqueKeys(s[1..]);
      ToMapValues(s[1..], v);
      ToMapDomain(s[1..]);
      assert s[0].key !in KeysOf(s[1..]);
      assert ValuesOf(s) == [s[0].value] + ValuesOf(s[1..]);
      var m, k0 := ToMap(s[1..]), s[0].key;
      assert ToMap(s) == m[k0 := s[0].value];
      if v in ToMap(s).Values && v != s[0].value {
        var k :| k in ToMap(s) && ToMap(s)[k] == v;
        assert k != k0 && m[k] == v;
      }
      if v in m.Values {
        var k :| k in m && m[k] == v;
        assert k != k0 && ToMap(s)[k] == v;
      }
      assert ToMap(s)[k0] == s[0].value;
    }
  }
}
