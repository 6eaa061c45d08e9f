/**
 * The entry type of the map: a mutable (key, value) pair whose equality and
 * hash code depend on the key alone.
 */
module Nodes {

  /** Java's `long`: a 64-bit two's-complement integer. */
  newtype Long = x: int | -0x8000_0000_0000_0000 <= x < 0x8000_0000_0000_0000

  /** Java's `int`: a 32-bit two's-complement integer. */
  newtype int32 = x: int | -0x8000_0000 <= x < 0x8000_0000

  /** A map entry. The Java class has setters; here they are functional updates. */
  datatype Node<V> = Node(key: Long, value: V)

  /**
   * The argument of `equals(Object o)`: null, a node, or an object of another
   * class. Generics are erased at run time, so a node of any value type is a
   * node.
   */
  datatype Object<W> = Null | OfNode(node: Node<W>) | OtherClass

  /** A node whose value was never set: the `null` the Java probe nodes carry. */
  type Unset = ()

  /**
   * `new Node<>()` followed by `setKey(key)`: the probe that `remove` and
   * `containsKey` hand to the list. A fresh node has key 0 and no value.
   */
  function Probe(key: Long): (p: Node<Unset>)
    ensures p.key == key
  {
    SetKey(Node(0, ()), key)
  }

  /** `setKey`: the key becomes `k`, the value is left alone. */
  function SetKey<V>(n: Node<V>, k: Long): (r: Node<V>)
    ensures r.key == k && r.value == n.value
  {
    n.(key := k)
  }

  /** `setValue`: the value becomes `v`, the key is left alone. */
  function SetValue<V>(n: Node<V>, v: V): (r: Node<V>)
    ensures r.value == v && r.key == n.key
  {
    n.(value := v)
  }

  /**
   * `equals`: false for null and for objects of another class; for a node,
   * true exactly when the keys agree. (The identity short-cut `this == o`
   * is subsumed: an object is always key-equal to itself.)
   */
  predicate Equals<V, W>(n: Node<V>, o: Object<W>): (r: bool)
    ensures !o.OfNode? ==> !r
    ensures o.OfNode? ==> (r <==> n.key == o.node.key)
  {
    match o
    case Null => false
    case OtherClass => false
    case OfNode(other) => n.key == other.key
  }

  lemma EqualsIffSameKey<V, W>(a: Node<V>, b: Node<W>)
    ensures Equals(a, OfNode(b)) <==> a.key == b.key
  {
  }

  /** Two nodes with the same key are equal whatever their values. */
  lemma EqualsIgnoresValue<V, W>(k: Long, v: V, w: W)
    ensures Equals(Node(k, v), OfNode(Node(k, w)))
  {
  }

  lemma EqualsReflexive<V>(a: Node<V>)
    ensures Equals(a, OfNode(a))
  {
  }

  lemma EqualsSymmetric<V, W>(a: Node<V>, b: Node<W>)
    ensures Equals(a, OfNode(b)) <==> Equals(b, OfNode(a))
  {
  }

  lemma EqualsTransitive<U, V, W>(a: Node<U>, b: Node<V>, c: Node<W>)
    requires Equals(a, OfNode(b)) && Equals(b, OfNode(c))
    ensures Equals(a, OfNode(c))
  {
  }

  lemma EqualsNeverNull<V, W>(a: Node<V>)
    ensures !Equals<V, W>(a, Null) && !Equals<V, W>(a, OtherClass)
  {
  }

  /** The 64 bits of a `long` in two's complement. */
  function Bits(k: Long): bv64
  {
    (if k < 0 then k as int + 0x1_0000_0000_0000_0000 else k as int) as bv64
  }

  /** The Java narrowing `(int)` of 32 bits: the same bits read as a signed number. */
  function Signed32(h: bv32): int32
  {
    var u := h as int;
    if u < 0x8000_0000 then u as int32 else (u - 0x1_0000_0000) as int32
  }

  /** The low and the high 32-bit halves of a 64-bit pattern. */
  function Low(b: bv64): bv32
  {
    (b & 0xFFFF_FFFF) as bv32
  }

  function High(b: bv64): bv32
  {
    (b >> 32) as bv32
  }

  /**
   * `(int)(key ^ (key >>> 32))` on the bits of the key; `>>>` fills with
   * zeros. The result is the XOR of the two 32-bit halves, read as a signed int.
   */
  function FoldHash(b: bv64): (h: int32)
    ensures h == Signed32(Low(b) ^ High(b))
  {
    Signed32(((b ^ (b >> 32)) & 0xFFFF_FFFF) as bv32)
  }

  /**
   * `hashCode`: the key's hash, so the value plays no part; it is the XOR of
   * the two 32-bit halves of the key, read as a signed 32-bit int.
   */
  function HashCode<V>(n: Node<V>): (h: int32)
    ensures h == Signed32(Low(Bits(n.key)) ^ High(Bits(n.key)))
  {
    FoldHash(Bits(n.key))
  }

  /** Nodes that are `equals` have the same hash code: it depends on the key only. */
  lemma EqualNodesEqualHash<V, W>(a: Node<V>, b: Node<W>)
    requires Equals(a, OfNode(b))
    ensures HashCode(a) == HashCode(b)
  {
  }

  /** A key whose upper 32 bits are zero hashes to its low 32 bits read as a signed int. */
  lemma HashCodeOfSmallKey<V>(n: Node<V>)
    requires High(Bits(n.key)) == 0
    ensures HashCode(n) == Signed32(Low(Bits(n.key)))
  {
  }

  /** A 64-bit pattern and its bitwise complement fold to the same hash. */
  lemma FoldHashOfComplement(b: bv64)
    ensures FoldHash(!b) == FoldHash(b)
  {
  }
}
