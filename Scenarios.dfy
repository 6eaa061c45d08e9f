/**
 * The behaviour the repository's unit tests check, stated as what callers
 * can conclude from the contracts of `LongMapImpl` alone.
 */
module LongMapScenarios {
  import opened Nodes
  import opened NodeLists
  import opened LongMap

  /** `get` after `put` of the same key returns the value put. */
  method GetAfterPut() returns (v: Option<string>)
    ensures v == Some("asd")
  {
    var m := new LongMapImpl<string>();
    var stored := m.Put(1, "asd");
    v := m.Get(1);
  }

  /** `put` of a new key raises `size` by one and stores the value. */
  method PutGrowsSize() returns (delta: int, v: Option<string>)
    ensures delta == 1 && v == Some("qwe")
  {
    var m := new LongMapImpl<string>();
    var before := m.Size();
    var stored := m.Put(1, "qwe");
    delta := m.Size() - before;
    v := m.Get(1);
  }

  /** `remove` of a present key lowers `size` by one and the key is gone. */
  method RemoveShrinks() returns (delta: int, contained: bool)
    ensures delta == 1 && !contained
  {
    var m := new LongMapImpl<string>();
    var stored := m.Put(1, "zxc");
    var before := m.Size();
    var removed := m.Remove(1);
    delta := before - m.Size();
    contained := m.ContainsKey(1);
  }

  /** A new map is empty; after one `put` it is not. */
  method Emptiness() returns (initially: bool, afterPut: bool)
    ensures initially && !afterPut
  {
    var m := new LongMapImpl<string>();
    initially := m.IsEmpty();
    var stored := m.Put(1, "rty");
    afterPut := m.IsEmpty();
  }

  /** After `put(1, "fgh")` the map contains the key 1. */
  method ContainsPutKey() returns (found: bool)
    ensures found
  {
    var m := new LongMapImpl<string>();
    var stored := m.Put(1, "fgh");
    found := m.ContainsKey(1);
  }

  /** After `put(1, "vbn")` the map does not contain the key 2. */
  method LacksOtherKey() returns (found: bool)
    ensures !found
  {
    var m := new LongMapImpl<string>();
    var stored := m.Put(1, "vbn");
    found := m.ContainsKey(2);
  }

  /** After `put(1, "fgh")` the map contains the value "fgh". */
  method ContainsPutValue() returns (found: bool)
    ensures found
  {
    var m := new LongMapImpl<string>();
    var stored := m.Put(1, "fgh");
    assert m.Contents() == map[1 := "fgh"];
    found := m.ContainsValue("fgh");
  }

  /** After `put(1, "vbn")` the map does not contain the value "fgh". */
  method LacksOtherValue() returns (found: bool)
    ensures !found
  {
    var m := new LongMapImpl<string>();
    var stored := m.Put(1, "vbn");
    assert m.Contents() == map[1 := "vbn"];
    found := m.ContainsValue("fgh");
  }

  /** A map after `put(1, "qwe")`, `put(2, "asd")`, `put(3, "zxc")`. */
  method ThreeEntries() returns (m: LongMapImpl<string>)
    ensures fresh(m) && m.Valid()
    ensures m.Contents() == map[1 := "qwe", 2 := "asd", 3 := "zxc"]
  {
    m := new LongMapImpl<string>();
    var s1 := m.Put(1, "qwe");
    var s2 := m.Put(2, "asd");
    var s3 := m.Put(3, "zxc");
  }

  /** `keys` after three `put`s holds exactly the keys put. */
  method KeysAfterPuts() returns (keys: seq<Long>)
    ensures 1 in keys && 2 in keys && 3 in keys && 4 !in keys
  {
    var m := ThreeEntries();
    keys := m.Keys();
  }

  /** The value list of the map `ThreeEntries` builds holds its three values... */
  lemma ValueListHasThree(m: LongMapImpl<string>)
    requires m.Valid() && m.Contents() == map[1 := "qwe", 2 := "asd", 3 := "zxc"]
    ensures "qwe" in m.ValueList() && "asd" in m.ValueList() && "zxc" in m.ValueList()
  {
    assert m.ContainsValue("qwe") by {
      assert m.Contents()[1] == "qwe";
    }
    assert m.ContainsValue("asd") by {
      assert m.Contents()[2] == "asd";
    }
    assert m.ContainsValue("zxc") by {
      assert m.Contents()[3] == "zxc";
    }
  }

  /** ...and no other. */
  lemma ValueListLacksOther(m: LongMapImpl<string>)
    requires m.Valid() && m.Contents() == map[1 := "qwe", 2 := "asd", 3 := "zxc"]
    ensures "vbn" !in m.ValueList()
  {
    assert "vbn" !in m.Contents().Values;
    assert !m.ContainsValue("vbn");
  }

  /** `values` after three `put`s holds exactly the values put. */
  method ValuesAfterPuts() returns (values: array<string>)
    ensures "qwe" in values[..] && "asd" in values[..] && "zxc" in values[..]
    ensures "vbn" !in values[..]
  {
    var m := ThreeEntries();
    ValueListHasThree(m);
    ValueListLacksOther(m);
    values := m.Values();
  }
}
