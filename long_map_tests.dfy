/** The scenarios of LongMapImplTest, as client methods of LongMapImpl whose contracts state
    the outcomes the tests expect. */
module LongMapTests {
  import opened LongMapSpec
  import opened LongMap

  /** createValue(i): "Test" followed by the decimal digits of i. */
  function TestValue(i: int): (v: string)
    requires 0 <= i < 100
    ensures 5 <= |v| <= 6 && v[..4] == "Test"
  {
    if i < 10 then "Test" + [Digit(i)] else "Test" + [Digit(i / 10), Digit(i % 10)]
  }

  function Digit(d: int): char
    requires 0 <= d < 10
  {
    ('0' as int + d) as char
  }

  /** The map holds the entries (key, createValue(key)) for the keys 0..n-1 and no others. */
  ghost predicate HoldsFirst(s: seq<Slot<string>>, n: int)
    requires 0 <= n <= 10
  {
    forall key, value :: (key, value) in Occupied(s) <==> 0 <= key < n && value == TestValue(key)
  }

  /** Two arrays with the same entries hold the same setUp entries. */
  lemma HoldsFirstSameEntries(s: seq<Slot<string>>, t: seq<Slot<string>>, n: int)
    requires 0 <= n <= 10 && HoldsFirst(s, n)
    requires multiset(Occupied(t)) == multiset(Occupied(s))
    ensures HoldsFirst(t, n)
  {
    forall key, value
      ensures (key, value) in Occupied(t) <==> (key, value) in Occupied(s)
    {
      assert (key, value) in Occupied(t) <==> (key, value) in multiset(Occupied(t));
      assert (key, value) in Occupied(s) <==> (key, value) in multiset(Occupied(s));
    }
  }

  /** Putting (n, createValue(n)) into a map holding the first n setUp entries gives the first n + 1. */
  lemma HoldsFirstStep(s: seq<Slot<string>>, t: seq<Slot<string>>, n: int)
    requires 0 <= n < 10 && HoldsFirst(s, n)
    requires multiset(Occupied(t)) == multiset(Occupied(s)) + multiset{(n, TestValue(n))}
    ensures HoldsFirst(t, n + 1)
  {
    AddedMembers(Occupied(s), Occupied(t), (n, TestValue(n)));
  }

  /** A list whose multiset is another's plus one element holds exactly that other's elements and that one. */
  lemma AddedMembers<T>(a: seq<T>, b: seq<T>, x: T)
    requires multiset(b) == multiset(a) + multiset{x}
    ensures forall y :: y in b <==> y in a || y == x
  {
    forall y
      ensures y in b <==> y in a || y == x
    {
      assert y in b <==> y in multiset(b);
      assert y in a <==> y in multiset(a);
    }
  }

  /** In a map holding the setUp entries, a key is present iff it is one of 0..9. */
  lemma SetUpKeys(s: seq<Slot<string>>, key: int)
    requires HoldsFirst(s, 10)
    ensures HasEntryFor(s, key) <==> 0 <= key < 10
  {
    if HasEntryFor(s, key) {
      var i :| 0 <= i < |s| && HasKey(s[i], key);
      OccupiedMember(s, key, s[i].value);
    }
    if 0 <= key < 10 {
      assert (key, TestValue(key)) in Occupied(s);
      OccupiedMember(s, key, TestValue(key));
      var i :| 0 <= i < |s| && s[i] == Full(key, TestValue(key));
      assert HasKey(s[i], key);
    }
  }

  /** In a map holding the setUp entries, a value is present iff it is createValue(i) for some i in 0..9. */
  lemma SetUpValues(s: seq<Slot<string>>, value: string)
    requires HoldsFirst(s, 10)
    ensures HasValue(s, value) <==> exists i :: 0 <= i < 10 && value == TestValue(i)
  {
    if HasValue(s, value) {
      var i :| 0 <= i < |s| && s[i].Full? && s[i].value == value;
      OccupiedMember(s, s[i].key, value);
      assert (s[i].key, value) in Occupied(s);
    }
    if exists i :: 0 <= i < 10 && value == TestValue(i) {
      var k :| 0 <= k < 10 && value == TestValue(k);
      assert (k, value) in Occupied(s);
      OccupiedMember(s, k, value);
    }
  }

  /** get(k) on the setUp map returns createValue(k) for the keys 0..9 and nothing otherwise. */
  lemma SetUpLookup(s: seq<Slot<string>>, key: int)
    requires 0 < |s| && LookupKey(key)
    requires HoldsFirst(s, 10)
    ensures Lookup(s, key) == if 0 <= key < 10 then Some(TestValue(key)) else None
  {
    SetUpKeys(s, key);
    var r := Lookup(s, key);
    if r.Some? {
      assert (key, r.value) in Occupied(s);
    }
  }

  /** setUp: a default map into which keys 0..9 are put with createValue(key). */
  method SetUp() returns (m: LongMapImpl<string>)
    ensures fresh(m) && fresh(m.data) && m.Valid()
    ensures m.entriesCount == 10 && m.loadFactor == DefaultLoadFactor && m.maxCapacity == MaxCapacity
    ensures HoldsFirst(m.data[..], 10)
  {
    m := LongMapImpl.CreateDefault(MaxCapacity);
    OccupiedEmpty(m.data[..]);
    var i := 0;
    while i < 10
      invariant 0 <= i <= 10
      invariant fresh(m) && fresh(m.data) && m.Valid()
      invariant m.loadFactor == DefaultLoadFactor && m.maxCapacity == MaxCapacity
      invariant m.entriesCount == i
      invariant HoldsFirst(m.data[..], i)
    {
      PutTestEntry(m, i);
      i := i + 1;
    }
  }

  /** One iteration of setUp: map.put(i, createValue(i)). */
  method PutTestEntry(m: LongMapImpl<string>, i: int)
    requires 0 <= i < 10 && m.Valid() && HoldsFirst(m.data[..], i) && m.entriesCount == i
    requires m.loadFactor == DefaultLoadFactor && m.maxCapacity == MaxCapacity
    modifies m, m.data
    ensures m.Valid() && HoldsFirst(m.data[..], i + 1) && m.entriesCount == i + 1
    ensures m.data == old(m.data) || fresh(m.data)
  {
    BalancedHasRoom(m.entriesCount, m.data.Length, m.loadFactor, m.maxCapacity);
    ghost var before := m.data[..];
    var _ := m.Put(i, TestValue(i));
    HoldsFirstStep(before, m.data[..], i);
  }

  /** testNegativeCapacityConstructor, testOversizeCapacityConstructor. */
  method BadCapacities() returns (negative: Result<LongMapImpl<string>>, oversize: Result<LongMapImpl<string>>)
    ensures negative == Failure(IllegalArgument("Illegal capacity"))
    ensures oversize == Failure(IllegalArgument("Illegal capacity"))
  {
    negative := LongMapImpl.CreateWithCapacity(-1, MaxCapacity);
    oversize := LongMapImpl.CreateWithCapacity(0x7FFF_FFFF, MaxCapacity);
  }

  /** testNegativeLoadFactor, testOversizeLoadFactor. */
  method BadLoadFactors() returns (negative: Result<LongMapImpl<string>>, oversize: Result<LongMapImpl<string>>)
    ensures negative == Failure(IllegalArgument("Illegal load balance"))
    ensures oversize == Failure(IllegalArgument("Illegal load balance"))
  {
    negative := LongMapImpl.CreateWithLoadFactor(20, -0.5, MaxCapacity);
    oversize := LongMapImpl.CreateWithLoadFactor(20, 1.5, MaxCapacity);
  }

  /** testPutOne: put into a map of capacity 2 returns the value and the size becomes 1. */
  method PutOne() returns (saved: Result<string>, size: int)
    ensures saved == Success("TestValue") && size == 1
  {
    var created := LongMapImpl.CreateWithCapacity(2, MaxCapacity);
    var m := created.value;
    saved := m.Put(1, "TestValue");
    size := m.Size();
  }

  /** createFullFilledTestMap: a default map whose ceiling is 20, filled with keys 0..19. */
  method CreateFullFilledTestMap() returns (m: LongMapImpl<string>)
    ensures fresh(m) && fresh(m.data) && m.Valid()
    ensures m.maxCapacity == 20 && m.entriesCount == 20
  {
    m := LongMapImpl<string>.CreateDefault(20);
    var i := 0;
    while i < 20
      invariant 0 <= i <= 20
      invariant fresh(m) && fresh(m.data) && m.Valid()
      invariant m.loadFactor == DefaultLoadFactor && m.maxCapacity == 20
      invariant m.entriesCount == i
    {
      BalancedHasRoom(m.entriesCount, m.data.Length, m.loadFactor, m.maxCapacity);
      var _ := m.Put(i, TestValue(i));
      i := i + 1;
    }
  }

  /** testPutOverwhelmed: the full test map rejects one more put. */
  method PutOverwhelmed() returns (r: Result<string>)
    ensures r == Failure(IllegalState("Map is full"))
  {
    var m := CreateFullFilledTestMap();
    r := m.Put(1, "Could not be saved");
  }

  /** testGetExisting, testGetNotExisting. */
  method GetScenario(key: int) returns (existing: Option<string>, missing: Option<string>)
    requires 0 <= key < 10
    ensures existing == Some(TestValue(key)) && missing == None
  {
    var m := SetUp();
    existing := m.Get(key);
    SetUpLookup(m.data[..], key);
    missing := m.Get(111);
    SetUpLookup(m.data[..], 111);
  }

  /** testRemoveExisting: put-then-remove of a fresh key returns its value, restores the size
      and leaves the key absent. */
  method RemoveExisting() returns (removed: Option<string>, initialSize: int, finalSize: int, after: Option<string>)
    ensures removed == Some("Value to remove")
    ensures initialSize == 10 && finalSize == initialSize
    ensures after == None
  {
    var m := SetUp();
    initialSize := m.Size();
    ghost var s := m.data[..];
    SetUpKeys(s, 111);
    BalancedHasRoom(m.entriesCount, m.data.Length, m.loadFactor, m.maxCapacity);
    var _ := m.Put(111, "Value to remove");
    ghost var t := m.data[..];
    LookupAfterInsert(s, t, 111, "Value to remove");
    RemoveAfterInsert(s, t, 111, "Value to remove");
    removed := m.Remove(111);
    finalSize := m.Size();
    HoldsFirstSameEntries(s, m.data[..], 10);
    SetUpLookup(m.data[..], 111);
    after := m.Get(111);
  }

  /** testRemoveNotExisting. */
  method RemoveNotExisting() returns (removed: Option<string>, size: int)
    ensures removed == None && size == 10
  {
    var m := SetUp();
    SetUpLookup(m.data[..], 111);
    removed := m.Remove(111);
    size := m.Size();
  }

  /** testIsEmpty: the setUp map is not empty, a new default map is. */
  method IsEmptyScenario() returns (filled: bool, empty: bool)
    ensures !filled && empty
  {
    var m := SetUp();
    filled := m.IsEmpty();
    OccupiedCount(m.data[..]);
    var n := LongMapImpl<string>.CreateDefault(MaxCapacity);
    empty := n.IsEmpty();
  }

  /** testContainsKey. */
  method ContainsKeyScenario(key: int) returns (existing: bool, missing: bool)
    requires 0 <= key < 10
    ensures existing && !missing
  {
    var m := SetUp();
    SetUpKeys(m.data[..], key);
    SetUpKeys(m.data[..], 111);
    existing := m.ContainsKey(key);
    missing := m.ContainsKey(111);
  }

  /** testContainsValue. */
  method ContainsValueScenario(key: int) returns (existing: bool, missing: bool)
    requires 0 <= key < 10
    ensures existing && !missing
  {
    var m := SetUp();
    SetUpValues(m.data[..], TestValue(key));
    SetUpValues(m.data[..], "Not existing value");
    existing := m.ContainsValue(TestValue(key));
    missing := m.ContainsValue("Not existing value");
  }

  /** testKeysWithFilledMap, up to order: keys() holds 0..9 and ten elements. */
  method KeysWithFilledMap() returns (keys: seq<int>)
    ensures |keys| == 10
    ensures forall k :: k in keys <==> 0 <= k < 10
  {
    var m := SetUp();
    keys := m.Keys();
    forall k
      ensures k in keys <==> 0 <= k < 10
    {
      KeysOfMember(m.data[..], k);
      SetUpKeys(m.data[..], k);
    }
  }

  /** testValuesWithFilledMap, up to order: values() holds createValue(0..9) and ten elements. */
  method ValuesWithFilledMap() returns (values: seq<string>)
    ensures |values| == 10
    ensures forall v :: v in values <==> exists i :: 0 <= i < 10 && v == TestValue(i)
  {
    var m := SetUp();
    values := m.Values();
    forall v
      ensures v in values <==> exists i :: 0 <= i < 10 && v == TestValue(i)
    {
      ValuesOfMember(m.data[..], v);
      SetUpValues(m.data[..], v);
    }
  }

  /** testKeysWithEmptyMap, testValuesWithEmptyMap. */
  method KeysAndValuesOfEmptyMap() returns (keys: seq<int>, values: seq<string>)
    ensures keys == [] && values == []
  {
    var m := LongMapImpl<string>.CreateDefault(MaxCapacity);
    keys := m.Keys();
    values := m.Values();
  }

  /** size, clear: ten entries after setUp, none after clear. */
  method SizeAndClear() returns (before: int, after: int)
    ensures before == 10 && after == 0
  {
    var m := SetUp();
    before := m.Size();
    m.Clear();
    after := m.Size();
  }
}
