/** LongMapImpl: a map from long keys to values kept in one open-addressed array,
    with linear probing, full-cycle lookups and growth by re-insertion. */
module LongMap {
  import opened LongMapSpec

  /** The constructor's argument checks, capacity first, then load factor. */
  function CheckArguments(capacity: int, loadFactor: real, maxCapacity: int): (r: Option<Error>)
    ensures r == None <==> 0 < capacity <= maxCapacity && 0.0 < loadFactor <= 1.0
    ensures r == Some(IllegalArgument("Illegal capacity")) <==> capacity <= 0 || maxCapacity < capacity
    ensures r == Some(IllegalArgument("Illegal load balance")) <==>
      0 < capacity <= maxCapacity && LoadFactorRejected(Finite(loadFactor))
    ensures r != None ==> r.value.IllegalArgument?
  {
    if capacity <= 0 || capacity > maxCapacity then Some(IllegalArgument("Illegal capacity"))
    else if loadFactor <= 0.0 || loadFactor > 1.0 then Some(IllegalArgument("Illegal load balance"))
    else None
  }

  class LongMapImpl<V(==,0)> {
    var data: array<Slot<V>>
    var entriesCount: int
    const loadFactor: real
    /** getMaxCapacity(): Integer.MAX_VALUE - 8 in the map itself, 20 in its test subclass. */
    const maxCapacity: int

    /** The fields agree: the count is the number of occupied slots, the length is within
        the ceiling, and every stored key is one `put` could place. */
    ghost predicate Wellformed()
      reads this, data
    {
      InitialCapacity <= maxCapacity <= MaxCapacity &&
      0.0 < loadFactor <= 1.0 &&
      0 < data.Length <= maxCapacity &&
      entriesCount == |Occupied(data[..])| &&
      forall i :: 0 <= i < data.Length && data[i].Full? ==> PutKey(data[i].key)
    }

    /** Between public calls the load is within the load factor, unless the ceiling is reached. */
    ghost predicate Balanced()
      reads this, data
      requires Wellformed()
    {
      !Overloaded(entriesCount, data.Length, loadFactor, maxCapacity)
    }

    ghost predicate Valid()
      reads this, data
    {
      Wellformed() && Balanced()
    }

    /** `put` can run: some slot is empty, or the map is full and `put` rejects the entry. */
    ghost predicate HasRoom()
      reads this
    {
      entriesCount < data.Length || entriesCount == maxCapacity
    }

    constructor (capacity: int, loadFactor: real, maxCapacity: int)
      requires InitialCapacity <= maxCapacity <= MaxCapacity
      requires CheckArguments(capacity, loadFactor, maxCapacity) == None
      ensures Valid() && fresh(data)
      ensures data.Length == capacity && entriesCount == 0
      ensures forall i :: 0 <= i < data.Length ==> data[i] == Empty
      ensures this.loadFactor == loadFactor && this.maxCapacity == maxCapacity
    {
      this.loadFactor := loadFactor;
      this.maxCapacity := maxCapacity;
      data := new Slot<V>[capacity](_ => Empty);
      entriesCount := 0;
      new;
      OccupiedEmpty(data[..]);
    }

    /** LongMapImpl(): capacity 8, load factor 0.75. */
    static method CreateDefault(maxCapacity: int) returns (m: LongMapImpl<V>)
      requires InitialCapacity <= maxCapacity <= MaxCapacity
      ensures m.Valid() && fresh(m) && fresh(m.data)
      ensures m.data.Length == InitialCapacity && m.entriesCount == 0
      ensures forall i :: 0 <= i < m.data.Length ==> m.data[i] == Empty
      ensures m.loadFactor == DefaultLoadFactor && m.maxCapacity == maxCapacity
    {
      m := new LongMapImpl(InitialCapacity, DefaultLoadFactor, maxCapacity);
    }

    /** LongMapImpl(capacity): rejects a capacity outside 1..maxCapacity. */
    static method CreateWithCapacity(capacity: int, maxCapacity: int) returns (r: Result<LongMapImpl<V>>)
      requires InitialCapacity <= maxCapacity <= MaxCapacity
      ensures r.Failure? <==> capacity <= 0 || maxCapacity < capacity
      ensures r.Failure? ==> r.error == IllegalArgument("Illegal capacity")
      ensures r.Success? ==> var m := r.value;
        m.Valid() && fresh(m) && fresh(m.data) &&
        m.data.Length == capacity && m.entriesCount == 0 &&
        (forall i :: 0 <= i < m.data.Length ==> m.data[i] == Empty) &&
        m.loadFactor == DefaultLoadFactor && m.maxCapacity == maxCapacity
    {
      var check := CheckArguments(capacity, DefaultLoadFactor, maxCapacity);
      if check.Some? {
        return Failure(check.value);
      }
      var m := new LongMapImpl(capacity, DefaultLoadFactor, maxCapacity);
      return Success(m);
    }

    /** LongMapImpl(capacity, loadFactor): also rejects a load factor outside (0, 1]. */
    static method CreateWithLoadFactor(capacity: int, loadFactor: real, maxCapacity: int)
      returns (r: Result<LongMapImpl<V>>)
      requires InitialCapacity <= maxCapacity <= MaxCapacity
      ensures r.Failure? <==> CheckArguments(capacity, loadFactor, maxCapacity).Some?
      ensures r.Failure? ==> r.error == CheckArguments(capacity, loadFactor, maxCapacity).value
      ensures r.Success? ==> var m := r.value;
        m.Valid() && fresh(m) && fresh(m.data) &&
        m.data.Length == capacity && m.entriesCount == 0 &&
        (forall i :: 0 <= i < m.data.Length ==> m.data[i] == Empty) &&
        m.loadFactor == loadFactor && m.maxCapacity == maxCapacity
    {
      var check := CheckArguments(capacity, loadFactor, maxCapacity);
      if check.Some? {
        return Failure(check.value);
      }
      var m := new LongMapImpl(capacity, loadFactor, maxCapacity);
      return Success(m);
    }

    /** put: rejected when the map holds maxCapacity entries; otherwise the entry goes into the
        first free slot from the key's home (a second entry if the key is already present),
        the count grows by one, and the array may grow. */
    method Put(key: int, value: V) returns (r: Result<V>)
      requires Valid() && PutKey(key) && HasRoom()
      modifies this, data
      ensures Valid()
      ensures old(entriesCount) == maxCapacity ==>
        r == Failure(IllegalState("Map is full")) &&
        data == old(data) && data[..] == old(data[..]) && entriesCount == old(entriesCount)
      ensures old(entriesCount) < maxCapacity ==>
        r == Success(value) && entriesCount == old(entriesCount) + 1 &&
        multiset(Occupied(data[..])) == multiset(Occupied(old(data[..]))) + multiset{(key, value)}
      ensures old(entriesCount) < maxCapacity &&
              !Overloaded(old(entriesCount) + 1, old(data.Length), loadFactor, maxCapacity) ==>
        data == old(data) &&
        data[..] == old(data[..])[FirstFree(old(data[..]), PutHome(key, old(data.Length))) := Full(key, value)]
      ensures old(entriesCount) < maxCapacity &&
              Overloaded(old(entriesCount) + 1, old(data.Length), loadFactor, maxCapacity) ==>
        fresh(data) && Grown(old(data.Length), maxCapacity) <= data.Length
      ensures old(entriesCount) < maxCapacity &&
              Overloaded(old(entriesCount) + 1, old(data.Length), loadFactor, maxCapacity) &&
              !Overloaded(old(entriesCount) + 1, Grown(old(data.Length), maxCapacity), loadFactor, maxCapacity) ==>
        data.Length == Grown(old(data.Length), maxCapacity)
      ensures old(data.Length) <= data.Length <= maxCapacity
      ensures data == old(data) || fresh(data)
      decreases maxCapacity - data.Length, 2
    {
      if entriesCount == maxCapacity {
        return Failure(IllegalState("Map is full"));
      }
      Place(key, value);
      CheckResize();
      return Success(value);
    }

    /** The placing half of put: store the entry in the first free slot from the key's home
        and count it; the load is checked afterwards. */
    method Place(key: int, value: V)
      requires Wellformed() && PutKey(key) && entriesCount < data.Length
      modifies this`entriesCount, data
      ensures Wellformed()
      ensures data[..] == old(data[..])[FirstFree(old(data[..]), PutHome(key, data.Length)) := Full(key, value)]
      ensures entriesCount == old(entriesCount) + 1
      ensures multiset(Occupied(data[..])) == multiset(Occupied(old(data[..]))) + multiset{(key, value)}
    {
      var index := ObtainFreeIndex(key);
      ghost var before := data[..];
      data[index] := Full(key, value);
      assert data[..] == before[index := Full(key, value)];
      OccupiedFill(before, index, key, value);
      entriesCount := entriesCount + 1;
    }

    /** obtainFreeIndex: probe from the key's home, one slot at a time, until an empty slot. */
    method ObtainFreeIndex(key: int) returns (index: int)
      requires Wellformed() && PutKey(key) && entriesCount < data.Length
      ensures index == FirstFree(data[..], PutHome(key, data.Length))
    {
      var n := data.Length;
      ghost var s := data[..];
      ghost var home := PutHome(key, n);
      FreeOffsetFound(s, home);
      ghost var stop := FreeOffset(s, home, 0);
      index := Narrow(key) % n;
      ghost var k := 0;
      var freeIndex := false;
      while !freeIndex
        invariant 0 <= k <= stop && index == ProbeAt(home, k, n)
        invariant freeIndex ==> k == stop
        decreases stop - k, !freeIndex
      {
        if data[index].Full? {
          index := NextIndex(index, n);
          k := k + 1;
          continue;
        }
        freeIndex := true;
      }
    }

    /** checkResize: grow when below the ceiling and the load exceeds the load factor. */
    method CheckResize()
      requires Wellformed()
      modifies this
      ensures Valid()
      ensures entriesCount == old(entriesCount)
      ensures multiset(Occupied(data[..])) == multiset(Occupied(old(data[..])))
      ensures !Overloaded(old(entriesCount), old(data.Length), loadFactor, maxCapacity) ==> data == old(data)
      ensures Overloaded(old(entriesCount), old(data.Length), loadFactor, maxCapacity) ==>
        fresh(data) && Grown(old(data.Length), maxCapacity) <= data.Length
      ensures Overloaded(old(entriesCount), old(data.Length), loadFactor, maxCapacity) &&
              !Overloaded(old(entriesCount), Grown(old(data.Length), maxCapacity), loadFactor, maxCapacity) ==>
        data.Length == Grown(old(data.Length), maxCapacity)
      ensures old(data.Length) <= data.Length <= maxCapacity
      decreases maxCapacity - data.Length, 1
    {
      if data.Length == maxCapacity {
        return;
      }
      var currentLoad := entriesCount as real / data.Length as real;
      OverloadedIsLoadTest(entriesCount, data.Length, loadFactor, maxCapacity);
      if currentLoad > loadFactor {
        Resize();
      }
    }

    /** resize: a new array of length `2 * length + 1` (at most maxCapacity) into which every
        entry of the old array is put again; the entries and their count are kept. The new
        array is exactly that long unless the entries overload it too, so that a put of the
        re-insertion grows it again. */
    method Resize()
      requires Wellformed() && data.Length < maxCapacity
      modifies this
      ensures Valid() && fresh(data)
      ensures Grown(old(data.Length), maxCapacity) <= data.Length <= maxCapacity
      ensures !Overloaded(old(entriesCount), Grown(old(data.Length), maxCapacity), loadFactor, maxCapacity) ==>
        data.Length == Grown(old(data.Length), maxCapacity)
      ensures entriesCount == old(entriesCount)
      ensures multiset(Occupied(data[..])) == multiset(Occupied(old(data[..])))
      decreases maxCapacity - data.Length, 0
    {
      var entries := data;
      var newSize := Grown(data.Length, maxCapacity);
      data := new Slot<V>[newSize](_ => Empty);
      entriesCount := 0;
      OccupiedEmpty(data[..]);
      PutAll(entries);
    }

    /** The re-insertion pass of resize: put every entry of the old array `entries`, in array
        order, into the current (empty) array. No put grows the array when all the entries
        together do not overload it, since each put sees at most that many. */
    method PutAll(entries: array<Slot<V>>)
      requires Wellformed() && entries != data && entriesCount == 0
      requires |Occupied(entries[..])| <= entries.Length < data.Length
      requires forall i :: 0 <= i < entries.Length && entries[i].Full? ==> PutKey(entries[i].key)
      modifies this, data
      ensures Valid()
      ensures entriesCount == |Occupied(entries[..])|
      ensures multiset(Occupied(data[..])) == multiset(Occupied(entries[..]))
      ensures old(data.Length) <= data.Length <= maxCapacity
      ensures data == old(data) || fresh(data)
      ensures !Overloaded(|Occupied(entries[..])|, old(data.Length), loadFactor, maxCapacity) ==> data == old(data)
      decreases maxCapacity - data.Length, 4
    {
      ghost var keep := !Overloaded(|Occupied(entries[..])|, data.Length, loadFactor, maxCapacity);
      var j := 0;
      while j < entries.Length
        invariant 0 <= j <= entries.Length
        invariant Valid() && old(data.Length) <= data.Length
        invariant data == old(data) || fresh(data)
        invariant entriesCount == |Occupied(entries[..j])|
        invariant multiset(Occupied(data[..])) == multiset(Occupied(entries[..j]))
        invariant keep ==> data == old(data)
      {
        ReinsertAt(entries, j, keep);
        j := j + 1;
      }
      assert entries[..j] == entries[..];
    }

    /** One step of the re-insertion pass: `put` the entry at index `j` of the old array, if any.
        `keep` says all the old entries fit without growth, so this put does not grow the array. */
    method ReinsertAt(entries: array<Slot<V>>, j: int, ghost keep: bool)
      requires Valid() && entries != data && 0 <= j < entries.Length < data.Length
      requires keep ==> !Overloaded(|Occupied(entries[..])|, data.Length, loadFactor, maxCapacity)
      requires entriesCount == |Occupied(entries[..j])|
      requires multiset(Occupied(data[..])) == multiset(Occupied(entries[..j]))
      requires forall i :: 0 <= i < entries.Length && entries[i].Full? ==> PutKey(entries[i].key)
      modifies this, data
      ensures Valid()
      ensures entriesCount == |Occupied(entries[..j + 1])|
      ensures multiset(Occupied(data[..])) == multiset(Occupied(entries[..j + 1]))
      ensures old(data.Length) <= data.Length <= maxCapacity
      ensures data == old(data) || fresh(data)
      ensures keep ==> data == old(data)
      decreases maxCapacity - data.Length, 3
    {
      if entries[j].Full? {
        var key, value := entries[j].key, entries[j].value;
        ghost var before := Occupied(data[..]);
        assert |Occupied(entries[..j])| <= j;
        ReinsertCount(entries[..], j);
        assert entries[..][..j] == entries[..j];
        var _ := Put(key, value);
        ReinsertStep(entries[..], j, before, Occupied(data[..]));
      } else {
        OccupiedPrefix(entries[..], j);
      }
    }

    /** doActionForEntry: check the home slot, then step through the following slots until
        the search is back at the home slot; -1 when no slot holds the key. */
    method FindEntry(key: int) returns (index: int)
      requires Wellformed() && LookupKey(key)
      ensures index == SearchIndex(data[..], key)
    {
      var n := data.Length;
      ghost var s := data[..];
      var initialIndex := key % n;
      ghost var stop := MatchOffset(s, key, initialIndex, 0);
      index := initialIndex;
      if HasKey(data[index], key) {
        return;
      }
      index := NextIndex(index, n);
      ghost var k := 1;
      while index != initialIndex
        invariant 1 <= k <= stop && index == ProbeAt(initialIndex, k, n)
        decreases n - k
      {
        if HasKey(data[index], key) {
          return;
        }
        index := NextIndex(index, n);
        k := k + 1;
      }
      index := -1;
    }

    /** get: the value of the first slot holding the key in probe order, or None. */
    method Get(key: int) returns (r: Option<V>)
      requires Valid() && LookupKey(key)
      ensures r == Lookup(data[..], key)
    {
      var index := FindEntry(key);
      if index < 0 {
        return None;
      }
      return Some(data[index].value);
    }

    /** remove: on a hit, empty exactly the first matching slot, decrement the count and return
        the slot's value; on a miss, return None and change nothing. */
    method Remove(key: int) returns (r: Option<V>)
      requires Valid() && LookupKey(key)
      modifies this`entriesCount, data
      ensures Valid()
      ensures r == Lookup(old(data[..]), key)
      ensures var i := SearchIndex(old(data[..]), key);
        if i < 0 then data[..] == old(data[..]) && entriesCount == old(entriesCount)
        else data[..] == old(data[..])[i := Empty] && entriesCount == old(entriesCount) - 1
    {
      var index := FindEntry(key);
      r := RemoveEntry(index);
      UnloadKeepsBalance(old(entriesCount), entriesCount, data.Length, loadFactor, maxCapacity);
    }

    /** removeEntry: empty the slot found by the search, or do nothing for -1. */
    method RemoveEntry(index: int) returns (r: Option<V>)
      requires Wellformed() && -1 <= index < data.Length
      requires index >= 0 ==> data[index].Full?
      modifies this`entriesCount, data
      ensures Wellformed()
      ensures index < 0 ==> r == None && data[..] == old(data[..]) && entriesCount == old(entriesCount)
      ensures index >= 0 ==>
        r == Some(old(data[index].value)) &&
        data[..] == old(data[..])[index := Empty] && entriesCount == old(entriesCount) - 1
      ensures multiset(Occupied(data[..])) + (if r.Some? then multiset{(old(data[index].key), r.value)} else multiset{})
           == multiset(Occupied(old(data[..])))
    {
      if index < 0 {
        return None;
      }
      ghost var before := data[..];
      var value := data[index].value;
      data[index] := Empty;
      assert data[..] == before[index := Empty];
      OccupiedVacate(before, index);
      entriesCount := entriesCount - 1;
      return Some(value);
    }

    /** isEmpty: no slot is occupied. */
    method IsEmpty() returns (r: bool)
      requires Valid()
      ensures r <==> forall i :: 0 <= i < data.Length ==> data[i].Empty?
    {
      OccupiedCount(data[..]);
      return entriesCount == 0;
    }

    /** containsKey: some slot holds the key. */
    method ContainsKey(key: int) returns (r: bool)
      requires Valid() && LookupKey(key)
      ensures r <==> HasEntryFor(data[..], key)
    {
      var index := FindEntry(key);
      return index >= 0;
    }

    /** containsValue: scan the array for an occupied slot holding the value. */
    method ContainsValue(value: V) returns (r: bool)
      requires Valid()
      ensures r <==> HasValue(data[..], value)
    {
      for j := 0 to data.Length
        invariant forall i :: 0 <= i < j ==> !(data[i].Full? && data[i].value == value)
      {
        if data[j].Full? && data[j].value == value {
          return true;
        }
      }
      return false;
    }

    /** keys: the keys of the occupied slots in array order, exactly entriesCount of them. */
    method Keys() returns (r: seq<int>)
      requires Valid()
      ensures r == KeysOf(data[..])
      ensures |r| == entriesCount
    {
      if entriesCount == 0 {
        return [];
      }
      var raw := new int[data.Length];
      var rawIndex := 0;
      for j := 0 to data.Length
        invariant rawIndex <= j && raw[..rawIndex] == KeysOf(data[..j])
      {
        KeysOfPrefix(data[..], j);
        if data[j].Full? {
          raw[rawIndex] := data[j].key;
          rawIndex := rawIndex + 1;
        }
      }
      assert data[..data.Length] == data[..];
      return raw[..entriesCount];
    }

    /** values: the values of the occupied slots in array order, exactly entriesCount of them. */
    method Values() returns (r: seq<V>)
      requires Valid()
      ensures r == ValuesOf(data[..])
      ensures |r| == entriesCount
    {
      if entriesCount == 0 {
        return [];
      }
      var raw := new V[data.Length];
      var rawIndex := 0;
      for j := 0 to data.Length
        invariant rawIndex <= j && raw[..rawIndex] == ValuesOf(data[..j])
      {
        ValuesOfPrefix(data[..], j);
        if data[j].Full? {
          raw[rawIndex] := data[j].value;
          rawIndex := rawIndex + 1;
        }
      }
      assert data[..data.Length] == data[..];
      return raw[..entriesCount];
    }

    /** size: the number of occupied slots. */
    method Size() returns (n: int)
      requires Valid()
      ensures n == |Occupied(data[..])|
    {
      return entriesCount;
    }

    /** clear: a fresh empty array of the initial capacity; the load factor is kept. */
    method Clear()
      requires Valid()
      modifies this
      ensures Valid() && fresh(data)
      ensures data.Length == InitialCapacity && entriesCount == 0
      ensures forall i :: 0 <= i < data.Length ==> data[i] == Empty
    {
      data := new Slot<V>[InitialCapacity](_ => Empty);
      entriesCount := 0;
      OccupiedEmpty(data[..]);
    }
  }
}
