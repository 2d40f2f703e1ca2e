# LongMapImpl in Dafny

A model of `LongMapImpl<V>`, a hash map from `long` keys to values that keeps its entries in a
single open-addressed array of slots (an empty slot is Java `null`). The model covers the
class's behaviour, with proofs:

- `put` stores the entry in the first empty slot at or cyclically after the key's home index.
  It never looks for an existing entry with the same key, so a repeated key gets a second slot.
- After a `put`, `checkResize` grows the array when its length is below the ceiling and the
  load `entriesCount / length` exceeds the load factor. `resize` allocates `2 * length + 1`
  slots, clamped to the ceiling, and puts every old entry again.
- `get`, `remove` and `containsKey` share one search (`doActionForEntry`). It starts at the
  key's home and steps through the following slots until it is back at the home. It does not
  stop at empty slots, so a removal never hides another entry.
- `containsValue`, `keys` and `values` scan the whole array.
- `clear` goes back to a fresh array of 8 slots.

Files:

- `long_map_spec.dfy` (module `LongMapSpec`) is the value-level view:
  - the slot datatype, the cyclic probe order, the two probe searches, and the arithmetic of
    Java's `(int)` cast and of growth;
  - `Occupied(s)`, the entries of a slot array in array order;
  - the lemmas about these.
- `long_map.dfy` (module `LongMap`) is class `LongMapImpl`:
  - it has the array field `data`, the counter `entriesCount`, the load factor, and the ceiling
    `maxCapacity`, which stands in for the overridable `getMaxCapacity()`;
  - each Java method is a Dafny method proved against the spec functions;
  - the loops carry their invariants.
- `long_map_tests.dfy` (module `LongMapTests`) gives each scenario of `LongMapImplTest` as a
  client method. Its contract states the outcome the test expects.

How the map behaves, as proved:

- The class invariant `Wellformed()` says:
  - `entriesCount` is the number of occupied slots;
  - `0 < data.Length <= maxCapacity`;
  - every stored key is one `put` can place.
- `Valid()` adds `Balanced()`: the load is within the load factor unless the ceiling is reached.
- Every state-changing method states its new array contents exactly, or the multiset of
  entries it keeps.
- The key search is proved to return the first matching slot in cyclic order from the home
  (`SearchIndex`). A lookup depends only on the slots holding its key
  (`LookupIgnoresOtherKeys`). So emptying a slot that holds another key (a `remove`), or filling
  an empty slot with another key (a `put` without growth), never changes what `get` finds. No
  tombstones are needed, and removals create no "gap" problem. A growth is different: it
  re-inserts every entry in array order, so it can change which of two entries with the same key
  the search meets first.
- `put` computes its home index as `(int) key % length`, which narrows the key first.
  The lookups compute `(int) (key % length)`. For keys such as 2^32 + 1 the two homes differ
  (`HomesDisagree`), but the full-cycle search still finds the entry.

## Model

| member | source | states |
|---|---|---|
| LongMap.CheckArguments | src/main/java/de/comparus/opensource/longmap/LongMapImpl.java:29-45 | no error iff 0 < capacity <= maxCapacity and 0 < loadFactor <= 1; "Illegal capacity" exactly when the capacity is out of range (it is checked first); "Illegal load balance" exactly when the capacity is valid and LoadFactorRejected rejects the factor; every error is an IllegalArgument |
| LongMap.LongMapImpl.constructor | src/main/java/de/comparus/opensource/longmap/LongMapImpl.java:28-45 | for valid arguments: an array of exactly `capacity` empty slots, count 0, the given load factor, and the class invariant |
| LongMap.LongMapImpl.CreateDefault | src/main/java/de/comparus/opensource/longmap/LongMapImpl.java:19-26 | a map of 8 empty slots with load factor 0.75 |
| LongMap.LongMapImpl.CreateWithCapacity | src/main/java/de/comparus/opensource/longmap/LongMapImpl.java:28-35 | fails with "Illegal capacity" iff capacity <= 0 or capacity > maxCapacity; otherwise `capacity` empty slots with load factor 0.75 |
| LongMap.LongMapImpl.CreateWithLoadFactor | src/main/java/de/comparus/opensource/longmap/LongMapImpl.java:37-45 | fails iff CheckArguments reports an error, with that error; otherwise `capacity` empty slots with the given load factor |
| LongMap.LongMapImpl.Put | src/main/java/de/comparus/opensource/longmap/LongMapImpl.java:56-69 | a full map (count == maxCapacity) gives "Map is full" and changes nothing; otherwise returns the value, the count grows by 1, and the multiset of entries gains exactly (key, value). Without growth, the only changed slot is FirstFree from the put home, which now holds the entry, so an older entry with the same key stays. With growth, the array is fresh and at least Grown(old length) long, and exactly that long when the new count does not overload the grown array. The invariant is kept and the length never exceeds maxCapacity |
| LongMap.LongMapImpl.Place | src/main/java/de/comparus/opensource/longmap/LongMapImpl.java:62-64 | the array becomes the old array with FirstFree(home) set to the entry; the count and the entry multiset grow by that one entry |
| LongMap.LongMapImpl.ObtainFreeIndex | src/main/java/de/comparus/opensource/longmap/LongMapImpl.java:71-86 | the probe loop returns FirstFree(data, PutHome(key)) |
| LongMapSpec.FirstFree | src/main/java/de/comparus/opensource/longmap/LongMapImpl.java:71-86 | an empty slot, and every slot the probe passes before it (in cyclic order from the home) is occupied |
| LongMapSpec.FreeOffset | src/main/java/de/comparus/opensource/longmap/LongMapImpl.java:76-83 | the first probe offset at or after k with an empty slot: every slot before it is occupied, and it is |s| only when none is empty |
| LongMapSpec.FreeOffsetFound | src/main/java/de/comparus/opensource/longmap/LongMapImpl.java:76-83 | when fewer entries than slots exist, the probe from any home reaches an empty slot before completing the cycle, so the loop ends |
| LongMapSpec.NextIndex | src/main/java/de/comparus/opensource/longmap/LongMapImpl.java:172-174 | obtainNextIndex is one step of the cyclic probe order |
| LongMapSpec.OffsetOf | src/main/java/de/comparus/opensource/longmap/LongMapImpl.java:155-163 | the cyclic probe from any home reaches every slot, and each slot at exactly one offset |
| LongMapSpec.Narrow | src/main/java/de/comparus/opensource/longmap/LongMapImpl.java:72 | Java's `(int)` cast: a 32-bit two's complement value congruent to x modulo 2^32 |
| LongMapSpec.PutHome | src/main/java/de/comparus/opensource/longmap/LongMapImpl.java:72 | put's home `(int) key % length` is a valid index for keys whose narrowed value is not negative |
| LongMapSpec.LookupHome | src/main/java/de/comparus/opensource/longmap/LongMapImpl.java:148 | the lookups' home `(int) (key % length)` is a valid index for keys >= 0 |
| LongMapSpec.HomesDisagree | src/main/java/de/comparus/opensource/longmap/LongMapImpl.java:72 | put (line 72) and the lookups (line 148) compute different homes for key 2^32 + 1 in 17 slots |
| LongMap.LongMapImpl.CheckResize | src/main/java/de/comparus/opensource/longmap/LongMapImpl.java:88-98 | the array is kept iff the length is at the ceiling or count/length <= loadFactor; otherwise it is replaced by a fresh one at least Grown(old length) long, and exactly that long when the count does not overload the grown length. Count and entry multiset are unchanged; afterwards the load is within the factor or the ceiling is reached |
| LongMap.LongMapImpl.Resize | src/main/java/de/comparus/opensource/longmap/LongMapImpl.java:100-116 | a fresh array with Grown(old length) <= length <= maxCapacity, and length == Grown(old length) when the count does not overload that length; it holds the same multiset of entries and the same count |
| LongMap.LongMapImpl.PutAll | src/main/java/de/comparus/opensource/longmap/LongMapImpl.java:113-115 | putting every old entry into the empty new array yields exactly the old entry multiset and count; when the old entries do not overload the new array, no put replaces it |
| LongMap.LongMapImpl.ReinsertAt | src/main/java/de/comparus/opensource/longmap/LongMapImpl.java:113-115 | after re-putting old slot j (skipped when null), the new array holds the entries of old slots 0..j; when all the old entries fit the array without overloading it, this put does not replace it |
| LongMapSpec.ReinsertCount | src/main/java/de/comparus/opensource/longmap/LongMapImpl.java:113-115 | a re-put of old slot j counts at most as many entries as the whole old array holds |
| LongMapSpec.ReinsertStep | src/main/java/de/comparus/opensource/longmap/LongMapImpl.java:113-115 | one re-put extends the re-inserted multiset by one more prefix slot of the old array, and the count by one |
| LongMapSpec.Grown | src/main/java/de/comparus/opensource/longmap/LongMapImpl.java:104-108 | the new length is longer than the old, at most maxCapacity and at most 2 * length + 1, and is one of the two: min(2 * length + 1, maxCapacity) |
| LongMapSpec.GrownAsWritten | src/main/java/de/comparus/opensource/longmap/LongMapImpl.java:104-108 | the new length computed in 32-bit arithmetic agrees with Grown whenever 2 * length + 1 fits in an int |
| LongMapSpec.GrownAsWrittenOverflows | src/main/java/de/comparus/opensource/longmap/LongMapImpl.java:104-110 | for length 1100000000 the 32-bit computation is negative, while the intended new length is maxCapacity |
| LongMapSpec.OverloadedIsLoadTest | src/main/java/de/comparus/opensource/longmap/LongMapImpl.java:88-98 | the growth trigger Overloaded (more entries than loadFactor * length, below the ceiling) holds iff the length is not the ceiling and the load count/length exceeds the load factor, as checkResize tests it |
| LongMapSpec.LoadFactorRejectedAsWritten | src/main/java/de/comparus/opensource/longmap/LongMapImpl.java:40-42 | the load-factor check as written, on Java doubles with NaN: on a finite factor it rejects exactly the factors outside (0, 1] |
| LongMapSpec.NaNLoadFactorAccepted | src/main/java/de/comparus/opensource/longmap/LongMapImpl.java:40-42 | NaN passes the check as written, and no load is then above the factor, so checkResize never grows the array |
| LongMapSpec.LoadFactorRejected | src/main/java/de/comparus/opensource/longmap/LongMapImpl.java:40-42 | the corrected check accepts exactly the finite factors in (0, 1], and agrees with the check as written on every finite factor |
| LongMapSpec.BalancedHasRoom | src/main/java/de/comparus/opensource/longmap/LongMapImpl.java:88-98 | with a load factor below 1, a load within the factor leaves an empty slot unless the map is at the ceiling, so the next put terminates |
| LongMapSpec.UnloadKeepsBalance | src/main/java/de/comparus/opensource/longmap/LongMapImpl.java:195 | removing entries never raises the load above the factor |
| LongMap.LongMapImpl.FindEntry | src/main/java/de/comparus/opensource/longmap/LongMapImpl.java:147-166 | the loop returns SearchIndex(data, key) |
| LongMapSpec.HasKey | src/main/java/de/comparus/opensource/longmap/LongMapImpl.java:168-170 | entryHasKey: a slot matches a key iff its listed entry has that key (an empty slot lists none) |
| LongMapSpec.SearchIndex | src/main/java/de/comparus/opensource/longmap/LongMapImpl.java:147-166 | -1 iff no slot holds the key; otherwise a slot holding the key such that no slot before it in cyclic order from the lookup home holds it |
| LongMapSpec.MatchOffset | src/main/java/de/comparus/opensource/longmap/LongMapImpl.java:155-163 | the first probe offset at or after k whose slot holds the key; no slot before it does |
| LongMapSpec.MatchOffsetMiss | src/main/java/de/comparus/opensource/longmap/LongMapImpl.java:157-165 | a search that completes the cycle without a match proves that no slot holds the key |
| LongMapSpec.MatchOffsetSame | src/main/java/de/comparus/opensource/longmap/LongMapImpl.java:155-163 | the search gives the same offset on two arrays that agree on which slots hold the key |
| LongMapSpec.LookupIgnoresOtherKeys | src/main/java/de/comparus/opensource/longmap/LongMapImpl.java:147-166 | two arrays that agree on the slots holding a key give the same search index and the same get result for it |
| LongMapSpec.RemoveKeepsOtherLookups | src/main/java/de/comparus/opensource/longmap/LongMapImpl.java:187-198 | emptying a slot that does not hold the key leaves get of that key unchanged |
| LongMapSpec.PutKeepsOtherLookups | src/main/java/de/comparus/opensource/longmap/LongMapImpl.java:62-64 | filling an empty slot with a different key (a put without growth) leaves get of the key unchanged |
| LongMap.LongMapImpl.Get | src/main/java/de/comparus/opensource/longmap/LongMapImpl.java:124-135 | returns Lookup(data, key) |
| LongMapSpec.Lookup | src/main/java/de/comparus/opensource/longmap/LongMapImpl.java:124-135 | a value iff some slot holds the key, and that (key, value) is a stored entry |
| LongMapSpec.LookupAfterInsert | src/main/java/de/comparus/opensource/longmap/LongMapImpl.java:124-135 | put-then-get: adding the only entry for a key makes get return its value |
| LongMapSpec.RemoveAfterInsert | src/main/java/de/comparus/opensource/longmap/LongMapImpl.java:183-198 | put-then-remove: the search for a freshly inserted key finds its entry, and emptying that slot restores the original entry multiset |
| LongMap.LongMapImpl.Remove | src/main/java/de/comparus/opensource/longmap/LongMapImpl.java:182-185 | returns the get result from before the call. On a miss, array and count are unchanged. On a hit, exactly the first matching slot is emptied and the count drops by 1. The invariant is kept |
| LongMap.LongMapImpl.RemoveEntry | src/main/java/de/comparus/opensource/longmap/LongMapImpl.java:187-198 | -1 gives None and no change; an index gives that slot's value, empties only that slot, decrements the count and removes exactly that entry from the multiset |
| LongMapSpec.OccupiedFill | src/main/java/de/comparus/opensource/longmap/LongMapImpl.java:63-64 | storing an entry in an empty slot adds exactly that entry and one to the number of entries |
| LongMapSpec.OccupiedVacate | src/main/java/de/comparus/opensource/longmap/LongMapImpl.java:192-195 | emptying an occupied slot removes exactly its entry and one from the number of entries |
| LongMapSpec.OccupiedUpdate | src/main/java/de/comparus/opensource/longmap/LongMapImpl.java:193 | overwriting one slot swaps its old entry for the new one in the entry multiset |
| LongMapSpec.OccupiedCount | src/main/java/de/comparus/opensource/longmap/LongMapImpl.java:205-208 | no entries iff every slot is empty; as many entries as slots iff every slot is occupied |
| LongMapSpec.OccupiedMember | src/main/java/de/comparus/opensource/longmap/LongMapImpl.java:252-258 | an entry is listed iff some slot holds it |
| LongMap.LongMapImpl.IsEmpty | src/main/java/de/comparus/opensource/longmap/LongMapImpl.java:205-208 | true iff every slot is empty |
| LongMap.LongMapImpl.ContainsKey | src/main/java/de/comparus/opensource/longmap/LongMapImpl.java:216-223 | true iff some slot holds the key |
| LongMap.LongMapImpl.ContainsValue | src/main/java/de/comparus/opensource/longmap/LongMapImpl.java:231-236 | true iff some occupied slot holds the value |
| LongMap.LongMapImpl.Keys | src/main/java/de/comparus/opensource/longmap/LongMapImpl.java:243-261 | the keys of the occupied slots in array order, exactly entriesCount of them (empty when the count is 0) |
| LongMapSpec.KeysOfMember | src/main/java/de/comparus/opensource/longmap/LongMapImpl.java:243-261 | a key is listed by keys() iff some slot holds it |
| LongMap.LongMapImpl.Values | src/main/java/de/comparus/opensource/longmap/LongMapImpl.java:268-287 | the values of the occupied slots in array order, exactly entriesCount of them (empty when the count is 0) |
| LongMapSpec.ValuesOfMember | src/main/java/de/comparus/opensource/longmap/LongMapImpl.java:268-287 | a value is listed by values() iff some slot holds it |
| LongMap.LongMapImpl.Size | src/main/java/de/comparus/opensource/longmap/LongMapImpl.java:294-297 | the number of occupied slots |
| LongMap.LongMapImpl.Clear | src/main/java/de/comparus/opensource/longmap/LongMapImpl.java:302-307 | a fresh array of 8 empty slots, count 0, invariant kept (load factor and ceiling are constants) |
| LongMapTests.TestValue | src/test/java/de/comparus/opensource/longmap/LongMapImplTest.java:22-24 | createValue(i) is "Test" followed by one or two digits |
| LongMapTests.SetUp | src/test/java/de/comparus/opensource/longmap/LongMapImplTest.java:13-20 | after putting 0..9 into a default map, it holds exactly the entries (i, createValue(i)), its count is 10, and the invariant holds |
| LongMapTests.PutTestEntry | src/test/java/de/comparus/opensource/longmap/LongMapImplTest.java:17-19 | one setUp put extends the held entries from keys 0..i-1 to 0..i |
| LongMapTests.HoldsFirstStep | src/test/java/de/comparus/opensource/longmap/LongMapImplTest.java:17-19 | adding (n, createValue(n)) to the entries of keys 0..n-1 gives those of keys 0..n |
| LongMapTests.HoldsFirstSameEntries | src/test/java/de/comparus/opensource/longmap/LongMapImplTest.java:111-123 | an array with the same entry multiset holds the same setUp entries |
| LongMapTests.SetUpKeys | src/test/java/de/comparus/opensource/longmap/LongMapImplTest.java:141-149 | in the setUp map a key is present iff it is in 0..9 |
| LongMapTests.SetUpValues | src/test/java/de/comparus/opensource/longmap/LongMapImplTest.java:151-160 | in the setUp map a value is present iff it is createValue(i) for some i in 0..9 |
| LongMapTests.SetUpLookup | src/test/java/de/comparus/opensource/longmap/LongMapImplTest.java:97-109 | in the setUp map, get(k) is createValue(k) for k in 0..9 and null otherwise |
| LongMapTests.BadCapacities | src/test/java/de/comparus/opensource/longmap/LongMapImplTest.java:31-39 | capacities -1 and Integer.MAX_VALUE are rejected with "Illegal capacity" |
| LongMapTests.BadLoadFactors | src/test/java/de/comparus/opensource/longmap/LongMapImplTest.java:41-51 | load factors -0.5 and 1.5 are rejected with "Illegal load balance" |
| LongMapTests.PutOne | src/test/java/de/comparus/opensource/longmap/LongMapImplTest.java:53-63 | put into a map of 2 slots returns the value and the size becomes 1 |
| LongMapTests.CreateFullFilledTestMap | src/test/java/de/comparus/opensource/longmap/LongMapImplTest.java:78-94 | with ceiling 20, twenty puts all succeed and the count reaches the ceiling |
| LongMapTests.PutOverwhelmed | src/test/java/de/comparus/opensource/longmap/LongMapImplTest.java:65-72 | a further put into the full test map fails with "Map is full" |
| LongMapTests.GetScenario | src/test/java/de/comparus/opensource/longmap/LongMapImplTest.java:97-109 | get(i) is createValue(i) for i in 0..9, and get(111) is null |
| LongMapTests.RemoveExisting | src/test/java/de/comparus/opensource/longmap/LongMapImplTest.java:111-123 | put(111, v) then remove(111) returns v, the size is back to 10, and get(111) is null |
| LongMapTests.RemoveNotExisting | src/test/java/de/comparus/opensource/longmap/LongMapImplTest.java:125-130 | remove(111) returns null and the size stays 10 |
| LongMapTests.IsEmptyScenario | src/test/java/de/comparus/opensource/longmap/LongMapImplTest.java:132-139 | the setUp map is not empty; a new default map is |
| LongMapTests.ContainsKeyScenario | src/test/java/de/comparus/opensource/longmap/LongMapImplTest.java:141-149 | containsKey(i) holds for i in 0..9, and containsKey(111) does not |
| LongMapTests.ContainsValueScenario | src/test/java/de/comparus/opensource/longmap/LongMapImplTest.java:151-160 | containsValue(createValue(i)) holds for i in 0..9, and containsValue("Not existing value") does not |
| LongMapTests.KeysWithFilledMap | src/test/java/de/comparus/opensource/longmap/LongMapImplTest.java:162-167 | keys() has ten elements, and a key is among them iff it is in 0..9 |
| LongMapTests.ValuesWithFilledMap | src/test/java/de/comparus/opensource/longmap/LongMapImplTest.java:178-187 | values() has ten elements, and a value is among them iff it is createValue(i) for some i in 0..9 |
| LongMapTests.KeysAndValuesOfEmptyMap | src/test/java/de/comparus/opensource/longmap/LongMapImplTest.java:169-196 | keys() and values() of a new default map are empty |
| LongMapTests.SizeAndClear | src/test/java/de/comparus/opensource/longmap/LongMapImplTest.java:198-210 | the setUp map has size 10, and size 0 after clear |

## Left out

- Floating point: the load factor is an exact `real`, and `(double) entriesCount / data.length > loadFactor` is compared exactly. Double rounding is not modelled.
- NaN load factor: the map's load factor is a `real`, which cannot be NaN. In Java, `loadFactor <= 0 || loadFactor > 1` is false for NaN, so `new LongMapImpl(capacity, Double.NaN)` is accepted. Then `currentLoad > loadFactor` is never true and the map never grows; once the array is full below the ceiling, `put` loops forever in `obtainFreeIndex`. `NaNLoadFactorAccepted` states the first two facts on a small model of Java doubles; the endless loop is not modelled. See "## Findings".
- `javafx.util.Pair`, the `IntFunction` callback and Java streams are library plumbing. A slot is the datatype `Slot`. `doActionForEntry` is `FindEntry`, which returns the index or -1; `Get`, `Remove` and `ContainsKey` each apply their own action (`obtainValue`, `removeEntry`, `isKeyFound`) to it. The stream filters in `resize` and `containsValue` are loops over the array.
- Java exceptions as a mechanism:
  - the constructors' `IllegalArgumentException` is a `Failure` result of the `Create` factories, and the constructor requires valid arguments;
  - `put`'s `IllegalStateException` is a `Failure` result.
- Keys that give a negative array index are excluded by preconditions instead of modelling `ArrayIndexOutOfBoundsException`:
  - `put` requires the narrowed key `(int) key` to be non-negative (`PutKey`);
  - the lookups require `key >= 0` (`LookupKey`);
  - Java's `%` truncates toward zero, so a negative key whose remainder is 0 still gives index 0 (for example `put(-8)` and `get(-8)` on 8 slots). These keys are valid in Java, but both preconditions exclude them too.
- LongMap.LongMapImpl.Put: requires `HasRoom()` (an empty slot exists, or the map is at the ceiling). With load factor 1 and a full array below the ceiling, the Java probe loop never ends; the model does not capture that divergence.
- LongMap.LongMapImpl.Put: after a growth it states that the array is fresh, holds the right multiset of entries, and is exactly `Grown(old length)` long unless the entries overload even that length. It does not state the slot layout after a growth, because that depends on the order of re-insertion and on a nested growth.
- LongMap.LongMapImpl.Resize: when the entries overload even `Grown(old length)` (possible with a load factor below 1/2), a put of the re-insertion grows the array again; the contract then states only `Grown(old length) <= length`.
- LongMap.LongMapImpl.CheckResize: the same as `Resize`: the new length is exact unless the entries overload the grown length.
- LongMapTests.KeysWithFilledMap: states the contents of `keys()` but not the order `[0..9]` the test checks, because the layout after the growth inside setUp is not stated (see `Put`).
- LongMapTests.ValuesWithFilledMap: states the contents of `values()` but not their order, for the same reason.
- The ceiling: `getMaxCapacity()` is the constant field `maxCapacity`. It is assumed to lie between 8 and `Integer.MAX_VALUE - 8`, since `clear` and the default constructor allocate 8 slots regardless of it.
- Null values and Java `equals`: values are compared with Dafny equality. A `null` value, on which `containsValue` would throw, is not modelled.
- Return types: `keys()` returns a sequence of unbounded integers instead of `long[]`, `values()` a sequence instead of `V[]`, and `size()` an integer. Key range is kept by `IsLong`. The count never exceeds `maxCapacity`, so `entriesCount` needs no wrap-around.
- Behaviour the code does not have is not modelled:
  - tombstones or a removal that breaks probe chains (the search runs the full cycle, see `LookupIgnoresOtherKeys`);
  - overwrite on a repeated key (`put` adds a second entry, see `Put`).

## Findings

| source | as written | input that shows it | evidently intended | confidence | as-written member | corrected member |
|---|---|---|---|---|---|---|
| src/main/java/de/comparus/opensource/longmap/LongMapImpl.java:104-110 | `int newSize = data.length * 2 + 1` overflows int for lengths above 1073741823. The negative result passes the `newSize > getMaxCapacity()` clamp, and `new Pair[newSize]` throws `NegativeArraySizeException` | an array of length 1100000000 that must grow | the new length is `min(2 * length + 1, maxCapacity)`, computed without overflow | not executed | LongMapSpec.GrownAsWrittenOverflows | LongMapSpec.Grown |
| src/main/java/de/comparus/opensource/longmap/LongMapImpl.java:40-42 | `if (loadFactor <= 0 \|\| loadFactor > 1)` is false for NaN, so NaN is accepted as a load factor. Afterwards `currentLoad > loadFactor` (line 96) is never true, so the array never grows, and a put into a full array below the ceiling loops forever (lines 76-83) | `new LongMapImpl(8, Double.NaN)` followed by 9 puts | accept only factors with `0 < loadFactor <= 1`, so NaN is rejected | not executed | LongMapSpec.NaNLoadFactorAccepted | LongMapSpec.LoadFactorRejected |
