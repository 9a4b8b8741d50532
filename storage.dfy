/**
 * The key-value store contract: a provider of named stores, each a mutable
 * table from non-empty string keys to non-nil byte values, with half-open
 * range iteration in lexicographic key order.
 *
 * The storage backends are not shown; the model is an in-memory store that
 * meets the contract the store test pins down.
 */
module Storage {
  import opened Wrappers
  import opened Data

  datatype StoreError = ErrKeyMandatory | ErrValueMandatory | ErrDataNotFound | ErrIteratorReleased
  {
    function Message(): string
    {
      match this
      case ErrKeyMandatory => "key is mandatory"
      case ErrValueMandatory => "value is mandatory"
      case ErrDataNotFound => "data not found"
      case ErrIteratorReleased => "iterator released"
    }
  }

  // ---------------------------------------------------------------------
  // Lexicographic order on keys (Go's byte order on UTF-8 strings is the
  // code-point order on the characters).

  /** `a` sorts before `b`, the two agreeing on their first `i` characters. */
  predicate BelowFrom(a: string, b: string, i: nat)
    requires i <= |a| && i <= |b|
    decreases |a| - i
  {
    if i == |a| then i < |b|
    else if i == |b| then false
    else if a[i] != b[i] then a[i] < b[i]
    else BelowFrom(a, b, i + 1)
  }

  /** Strict lexicographic order. */
  predicate Below(a: string, b: string)
  {
    BelowFrom(a, b, 0)
  }

  /** `k` lies in the half-open range `[start, end)`. */
  predicate InRange(k: string, start: string, end: string)
  {
    !Below(k, start) && Below(k, end)
  }

  lemma {:induction false} BelowFromIrreflexive(a: string, i: nat)
    requires i <= |a|
    ensures !BelowFrom(a, a, i)
    decreases |a| - i
  {
    if i < |a| {
      BelowFromIrreflexive(a, i + 1);
    }
  }

  lemma {:induction false} BelowFromTransitive(a: string, b: string, c: string, i: nat)
    requires i <= |a| && i <= |b| && i <= |c|
    requires BelowFrom(a, b, i) && BelowFrom(b, c, i)
    ensures BelowFrom(a, c, i)
    decreases |a| - i
  {
    if i < |a| && i < |b| && i < |c| && a[i] == b[i] && b[i] == c[i] {
      BelowFromTransitive(a, b, c, i + 1);
    }
  }

  lemma {:induction false} BelowFromTotal(a: string, b: string, i: nat)
    requires i <= |a| && i <= |b| && a[..i] == b[..i]
    ensures a == b || BelowFrom(a, b, i) || BelowFrom(b, a, i)
    decreases |a| - i
  {
    if i == |a| && i == |b| {
      assert a == a[..i] && b == b[..i];
    } else if i < |a| && i < |b| && a[i] == b[i] {
      assert a[..i + 1] == a[..i] + [a[i]] && b[..i + 1] == b[..i] + [b[i]];
      BelowFromTotal(a, b, i + 1);
    }
  }

  lemma {:induction false} BelowFromAsymmetric(a: string, b: string, i: nat)
    requires i <= |a| && i <= |b|
    ensures !(BelowFrom(a, b, i) && BelowFrom(b, a, i))
    decreases |a| - i
  {
    if i < |a| && i < |b| && a[i] == b[i] {
      BelowFromAsymmetric(a, b, i + 1);
    }
  }

  /** `Below` is a strict total order. */
  lemma BelowIsStrictTotalOrder()
    ensures forall a :: !Below(a, a)
    ensures forall a, b :: !(Below(a, b) && Below(b, a))
    ensures forall a, b, c :: Below(a, b) && Below(b, c) ==> Below(a, c)
    ensures forall a, b :: a == b || Below(a, b) || Below(b, a)
  {
    forall a ensures !Below(a, a) { BelowFromIrreflexive(a, 0); }
    forall a, b ensures !(Below(a, b) && Below(b, a)) { BelowFromAsymmetric(a, b, 0); }
    forall a, b, c | Below(a, b) && Below(b, c) ensures Below(a, c) { BelowFromTransitive(a, b, c, 0); }
    forall a, b ensures a == b || Below(a, b) || Below(b, a) { BelowFromTotal(a, b, 0); }
  }

  /** A key extending `prefix + [c]` sorts before `prefix + suffix` when `c`
      is smaller than the suffix's first character. */
  lemma {:induction false} BelowAt(a: string, b: string, i: nat)
    requires i < |a| && i < |b| && a[..i] == b[..i] && a[i] < b[i]
    ensures Below(a, b)
  {
    BelowFromSkip(a, b, i);
  }

  /** Agreeing on the first `i` characters, the comparison starts at `i`. */
  lemma {:induction false} BelowFromSkip(a: string, b: string, i: nat)
    requires i <= |a| && i <= |b| && a[..i] == b[..i]
    ensures Below(a, b) == BelowFrom(a, b, i)
    decreases i
  {
    if i > 0 {
      assert a[..i - 1] == a[..i][..i - 1] && b[..i - 1] == b[..i][..i - 1];
      assert a[i - 1] == a[..i][i - 1] && b[i - 1] == b[..i][i - 1];
      BelowFromSkip(a, b, i - 1);
    }
  }

  /** Strictly ascending: sorted and without repeats. */
  predicate StrictlyAscending(ks: seq<string>)
  {
    forall i, j :: 0 <= i < j < |ks| ==> Below(ks[i], ks[j])
  }

  /** `m` is below every other element of `s`. */
  predicate IsLeast(m: string, s: set<string>)
  {
    m in s && forall k :: k in s && k != m ==> Below(m, k)
  }

  /** Adding `x` to a set whose least element is `m`: the new least element
      is `x` if `x` is below `m`, and `m` otherwise. */
  lemma LeastOfInsert(rest: set<string>, m: string, x: string)
    requires IsLeast(m, rest) && x !in rest
    ensures IsLeast(if Below(x, m) then x else m, rest + {x})
  {
    if Below(x, m) {
      forall k | k in rest + {x} && k != x ensures Below(x, k) {
        if k != m {
          assert k in rest;
          BelowFromTransitive(x, m, k, 0);
        }
      }
    } else {
      BelowFromTotal(x, m, 0);
    }
  }

  /** A non-empty set of keys has a least element. */
  lemma {:induction false} LeastExists(s: set<string>)
    requires s != {}
    ensures exists m :: IsLeast(m, s)
    decreases |s|
  {
    var x :| x in s;
    var rest := s - {x};
    if rest != {} {
      LeastExists(rest);
      var m :| IsLeast(m, rest);
      LeastOfInsert(rest, m, x);
      assert rest + {x} == s;
    } else {
      assert forall k :: k in s ==> k in rest || k == x;
      assert IsLeast(x, s);
    }
  }

  /** The keys of `s` in ascending order, as a backend lists them. */
  method SortedKeys(s: set<string>) returns (ks: seq<string>)
    ensures StrictlyAscending(ks)
    ensures forall k :: k in ks <==> k in s
  {
    BelowIsStrictTotalOrder();
    ks := [];
    var rest := s;
    while rest != {}
      invariant rest <= s
      invariant forall k :: k in s ==> (k in ks <==> k !in rest)
      invariant forall k :: k in ks ==> k in s
      invariant StrictlyAscending(ks)
      invariant forall i, k :: 0 <= i < |ks| && k in rest ==> Below(ks[i], k)
      decreases |rest|
    {
      LeastExists(rest);
      var m :| IsLeast(m, rest);
      ks := ks + [m];
      rest := rest - {m};
    }
  }

  /** Listings of the same keys are empty together. */
  lemma SameKeysBothEmpty(xs: seq<string>, ys: seq<string>)
    requires forall k :: k in xs <==> k in ys
    ensures xs == [] <==> ys == []
  {
    if xs != [] {
      assert xs[0] in ys;
    }
    if ys != [] {
      assert ys[0] in xs;
    }
  }

  /** Two strictly ascending listings of the same keys are the same listing:
      range iteration order is fully determined. */
  lemma {:induction false} AscendingListingUnique(xs: seq<string>, ys: seq<string>)
    requires StrictlyAscending(xs) && StrictlyAscending(ys)
    requires forall k :: k in xs <==> k in ys
    ensures xs == ys
    decreases |xs|
  {
    BelowIsStrictTotalOrder();
    SameKeysBothEmpty(xs, ys);
    if xs != [] && ys != [] {
      assert xs[0] in ys && ys[0] in xs;
      assert xs[0] == ys[0];
      forall k ensures k in xs[1..] <==> k in ys[1..] {
        assert k in xs[1..] <==> k in xs && k != xs[0];
        assert k in ys[1..] <==> k in ys && k != ys[0];
      }
      AscendingListingUnique(xs[1..], ys[1..]);
      assert xs == [xs[0]] + xs[1..] && ys == [ys[0]] + ys[1..];
    }
  }

  /** A strictly ascending listing has exactly as many elements as the set
      of keys it lists. */
  lemma {:induction false} ListingLength(ks: seq<string>, keys: set<string>)
    requires StrictlyAscending(ks)
    requires forall k :: k in ks <==> k in keys
    ensures |ks| == |keys|
    decreases |ks|
  {
    BelowIsStrictTotalOrder();
    if ks == [] {
      assert keys == {};
    } else {
      var init := ks[..|ks| - 1];
      var last := ks[|ks| - 1];
      forall k ensures k in init <==> k in keys - {last} {
        if k in init {
          var i :| 0 <= i < |init| && init[i] == k;
          assert Below(ks[i], ks[|ks| - 1]);
        }
        if k in keys - {last} {
          var i :| 0 <= i < |ks| && ks[i] == k;
          assert i < |ks| - 1 && init[i] == k;
        }
      }
      ListingLength(init, keys - {last});
    }
  }

  /** Adjacent order suffices for strict ascent. */
  lemma {:induction false} AscendingByAdjacent(ks: seq<string>)
    requires forall i :: 0 <= i < |ks| - 1 ==> Below(ks[i], ks[i + 1])
    ensures StrictlyAscending(ks)
    decreases |ks|
  {
    BelowIsStrictTotalOrder();
    if |ks| > 1 {
      AscendingByAdjacent(ks[1..]);
      forall i, j | 0 <= i < j < |ks| ensures Below(ks[i], ks[j]) {
        if i > 0 {
          assert ks[i] == ks[1..][i - 1] && ks[j] == ks[1..][j - 1];
        } else if j > 1 {
          assert ks[1] == ks[1..][0] && ks[j] == ks[1..][j - 1];
        }
      }
    }
  }

  /** `ks` lists the keys of `entries` in `[start, end)`, ascending. */
  ghost predicate IsRangeListing(ks: seq<string>, entries: map<string, Bytes>, start: string, end: string)
  {
    StrictlyAscending(ks) && forall k :: k in ks <==> k in entries && InRange(k, start, end)
  }

  // ---------------------------------------------------------------------
  // Iterator

  /** A cursor over a snapshot of a key range. Before the first `Next` and
      after the last one it is on no entry; once released it is on none. */
  class StoreIterator {
    const keys: seq<string>
    const snapshot: map<string, Bytes>
    var cursor: int
    var released: bool

    predicate Valid()
      reads this
    {
      -1 <= cursor <= |keys| && forall k :: k in keys ==> k in snapshot
    }

    constructor(keys: seq<string>, snapshot: map<string, Bytes>)
      requires forall k :: k in keys ==> k in snapshot
      ensures this.keys == keys && this.snapshot == snapshot
      ensures cursor == -1 && !released && Valid()
    {
      this.keys := keys;
      this.snapshot := snapshot;
      cursor := -1;
      released := false;
    }

    /** The current entry exists. */
    predicate OnEntry()
      reads this
    {
      !released && 0 <= cursor < |keys|
    }

    /** `Key`: the current key, or empty when on no entry. */
    function Key(): (r: string)
      reads this
      requires Valid()
      ensures OnEntry() ==> r == keys[cursor]
      ensures !OnEntry() ==> r == ""
    {
      if OnEntry() then keys[cursor] else ""
    }

    /** `Value`: the stored value of the current key, or empty when on no entry. */
    function Value(): (r: Bytes)
      reads this
      requires Valid()
      ensures OnEntry() ==> keys[cursor] in snapshot && r == snapshot[keys[cursor]]
      ensures !OnEntry() ==> r == []
    {
      if OnEntry() then snapshot[keys[cursor]] else []
    }

    /** `Error`: none while the iterator is live; released, after `Release`. */
    function Error(): (r: Option<StoreError>)
      reads this
      ensures r.Some? <==> released
    {
      if released then Some(ErrIteratorReleased) else None
    }

    /** `Next`: moves to the following entry and says whether there is one;
        a released iterator does not move. */
    method Next() returns (ok: bool)
      requires Valid()
      modifies this
      ensures Valid() && released == old(released)
      ensures old(released) ==> !ok && cursor == old(cursor)
      ensures !old(released) ==> cursor == (if old(cursor) < |keys| then old(cursor) + 1 else |keys|)
      ensures ok <==> OnEntry()
    {
      if released {
        return false;
      }
      if cursor < |keys| {
        cursor := cursor + 1;
      }
      ok := cursor < |keys|;
    }

    /** `Release`: afterwards there is no entry and `Error` reports it. */
    method Release()
      requires Valid()
      modifies this
      ensures Valid() && released && cursor == old(cursor)
      ensures !OnEntry() && Key() == "" && Value() == [] && Error() == Some(ErrIteratorReleased)
    {
      released := true;
    }
  }

  /** The `for iter.Next()` loop of `verifyItr`: a fresh iterator yields each
      key of its listing once, in order, each with its stored value, and ends
      exhausted. */
  method Drain(it: StoreIterator) returns (ks: seq<string>, vs: seq<Bytes>)
    requires it.Valid() && !it.released && it.cursor == -1
    modifies it
    ensures it.Valid() && !it.released && it.cursor == |it.keys|
    ensures ks == it.keys
    ensures |vs| == |ks| && forall i :: 0 <= i < |ks| ==> vs[i] == it.snapshot[ks[i]]
  {
    ks, vs := [], [];
    var ok := it.Next();
    while ok
      invariant it.Valid() && !it.released && 0 <= it.cursor <= |it.keys|
      invariant ok <==> it.cursor < |it.keys|
      invariant ks == it.keys[..it.cursor]
      invariant |vs| == |ks| && forall i :: 0 <= i < |ks| ==> vs[i] == it.snapshot[ks[i]]
      decreases |it.keys| - it.cursor
    {
      ks := ks + [it.Key()];
      vs := vs + [it.Value()];
      ok := it.Next();
    }
    assert it.keys[..|it.keys|] == it.keys;
  }

  // ---------------------------------------------------------------------
  // Store and provider

  /** One named store: a table from keys to values. */
  class Store {
    var entries: map<string, Bytes>

    constructor()
      ensures entries == map[]
    {
      entries := map[];
    }

    /** `Get`: the stored value; an empty key or a missing key is an error. */
    function Get(k: string): (r: Result<Bytes, StoreError>)
      reads this
      ensures r.Success? <==> k != "" && k in entries
      ensures r.Success? ==> r.value == entries[k]
      ensures k == "" ==> r == Failure(ErrKeyMandatory)
      ensures k != "" && k !in entries ==> r == Failure(ErrDataNotFound)
    {
      if k == "" then Failure(ErrKeyMandatory)
      else if k !in entries then Failure(ErrDataNotFound)
      else Success(entries[k])
    }

    /** `Put`: stores `v` under `k`, replacing any earlier value; an empty
        key or a nil value is refused and changes nothing. */
    method Put(k: string, v: Option<Bytes>) returns (err: Option<StoreError>)
      modifies this
      ensures k == "" ==> err == Some(ErrKeyMandatory)
      ensures k != "" && v.None? ==> err == Some(ErrValueMandatory)
      ensures err.Some? ==> entries == old(entries)
      ensures err.None? <==> k != "" && v.Some?
      ensures err.None? ==> entries == old(entries)[k := v.value]
      ensures err.None? ==> Get(k) == Success(v.value)
      ensures forall k' :: k' != k ==> Get(k') == old(Get(k'))
    {
      if k == "" {
        return Some(ErrKeyMandatory);
      }
      if v.None? {
        return Some(ErrValueMandatory);
      }
      entries := entries[k := v.value];
      err := None;
    }

    /** `Delete`: removes `k`, succeeding also when it is absent; an empty
        key is refused with "key is mandatory". */
    method Delete(k: string) returns (err: Option<StoreError>)
      modifies this
      ensures err.Some? <==> k == ""
      ensures err.Some? ==> err.value.Message() == "key is mandatory" && entries == old(entries)
      ensures err.None? ==> entries == old(entries) - {k}
      ensures err.None? ==> Get(k) == Failure(ErrDataNotFound)
      ensures forall k' :: k' != k ==> Get(k') == old(Get(k'))
    {
      if k == "" {
        return Some(ErrKeyMandatory);
      }
      entries := entries - {k};
      err := None;
    }

    /** `Iterator(start, end)`: a fresh cursor over the keys in `[start, end)`
        in ascending order, with their values. */
    method Iterator(start: string, end: string) returns (it: StoreIterator)
      ensures fresh(it) && it.Valid() && !it.released && it.cursor == -1
      ensures IsRangeListing(it.keys, entries, start, end)
      ensures forall k :: k in it.keys ==> it.snapshot[k] == entries[k]
    {
      var inRange := set k | k in entries && InRange(k, start, end);
      var keys := SortedKeys(inRange);
      it := new StoreIterator(keys, entries);
    }
  }

  /** A provider of named stores: opening a name again gives the same store. */
  class Provider {
    var stores: map<string, Store>

    /** Different names never share a store. */
    predicate Valid()
      reads this
    {
      forall a, b :: a in stores && b in stores && a != b ==> stores[a] != stores[b]
    }

    constructor()
      ensures stores == map[] && Valid()
    {
      stores := map[];
    }

    /** `OpenStore`: the existing store of that name, or a new empty one. */
    method OpenStore(name: string) returns (s: Store)
      requires Valid()
      modifies this
      ensures Valid()
      ensures name in old(stores) ==> s == old(stores)[name] && stores == old(stores)
      ensures name !in old(stores) ==> fresh(s) && s.entries == map[] && stores == old(stores)[name := s]
      ensures name in stores && stores[name] == s
    {
      if name in stores {
        return stores[name];
      }
      s := new Store();
      stores := stores[name := s];
    }
  }

  // ---------------------------------------------------------------------
  // The store test's expectations, from the contracts above. The backends'
  // end-of-range suffix is a parameter: a non-empty string whose first
  // character sorts after '_'.

  predicate IsEndKeySuffix(suffix: string)
  {
    |suffix| > 0 && suffix[0] > '_'
  }

  /** Every key that starts with "_key_" lies in ["_key", "_key" + suffix). */
  lemma UnderscoreKeysInRange(k: string, endKeySuffix: string)
    requires IsEndKeySuffix(endKeySuffix)
    requires |k| >= 5 && k[..5] == "_key_"
    ensures InRange(k, "_key", "_key" + endKeySuffix)
  {
    BelowIsStrictTotalOrder();
    var end := "_key" + endKeySuffix;
    assert k[..4] == end[..4];
    BelowAt(k, end, 4);
    assert "_key"[..4] == k[..4];
    BelowFromSkip("_key", k, 4);
  }

  /** The seven keys of the iterator test, as stored. */
  ghost predicate HoldsIteratorTestKeys(entries: map<string, Bytes>)
  {
    entries.Keys == {"abc_123", "abc_124", "abc_125", "abc_126", "jkl_123", "mno_123", "dab_123"}
  }

  const AbcKeys: seq<string> := ["abc_123", "abc_124", "abc_125", "abc_126"]

  /** Range ["abc_", "abc_" + suffix) of the iterator test: the four "abc_" keys. */
  lemma AbcPrefixListing(entries: map<string, Bytes>, endKeySuffix: string)
    requires HoldsIteratorTestKeys(entries) && IsEndKeySuffix(endKeySuffix)
    ensures IsRangeListing(AbcKeys, entries, "abc_", "abc_" + endKeySuffix)
  {
    var end := "abc_" + endKeySuffix;
    AscendingByAdjacent(AbcKeys);
    forall k | k in AbcKeys ensures Below(k, end) {
      assert k[..4] == end[..4];
      BelowAt(k, end, 4);
    }
    BelowIsStrictTotalOrder();
  }

  /** Range ["", "dab_123"): the four "abc_" keys. */
  lemma BeforeDabListing(entries: map<string, Bytes>)
    requires HoldsIteratorTestKeys(entries)
    ensures IsRangeListing(AbcKeys, entries, "", "dab_123")
  {
    AscendingByAdjacent(AbcKeys);
  }

  /** Ranges ["abc_124", "") and ["", ""): nothing sorts before "". */
  lemma EmptyEndListing(entries: map<string, Bytes>, start: string)
    ensures IsRangeListing([], entries, start, "")
  {
  }

  const AllKeysSorted: seq<string> := ["abc_123", "abc_124", "abc_125", "abc_126", "dab_123", "jkl_123", "mno_123"]

  /** Range ["abc_", "mno_" + suffix): all seven keys, in order. */
  lemma ThroughMnoListing(entries: map<string, Bytes>, endKeySuffix: string)
    requires HoldsIteratorTestKeys(entries) && IsEndKeySuffix(endKeySuffix)
    ensures IsRangeListing(AllKeysSorted, entries, "abc_", "mno_" + endKeySuffix)
  {
    BelowIsStrictTotalOrder();
    var end := "mno_" + endKeySuffix;
    AscendingByAdjacent(AllKeysSorted);
    assert "mno_123"[..4] == end[..4];
    BelowAt("mno_123", end, 4);
    forall k | k in AllKeysSorted ensures Below(k, end) {
      assert Below(k, "mno_123") || k == "mno_123";
    }
  }

  const BeforeMnoKeys: seq<string> := ["abc_123", "abc_124", "abc_125", "abc_126", "dab_123", "jkl_123"]

  /** Range ["abc_", "mno_123"): all keys but "mno_123". */
  lemma BeforeMnoListing(entries: map<string, Bytes>)
    requires HoldsIteratorTestKeys(entries)
    ensures IsRangeListing(BeforeMnoKeys, entries, "abc_", "mno_123")
  {
    AscendingByAdjacent(BeforeMnoKeys);
  }

  /** "Store put and get": a value reads back, a later put replaces it, an
      unknown key is not found, and empty keys and nil values are refused. */
  method PutAndGetScenario(data: Bytes, data2: Bytes, update: Bytes)
    returns (got: seq<Result<Bytes, StoreError>>, refused: seq<Option<StoreError>>)
    ensures got == [Success(data), Success(data2), Success(update), Failure(ErrDataNotFound), Failure(ErrKeyMandatory)]
    ensures |refused| == 2 && refused[0].Some? && refused[1].Some?
  {
    var provider := new Provider();
    var store := provider.OpenStore("test");
    var key := "did:example:123";
    var _ := store.Put(key, Some(data));
    var g1 := store.Get(key);
    var _ := store.Put(key, Some(data2));
    var g2 := store.Get(key);
    var _ := store.Put(key, Some(update));
    var g3 := store.Get(key);
    var missing := store.Get("did:example:789");
    var emptyKey := store.Get("");
    var nilValue := store.Put(key, None);
    var emptyKeyPut := store.Put("", Some(data));
    got := [g1, g2, g3, missing, emptyKey];
    refused := [nilValue, emptyKeyPut];
  }

  /** "Multi store put and get": stores of different names are isolated, and
      opening a name again sees that store's data. */
  method MultiStoreScenario(commonKey: string, data: Bytes)
    returns (got: seq<Result<Bytes, StoreError>>)
    requires commonKey != ""
    ensures got == [Success(data), Failure(ErrDataNotFound), Success(data), Success(data)]
  {
    var provider := new Provider();
    var store1 := provider.OpenStore("store-1");
    var store2 := provider.OpenStore("store-2");
    var _ := store1.Put(commonKey, Some(data));
    var g1 := store1.Get(commonKey);
    var g2 := store2.Get(commonKey);
    var _ := store2.Put(commonKey, Some(data));
    var g3 := store2.Get(commonKey);
    var store3 := provider.OpenStore("store-1");
    var g4 := store3.Get(commonKey);
    got := [g1, g2, g3, g4];
  }

  /** "Delete": an empty key is refused with "key is mandatory", deleting an
      absent key succeeds, and a deleted key is no longer found. */
  method DeleteScenario(data: Bytes)
    returns (emptyKeyMessage: string, absentKey: Option<StoreError>, deleted: Option<StoreError>,
             got: Result<Bytes, StoreError>)
    ensures emptyKeyMessage == "key is mandatory"
    ensures absentKey.None? && deleted.None?
    ensures got == Failure(ErrDataNotFound)
  {
    var provider := new Provider();
    var store := provider.OpenStore("test-store");
    var commonKey := "did:example:1234";
    var _ := store.Put(commonKey, Some(data));
    var emptyKey := store.Delete("");
    emptyKeyMessage := emptyKey.value.Message();
    absentKey := store.Delete("k1");
    deleted := store.Delete(commonKey);
    got := store.Get(commonKey);
  }

  /** "can put and get / delete keys prefixed with underscore": such a key
      reads back, and once deleted is no longer found. */
  method UnderscoreKeyScenario(store: Store, expected: Bytes)
    returns (got: Result<Bytes, StoreError>, deleted: Option<StoreError>, gone: Result<Bytes, StoreError>)
    modifies store
    ensures got == Success(expected) && deleted.None? && gone == Failure(ErrDataNotFound)
  {
    var key := "_test_key";
    var _ := store.Put(key, Some(expected));
    got := store.Get(key);
    deleted := store.Delete(key);
    gone := store.Get(key);
  }

  /** "can iterate keys prefixed with underscore": over a store whose keys
      all start with "_key_", the range ["_key", "_key" + suffix) yields
      every stored key once, each with its stored value. */
  method UnderscoreIterationScenario(store: Store, endKeySuffix: string)
    returns (ks: seq<string>, vs: seq<Bytes>)
    requires IsEndKeySuffix(endKeySuffix)
    requires forall k :: k in store.entries ==> |k| >= 5 && k[..5] == "_key_"
    ensures forall k :: k in ks <==> k in store.entries
    ensures |ks| == |store.entries.Keys|
    ensures |vs| == |ks| && forall i :: 0 <= i < |ks| ==> vs[i] == store.entries[ks[i]]
  {
    var it := store.Iterator("_key", "_key" + endKeySuffix);
    forall k | k in store.entries ensures InRange(k, "_key", "_key" + endKeySuffix) {
      UnderscoreKeysInRange(k, endKeySuffix);
    }
    ks, vs := Drain(it);
    ListingLength(ks, store.entries.Keys);
    it.Release();
  }

  /** `verifyItr`: drains a fresh iterator, then releases it; afterwards
      `Next` is false, `Key` and `Value` are empty and `Error` is set. */
  method VerifyItr(it: StoreIterator) returns (ks: seq<string>, vs: seq<Bytes>, nextAfterRelease: bool)
    requires it.Valid() && !it.released && it.cursor == -1
    modifies it
    ensures ks == it.keys
    ensures |vs| == |ks| && forall i :: 0 <= i < |ks| ==> vs[i] == it.snapshot[ks[i]]
    ensures !nextAfterRelease && it.Valid() && it.Key() == "" && it.Value() == [] && it.Error().Some?
  {
    ks, vs := Drain(it);
    it.Release();
    nextAfterRelease := it.Next();
  }

  /** The put loop of the iterator test, into an empty store. */
  method PutIteratorTestKeys(store: Store, valueOf: string -> Bytes)
    requires store.entries == map[]
    modifies store
    ensures HoldsIteratorTestKeys(store.entries)
  {
    var keys := ["abc_123", "abc_124", "abc_125", "abc_126", "jkl_123", "mno_123", "dab_123"];
    for i := 0 to |keys|
      invariant forall k :: k in store.entries <==> k in keys[..i]
    {
      var _ := store.Put(keys[i], Some(valueOf(keys[i])));
    }
    assert keys[..|keys|] == keys;
  }

  /** One `verifyItr` call of the iterator test: the range yields exactly
      the listing `expected`, in order. */
  method CheckRange(store: Store, start: string, end: string, ghost expected: seq<string>)
    returns (ks: seq<string>)
    requires IsRangeListing(expected, store.entries, start, end)
    ensures ks == expected
  {
    var it := store.Iterator(start, end);
    var vs, next;
    ks, vs, next := VerifyItr(it);
    AscendingListingUnique(ks, expected);
  }

  /** The ranges of the iterator test, each with the listing it yields. */
  function IteratorTestRange(endKeySuffix: string, n: nat): (string, string, seq<string>)
    requires n < 6
  {
    [("abc_", "abc_" + endKeySuffix, AbcKeys), ("", "dab_123", AbcKeys), ("abc_124", "", []),
     ("", "", []), ("abc_", "mno_" + endKeySuffix, AllKeysSorted), ("abc_", "mno_123", BeforeMnoKeys)][n]
  }

  /** The `n`-th range of the iterator test over its seven keys. */
  method CheckIteratorTestRange(store: Store, endKeySuffix: string, n: nat) returns (ks: seq<string>)
    requires HoldsIteratorTestKeys(store.entries) && IsEndKeySuffix(endKeySuffix) && n < 6
    ensures ks == IteratorTestRange(endKeySuffix, n).2
  {
    var (start, end, expected) := IteratorTestRange(endKeySuffix, n);
    if n == 0 {
      AbcPrefixListing(store.entries, endKeySuffix);
    } else if n == 1 {
      BeforeDabListing(store.entries);
    } else if n == 2 || n == 3 {
      EmptyEndListing(store.entries, start);
    } else if n == 4 {
      ThroughMnoListing(store.entries, endKeySuffix);
    } else {
      BeforeMnoListing(store.entries);
    }
    ks := CheckRange(store, start, end, expected);
  }

  /** "Iterator": the six ranges of the test over its seven keys yield 4, 4,
      0, 0, 7 and 6 keys, and the first range yields only "abc_" keys. */
  method IteratorScenario(valueOf: string -> Bytes, endKeySuffix: string) returns (counts: seq<nat>, firstRange: seq<string>)
    requires IsEndKeySuffix(endKeySuffix)
    ensures counts == [4, 4, 0, 0, 7, 6]
    ensures |firstRange| == 4 && forall k :: k in firstRange ==> |k| >= 4 && k[..4] == "abc_"
  {
    var provider := new Provider();
    var store := provider.OpenStore("test-iterator");
    PutIteratorTestKeys(store, valueOf);

    var ks1 := CheckIteratorTestRange(store, endKeySuffix, 0);
    var ks2 := CheckIteratorTestRange(store, endKeySuffix, 1);
    var ks3 := CheckIteratorTestRange(store, endKeySuffix, 2);
    var ks4 := CheckIteratorTestRange(store, endKeySuffix, 3);
    var ks5 := CheckIteratorTestRange(store, endKeySuffix, 4);
    var ks6 := CheckIteratorTestRange(store, endKeySuffix, 5);
    counts := [|ks1|, |ks2|, |ks3|, |ks4|, |ks5|, |ks6|];
    firstRange := ks1;
  }
}
