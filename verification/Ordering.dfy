/** The orders Go's sort package is used with: strings by code unit, and integers. */
module Ordering {
  import opened Common

  /** Strict lexicographic order on strings. */
  predicate Below(a: string, b: string) {
    b != [] && (a == [] || a[0] < b[0] || (a[0] == b[0] && Below(a[1..], b[1..])))
  }

  lemma {:induction false} BelowIsStrict(a: string)
    ensures !Below(a, a)
  {
    if a != [] {
      BelowIsStrict(a[1..]);
    }
  }

  lemma {:induction false} BelowIsTransitive(a: string, b: string, c: string)
    requires Below(a, b) && Below(b, c)
    ensures Below(a, c)
  {
    if a != [] && a[0] == b[0] && b[0] == c[0] {
      BelowIsTransitive(a[1..], b[1..], c[1..]);
    }
  }

  lemma {:induction false} BelowIsTotal(a: string, b: string)
    requires a != b
    ensures Below(a, b) || Below(b, a)
  {
    if a != [] && b != [] && a[0] == b[0] {
      assert a == [a[0]] + a[1..] && b == [b[0]] + b[1..];
      BelowIsTotal(a[1..], b[1..]);
    }
  }

  ghost predicate Ascending(keys: seq<string>) {
    forall i, j :: 0 <= i < j < |keys| ==> Below(keys[i], keys[j])
  }

  /** `keys` lists the set `s` in order. */
  ghost predicate Lists(keys: seq<string>, s: set<string>) {
    Ascending(keys) && Elements(keys) == s
  }

  lemma AscendingIsDistinct(keys: seq<string>)
    requires Ascending(keys)
    ensures Distinct(keys)
  {
    forall i, j | 0 <= i < j < |keys| ensures keys[i] != keys[j] {
      BelowIsStrict(keys[i]);
    }
  }

  /** A set has only one ascending listing, so sorting a map's keys leaves no choice. */
  lemma {:induction false} ListingIsUnique(keys: seq<string>, other: seq<string>, s: set<string>)
    requires Lists(keys, s) && Lists(other, s)
    ensures keys == other
    decreases |keys|
  {
    AscendingIsDistinct(keys);
    AscendingIsDistinct(other);
    if keys == [] {
      ElementsLength(other);
    } else {
      assert keys[0] in Elements(other);
      var k :| 0 <= k < |other| && other[k] == keys[0];
      assert other[0] in Elements(keys);
      var o :| 0 <= o < |keys| && keys[o] == other[0];
      if k > 0 && o > 0 {
        BelowIsTransitive(keys[0], keys[o], other[k]);
        BelowIsStrict(keys[0]);
      }
      assert keys[0] == other[0];
      assert keys == [keys[0]] + keys[1..] && other == [other[0]] + other[1..];
      assert Elements(keys[1..]) == s - {keys[0]} && Elements(other[1..]) == s - {keys[0]};
      ListingIsUnique(keys[1..], other[1..], s - {keys[0]});
    }
  }

  lemma InsertionIsAscending(a: seq<string>, key: string, b: seq<string>)
    requires Ascending(a + b) && forall j :: 0 <= j < |a| ==> Below(a[j], key)
    requires forall j :: 0 <= j < |b| ==> Below(key, b[j])
    ensures Ascending(a + [key] + b)
  {
    hide Below;
    var before, after := a + b, a + [key] + b;
    forall i, j | 0 <= i < j < |after| ensures Below(after[i], after[j]) {
      var x, y := if i <= |a| then i else i - 1, if j <= |a| then j else j - 1;
      if i != |a| && j != |a| {
        assert after[i] == before[x] && after[j] == before[y];
      }
    }
  }

  lemma AboveTheRest(keys: seq<string>, key: string, i: nat)
    requires Ascending(keys) && key !in keys && i <= |keys| && (i < |keys| ==> !Below(keys[i], key))
    ensures forall j :: i <= j < |keys| ==> Below(key, keys[j])
  {
    hide Below;
    forall j | i <= j < |keys| ensures Below(key, keys[j]) {
      BelowIsTotal(key, keys[i]);
      if j > i { BelowIsTransitive(key, keys[i], keys[j]); }
    }
  }

  method InsertKey(keys: seq<string>, key: string) returns (r: seq<string>)
    requires Ascending(keys) && key !in keys
    ensures Ascending(r) && Elements(r) == Elements(keys) + {key}
  {
    hide Below, Ascending;
    var i := 0;
    while i < |keys| && Below(keys[i], key)
      invariant 0 <= i <= |keys|
      invariant forall j :: 0 <= j < i ==> Below(keys[j], key)
    {
      i := i + 1;
    }
    r := keys[..i] + [key] + keys[i..];
    assert keys == keys[..i] + keys[i..];
    AboveTheRest(keys, key, i);
    InsertionIsAscending(keys[..i], key, keys[i..]);
    ElementsOfInsertion(keys[..i], key, keys[i..]);
  }

  lemma ElementsOfInsertion(a: seq<string>, key: string, b: seq<string>)
    ensures Elements(a + [key] + b) == Elements(a + b) + {key}
  {
    assert forall x :: x in a + [key] + b <==> x in a + b || x == key;
  }

  /** Collecting a map's keys in whatever order and sorting them. */
  method SortKeys(s: set<string>) returns (keys: seq<string>)
    ensures Lists(keys, s)
  {
    keys := [];
    var rest := s;
    while rest != {}
      invariant rest <= s && Lists(keys, s - rest)
      decreases rest
    {
      var key :| key in rest;
      assert key !in Elements(keys);
      keys := InsertKey(keys, key);
      rest := rest - {key};
    }
    assert s - {} == s;
  }

  // ----- Integers

  ghost predicate Sorted(ids: seq<int>) {
    forall i, j :: 0 <= i < j < |ids| ==> ids[i] <= ids[j]
  }

  function InsertId(ids: seq<int>, id: int): seq<int> {
    if ids == [] || id <= ids[0] then [id] + ids else [ids[0]] + InsertId(ids[1..], id)
  }

  function SortIds(ids: seq<int>): seq<int> {
    if ids == [] then [] else InsertId(SortIds(ids[..|ids| - 1]), ids[|ids| - 1])
  }

  lemma HeadAndTail(ids: seq<int>)
    requires ids != []
    ensures multiset(ids) == multiset{ids[0]} + multiset(ids[1..])
  {
    assert ids == [ids[0]] + ids[1..];
  }

  lemma InitAndLast(ids: seq<int>)
    requires ids != []
    ensures multiset(ids) == multiset(ids[..|ids| - 1]) + multiset{ids[|ids| - 1]}
  {
    assert ids == ids[..|ids| - 1] + [ids[|ids| - 1]];
  }

  lemma {:induction false} InsertIdKeepsIds(ids: seq<int>, id: int)
    ensures multiset(InsertId(ids, id)) == multiset(ids) + multiset{id}
  {
    if ids != [] && id > ids[0] {
      InsertIdKeepsIds(ids[1..], id);
      HeadAndTail(ids);
    }
  }

  /** What stands in a list after an insertion stood there before, or is what was inserted. */
  lemma {:induction false} InsertedMember(ids: seq<int>, id: int, k: nat)
    requires k < |InsertId(ids, id)|
    ensures InsertId(ids, id)[k] == id || InsertId(ids, id)[k] in ids
  {
    if ids != [] && id > ids[0] && k > 0 {
      InsertedMember(ids[1..], id, k - 1);
    }
  }

  lemma PrependKeepsOrder(first: int, rest: seq<int>)
    requires Sorted(rest) && forall k :: 0 <= k < |rest| ==> first <= rest[k]
    ensures Sorted([first] + rest)
  {
  }

  lemma SortedTail(ids: seq<int>)
    requires Sorted(ids) && ids != []
    ensures Sorted(ids[1..]) && (forall k :: 0 <= k < |ids| ==> ids[0] <= ids[k])
    ensures forall x :: x in ids[1..] ==> ids[0] <= x
  {
  }

  lemma {:induction false} InsertIdKeepsOrder(ids: seq<int>, id: int)
    requires Sorted(ids)
    ensures Sorted(InsertId(ids, id))
  {
    hide Sorted;
    if ids == [] {
      OneIsSorted(id);
    } else {
      SortedTail(ids);
      if id <= ids[0] {
        PrependKeepsOrder(id, ids);
      } else {
        var rest := InsertId(ids[1..], id);
        InsertIdKeepsOrder(ids[1..], id);
        forall k | 0 <= k < |rest| ensures ids[0] <= rest[k] {
          InsertedMember(ids[1..], id, k);
        }
        PrependKeepsOrder(ids[0], rest);
      }
    }
  }

  lemma OneIsSorted(id: int)
    ensures Sorted([id] + []) && Sorted([])
  {
  }

  /** Sorting puts the same IDs in ascending order. */
  lemma {:induction false} SortIdsSummary(ids: seq<int>)
    ensures Sorted(SortIds(ids)) && multiset(SortIds(ids)) == multiset(ids)
  {
    hide Sorted, InsertId;
    OneIsSorted(0);
    if ids != [] {
      var init, last := ids[..|ids| - 1], ids[|ids| - 1];
      SortIdsSummary(init);
      InsertIdKeepsIds(SortIds(init), last);
      InsertIdKeepsOrder(SortIds(init), last);
      InitAndLast(ids);
    }
  }

  lemma SortIdsElements(ids: seq<int>)
    ensures Elements(SortIds(ids)) == Elements(ids)
  {
    SortIdsSummary(ids);
    assert forall x :: x in ids <==> x in multiset(ids);
    assert forall x :: x in SortIds(ids) <==> x in multiset(SortIds(ids));
  }
}
