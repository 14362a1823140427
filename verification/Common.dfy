/** Vocabulary shared by the models: optional values, failures and bytes. */
module Common {

  datatype Option<+T> = None | Some(value: T)

  datatype Result<+T, +E> = Ok(value: T) | Err(error: E)

  /** One byte of a file, a C string or a WAV image. */
  type Byte = b: int | 0 <= b < 256

  type Bytes = seq<Byte>

  const TWO_TO_16: int := 0x1_0000
  const TWO_TO_32: int := 0x1_0000_0000

  function Min(a: int, b: int): (m: int)
    ensures m <= a && m <= b && (m == a || m == b)
  {
    if a <= b then a else b
  }

  function Max(a: int, b: int): (m: int)
    ensures m >= a && m >= b && (m == a || m == b)
  {
    if a >= b then a else b
  }

  lemma SliceOfSlice<T>(s: seq<T>, from: nat, to: nat, first: nat, last: nat)
    requires from <= to <= |s| && first <= last <= to - from
    ensures s[from..to][first..last] == s[from + first..from + last]
  {
    var inner, outer := s[from..to][first..last], s[from + first..from + last];
    assert |inner| == |outer| && forall k :: 0 <= k < |inner| ==> inner[k] == outer[k];
  }

  lemma SliceOfAppend<T>(s: seq<T>, more: seq<T>, from: nat, to: nat)
    requires from <= to <= |s|
    ensures (s + more)[from..to] == s[from..to]
    ensures (s + more)[|s|..] == (s + more)[|s|..|s| + |more|] == more
  {
  }

  lemma SliceAcrossAppend<T>(s: seq<T>, more: seq<T>, from: nat, to: nat)
    requires |s| <= to <= |s| + |more| && from <= to
    ensures (s + more)[from..to] == if from <= |s| then s[from..] + more[..to - |s|] else more[from - |s|..to - |s|]
  {
    var inner := (s + more)[from..to];
    var outer := if from <= |s| then s[from..] + more[..to - |s|] else more[from - |s|..to - |s|];
    assert |inner| == |outer| && forall k :: 0 <= k < |inner| ==> inner[k] == outer[k];
  }

  /** No element occurs twice. */
  ghost predicate Distinct<T>(s: seq<T>) {
    forall i, j :: 0 <= i < j < |s| ==> s[i] != s[j]
  }

  /** The set of the elements of a sequence. */
  ghost function Elements<T>(s: seq<T>): set<T> {
    set x | x in s
  }

  /** A duplicate-free sequence drawn from a finite set is no longer than the set. */
  lemma {:induction false} DistinctLength<T>(s: seq<T>, universe: set<T>)
    requires Distinct(s)
    requires forall x :: x in s ==> x in universe
    ensures |s| <= |universe|
    decreases |s|
  {
    if s != [] {
      var last := s[|s| - 1];
      var init := s[..|s| - 1];
      assert forall x :: x in init ==> x in universe - {last};
      DistinctLength(init, universe - {last});
    }
  }

  ghost function Any<T>(s: set<T>): (x: T)
    requires s != {}
    ensures x in s
  {
    var x :| x in s;
    x
  }

  lemma Missing<T>(small: set<T>, large: set<T>) returns (x: T)
    requires small <= large && small != large
    ensures x in large && x !in small
  {
    assert exists y :: y in large && y !in small;
    x :| x in large && x !in small;
  }

  lemma {:induction false} ElementsLength<T>(s: seq<T>)
    ensures |Elements(s)| <= |s|
    ensures Distinct(s) ==> |Elements(s)| == |s|
  {
    if s == [] {
      assert Elements(s) == {};
    } else {
      var last := s[|s| - 1];
      var init := s[..|s| - 1];
      ElementsLength(init);
      assert s == init + [last];
      assert Elements(s) == Elements(init) + {last};
      if Distinct(s) {
        assert last !in Elements(init);
      }
    }
  }

  /** Copies bytes over part of an array, as Uint8Array.set does. */
  method Put(target: array<Byte>, at: nat, bytes: Bytes)
    requires at + |bytes| <= target.Length
    modifies target
    ensures forall k :: 0 <= k < target.Length ==>
              target[k] == if at <= k < at + |bytes| then bytes[k - at] else old(target[k])
  {
    forall k | 0 <= k < |bytes| {
      target[at + k] := bytes[k];
    }
  }
}
