// In-place sorting of a slice by a key, the behaviour the program relies on
// from Go's sort.Slice: the result is ordered and a permutation of the input.

module Sorting {
  import opened Results

  /** A sort key compared lexicographically: first `major`, then `minor`. */
  datatype Key = Key(major: int, minor: int)

  predicate KeyLe(a: Key, b: Key) {
    a.major < b.major || (a.major == b.major && a.minor <= b.minor)
  }

  /** The strict form of KeyLe: `a` comes before `b`. */
  predicate KeyLt(a: Key, b: Key) {
    a.major < b.major || (a.major == b.major && a.minor < b.minor)
  }

  predicate SortedBy<T>(s: seq<T>, key: T -> Key) {
    forall i, j :: 0 <= i < j < |s| ==> KeyLe(key(s[i]), key(s[j]))
  }

  /** On the keys of the elements of `m`, the comparator `less` is KeyLt. */
  predicate Agrees<T>(m: multiset<T>, key: T -> Key, less: (Key, Key) -> bool) {
    forall x, y :: x in m && y in m ==> (less(key(x), key(y)) <==> KeyLt(key(x), key(y)))
  }

  /**
   * The insertion sort sort.Slice runs on short slices: each element in turn
   * is swapped down while `less` puts it before its left neighbour. The result
   * always holds the same elements; it is ordered whenever `less` is KeyLt on
   * the elements' keys, whatever else it says about other keys.
   */
  method InsertionSort<T>(a: array<T>, key: T -> Key, less: (Key, Key) -> bool)
    modifies a
    ensures multiset(a[..]) == multiset(old(a[..]))
    ensures Agrees(multiset(old(a[..])), key, less) ==> SortedBy(a[..], key)
  {
    ghost var agree := Agrees(multiset(a[..]), key, less);
    var i := 0;
    while i < a.Length
      invariant 0 <= i <= a.Length
      invariant multiset(a[..]) == multiset(old(a[..]))
      invariant agree ==> SortedBy(a[..i], key)
    {
      Insert(a, i, key, less, agree);
      i := i + 1;
    }
    assert a[..a.Length] == a[..];
  }

  /** One step of the comparison: on agreeing elements, `less` is "not KeyLe the other way". */
  lemma LessAt<T>(m: multiset<T>, key: T -> Key, less: (Key, Key) -> bool, x: T, y: T)
    requires Agrees(m, key, less) && x in m && y in m
    ensures less(key(x), key(y)) <==> !KeyLe(key(y), key(x))
  {
  }

  /** `s[..i + 1]` is ordered except for the element at `j`, which is ordered before all that follow it. */
  predicate Inserting<T>(s: seq<T>, i: int, j: int, key: T -> Key)
    requires 0 <= j <= i < |s|
  {
    && (forall p, q :: 0 <= p < q <= i && p != j && q != j ==> KeyLe(key(s[p]), key(s[q])))
    && (forall q :: j < q <= i ==> KeyLe(key(s[j]), key(s[q])))
  }

  /** Moves `a[i]` down past the elements of `a[..i]` that `less` puts after it. */
  method Insert<T>(a: array<T>, i: int, key: T -> Key, less: (Key, Key) -> bool, ghost agree: bool)
    requires 0 <= i < a.Length
    requires agree ==> Agrees(multiset(a[..]), key, less) && SortedBy(a[..i], key)
    modifies a
    ensures multiset(a[..]) == multiset(old(a[..]))
    ensures agree ==> SortedBy(a[..i + 1], key)
  {
    var j := i;
    if agree {
      InsertingStart(a[..], i, key);
    }
    while j > 0 && less(key(a[j]), key(a[j - 1]))
      invariant 0 <= j <= i
      invariant multiset(a[..]) == multiset(old(a[..]))
      invariant agree ==> Agrees(multiset(a[..]), key, less) && Inserting(a[..], i, j, key)
    {
      SwapDown(a, i, j, key, less, agree);
      j := j - 1;
    }
    if agree {
      if j > 0 {
        assert a[j] in a[..] && a[j - 1] in a[..];
        LessAt(multiset(a[..]), key, less, a[j], a[j - 1]);
      }
      InsertingDone(a[..], i, j, key);
    }
  }

  lemma InsertingStart<T>(s: seq<T>, i: int, key: T -> Key)
    requires 0 <= i < |s| && SortedBy(s[..i], key)
    ensures Inserting(s, i, i, key)
  {
    forall p, q | 0 <= p < q < i ensures KeyLe(key(s[p]), key(s[q])) {
      assert s[..i][p] == s[p] && s[..i][q] == s[q];
    }
  }

  lemma InsertingDone<T>(s: seq<T>, i: int, j: int, key: T -> Key)
    requires 0 <= j <= i < |s| && Inserting(s, i, j, key)
    requires j > 0 ==> KeyLe(key(s[j - 1]), key(s[j]))
    ensures SortedBy(s[..i + 1], key)
  {
    forall p, q | 0 <= p < q <= i ensures KeyLe(key(s[p]), key(s[q])) {
      if p == j - 1 && q != j {
        assert KeyLe(key(s[j]), key(s[q]));
      }
    }
  }

  /** One swap of Insert: the element at `j`, which `less` puts before its left neighbour, moves one place down. */
  method SwapDown<T>(a: array<T>, i: int, j: int, key: T -> Key, less: (Key, Key) -> bool, ghost agree: bool)
    requires 0 < j <= i < a.Length
    requires less(key(a[j]), key(a[j - 1]))
    requires agree ==> Agrees(multiset(a[..]), key, less) && Inserting(a[..], i, j, key)
    modifies a
    ensures multiset(a[..]) == multiset(old(a[..]))
    ensures agree ==> Agrees(multiset(a[..]), key, less) && Inserting(a[..], i, j - 1, key)
  {
    if agree {
      LessAt(multiset(a[..]), key, less, a[j], a[j - 1]);
    }
    Swap(a, j - 1, j);
  }

  method Swap<T>(a: array<T>, p: int, q: int)
    requires 0 <= p < q < a.Length
    modifies a
    ensures a[..] == old(a[..])[p := old(a[q])][q := old(a[p])]
    ensures multiset(a[..]) == multiset(old(a[..]))
  {
    a[p], a[q] := a[q], a[p];
  }

  /** Every element has a key. */
  predicate AllKeyed<T>(s: seq<T>, key: T -> Option<Key>) {
    forall i :: 0 <= i < |s| ==> key(s[i]).Some?
  }

  /** Every element has a key, and the keys never decrease along `s`. */
  predicate KeyedInOrder<T>(s: seq<T>, key: T -> Option<Key>) {
    forall i, j :: 0 <= i < j < |s| ==> key(s[i]).Some? && key(s[j]).Some? && KeyLe(key(s[i]).value, key(s[j]).value)
  }

  /** AllKeyed, stated over the members of the sequence. */
  lemma AllKeyedMembers<T>(s: seq<T>, key: T -> Option<Key>)
    ensures AllKeyed(s, key) <==> forall x :: x in s ==> key(x).Some?
  {
  }

  /** On the keys of the keyed elements of `s`, the comparator `less` is KeyLt. */
  ghost predicate KeyedAgrees<T>(s: seq<T>, key: T -> Option<Key>, less: (Key, Key) -> bool) {
    forall x, y :: x in multiset(s) && y in multiset(s) && key(x).Some? && key(y).Some? ==>
      (less(key(x).value, key(y).value) <==> KeyLt(key(x).value, key(y).value))
  }

  /**
   * sort.Slice with a comparator that compares keys with `less` and stops the
   * program when it cannot compute a key. Insertion sort compares every
   * element of two or more, so it stops exactly when some element has no key;
   * `ok` is false then. The elements are ordered by key whenever `less` is
   * KeyLt on their keys.
   */
  method SortOrAbort<T>(a: array<T>, key: T -> Option<Key>, less: (Key, Key) -> bool) returns (ok: bool)
    modifies a
    ensures ok <==> a.Length < 2 || AllKeyed(old(a[..]), key)
    ensures !ok ==> a[..] == old(a[..])
    ensures ok ==> multiset(a[..]) == multiset(old(a[..]))
    ensures ok && a.Length >= 2 ==> AllKeyed(a[..], key)
    ensures ok && KeyedAgrees(old(a[..]), key, less) ==> KeyedInOrder(a[..], key)
  {
    if a.Length < 2 {
      return true;
    }
    if !AllKeyed(a[..], key) {
      return false;
    }
    ghost var before := a[..];
    var total := (x: T) => if key(x).Some? then key(x).value else Key(0, 0);
    if KeyedAgrees(before, key, less) {
      forall x, y | x in multiset(before) && y in multiset(before)
        ensures less(total(x), total(y)) <==> KeyLt(total(x), total(y))
      {
        AllKeyedMembers(before, key);
      }
    }
    InsertionSort(a, total, less);
    forall i | 0 <= i < a.Length ensures key(a[i]).Some? {
      assert a[i] in multiset(before);
    }
    ok := true;
  }
}
