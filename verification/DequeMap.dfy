/** A map from values to the order in which they were first added: the objects in that
    order, and the permutation that sorts them. */
module DequeMap {

  /** operator<, and equality that agrees with it. */
  ghost predicate TotalOrder<T(!new)>(less: (T, T) -> bool) {
    && (forall a :: !less(a, a))
    && (forall a, b :: less(a, b) || less(b, a) || a == b)
    && (forall a, b, c :: less(a, b) && less(b, c) ==> less(a, c))
  }

  ghost predicate Permutation(keys: seq<nat>, n: nat) {
    && |keys| == n
    && (forall k :: 0 <= k < n ==> keys[k] < n)
    && (forall i :: 0 <= i < n ==> i in keys)
  }

  ghost predicate SortedBy<T>(less: (T, T) -> bool, objects: seq<T>, keys: seq<nat>) {
    && (forall k :: 0 <= k < |keys| ==> keys[k] < |objects|)
    && (forall j, k :: 0 <= j < k < |keys| ==> less(objects[keys[j]], objects[keys[k]]))
  }

  /** Each object is there once, and at each place an object has stood from when it was
      added. */
  ghost predicate Distinct<T>(s: seq<T>) {
    forall j, k :: 0 <= j < k < |s| ==> s[j] != s[k]
  }

  /** What a map holds: the objects, and their indexes in the order of the objects. */
  datatype Keyed<T> = Keyed(objects: seq<T>, keys: seq<nat>)

  ghost predicate Good<T(!new)>(less: (T, T) -> bool, m: Keyed<T>) {
    TotalOrder(less) && Permutation(m.keys, |m.objects|) && SortedBy(less, m.objects, m.keys)
  }

  /** Objects are distinct because they are sorted strictly. */
  lemma ObjectsAreDistinct<T(!new)>(less: (T, T) -> bool, m: Keyed<T>)
    requires Good(less, m)
    ensures Distinct(m.objects)
  {
    forall i, j | 0 <= i < j < |m.objects| ensures m.objects[i] != m.objects[j] {
      assert i in m.keys && j in m.keys;
      var a :| 0 <= a < |m.keys| && m.keys[a] == i;
      var b :| 0 <= b < |m.keys| && m.keys[b] == j;
      assert a < b ==> less(m.objects[m.keys[a]], m.objects[m.keys[b]]);
      assert b < a ==> less(m.objects[m.keys[b]], m.objects[m.keys[a]]);
    }
  }

  method LowerBound<T(!new)>(less: (T, T) -> bool, m: Keyed<T>, entry: T) returns (lo: nat)
    requires Good(less, m)
    ensures lo <= |m.keys|
    ensures forall k :: 0 <= k < lo ==> less(m.objects[m.keys[k]], entry)
    ensures forall k :: lo <= k < |m.keys| ==> !less(m.objects[m.keys[k]], entry)
  {
    lo := 0;
    var hi := |m.keys|;
    while lo < hi
      invariant 0 <= lo <= hi <= |m.keys|
      invariant forall k :: 0 <= k < lo ==> less(m.objects[m.keys[k]], entry)
      invariant forall k :: hi <= k < |m.keys| ==> !less(m.objects[m.keys[k]], entry)
    {
      var mid := (lo + hi) / 2;
      if less(m.objects[m.keys[mid]], entry) {
        forall k | 0 <= k < mid ensures less(m.objects[m.keys[k]], entry) {
          assert less(m.objects[m.keys[k]], m.objects[m.keys[mid]]);
        }
        lo := mid + 1;
      } else {
        forall k | mid < k < |m.keys| ensures !less(m.objects[m.keys[k]], entry) {
          assert less(m.objects[m.keys[mid]], m.objects[m.keys[k]]);
        }
        hi := mid;
      }
    }
  }

  /** The index of an entry, or -1. */
  method Find<T(==, !new)>(less: (T, T) -> bool, m: Keyed<T>, entry: T) returns (index: int)
    requires Good(less, m)
    ensures entry in m.objects ==> 0 <= index < |m.objects| && m.objects[index] == entry
    ensures entry !in m.objects ==> index == -1
  {
    var it := LowerBound(less, m, entry);
    AtLowerBound(less, m.objects, m.keys, entry, it);
    if it != |m.keys| && m.objects[m.keys[it]] == entry {
      return m.keys[it];
    }
    return -1;
  }

  class DequeMap<T(==, !new)> {
    const less: (T, T) -> bool
    // 0 for no limit.
    const maxSize: nat
    var content: Keyed<T>

    ghost predicate Valid()
      reads this
    {
      Good(less, content)
    }

    constructor (less: (T, T) -> bool, maxSize: nat)
      requires TotalOrder(less)
      ensures Valid() && content.objects == [] && this.less == less && this.maxSize == maxSize
    {
      this.less, this.maxSize := less, maxSize;
      content := Keyed([], []);
    }

    predicate Full()
      reads this
    {
      maxSize != 0 && |content.objects| == maxSize
    }

    /** The index of an entry, which is added if it is not there; -1 if there is no room.
        What is at an index stays there. */
    method Add(entry: T) returns (index: int)
      requires Valid()
      modifies this
      ensures Valid()
      ensures var objects := old(content.objects);
              if entry in objects then content == old(content) && 0 <= index < |objects| && objects[index] == entry
              else if maxSize > 0 && |objects| >= maxSize then content == old(content) && index == -1
              else content.objects == objects + [entry] && index == |objects|
    {
      var objects, keys := content.objects, content.keys;
      var it := LowerBound(less, content, entry);
      AtLowerBound(less, objects, keys, entry, it);
      if it != |keys| && objects[keys[it]] == entry {
        return keys[it];
      }
      if maxSize > 0 && |objects| >= maxSize {
        return -1;
      }
      var newIndex := |objects|;
      KeyInserted(less, objects, keys, entry, it);
      // The keys from the place on are moved up by one.
      content := Keyed(objects + [entry], keys[..it] + [newIndex] + keys[it..]);
      index := newIndex;
    }
  }

  lemma AtLowerBound<T(!new)>(less: (T, T) -> bool, objects: seq<T>, keys: seq<nat>, entry: T, lo: nat)
    requires TotalOrder(less) && Permutation(keys, |objects|) && SortedBy(less, objects, keys) && lo <= |keys|
    requires forall k :: 0 <= k < lo ==> less(objects[keys[k]], entry)
    requires forall k :: lo <= k < |keys| ==> !less(objects[keys[k]], entry)
    ensures entry in objects <==> lo < |keys| && objects[keys[lo]] == entry
  {
    LaterAreOthers(less, objects, keys, entry, lo);
    if i: nat :| i < |objects| && objects[i] == entry {
      assert i in keys;
      var k :| 0 <= k < |keys| && keys[k] == i;
      assert k == lo;
    }
  }

  lemma LaterAreOthers<T(!new)>(less: (T, T) -> bool, objects: seq<T>, keys: seq<nat>, entry: T, lo: nat)
    requires TotalOrder(less) && SortedBy(less, objects, keys) && lo <= |keys|
    requires forall k :: lo <= k < |keys| ==> !less(objects[keys[k]], entry)
    ensures forall k :: lo < k < |keys| ==> objects[keys[k]] != entry
  {
    forall k | lo < k < |keys| ensures objects[keys[k]] != entry {
      assert less(objects[keys[lo]], objects[keys[k]]);
    }
  }

  lemma KeyInserted<T(!new)>(less: (T, T) -> bool, objects: seq<T>, keys: seq<nat>, entry: T, lo: nat)
    requires TotalOrder(less) && Permutation(keys, |objects|) && SortedBy(less, objects, keys) && lo <= |keys|
    requires forall k :: 0 <= k < lo ==> less(objects[keys[k]], entry)
    requires forall k :: lo <= k < |keys| ==> !less(objects[keys[k]], entry)
    requires entry !in objects
    ensures var keys' := keys[..lo] + [|objects|] + keys[lo..];
            Permutation(keys', |objects| + 1) && SortedBy(less, objects + [entry], keys')
  {
    KeysInserted(keys, |objects|, lo);
    var keys' := keys[..lo] + [|objects|] + keys[lo..];
    var objects' := objects + [entry];
    hide Permutation;
    forall k | lo <= k < |keys| ensures less(entry, objects[keys[k]]) {
      assert objects[keys[k]] in objects;
    }
    forall j, k | 0 <= j < k < |keys'| ensures less(objects'[keys'[j]], objects'[keys'[k]]) {
      assert objects'[keys'[j]] == if j < lo then objects[keys[j]] else if j == lo then entry else objects[keys[j - 1]];
      assert objects'[keys'[k]] == if k < lo then objects[keys[k]] else if k == lo then entry else objects[keys[k - 1]];
    }
  }

  lemma KeysInserted(keys: seq<nat>, n: nat, lo: nat)
    requires Permutation(keys, n) && lo <= |keys|
    ensures Permutation(keys[..lo] + [n] + keys[lo..], n + 1)
    ensures forall k :: 0 <= k < |keys| ==> 0 <= keys[k] < n
  {
    var keys' := keys[..lo] + [n] + keys[lo..];
    forall i | 0 <= i < n + 1 ensures i in keys' {
      if i == n {
        assert keys'[lo] == i;
      } else {
        assert i in keys;
        var k :| 0 <= k < |keys| && keys[k] == i;
        assert keys'[if k < lo then k else k + 1] == i;
      }
    }
  }
}
