/** Small shared vocabulary: an optional value and a few sequence helpers. */
module Wrappers {

  datatype Option<+T> = None | Some(value: T)

  /** The index of the first occurrence of `x` in `s`, if any. */
  function IndexOf<T(==)>(s: seq<T>, x: T): (r: Option<nat>)
    ensures r.Some? ==> r.value < |s| && s[r.value] == x && x !in s[..r.value]
    ensures r.None? ==> x !in s
  {
    if |s| == 0 then None
    else if s[0] == x then Some(0)
    else match IndexOf(s[1..], x)
      case None => None
      case Some(k) => assert s[..k + 1] == [s[0]] + s[1..][..k]; Some(k + 1)
  }

  /** Searching a sequence that has `x` right after a prefix free of `x` finds it there. */
  lemma {:induction false} IndexOfAfter<T>(a: seq<T>, x: T, b: seq<T>)
    requires x !in a
    ensures IndexOf(a + [x] + b, x) == Some(|a|)
  {
    if |a| > 0 {
      assert (a + [x] + b)[1..] == a[1..] + [x] + b;
      IndexOfAfter(a[1..], x, b);
    }
  }

  predicate NoDuplicates<T(==)>(s: seq<T>) {
    forall i, j :: 0 <= i < j < |s| ==> s[i] != s[j]
  }

  /** The elements of `s` that are not in `out`, in their original order. */
  function Filter<T(==, !new)>(s: seq<T>, out: set<T>): (r: seq<T>)
    ensures forall x :: x in r <==> x in s && x !in out
  {
    if s == [] then []
    else
      var init := s[..|s| - 1];
      var last := s[|s| - 1];
      assert forall x :: x in s <==> x in init || x == last;
      Filter(init, out) + (if last in out then [] else [last])
  }

  /** Filtering a sequence without duplicates leaves one without duplicates. */
  lemma {:induction false} FilterNoDuplicates<T(!new)>(s: seq<T>, out: set<T>)
    requires NoDuplicates(s)
    ensures NoDuplicates(Filter(s, out))
  {
    if s != [] {
      var init, last := s[..|s| - 1], s[|s| - 1];
      assert NoDuplicates(init) && last !in init;
      FilterNoDuplicates(init, out);
    }
  }

  lemma FilterSnoc<T(!new)>(s: seq<T>, x: T, out: set<T>)
    ensures Filter(s + [x], out) == Filter(s, out) + (if x in out then [] else [x])
  {
    assert (s + [x])[..|s|] == s;
  }

  lemma AppendAssoc<T>(a: seq<T>, b: seq<T>, c: seq<T>)
    ensures (a + b) + c == a + (b + c)
  {
  }

  lemma MapUnionUpdate<K, V>(a: map<K, V>, b: map<K, V>, k: K, v: V)
    requires k !in a
    ensures (a + b)[k := v] == a + b[k := v]
  {
  }
}
