/** Facts about sequences and maps that several models share. */
module Collections {

  lemma Regroup<T>(a: seq<T>, b: seq<T>, c: seq<T>)
    ensures a + (b + c) == a + b + c
  {
  }

  predicate Distinct<T(==)>(order: seq<T>) {
    forall i, j | 0 <= i < j < |order| :: order[i] != order[j]
  }

  /** The part of a map whose keys a list names. */
  function Restricted<K, V>(m: map<K, V>, order: seq<K>): map<K, V> {
    map k | k in m && k in order :: m[k]
  }

  lemma RestrictedNext<K, V>(m: map<K, V>, order: seq<K>, k: K)
    requires k in m
    ensures Restricted(m, order + [k]) == Restricted(m, order)[k := m[k]]
  {
  }

  /** A list without any occurrence of an element. */
  function Without<T(==)>(s: seq<T>, x: T): seq<T> {
    if s == [] then []
    else if s[0] == x then Without(s[1..], x)
    else [s[0]] + Without(s[1..], x)
  }

  lemma {:induction false} WithoutElements<T>(s: seq<T>, x: T, y: T)
    ensures y in Without(s, x) <==> y in s && y != x
  {
    if s != [] {
      WithoutElements(s[1..], x, y);
      assert s == [s[0]] + s[1..];
    }
  }

  lemma {:induction false} WithoutAppend<T>(s: seq<T>, y: T, x: T)
    ensures Without(s + [y], x) == Without(s, x) + if y == x then [] else [y]
  {
    if s == [] {
      assert s + [y] == [y] && [y][1..] == [];
    } else {
      WithoutAppend(s[1..], y, x);
      assert (s + [y])[1..] == s[1..] + [y];
    }
  }
}
