/** Options, and small facts about sequences and maps that the other modules share. */
module Collections {

  datatype Option<T> = None | Some(value: T)

  ghost predicate Distinct<T(!new)>(s: seq<T>) {
    forall i, j :: 0 <= i < j < |s| ==> s[i] != s[j]
  }

  /** The list without its i-th element. */
  function Without<T>(s: seq<T>, i: nat): seq<T>
    requires i < |s|
  {
    s[..i] + s[i + 1..]
  }

  lemma WithoutOne<T(!new)>(s: seq<T>, i: nat, x: T)
    requires i < |s| && s[i] == x && Distinct(s)
    ensures Distinct(Without(s, i)) && forall y :: y in Without(s, i) <==> y in s && y != x
  {
  }

  /** The first position of an element. */
  function IndexOf<T(==)>(s: seq<T>, x: T): (i: nat)
    requires x in s
    ensures i < |s| && s[i] == x
  {
    if s[0] == x then 0 else 1 + IndexOf(s[1..], x)
  }

  lemma StoresCommute<V>(s: seq<V>, i: nat, j: nat, v: V, w: V)
    requires i < |s| && j < |s| && i != j
    ensures s[i := v][j := w] == s[j := w][i := v]
  {
  }

  lemma PutBack<K(!new), V>(m: map<K, V>, k: K, v: V)
    ensures (m - {k})[k := v] == m[k := v]
  {
  }

  lemma RemovingKey<K(!new), V>(m: map<K, V>, k: K)
    requires k in m
    ensures |m - {k}| == |m| - 1
  {
  }

  /** A sequence without repetitions holds each element once. */
  lemma {:induction false} OnceAtMost<T(!new)>(s: seq<T>, x: T)
    requires Distinct(s)
    ensures multiset(s)[x] <= 1
  {
    if s != [] {
      assert s == [s[0]] + s[1..];
      OnceAtMost(s[1..], x);
    }
  }

  /** An injective map has no more keys than the set that its values are in. */
  lemma {:induction false} InjectiveFits<K(!new), V(!new)>(m: map<K, V>, s: set<V>)
    requires forall k :: k in m ==> m[k] in s
    requires forall j, k :: j in m && k in m && m[j] == m[k] ==> j == k
    ensures |m.Keys| <= |s|
  {
    if m.Keys != {} {
      var k :| k in m.Keys;
      InjectiveFits(m - {k}, s - {m[k]});
      assert m.Keys == (m - {k}).Keys + {k};
    }
  }

  lemma SubsetSize<T(!new)>(s: set<T>, r: set<T>)
    requires s <= r
    ensures |s| <= |r|
  {
    assert r == s + (r - s);
  }

  /** The n numbers from a on. */
  function Span(a: nat, n: nat): (s: set<nat>)
    ensures |s| == n && forall x: nat :: x in s <==> a <= x < a + n
  {
    if n == 0 then {} else Span(a, n - 1) + {a + n - 1}
  }
}
