/** Sequence facts that the dictionary and list helpers of the kernel rely on. */
module Seqs {

  /** No value occurs twice in `s`. */
  predicate Distinct<T(==)>(s: seq<T>)
  {
    forall i, j | 0 <= i < j < |s| :: s[i] != s[j]
  }

  lemma DistinctIndex<T>(s: seq<T>, i: nat, j: nat)
    requires Distinct(s) && i < |s| && j < |s| && s[i] == s[j]
    ensures i == j
  {
  }

  /** `a` is `b` with some elements deleted (order is kept). */
  predicate IsSubseq<T(==)>(a: seq<T>, b: seq<T>)
    decreases |b|
  {
    if a == [] then true
    else if b == [] then false
    else if a[0] == b[0] then IsSubseq(a[1..], b[1..])
    else IsSubseq(a, b[1..])
  }

  /** `s` with every occurrence of `x` removed. */
  function Without<T(==)>(s: seq<T>, x: T): (r: seq<T>)
    ensures |r| <= |s|
    ensures forall y | y in r :: y in s && y != x
    ensures forall y | y in s && y != x :: y in r
  {
    if s == [] then []
    else if s[0] == x then Without(s[1..], x)
    else [s[0]] + Without(s[1..], x)
  }

  lemma {:induction false} WithoutAppend<T>(a: seq<T>, b: seq<T>, x: T)
    ensures Without(a + b, x) == Without(a, x) + Without(b, x)
  {
    if a != [] {
      assert (a + b)[1..] == a[1..] + b;
      WithoutAppend(a[1..], b, x);
    } else {
      assert a + b == b;
    }
  }

  /** The values of `s`, each once, in the order of their first occurrence. */
  function Uniq<T(==)>(s: seq<T>): (r: seq<T>)
    ensures Distinct(r)
    ensures forall y | y in r :: y in s
    ensures forall y | y in s :: y in r
    decreases |s|
  {
    if s == [] then []
    else
      var rest := Uniq(Without(s[1..], s[0]));
      assert s[0] !in rest;
      [s[0]] + rest
  }

  /** Appending a value to the input appends it to `Uniq` exactly when it is new. */
  lemma {:induction false} UniqSnoc<T>(s: seq<T>, x: T)
    ensures Uniq(s + [x]) == if x in s then Uniq(s) else Uniq(s) + [x]
    decreases |s|
  {
    if s == [] {
      assert [] + [x] == [x];
      assert Without([x][1..], x) == [];
    } else {
      var a := s[0];
      assert (s + [x])[0] == a;
      assert (s + [x])[1..] == s[1..] + [x];
      WithoutAppend(s[1..], [x], x);
      WithoutAppend(s[1..], [x], a);
      if x == a {
        assert Without([x], a) == [];
        assert Without(s[1..] + [x], a) == Without(s[1..], a);
      } else {
        assert Without([x], a) == [x];
        var w := Without(s[1..], a);
        UniqSnoc(w, x);
        assert x in w <==> x in s;
      }
    }
  }

  /** A sequence without repeated values is its own `Uniq`. */
  lemma {:induction false} UniqOfDistinct<T>(s: seq<T>)
    requires Distinct(s)
    ensures Uniq(s) == s
    decreases |s|
  {
    if s != [] {
      WithoutAbsent(s[1..], s[0]);
      assert Distinct(s[1..]) by {
        forall i, j | 0 <= i < j < |s[1..]| ensures s[1..][i] != s[1..][j] {
          assert s[1..][i] == s[i + 1] && s[1..][j] == s[j + 1];
        }
      }
      UniqOfDistinct(s[1..]);
    }
  }

  lemma {:induction false} WithoutAbsent<T>(s: seq<T>, x: T)
    requires x !in s
    ensures Without(s, x) == s
  {
    if s != [] {
      WithoutAbsent(s[1..], x);
    }
  }
}
