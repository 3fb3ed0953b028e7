/** Sequences that hold the same elements in another order. */
module Bags {

  function Without<T>(s: seq<T>, i: nat): seq<T>
    requires i < |s|
  {
    s[..i] + s[i + 1..]
  }

  lemma WithoutSnoc<T>(s: seq<T>, i: nat)
    requires i + 1 < |s|
    ensures var n := |s| - 1;
            Without(s, i) == Without(s[..n], i) + [s[n]] && Without(s, i)[..n - 1] == Without(s[..n], i)
  {
  }

  /** The last element of a sequence has its place in every reordering, and the others are a reordering of the rest. */
  lemma LastHasAPlace<T>(s: seq<T>, t: seq<T>) returns (i: nat)
    requires s != [] && multiset(s) == multiset(t)
    ensures i < |t| && t[i] == s[|s| - 1]
    ensures multiset(s[..|s| - 1]) == multiset(Without(t, i))
  {
    var front, last := s[..|s| - 1], s[|s| - 1];
    assert s == front + [last];
    assert last in multiset(t);
    i :| i < |t| && t[i] == last;
    assert t == t[..i] + [last] + t[i + 1..];
    assert multiset(t) == multiset(t[..i]) + multiset{last} + multiset(t[i + 1..]);
    assert multiset(Without(t, i)) == multiset(t) - multiset{last};
    assert multiset(front) == multiset(s) - multiset{last};
  }

  lemma BagsAppend<T>(s: seq<T>, t: seq<T>, more: multiset<T>, last: seq<T>)
    requires multiset(s) == multiset(t) + more
    ensures multiset(s + last) == multiset(t + last) + more
  {
  }

  lemma OnlyEmptyIsEmpty<T>(t: seq<T>)
    requires multiset(t) == multiset([])
    ensures t == []
  {
    assert |multiset(t)| == 0;
  }

  /** `f` of every element, in order. */
  function Mapped<A, B>(f: A -> B, s: seq<A>): seq<B> {
    if s == [] then [] else Mapped(f, s[..|s| - 1]) + [f(s[|s| - 1])]
  }

  lemma {:induction false} MappedAt<A, B>(f: A -> B, s: seq<A>)
    ensures |Mapped(f, s)| == |s|
    ensures forall i :: 0 <= i < |s| ==> Mapped(f, s)[i] == f(s[i])
  {
    if s != [] {
      MappedAt(f, s[..|s| - 1]);
    }
  }

  lemma WithoutLosesOne<T>(s: seq<T>, i: nat)
    requires i < |s|
    ensures multiset(s) == multiset(Without(s, i)) + multiset{s[i]}
  {
    assert s == s[..i] + [s[i]] + s[i + 1..];
    assert multiset(s) == multiset(s[..i]) + multiset{s[i]} + multiset(s[i + 1..]);
  }

  lemma {:induction false} MappedWithout<A, B>(f: A -> B, s: seq<A>, i: nat)
    requires i < |s|
    ensures |Mapped(f, s)| == |s| && Mapped(f, Without(s, i)) == Without(Mapped(f, s), i)
    ensures Mapped(f, s)[i] == f(s[i])
  {
    MappedAt(f, s);
    var n := |s| - 1;
    if i == n {
      assert Without(s, i) == s[..n];
    } else {
      MappedWithout(f, s[..n], i);
      WithoutSnoc(s, i);
      WithoutSnoc(Mapped(f, s), i);
    }
  }

  /** Reordering before mapping reorders the result. */
  lemma {:induction false} MappedBag<A, B>(f: A -> B, s: seq<A>, t: seq<A>)
    requires multiset(s) == multiset(t)
    ensures multiset(Mapped(f, s)) == multiset(Mapped(f, t))
    decreases |s|
  {
    if s == [] {
      OnlyEmptyIsEmpty(t);
    } else {
      var i := LastHasAPlace(s, t);
      MappedBag(f, s[..|s| - 1], Without(t, i));
      MappedWithout(f, t, i);
      WithoutLosesOne(Mapped(f, t), i);
    }
  }
}
