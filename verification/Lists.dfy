/** Lists: repeated elements, and how often an element occurs. */
module Lists {

  ghost predicate NoRepeats<T>(s: seq<T>)
  {
    forall i, j :: 0 <= i < j < |s| ==> s[i] != s[j]
  }

  /** How often an element occurs. */
  ghost function Copies<T>(s: seq<T>, x: T): nat
  {
    if s == [] then 0 else Copies(s[..|s| - 1], x) + if s[|s| - 1] == x then 1 else 0
  }

  lemma {:induction false} CopiesAppend<T>(s: seq<T>, last: T, x: T)
    ensures Copies(s + [last], x) == Copies(s, x) + if last == x then 1 else 0
  {
    assert (s + [last])[..|s|] == s;
  }

  lemma {:induction false} CopiesConcat<T>(a: seq<T>, b: seq<T>, x: T)
    ensures Copies(a + b, x) == Copies(a, x) + Copies(b, x)
    decreases |b|
  {
    if b == [] {
      assert a + b == a;
    } else {
      var front := b[..|b| - 1];
      CopiesConcat(a, front, x);
      assert a + b == (a + front) + [b[|b| - 1]];
      CopiesAppend(a + front, b[|b| - 1], x);
    }
  }

  /** The same count as the multiset of the list. */
  lemma {:induction false} CopiesIsMultiset<T>(s: seq<T>, x: T)
    ensures Copies(s, x) == multiset(s)[x]
  {
    if s != [] {
      var front := s[..|s| - 1];
      CopiesIsMultiset(front, x);
      assert s == front + [s[|s| - 1]];
    }
  }

  /** Two lists hold together what a third one holds, each element as often. */
  ghost predicate Splits<T(!new)>(a: seq<T>, b: seq<T>, c: seq<T>)
  {
    forall x :: Copies(a, x) + Copies(b, x) == Copies(c, x)
  }

  lemma {:induction false} SplitsAppend<T(!new)>(a: seq<T>, b: seq<T>, c: seq<T>, x: seq<T>, y: seq<T>, z: seq<T>)
    requires Splits(a, b, c) && Splits(x, y, z)
    ensures Splits(a + x, b + y, c + z)
  {
    forall e
      ensures Copies(a + x, e) + Copies(b + y, e) == Copies(c + z, e)
    {
      CopiesConcat(a, x, e);
      CopiesConcat(b, y, e);
      CopiesConcat(c, z, e);
    }
  }

  lemma {:induction false} SplitsIsMultiset<T(!new)>(a: seq<T>, b: seq<T>, c: seq<T>)
    requires Splits(a, b, c)
    ensures multiset(a) + multiset(b) == multiset(c)
  {
    forall x
      ensures (multiset(a) + multiset(b))[x] == multiset(c)[x]
    {
      CopiesIsMultiset(a, x);
      CopiesIsMultiset(b, x);
      CopiesIsMultiset(c, x);
      assert Copies(a, x) + Copies(b, x) == Copies(c, x);
    }
  }
}
