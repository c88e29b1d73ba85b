/** Sequence and map helpers shared by the organizer's modules. */
module Collections {

  predicate Distinct<T(==)>(s: seq<T>) {
    forall i, j :: 0 <= i < j < |s| ==> s[i] != s[j]
  }

  /** The distinct elements of `s` in the order they first appear: the key order of a Python
      dict filled from `s`. */
  function FirstAppearances<T(==)>(s: seq<T>): seq<T>
    decreases |s|
  {
    if |s| == 0 then []
    else
      var order := FirstAppearances(s[..|s| - 1]);
      if s[|s| - 1] in order then order else order + [s[|s| - 1]]
  }

  /** Each element appears once, and exactly the elements of `s` appear. */
  lemma {:induction false} FirstAppearancesSpec<T>(s: seq<T>)
    ensures Distinct(FirstAppearances(s))
    ensures forall x :: x in FirstAppearances(s) <==> x in s
    decreases |s|
  {
    if |s| > 0 {
      var init := s[..|s| - 1];
      FirstAppearancesSpec(init);
      assert s == init + [s[|s| - 1]];
    }
  }

  /** `collections.defaultdict(int)` counting every element of `s`. */
  function Tally<T(==)>(s: seq<T>): map<T, nat>
    decreases |s|
  {
    if |s| == 0 then map[]
    else
      var m := Tally(s[..|s| - 1]);
      var x := s[|s| - 1];
      m[x := (if x in m then m[x] else 0) + 1]
  }

  /** The tally has an entry for exactly the elements of `s`, and each entry is the number of
      times its element occurs. */
  lemma {:induction false} TallySpec<T>(s: seq<T>)
    ensures forall x :: x in Tally(s) <==> x in s
    ensures forall x :: x in Tally(s) ==> Tally(s)[x] == multiset(s)[x]
    decreases |s|
  {
    if |s| > 0 {
      var init := s[..|s| - 1];
      TallySpec(init);
      assert s == init + [s[|s| - 1]];
    }
  }

  lemma {:induction false} SubsetCard<T>(a: set<T>, b: set<T>)
    requires a <= b
    ensures |a| <= |b|
    decreases |b|
  {
    if a != {} {
      var x :| x in a;
      SubsetCard(a - {x}, b - {x});
    }
  }

  /** Rearranging a sequence without repetitions gives one without repetitions. */
  lemma DistinctPermutation<T>(a: seq<T>, b: seq<T>)
    requires Distinct(a) && multiset(a) == multiset(b)
    ensures Distinct(b)
  {
    forall i, j | 0 <= i < j < |b|
      ensures b[i] != b[j]
    {
      if b[i] == b[j] {
        assert multiset(b)[b[i]] >= 2 by {
          assert b == b[..j] + b[j..];
          assert b[i] in multiset(b[..j]);
          assert b[j] in multiset(b[j..]);
        }
        var k :| 0 <= k < |a| && a[k] == b[i];
        DistinctCount(a, k);
      }
    }
  }

  lemma {:induction false} DistinctCount<T>(a: seq<T>, k: nat)
    requires Distinct(a) && k < |a|
    ensures multiset(a)[a[k]] == 1
    decreases |a|
  {
    var x := a[k];
    if k == |a| - 1 {
      var init := a[..|a| - 1];
      assert a == init + [x];
      assert x !in init;
    } else {
      var init := a[..|a| - 1];
      assert a == init + [a[|a| - 1]];
      assert Distinct(init);
      DistinctCount(init, k);
      assert a[|a| - 1] != x;
    }
  }

  /** Extending a prefix by one element. */
  lemma PrefixSnoc<T>(done: seq<T>, s: seq<T>, k: nat)
    requires k < |s|
    ensures done + s[..k + 1] == (done + s[..k]) + [s[k]]
  {
    assert s[..k + 1] == s[..k] + [s[k]];
  }

  /** Removing the element at `k` removes it once from the multiset. */
  lemma RemoveAt<T>(s: seq<T>, k: nat)
    requires k < |s|
    ensures multiset(s[..k] + s[k + 1..]) == multiset(s) - multiset{s[k]}
  {
    assert s == s[..k] + [s[k]] + s[k + 1..];
  }

  /** Appending to one side the element the other side lost keeps the permutation. */
  lemma SnocPermutation<T>(a: seq<T>, b: seq<T>, rest: seq<T>, k: nat)
    requires k < |b|
    requires multiset(a) == multiset(rest)
    requires multiset(rest) == multiset(b) - multiset{b[k]}
    ensures multiset(a + [b[k]]) == multiset(b)
  {
    assert b[k] in multiset(b);
  }

  /** In a permutation, the last element of one side is somewhere on the other, and the
      rests are permutations of each other. */
  lemma MatchLast<T>(a: seq<T>, b: seq<T>) returns (k: nat)
    requires |a| > 0 && multiset(a) == multiset(b)
    ensures k < |b| && b[k] == a[|a| - 1]
    ensures multiset(a[..|a| - 1]) == multiset(b[..k] + b[k + 1..])
  {
    var x := a[|a| - 1];
    assert a == a[..|a| - 1] + [x];
    assert x in multiset(b);
    k :| 0 <= k < |b| && b[k] == x;
    RemoveAt(b, k);
  }

  /** Two permutations of each other hold the same elements. */
  lemma SameElements<T>(a: seq<T>, b: seq<T>)
    requires multiset(a) == multiset(b)
    ensures forall x :: x in a <==> x in b
  {
    forall x
      ensures x in a <==> x in b
    {
      assert x in a <==> x in multiset(a);
      assert x in b <==> x in multiset(b);
    }
  }
}
