/** Words, options and the few facts about sequences that several components share. */
module Common {

  const WORD: nat := 0x1_0000_0000

  newtype byte = x: int | 0 <= x < 0x100

  type word = x: nat | x < WORD

  datatype Option<+T> = None | Some(value: T)

  // ++ and -- on an unsigned 32-bit variable

  function Increment(n: word): word {
    if n == WORD - 1 then 0 else n + 1
  }

  function Decrement(n: word): word {
    if n == 0 then WORD - 1 else n - 1
  }

  predicate Distinct<T(==)>(s: seq<T>) {
    forall i, j :: 0 <= i < j < |s| ==> s[i] != s[j]
  }

  function RemoveAt<T>(s: seq<T>, i: nat): (r: seq<T>)
    requires i < |s|
    ensures |r| == |s| - 1
  {
    s[..i] + s[i + 1..]
  }

  function IndexOf<T(==)>(s: seq<T>, x: T): (i: nat)
    requires x in s
    ensures i < |s| && s[i] == x
    ensures forall k :: 0 <= k < i ==> s[k] != x
  {
    if s[0] == x then 0 else 1 + IndexOf(s[1..], x)
  }

  /** In a sequence without repetition any position of x is the position of x. */
  lemma IndexUnique<T>(s: seq<T>, x: T, i: nat)
    requires Distinct(s) && i < |s| && s[i] == x
    ensures IndexOf(s, x) == i
  {
  }

  lemma Regroup<T>(a: seq<T>, b: seq<T>, c: seq<T>)
    ensures a + (b + c) == a + b + c
  {
  }

  /** Counting an element from the front. */
  lemma CountFirst<T>(s: seq<T>, n: nat, x: T)
    requires 0 < n <= |s|
    ensures multiset(s[..n])[x] == multiset(s[1..][..n - 1])[x] + if s[0] == x then 1 else 0
  {
    assert s[..n] == [s[0]] + s[1..][..n - 1];
  }

  lemma CountMonotone<T>(s: seq<T>, m: nat, n: nat, x: T)
    requires m <= n <= |s|
    ensures multiset(s[..m])[x] <= multiset(s[..n])[x]
  {
    assert s[..n] == s[..m] + s[m..n];
  }

  lemma CountAll<T>(s: seq<T>, x: T)
    requires s != []
    ensures multiset(s)[x] == multiset(s[1..])[x] + if s[0] == x then 1 else 0
  {
    assert s == [s[0]] + s[1..];
  }

  lemma MultisetAt<T>(s: seq<T>, i: nat)
    requires i < |s|
    ensures multiset(s) == multiset(RemoveAt(s, i)) + multiset{s[i]}
  {
    assert s == s[..i] + [s[i]] + s[i + 1..];
  }

  lemma DistinctIffSingle<T>(s: seq<T>)
    ensures Distinct(s) <==> forall i :: 0 <= i < |s| ==> multiset(s)[s[i]] == 1
  {
    if Distinct(s) {
      forall i | 0 <= i < |s| ensures multiset(s)[s[i]] == 1 {
        MultisetAt(s, i);
        assert s[i] !in RemoveAt(s, i);
      }
    }
    if forall i :: 0 <= i < |s| ==> multiset(s)[s[i]] == 1 {
      forall i, j | 0 <= i < j < |s| ensures s[i] != s[j] {
        MultisetAt(s, i);
        assert RemoveAt(s, i)[j - 1] == s[j];
        assert s[j] in multiset(RemoveAt(s, i));
      }
    }
  }

  lemma RemoveAtDistinct<T>(s: seq<T>, i: nat, j: nat)
    requires Distinct(s) && i < |s| && j < |s| && i != j
    ensures Distinct(RemoveAt(s, i)) && RemoveAt(s, i)[if j < i then j else j - 1] == s[j]
  {
  }

  lemma RemovedOne<T>(s: seq<T>, i: nat)
    requires Distinct(s) && i < |s|
    ensures s[i] !in RemoveAt(s, i)
    ensures forall x :: x in s <==> x in RemoveAt(s, i) || x == s[i]
  {
    var r := RemoveAt(s, i);
    forall x | x in s ensures x in r || x == s[i] {
      var k :| 0 <= k < |s| && s[k] == x;
      if k != i {
        assert r[if k < i then k else k - 1] == x;
      }
    }
  }
}
