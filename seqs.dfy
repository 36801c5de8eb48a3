/** Sequence helpers: duplicate-freedom, `[...new Set(s)]` and removal of an element. */
module Seqs {

  predicate NoDup<T(==)>(s: seq<T>) {
    forall i, j | 0 <= i < j < |s| :: s[i] != s[j]
  }

  /** Keeps the first occurrence of every element, in order, as `[...new Set(s)]` does. */
  function Dedup<T(==)>(s: seq<T>): (r: seq<T>)
    ensures NoDup(r)
    ensures forall x | x in r :: x in s
    ensures forall x | x in s :: x in r
    ensures |r| <= |s|
    ensures NoDup(s) ==> r == s
    decreases |s|
  {
    if s == [] then []
    else
      var init, last := s[..|s| - 1], s[|s| - 1];
      assert s == init + [last];
      var d := Dedup(init);
      if last in d then d else d + [last]
  }

  /** `s` with every occurrence of `x` removed, the rest in order. */
  function Without<T(==)>(s: seq<T>, x: T): (r: seq<T>)
    ensures forall y | y in r :: y in s && y != x
    ensures forall y | y in s && y != x :: y in r
    ensures NoDup(s) ==> NoDup(r)
    ensures x !in s ==> r == s
  {
    if s == [] then []
    else
      var rest := Without(s[1..], x);
      assert NoDup(s) ==> s[0] !in s[1..] && NoDup(s[1..]) by {
        if NoDup(s) { NoDupTail(s); }
      }
      if s[0] == x then rest else [s[0]] + rest
  }

  /**
   * Adding one more element as a JavaScript `Set` does: a new element goes last, one
   * already seen changes nothing.
   */
  lemma DedupSnoc<T>(s: seq<T>, x: T)
    ensures Dedup(s + [x]) == if x in s then Dedup(s) else Dedup(s) + [x]
  {
    assert (s + [x])[..|s + [x]| - 1] == s;
  }

  /** Insertion order: de-duplicating a prefix gives a prefix of the de-duplicated whole. */
  lemma {:induction false} DedupPrefix<T>(s: seq<T>, i: nat)
    requires i <= |s|
    ensures Dedup(s[..i]) <= Dedup(s)
    decreases |s| - i
  {
    if i < |s| {
      var t := s[..|s| - 1];
      assert s == t + [s[|s| - 1]];
      DedupSnoc(t, s[|s| - 1]);
      assert s[..i] == t[..i];
      DedupPrefix(t, i);
    } else {
      assert s[..i] == s;
    }
  }

  /** Removing an element that occurs once at `k` leaves the elements before and after it, in order. */
  lemma {:induction false} WithoutSplit<T>(s: seq<T>, x: T, k: nat)
    requires k < |s| && s[k] == x && NoDup(s)
    ensures Without(s, x) == s[..k] + s[k + 1..]
  {
    NoDupTail(s);
    if k == 0 {
      assert Without(s, x) == Without(s[1..], x);
    } else {
      WithoutSplit(s[1..], x, k - 1);
      assert s[0] != x;
      assert s[..k] == [s[0]] + s[1..][..k - 1];
      assert s[k + 1..] == s[1..][k..];
    }
  }

  /** Dropping the head keeps a sequence duplicate-free, and the head does not recur. */
  lemma NoDupTail<T>(s: seq<T>)
    requires s != [] && NoDup(s)
    ensures NoDup(s[1..]) && s[0] !in s[1..]
  {
    forall i, j | 0 <= i < j < |s[1..]| ensures s[1..][i] != s[1..][j] {
      assert s[1..][i] == s[i + 1] && s[1..][j] == s[j + 1];
    }
  }
}
