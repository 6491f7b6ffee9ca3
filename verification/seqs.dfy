/** Sequence helpers shared by the UI models: JavaScript's `indexOf` and
    `splice(i, 1)`, and the add-or-remove toggle used for team picks and
    multi-select answers, where a sequence stands for an insertion-ordered
    JavaScript array or Set. */
module Seqs {

  /** `indexOf`: the first position of h, or |s| when absent. */
  function IndexOf<H(==)>(s: seq<H>, h: H): (i: nat)
    ensures i <= |s| && (i < |s| ==> s[i] == h)
    ensures forall k :: 0 <= k < i ==> s[k] != h
  {
    if |s| == 0 then 0
    else if s[0] == h then 0
    else 1 + IndexOf(s[1..], h)
  }

  /** `splice(indexOf(h), 1)` when found. */
  function RemoveFirst<H(==)>(s: seq<H>, h: H): (r: seq<H>)
    ensures h !in s ==> r == s
    ensures h in s ==> |r| == |s| - 1 && multiset(r) == multiset(s) - multiset{h}
  {
    var i := IndexOf(s, h);
    if i == |s| then s
    else
      assert s == s[..i] + [h] + s[i + 1..];
      s[..i] + s[i + 1..]
  }

  lemma ConcatAssoc<T>(a: seq<T>, b: seq<T>, c: seq<T>)
    ensures a + b + c == a + (b + c)
  {
  }

  predicate Distinct<T(==)>(s: seq<T>) {
    forall i, j :: 0 <= i < j < |s| ==> s[i] != s[j]
  }

  /** In a duplicate-free sequence, removing x removes exactly x. */
  lemma RemoveFirstMembers<T>(s: seq<T>, x: T)
    requires Distinct(s)
    ensures forall y :: y in RemoveFirst(s, x) <==> y in s && y != x
    ensures Distinct(RemoveFirst(s, x))
  {
    if x in s {
      var i := IndexOf(s, x);
      assert RemoveFirst(s, x) == s[..i] + s[i + 1..];
      SpliceDistinct(s, i);
    }
  }

  /** Cutting position i out of a duplicate-free sequence removes exactly s[i]. */
  lemma SpliceDistinct<T>(s: seq<T>, i: nat)
    requires Distinct(s) && i < |s|
    ensures forall y :: y in s[..i] + s[i + 1..] <==> y in s && y != s[i]
    ensures Distinct(s[..i] + s[i + 1..])
  {
    var r := s[..i] + s[i + 1..];
    assert forall k :: 0 <= k < |r| ==> r[k] == s[if k < i then k else k + 1];
    forall y ensures y in r <==> y in s && y != s[i] {
      if y in r {
        var k :| 0 <= k < |r| && r[k] == y;
        assert s[if k < i then k else k + 1] == y;
      }
      if y in s && y != s[i] {
        var j :| 0 <= j < |s| && s[j] == y;
        assert r[if j < i then j else j - 1] == y;
      }
    }
  }

  /** Absent: appended; present: its first occurrence removed. */
  function Toggle<T(==)>(s: seq<T>, x: T): (r: seq<T>)
    ensures x !in s ==> r == s + [x]
    ensures x in s ==> r == RemoveFirst(s, x)
  {
    if x in s then RemoveFirst(s, x) else s + [x]
  }

  /** A toggle flips x's membership, leaves everything else as it was, and
      keeps a duplicate-free sequence duplicate-free. */
  lemma ToggleFlips<T>(s: seq<T>, x: T)
    requires Distinct(s)
    ensures (x in Toggle(s, x)) <==> x !in s
    ensures forall y :: y != x ==> (y in Toggle(s, x) <==> y in s)
    ensures Distinct(Toggle(s, x))
  {
    if x in s {
      RemoveFirstMembers(s, x);
    } else {
      assert forall k :: 0 <= k < |s| ==> (s + [x])[k] == s[k];
    }
  }

  /** Toggling twice restores a duplicate-free sequence that did not contain x. */
  lemma ToggleTwice<T>(s: seq<T>, x: T)
    requires x !in s
    ensures Toggle(Toggle(s, x), x) == s
  {
    var t := s + [x];
    assert forall k :: 0 <= k < |s| ==> t[k] != x;
    assert t[|s|] == x;
    assert IndexOf(t, x) == |s|;
    assert t[..|s|] == s;
  }

  /** `[...new Set(s)]`: each element once, at its first occurrence. */
  function Dedup<T(==,!new)>(s: seq<T>): (r: seq<T>)
    ensures Distinct(r) && |r| <= |s|
    ensures forall x :: x in r <==> x in s
    ensures InFirstOrder(r, s)
  {
    if |s| == 0 then []
    else
      var init := s[..|s| - 1];
      var x := s[|s| - 1];
      var d := Dedup(init);
      assert s == init + [x];
      assert forall y :: y in s <==> y in init || y == x;
      forall y | y in init ensures IndexOf(s, y) == IndexOf(init, y) < |init| {
        IndexOfAppend(init, x, y);
      }
      assert InFirstOrder(d, init);
      if x in d then d
      else
        IndexOfAppend(init, x, x);
        d + [x]
  }

  /** The elements of r come in the order of their first occurrence in s. */
  predicate InFirstOrder<T(==)>(r: seq<T>, s: seq<T>) {
    forall i, j :: 0 <= i < j < |r| ==> IndexOf(s, r[i]) < IndexOf(s, r[j])
  }

  /** Appending an element keeps the first positions of what was there, and
      a new element is found at the end. */
  lemma {:induction false} IndexOfAppend<T>(s: seq<T>, x: T, y: T)
    ensures y in s ==> IndexOf(s + [x], y) == IndexOf(s, y) < |s|
    ensures y !in s && y == x ==> IndexOf(s + [x], y) == |s|
  {
    if |s| > 0 && s[0] != y {
      assert (s + [x])[1..] == s[1..] + [x];
      IndexOfAppend(s[1..], x, y);
    }
  }

  /** A list without repeats passes through unchanged. */
  lemma {:induction false} DedupDistinct<T(!new)>(s: seq<T>)
    requires Distinct(s)
    ensures Dedup(s) == s
  {
    if |s| > 0 {
      var init := s[..|s| - 1];
      assert Distinct(init);
      DedupDistinct(init);
      assert s[|s| - 1] !in init;
      assert s == init + [s[|s| - 1]];
    }
  }
}
