/** Ordering strings character by character, and `[...new Set(xs)].sort()`:
    the distinct elements in ascending order. Characters are Unicode scalar
    values; `Array.prototype.sort` compares UTF-16 code units, which orders
    the same way except against characters beyond U+FFFF. */
module StringOrder {
  /** a sorts strictly before b: a proper prefix of b, or smaller at the
      first difference. */
  predicate Less(a: string, b: string)
    decreases |a|
  {
    |b| > 0 && (|a| == 0 || a[0] < b[0] || (a[0] == b[0] && Less(a[1..], b[1..])))
  }

  lemma {:induction false} Irreflexive(a: string)
    ensures !Less(a, a)
    decreases |a|
  {
    if |a| > 0 {
      Irreflexive(a[1..]);
    }
  }

  lemma {:induction false} Transitive(a: string, b: string, c: string)
    requires Less(a, b) && Less(b, c)
    ensures Less(a, c)
    decreases |a|
  {
    if |a| > 0 && a[0] == b[0] && b[0] == c[0] {
      Transitive(a[1..], b[1..], c[1..]);
    }
  }

  lemma {:induction false} Total(a: string, b: string)
    requires a != b
    ensures Less(a, b) || Less(b, a)
    decreases |a|
  {
    if |a| > 0 && |b| > 0 && a[0] == b[0] {
      assert a == [a[0]] + a[1..] && b == [b[0]] + b[1..];
      Total(a[1..], b[1..]);
    }
  }

  lemma {:induction false} Asymmetric(a: string, b: string)
    requires Less(a, b)
    ensures !Less(b, a)
    decreases |a|
  {
    if |a| > 0 && a[0] == b[0] {
      Asymmetric(a[1..], b[1..]);
    }
  }

  /** "Not after" is transitive too. */
  lemma NotLessTransitive(a: string, b: string, c: string)
    requires !Less(b, a) && !Less(c, b)
    ensures !Less(c, a)
  {
    if a != b {
      Total(a, b);
      if Less(c, a) {
        Transitive(c, a, b);
      }
    }
  }

  /** Ascending with no repeats. */
  predicate StrictlySorted(s: seq<string>) {
    forall i, j :: 0 <= i < j < |s| ==> Less(s[i], s[j])
  }

  /** Add x to a strictly sorted list unless it is already there. */
  function InsertUnique(x: string, s: seq<string>): (r: seq<string>)
    requires StrictlySorted(s)
    ensures StrictlySorted(r)
    ensures forall y :: y in r <==> y == x || y in s
  {
    if |s| == 0 then [x]
    else if x == s[0] then s
    else if Less(s[0], x) then
      var rest := InsertUnique(x, s[1..]);
      assert forall y :: y in s <==> y == s[0] || y in s[1..];
      assert forall k :: 0 <= k < |rest| ==> Less(s[0], rest[k]) by {
        forall k | 0 <= k < |rest| ensures Less(s[0], rest[k]) {
          if rest[k] != x {
            assert rest[k] in rest;
            var m :| 0 <= m < |s| - 1 && s[1..][m] == rest[k];
            assert s[m + 1] == rest[k];
          }
        }
      }
      [s[0]] + rest
    else
      Total(x, s[0]);
      assert forall k :: 0 <= k < |s| ==> Less(x, s[k]) by {
        forall k | 0 < k < |s| ensures Less(x, s[k]) {
          Transitive(x, s[0], s[k]);
        }
      }
      [x] + s
  }

  /** `[...new Set(xs)].sort()`. */
  function SortUnique(xs: seq<string>): (r: seq<string>)
    ensures StrictlySorted(r)
    ensures forall y :: y in r <==> y in xs
  {
    if |xs| == 0 then []
    else
      var init := xs[..|xs| - 1];
      assert xs == init + [xs[|xs| - 1]];
      InsertUnique(xs[|xs| - 1], SortUnique(init))
  }

  /** A set has exactly one strictly sorted listing, so the result above is
      determined by the elements alone. */
  lemma {:induction false} SortedListingUnique(a: seq<string>, b: seq<string>)
    requires StrictlySorted(a) && StrictlySorted(b)
    requires forall y :: y in a <==> y in b
    ensures a == b
  {
    if |a| > 0 {
      assert a[0] in a;
    }
    if |b| > 0 {
      assert b[0] in b;
    }
    if |a| > 0 && |b| > 0 {
      assert a == [a[0]] + a[1..] && b == [b[0]] + b[1..];
      if a[0] != b[0] {
        assert a[0] in a && b[0] in b;
        var i :| 0 <= i < |b| && b[i] == a[0];
        var j :| 0 <= j < |a| && a[j] == b[0];
        assert i > 0 && j > 0;
        assert Less(b[0], a[0]) && Less(a[0], b[0]);
        Asymmetric(a[0], b[0]);
      }
      forall y ensures y in a[1..] <==> y in b[1..] {
        if y in a[1..] {
          var k :| 0 <= k < |a| - 1 && a[1..][k] == y;
          assert a[k + 1] == y && Less(a[0], y);
          Irreflexive(a[0]);
          assert y in b && y != b[0];
        }
        if y in b[1..] {
          var k :| 0 <= k < |b| - 1 && b[1..][k] == y;
          assert b[k + 1] == y && Less(b[0], y);
          Irreflexive(b[0]);
          assert y in a && y != a[0];
        }
      }
      SortedListingUnique(a[1..], b[1..]);
    }
  }
}
