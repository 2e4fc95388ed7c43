/** Strings in code-point order, and the ascending iteration of a BTreeMap. */
module Ordering {
  /** Lexicographic order. */
  predicate Less(a: string, b: string)
  {
    if b == "" then false
    else if a == "" then true
    else a[0] < b[0] || (a[0] == b[0] && Less(a[1..], b[1..]))
  }

  /** Up to the first place where they differ the two are equal, and there the
      first ends or has the smaller character. */
  lemma {:induction false} LessMeans(a: string, b: string)
    ensures Less(a, b) <==>
            exists n | 0 <= n <= |a| && n < |b| :: a[..n] == b[..n] && (n == |a| || a[n] < b[n])
    decreases |a|
  {
    if a != "" && b != "" && a[0] == b[0] {
      LessMeans(a[1..], b[1..]);
      if Less(a, b) {
        var n :| 0 <= n <= |a[1..]| && n < |b[1..]| && a[1..][..n] == b[1..][..n] && (n == |a[1..]| || a[1..][n] < b[1..][n]);
        assert a[..n + 1] == [a[0]] + a[1..][..n] && b[..n + 1] == [b[0]] + b[1..][..n];
      }
      if m: int :| 0 <= m <= |a| && m < |b| && a[..m] == b[..m] && (m == |a| || a[m] < b[m]) {
        assert m > 0;
        assert a[1..][..m - 1] == a[..m][1..] && b[1..][..m - 1] == b[..m][1..];
      }
    } else if Less(a, b) {
      assert a[..0] == b[..0];
    }
  }

  lemma {:induction false} LessTotal(a: string, b: string)
    ensures Less(a, b) || a == b || Less(b, a)
    decreases |a|
  {
    if a != "" && b != "" && a[0] == b[0] {
      LessTotal(a[1..], b[1..]);
      if a[1..] == b[1..] {
        assert a == [a[0]] + a[1..] && b == [b[0]] + b[1..];
      }
    }
  }

  lemma {:induction false} LessTransitive(a: string, b: string, c: string)
    requires Less(a, b) && Less(b, c)
    ensures Less(a, c)
    decreases |a|
  {
    if a != "" && a[0] == b[0] && b[0] == c[0] {
      LessTransitive(a[1..], b[1..], c[1..]);
    }
  }

  lemma {:induction false} LessIrreflexive(a: string)
    ensures !Less(a, a)
    decreases |a|
  {
    if a != "" {
      LessIrreflexive(a[1..]);
    }
  }

  ghost predicate Ascending(keys: seq<string>)
  {
    forall i, j | 0 <= i < j < |keys| :: Less(keys[i], keys[j])
  }

  lemma {:induction false} AscendingDistinct(keys: seq<string>, i: nat, j: nat)
    requires Ascending(keys) && i < |keys| && j < |keys| && keys[i] == keys[j]
    ensures i == j
  {
    LessIrreflexive(keys[i]);
  }

  /** The keys of a map in the order a BTreeMap yields them. */
  method SortedKeys(keys: set<string>) returns (sorted: seq<string>)
    ensures Ascending(sorted)
    ensures forall k :: k in sorted <==> k in keys
  {
    hide Less;
    sorted := [];
    var todo := keys;
    while todo != {}
      invariant todo <= keys && Ascending(sorted)
      invariant forall k :: k in sorted <==> k in keys && k !in todo
      decreases |todo|
    {
      var k :| k in todo;
      todo := todo - {k};
      sorted := InsertKey(sorted, k);
    }
  }

  method InsertKey(sorted: seq<string>, k: string) returns (r: seq<string>)
    requires Ascending(sorted) && k !in sorted
    ensures Ascending(r) && forall x :: x in r <==> x in sorted || x == k
  {
    hide Less;
    var i := 0;
    while i < |sorted| && Less(sorted[i], k)
      invariant 0 <= i <= |sorted|
      invariant forall j | 0 <= j < i :: Less(sorted[j], k)
    {
      i := i + 1;
    }
    forall j | i <= j < |sorted| ensures Less(k, sorted[j]) {
      LessTotal(sorted[i], k);
      if j > i {
        LessTransitive(k, sorted[i], sorted[j]);
      }
    }
    r := sorted[..i] + [k] + sorted[i..];
  }
}
