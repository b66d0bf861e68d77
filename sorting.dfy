/**
 * The two sorts the health check calls: `sort.Strings` on host and peer
 * addresses, and `sort.SliceStable` on partition IDs. Both are library calls in
 * the source; here each is an insertion sort whose contract is what the
 * library promises: the result is ordered and a permutation of the input.
 */
module Sorting {
  import opened Proto
  import opened Seqs

  /**
   * Go's `<=` on strings: byte-wise lexicographic order. On UTF-8 text the byte
   * order agrees with the order of code points, which is the order on `char`.
   */
  predicate LexLe(a: string, b: string)
    decreases |a|
  {
    if a == [] then true
    else if b == [] then false
    else if a[0] != b[0] then a[0] < b[0]
    else LexLe(a[1..], b[1..])
  }

  lemma {:induction false} LexLeReflexive(a: string)
    ensures LexLe(a, a)
    decreases |a|
  {
    if a != [] {
      LexLeReflexive(a[1..]);
    }
  }

  lemma {:induction false} LexLeTotal(a: string, b: string)
    ensures LexLe(a, b) || LexLe(b, a)
    decreases |a|
  {
    if a != [] && b != [] && a[0] == b[0] {
      LexLeTotal(a[1..], b[1..]);
    }
  }

  lemma {:induction false} LexLeAntisymmetric(a: string, b: string)
    requires LexLe(a, b) && LexLe(b, a)
    ensures a == b
    decreases |a|
  {
    if a != [] && b != [] {
      LexLeAntisymmetric(a[1..], b[1..]);
      assert a == [a[0]] + a[1..] && b == [b[0]] + b[1..];
    }
  }

  lemma {:induction false} LexLeTransitive(a: string, b: string, c: string)
    requires LexLe(a, b) && LexLe(b, c)
    ensures LexLe(a, c)
    decreases |a|
  {
    if a != [] && b != [] && c != [] && a[0] == b[0] && b[0] == c[0] {
      LexLeTransitive(a[1..], b[1..], c[1..]);
    }
  }

  predicate StringsSorted(s: seq<string>)
  {
    forall i, j :: 0 <= i < j < |s| ==> LexLe(s[i], s[j])
  }

  /** Every element of `s` is at least `x`. */
  predicate AllAtLeast(x: string, s: seq<string>)
  {
    forall k :: 0 <= k < |s| ==> LexLe(x, s[k])
  }

  lemma SortedCons(x: string, s: seq<string>)
    requires StringsSorted(s) && AllAtLeast(x, s)
    ensures StringsSorted([x] + s)
  {
    var r := [x] + s;
    forall i, j | 0 <= i < j < |r| ensures LexLe(r[i], r[j]) {
      if i > 0 {
        assert r[i] == s[i - 1] && r[j] == s[j - 1];
      }
    }
  }

  lemma BelowHead(x: string, s: seq<string>)
    requires StringsSorted(s) && s != [] && LexLe(x, s[0])
    ensures AllAtLeast(x, s)
  {
    forall k | 0 <= k < |s| ensures LexLe(x, s[k]) {
      if k > 0 {
        LexLeTransitive(x, s[0], s[k]);
      }
    }
  }

  lemma BoundByMultiset(x: string, s: seq<string>, r: seq<string>)
    requires AllAtLeast(x, s) && multiset(r) <= multiset(s)
    ensures AllAtLeast(x, r)
  {
    forall k | 0 <= k < |r| ensures LexLe(x, r[k]) {
      assert r[k] in multiset(r);
      assert r[k] in s;
    }
  }

  /** Inserts `x` before the first element of `s` that is not below it. */
  function InsertString(x: string, s: seq<string>): (r: seq<string>)
    ensures |r| == |s| + 1
  {
    if s == [] then [x]
    else if LexLe(x, s[0]) then [x] + s
    else [s[0]] + InsertString(x, s[1..])
  }

  lemma {:induction false} InsertStringPermutes(x: string, s: seq<string>)
    ensures multiset(InsertString(x, s)) == multiset(s) + multiset{x}
  {
    if s != [] {
      assert s == [s[0]] + s[1..];
      if !LexLe(x, s[0]) {
        InsertStringPermutes(x, s[1..]);
      }
    }
  }

  lemma {:induction false} InsertStringSorted(x: string, s: seq<string>)
    requires StringsSorted(s)
    ensures StringsSorted(InsertString(x, s))
  {
    if s != [] {
      if LexLe(x, s[0]) {
        BelowHead(x, s);
        SortedCons(x, s);
      } else {
        assert s == [s[0]] + s[1..];
        var rest := InsertString(x, s[1..]);
        InsertStringSorted(x, s[1..]);
        InsertStringPermutes(x, s[1..]);
        LexLeTotal(x, s[0]);
        assert AllAtLeast(s[0], s[1..] + [x]);
        BoundByMultiset(s[0], s[1..] + [x], rest);
        SortedCons(s[0], rest);
      }
    }
  }

  /** `sort.Strings`: the strings of `s` in ascending order (see SortStringsSpec). */
  function SortStrings(s: seq<string>): (r: seq<string>)
    ensures |r| == |s|
  {
    if s == [] then [] else InsertString(s[0], SortStrings(s[1..]))
  }

  /** The sorted copy is ordered and holds exactly the input's strings. */
  lemma {:induction false} SortStringsSpec(s: seq<string>)
    ensures StringsSorted(SortStrings(s))
    ensures multiset(SortStrings(s)) == multiset(s)
  {
    if s != [] {
      assert s == [s[0]] + s[1..];
      SortStringsSpec(s[1..]);
      InsertStringSorted(s[0], SortStrings(s[1..]));
      InsertStringPermutes(s[0], SortStrings(s[1..]));
    }
  }

  lemma SortedHeadIsLeast(s: seq<string>, y: string)
    requires StringsSorted(s) && y in s
    ensures LexLe(s[0], y)
  {
    var i :| 0 <= i < |s| && s[i] == y;
    if i == 0 {
      LexLeReflexive(y);
    }
  }

  lemma StringsSortedTail(s: seq<string>)
    requires StringsSorted(s) && s != []
    ensures StringsSorted(s[1..])
  {
    forall i, j | 0 <= i < j < |s| - 1 ensures LexLe(s[1..][i], s[1..][j]) {
      assert s[1..][i] == s[i + 1] && s[1..][j] == s[j + 1];
    }
  }

  /** Two sorted arrangements of one multiset of strings start alike and leave such arrangements behind. */
  lemma StringHeadsAgree(a: seq<string>, b: seq<string>)
    requires StringsSorted(a) && StringsSorted(b)
    requires multiset(a) == multiset(b) && a != []
    ensures b != [] && a[0] == b[0]
    ensures StringsSorted(a[1..]) && StringsSorted(b[1..])
    ensures multiset(a[1..]) == multiset(b[1..])
  {
    assert |b| == |multiset(b)| == |multiset(a)| == |a|;
    MultisetSplit(a);
    MultisetSplit(b);
    assert a[0] in b && b[0] in a;
    SortedHeadIsLeast(a, b[0]);
    SortedHeadIsLeast(b, a[0]);
    LexLeAntisymmetric(a[0], b[0]);
    StringsSortedTail(a);
    StringsSortedTail(b);
  }

  /** A sorted arrangement of a multiset of strings is unique. */
  lemma {:induction false} SortedUnique(a: seq<string>, b: seq<string>)
    requires StringsSorted(a) && StringsSorted(b)
    requires multiset(a) == multiset(b)
    ensures a == b
  {
    if a == [] {
      assert |b| == |multiset(b)| == 0;
    } else {
      StringHeadsAgree(a, b);
      SortedUnique(a[1..], b[1..]);
      assert a == [a[0]] + a[1..] && b == [b[0]] + b[1..];
    }
  }

  /**
   * Comparing sorted copies does not depend on the order of the inputs: two
   * lists sort to the same sequence exactly when they hold the same strings
   * with the same multiplicities.
   */
  lemma SortedEqualIffSameMultiset(a: seq<string>, b: seq<string>)
    ensures SortStrings(a) == SortStrings(b) <==> multiset(a) == multiset(b)
  {
    SortStringsSpec(a);
    SortStringsSpec(b);
    if multiset(a) == multiset(b) {
      SortedUnique(SortStrings(a), SortStrings(b));
    }
  }

  predicate IdsSorted(s: seq<uint64>)
  {
    forall i, j :: 0 <= i < j < |s| ==> s[i] <= s[j]
  }

  lemma IdsBound(x: uint64, s: seq<uint64>, r: seq<uint64>)
    requires forall k :: 0 <= k < |s| ==> x <= s[k]
    requires multiset(r) <= multiset(s)
    ensures forall k :: 0 <= k < |r| ==> x <= r[k]
  {
    forall k | 0 <= k < |r| ensures x <= r[k] {
      assert r[k] in multiset(r);
      assert r[k] in s;
    }
  }

  function InsertId(x: uint64, s: seq<uint64>): (r: seq<uint64>)
    ensures |r| == |s| + 1
  {
    if s == [] then [x]
    else if x <= s[0] then [x] + s
    else [s[0]] + InsertId(x, s[1..])
  }

  lemma {:induction false} InsertIdPermutes(x: uint64, s: seq<uint64>)
    ensures multiset(InsertId(x, s)) == multiset(s) + multiset{x}
  {
    if s != [] {
      assert s == [s[0]] + s[1..];
      if !(x <= s[0]) {
        InsertIdPermutes(x, s[1..]);
      }
    }
  }

  lemma IdsSortedCons(x: uint64, s: seq<uint64>)
    requires IdsSorted(s) && forall k :: 0 <= k < |s| ==> x <= s[k]
    ensures IdsSorted([x] + s)
  {
    var r := [x] + s;
    forall i, j | 0 <= i < j < |r| ensures r[i] <= r[j] {
      if i > 0 {
        assert r[i] == s[i - 1] && r[j] == s[j - 1];
      } else {
        assert r[j] == s[j - 1];
      }
    }
  }

  lemma {:induction false} InsertIdSorted(x: uint64, s: seq<uint64>)
    requires IdsSorted(s)
    ensures IdsSorted(InsertId(x, s))
  {
    if s != [] {
      if x <= s[0] {
        IdsSortedCons(x, s);
      } else {
        assert s == [s[0]] + s[1..];
        var rest := InsertId(x, s[1..]);
        InsertIdSorted(x, s[1..]);
        InsertIdPermutes(x, s[1..]);
        IdsBound(s[0], s[1..] + [x], rest);
        IdsSortedCons(s[0], rest);
      }
    }
  }

  /** `sort.SliceStable` on partition IDs: ascending order (see SortIdsSpec). */
  function SortIds(s: seq<uint64>): (r: seq<uint64>)
    ensures |r| == |s|
  {
    if s == [] then [] else InsertId(s[0], SortIds(s[1..]))
  }

  /** Equal IDs are indistinguishable, so a stable sort and this one agree. */
  lemma {:induction false} SortIdsSpec(s: seq<uint64>)
    ensures IdsSorted(SortIds(s))
    ensures multiset(SortIds(s)) == multiset(s)
  {
    if s != [] {
      assert s == [s[0]] + s[1..];
      SortIdsSpec(s[1..]);
      InsertIdSorted(s[0], SortIds(s[1..]));
      InsertIdPermutes(s[0], SortIds(s[1..]));
    }
  }

  lemma IdsSortedTail(s: seq<uint64>)
    requires IdsSorted(s) && s != []
    ensures IdsSorted(s[1..])
  {
    forall i, j | 0 <= i < j < |s| - 1 ensures s[1..][i] <= s[1..][j] {
      assert s[1..][i] == s[i + 1] && s[1..][j] == s[j + 1];
    }
  }

  lemma IdsSortedHeadIsLeast(s: seq<uint64>, y: uint64)
    requires IdsSorted(s) && y in s
    ensures s[0] <= y
  {
    var i :| 0 <= i < |s| && s[i] == y;
  }

  /** Two ascending arrangements of one multiset start alike and leave such arrangements behind. */
  lemma IdsHeadsAgree(a: seq<uint64>, b: seq<uint64>)
    requires IdsSorted(a) && IdsSorted(b)
    requires multiset(a) == multiset(b) && a != []
    ensures b != [] && a[0] == b[0]
    ensures IdsSorted(a[1..]) && IdsSorted(b[1..])
    ensures multiset(a[1..]) == multiset(b[1..])
  {
    assert |b| == |multiset(b)| == |multiset(a)| == |a|;
    MultisetSplit(a);
    MultisetSplit(b);
    assert a[0] in b && b[0] in a;
    IdsSortedHeadIsLeast(a, b[0]);
    IdsSortedHeadIsLeast(b, a[0]);
    IdsSortedTail(a);
    IdsSortedTail(b);
  }

  /** A sorted arrangement of a multiset of IDs is unique. */
  lemma {:induction false} IdsSortedUnique(a: seq<uint64>, b: seq<uint64>)
    requires IdsSorted(a) && IdsSorted(b)
    requires multiset(a) == multiset(b)
    ensures a == b
  {
    if a == [] {
      assert |b| == |multiset(b)| == 0;
    } else {
      IdsHeadsAgree(a, b);
      IdsSortedUnique(a[1..], b[1..]);
      assert a == [a[0]] + a[1..] && b == [b[0]] + b[1..];
    }
  }
}
