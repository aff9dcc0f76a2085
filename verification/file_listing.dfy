/**
  Selection of the data files: `list_json_files` keeps the directory entries
  whose name ends in ".json" and returns them in Python's string order.
 */
module FileListing {

  const JsonSuffix: string := ".json"

  predicate EndsWith(s: string, suffix: string) {
    |suffix| <= |s| && s[|s| - |suffix|..] == suffix
  }

  /** `f.endswith(".json")`: case-sensitive, on the whole name. */
  predicate IsJsonName(name: string) {
    EndsWith(name, JsonSuffix)
  }

  /** Python's `<=` on `str`: code points compared left to right, and a
      proper prefix orders before every extension of it. */
  predicate LexLe(a: string, b: string)
    decreases |a|
  {
    |a| == 0 || (|b| > 0 && (a[0] < b[0] || (a[0] == b[0] && LexLe(a[1..], b[1..]))))
  }

  lemma {:induction false} LexLeTotal(a: string, b: string)
    ensures LexLe(a, b) || LexLe(b, a)
    decreases |a|
  {
    if |a| > 0 && |b| > 0 && a[0] == b[0] {
      LexLeTotal(a[1..], b[1..]);
    }
  }

  lemma {:induction false} LexLeTransitive(a: string, b: string, c: string)
    requires LexLe(a, b) && LexLe(b, c)
    ensures LexLe(a, c)
    decreases |a|
  {
    if |a| > 0 && a[0] == b[0] && b[0] == c[0] {
      LexLeTransitive(a[1..], b[1..], c[1..]);
    }
  }

  lemma {:induction false} LexLeAntisymmetric(a: string, b: string)
    requires LexLe(a, b) && LexLe(b, a)
    ensures a == b
    decreases |a|
  {
    if |a| > 0 {
      LexLeAntisymmetric(a[1..], b[1..]);
      assert a == [a[0]] + a[1..];
      assert b == [b[0]] + b[1..];
    }
  }

  /** Every earlier name orders at or before every later one. */
  predicate Sorted(s: seq<string>) {
    forall i, j :: 0 <= i < j < |s| ==> LexLe(s[i], s[j])
  }

  /** The list comprehension of `list_json_files`: the names with the suffix, in listing order. */
  function FilterJson(names: seq<string>): (r: seq<string>)
    ensures forall i :: 0 <= i < |r| ==> IsJsonName(r[i])
    ensures forall x :: multiset(r)[x] == if IsJsonName(x) then multiset(names)[x] else 0
  {
    if |names| == 0 then []
    else
      assert names == [names[0]] + names[1..];
      (if IsJsonName(names[0]) then [names[0]] else []) + FilterJson(names[1..])
  }

  lemma SortedPrepend(x: string, s: seq<string>)
    requires Sorted(s)
    requires forall y :: y in s ==> LexLe(x, y)
    ensures Sorted([x] + s)
  {
    var r := [x] + s;
    forall i, j | 0 <= i < j < |r|
      ensures LexLe(r[i], r[j])
    {
      if i == 0 {
        assert r[j] == s[j - 1];
      } else {
        assert r[i] == s[i - 1] && r[j] == s[j - 1];
      }
    }
  }

  /** One insertion step of the sort: `x` placed before the first name it orders at or before. */
  function Insert(x: string, s: seq<string>): (r: seq<string>)
    requires Sorted(s)
    ensures Sorted(r)
    ensures multiset(r) == multiset(s) + multiset{x}
  {
    if |s| == 0 then [x]
    else if LexLe(x, s[0]) then
      InsertAtFront(x, s);
      assert s == [s[0]] + s[1..];
      [x] + s
    else
      var t := Insert(x, s[1..]);
      InsertBehind(x, s, t);
      [s[0]] + t
  }

  lemma InsertAtFront(x: string, s: seq<string>)
    requires Sorted(s) && |s| > 0 && LexLe(x, s[0])
    ensures Sorted([x] + s)
  {
    forall y | y in s
      ensures LexLe(x, y)
    {
      var k :| 0 <= k < |s| && s[k] == y;
      if k > 0 {
        LexLeTransitive(x, s[0], s[k]);
      }
    }
    SortedPrepend(x, s);
  }

  lemma InsertBehind(x: string, s: seq<string>, t: seq<string>)
    requires Sorted(s) && |s| > 0 && !LexLe(x, s[0])
    requires Sorted(t) && multiset(t) == multiset(s[1..]) + multiset{x}
    ensures Sorted([s[0]] + t)
    ensures multiset([s[0]] + t) == multiset(s) + multiset{x}
  {
    LexLeTotal(x, s[0]);
    forall y | y in t
      ensures LexLe(s[0], y)
    {
      assert y in multiset(t);
      if y != x {
        assert y in multiset(s[1..]);
        var k :| 0 <= k < |s[1..]| && s[1..][k] == y;
        assert s[k + 1] == y;
      }
    }
    SortedPrepend(s[0], t);
    assert s == [s[0]] + s[1..];
  }

  /** `sorted(...)` on a list of names, as an insertion sort. */
  function SortNames(s: seq<string>): (r: seq<string>)
    ensures Sorted(r)
    ensures multiset(r) == multiset(s)
  {
    if |s| == 0 then []
    else
      assert s == [s[0]] + s[1..];
      Insert(s[0], SortNames(s[1..]))
  }

  /** `list_json_files`: exactly the listed names with the ".json" suffix, each as often
      as the listing holds it, in ascending order. */
  function ListJsonFiles(names: seq<string>): (r: seq<string>)
    ensures Sorted(r)
    ensures forall i :: 0 <= i < |r| ==> IsJsonName(r[i])
    ensures forall x :: multiset(r)[x] == if IsJsonName(x) then multiset(names)[x] else 0
  {
    var r := SortNames(FilterJson(names));
    forall i | 0 <= i < |r|
      ensures IsJsonName(r[i])
    {
      assert r[i] in multiset(r);
    }
    r
  }

  /** Two ascending orders of the same names start with the same name. */
  lemma SortedSameHead(a: seq<string>, b: seq<string>)
    requires Sorted(a) && Sorted(b) && multiset(a) == multiset(b) && |a| > 0 && |b| > 0
    ensures a[0] == b[0]
  {
    assert a[0] in multiset(b);
    var k :| 0 <= k < |b| && b[k] == a[0];
    assert b[0] in multiset(a);
    var m :| 0 <= m < |a| && a[m] == b[0];
    assert LexLe(b[0], a[0]) by {
      if k > 0 { assert LexLe(b[0], b[k]); } else { LexLeTotal(b[0], b[0]); }
    }
    assert LexLe(a[0], b[0]) by {
      if m > 0 { assert LexLe(a[0], a[m]); } else { LexLeTotal(a[0], a[0]); }
    }
    LexLeAntisymmetric(a[0], b[0]);
  }

  lemma TailMultiset(a: seq<string>)
    requires |a| > 0
    ensures multiset(a[1..]) == multiset(a) - multiset{a[0]}
  {
    assert a == [a[0]] + a[1..];
  }

  /** Two ascending orders of the same names are the same sequence. */
  lemma {:induction false} SortedUnique(a: seq<string>, b: seq<string>)
    requires Sorted(a) && Sorted(b) && multiset(a) == multiset(b)
    ensures a == b
    decreases |a|
  {
    assert |a| == |multiset(a)| == |b|;
    if |a| > 0 {
      SortedSameHead(a, b);
      TailMultiset(a);
      TailMultiset(b);
      SortedUnique(a[1..], b[1..]);
      assert a == [a[0]] + a[1..];
      assert b == [b[0]] + b[1..];
    }
  }

  /** The listing is determined by its specification: any ascending sequence holding exactly
      the ".json" names of the directory, with their multiplicities, is `list_json_files`'s answer. */
  lemma ListJsonFilesIsTheSortedSelection(names: seq<string>, r: seq<string>)
    requires Sorted(r)
    requires forall x :: multiset(r)[x] == if IsJsonName(x) then multiset(names)[x] else 0
    ensures r == ListJsonFiles(names)
  {
    var l := ListJsonFiles(names);
    assert multiset(r) == multiset(l);
    SortedUnique(r, l);
  }

  /** A name is listed exactly when the directory holds it and it has the suffix. */
  lemma ListedIffJsonName(names: seq<string>, x: string)
    ensures x in ListJsonFiles(names) <==> x in names && IsJsonName(x)
  {
    var r := ListJsonFiles(names);
    assert x in r <==> x in multiset(r);
    assert x in names <==> x in multiset(names);
  }
}
