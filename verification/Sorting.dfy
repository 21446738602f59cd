/** Sorting by name, as `sort.Slice` with a string comparison does. */
module Sorting {
  /** Byte-wise comparison; on UTF-8 it agrees with code point order. */
  predicate Le(a: string, b: string) {
    if a == "" then true
    else if b == "" then false
    else if a[0] == b[0] then Le(a[1..], b[1..])
    else a[0] < b[0]
  }

  lemma {:induction false} LeTotal(a: string, b: string)
    ensures Le(a, b) || Le(b, a)
  {
    if a != "" && b != "" && a[0] == b[0] { LeTotal(a[1..], b[1..]); }
  }

  lemma {:induction false} LeTrans(a: string, b: string, c: string)
    requires Le(a, b) && Le(b, c)
    ensures Le(a, c)
  {
    if a != "" && a[0] == b[0] && b[0] == c[0] { LeTrans(a[1..], b[1..], c[1..]); }
  }

  predicate Sorted<T>(s: seq<T>, name: T -> string) {
    forall i, j :: 0 <= i < j < |s| ==> Le(name(s[i]), name(s[j]))
  }

  lemma InsertionKeeps<T>(s: seq<T>, k: nat, x: T)
    requires k <= |s|
    ensures multiset(s[..k] + [x] + s[k..]) == multiset(s + [x])
  {
    assert s == s[..k] + s[k..];
  }

  lemma InsertionSorts<T>(s: seq<T>, k: nat, x: T, name: T -> string)
    requires Sorted(s, name) && k <= |s|
    requires k > 0 ==> Le(name(s[k - 1]), name(x))
    requires forall j :: k <= j < |s| ==> Le(name(x), name(s[j]))
    ensures Sorted(s[..k] + [x] + s[k..], name)
  {
    forall i | 0 <= i < k ensures Le(name(s[i]), name(x)) {
      if i < k - 1 { LeTrans(name(s[i]), name(s[k - 1]), name(x)); }
    }
    var r := s[..k] + [x] + s[k..];
    forall i, j | 0 <= i < j < |r| ensures Le(name(r[i]), name(r[j])) {
      assert r[i] == if i < k then s[i] else if i == k then x else s[i - 1];
      assert r[j] == if j < k then s[j] else if j == k then x else s[j - 1];
    }
  }

  /** Inserts into place from the left, keeping the order and the elements. */
  method Insert<T>(x: T, s: seq<T>, name: T -> string) returns (r: seq<T>)
    requires Sorted(s, name)
    ensures Sorted(r, name) && multiset(r) == multiset(s + [x])
  {
    var k: nat := |s|;
    while k > 0 && !Le(name(s[k - 1]), name(x))
      invariant k <= |s|
      invariant forall j :: k <= j < |s| ==> Le(name(x), name(s[j]))
    {
      LeTotal(name(s[k - 1]), name(x));
      k := k - 1;
    }
    InsertionSorts(s, k, x, name);
    InsertionKeeps(s, k, x);
    r := s[..k] + [x] + s[k..];
  }

  method SortByName<T>(s: seq<T>, name: T -> string) returns (r: seq<T>)
    ensures Sorted(r, name) && multiset(r) == multiset(s)
  {
    r := [];
    for i := 0 to |s|
      invariant Sorted(r, name) && multiset(r) == multiset(s[..i])
    {
      r := Insert(s[i], r, name);
      assert s[..i + 1] == s[..i] + [s[i]];
    }
    assert s[..|s|] == s;
  }
}
