/** Insertion into and deletion from a sequence. */
module Sequences {

  function InsertAt<X>(s: seq<X>, i: nat, x: X): seq<X>
    requires i <= |s|
  {
    s[..i] + [x] + s[i..]
  }

  function DeleteAt<X>(s: seq<X>, i: nat): seq<X>
    requires i < |s|
  {
    s[..i] + s[i + 1..]
  }

  ghost predicate Distinct<X>(s: seq<X>) {
    forall i, j :: 0 <= i < j < |s| ==> s[i] != s[j]
  }

  /** `r` is `s` with `x` put in at index `i`, element by element. */
  ghost predicate IsInsert<X>(s: seq<X>, i: nat, x: X, r: seq<X>) {
    && i <= |s| && |r| == |s| + 1 && r[i] == x
    && (forall j :: 0 <= j < i ==> r[j] == s[j])
    && (forall j :: i < j <= |s| ==> r[j] == s[j - 1])
  }

  /** `r` is `s` without its element at index `i`. */
  ghost predicate IsDelete<X>(s: seq<X>, i: nat, r: seq<X>) {
    && i < |s| && |r| == |s| - 1
    && (forall j :: 0 <= j < i ==> r[j] == s[j])
    && (forall j :: i <= j < |r| ==> r[j] == s[j + 1])
  }

  lemma Inserted<X>(s: seq<X>, i: nat, x: X) returns (r: seq<X>)
    requires i <= |s|
    ensures IsInsert(s, i, x, r)
  {
    r := InsertAt(s, i, x);
  }

  lemma Deleted<X>(s: seq<X>, i: nat) returns (r: seq<X>)
    requires i < |s|
    ensures IsDelete(s, i, r)
  {
    r := DeleteAt(s, i);
  }

  lemma InsertAtLeft<X>(a: seq<X>, b: seq<X>, i: nat, x: X)
    requires i <= |a|
    ensures InsertAt(a + b, i, x) == InsertAt(a, i, x) + b
  {
    assert (a + b)[..i] == a[..i];
    assert (a + b)[i..] == a[i..] + b;
  }

  lemma InsertAtRight<X>(a: seq<X>, b: seq<X>, i: nat, x: X)
    requires i <= |b|
    ensures InsertAt(a + b, |a| + i, x) == a + InsertAt(b, i, x)
  {
    assert (a + b)[..|a| + i] == a + b[..i];
    assert (a + b)[|a| + i..] == b[i..];
  }

  lemma DeleteAtLeft<X>(a: seq<X>, b: seq<X>, i: nat)
    requires i < |a|
    ensures DeleteAt(a + b, i) == DeleteAt(a, i) + b
  {
    assert (a + b)[..i] == a[..i];
    assert (a + b)[i + 1..] == a[i + 1..] + b;
  }

  lemma DeleteAtRight<X>(a: seq<X>, b: seq<X>, i: nat)
    requires i < |b|
    ensures DeleteAt(a + b, |a| + i) == a + DeleteAt(b, i)
  {
    assert (a + b)[..|a| + i] == a + b[..i];
    assert (a + b)[|a| + i + 1..] == b[i + 1..];
  }

  lemma AppendAssoc<X>(a: seq<X>, b: seq<X>, c: seq<X>)
    ensures a + (b + c) == (a + b) + c
  {
  }
}
