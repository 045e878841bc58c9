/** `[i for i, v in enumerate(rows) if test(v)]`: where the checkers find rows, and what finding one means. */
module Listing {
  lemma Associative<T>(a: seq<T>, b: seq<T>, c: seq<T>)
    ensures a + (b + c) == (a + b) + c
  {}

  /** The positions of the rows that pass, the first row counted as `base`. */
  function Where<T>(rows: seq<T>, test: T -> bool, base: nat): seq<nat> {
    if rows == [] then []
    else (if test(rows[0]) then [base] else []) + Where(rows[1..], test, base + 1)
  }

  ghost predicate Ascending(xs: seq<nat>) { forall i, j | 0 <= i < j < |xs| :: xs[i] < xs[j] }

  /** `hits` are exactly the positions of the rows that pass, in order. */
  ghost predicate Lists<T>(hits: seq<nat>, rows: seq<T>, test: T -> bool, base: nat) {
    && (forall i: int :: i in hits <==> base <= i < base + |rows| && test(rows[i - base]))
    && Ascending(hits)
  }

  lemma {:induction false} WhereIsExact<T>(rows: seq<T>, test: T -> bool, base: nat)
    ensures Lists(Where(rows, test, base), rows, test, base)
  {
    if rows == [] {
    } else {
      WhereIsExact(rows[1..], test, base + 1);
      OneMoreIsListed(rows, test, base, Where(rows[1..], test, base + 1));
    }
  }

  lemma OneMoreIsListed<T>(rows: seq<T>, test: T -> bool, base: nat, rest: seq<nat>)
    requires rows != [] && Lists(rest, rows[1..], test, base + 1)
    ensures Lists((if test(rows[0]) then [base] else []) + rest, rows, test, base)
  {
    var hits := (if test(rows[0]) then [base] else []) + rest;
    forall i: int ensures i in hits <==> base <= i < base + |rows| && test(rows[i - base]) {
      assert i in hits <==> (i == base && test(rows[0])) || i in rest;
      assert base < i < base + |rows| ==> rows[i - base] == rows[1..][i - base - 1];
    }
    assert forall k | 0 <= k < |rest| :: rest[k] in rest;
  }

  lemma {:induction false} WhereOfConcat<T>(a: seq<T>, b: seq<T>, test: T -> bool, base: nat)
    ensures Where(a + b, test, base) == Where(a, test, base) + Where(b, test, base + |a|)
  {
    if a == [] {
      assert a + b == b;
    } else {
      WhereOfConcat(a[1..], b, test, base + 1);
      assert (a + b)[0] == a[0] && (a + b)[1..] == a[1..] + b;
      Associative(if test(a[0]) then [base] else [], Where(a[1..], test, base + 1), Where(b, test, base + |a|));
    }
  }

  /** Row `i` passes and no other does. */
  ghost predicate OnlyAt<T>(rows: seq<T>, test: T -> bool, i: nat) {
    i < |rows| && test(rows[i]) && forall j | 0 <= j < |rows| && test(rows[j]) :: j == i
  }

  lemma AscendingDiffers(xs: seq<nat>)
    requires Ascending(xs) && |xs| > 1
    ensures xs[0] in xs && xs[1] in xs && xs[0] != xs[1]
  {
    assert xs[0] < xs[1];
  }

  lemma OnlyIsListed<T>(rows: seq<T>, test: T -> bool, i: nat)
    ensures OnlyAt(rows, test, i) <==> Where(rows, test, 0) == [i]
  {
    if OnlyAt(rows, test, i) {
      OnlyGivesOne(rows, test, i);
    }
    if Where(rows, test, 0) == [i] {
      OneGivesOnly(rows, test, i);
    }
  }

  lemma OnlyGivesOne<T>(rows: seq<T>, test: T -> bool, i: nat)
    requires OnlyAt(rows, test, i)
    ensures Where(rows, test, 0) == [i]
  {
    hide Where;
    var hits := Where(rows, test, 0);
    WhereIsExact(rows, test, 0);
    assert i in hits;
    assert forall k | 0 <= k < |hits| :: hits[k] in hits;
    if |hits| > 1 {
      AscendingDiffers(hits);
    }
  }

  lemma OneGivesOnly<T>(rows: seq<T>, test: T -> bool, i: nat)
    requires Where(rows, test, 0) == [i]
    ensures OnlyAt(rows, test, i)
  {
    hide Where;
    var hits := Where(rows, test, 0);
    WhereIsExact(rows, test, 0);
    assert hits[0] in hits;
    forall j | 0 <= j < |rows| && test(rows[j]) ensures j == i {
      assert j in hits;
    }
  }

  /** An ascending list is settled by its members. */
  lemma {:induction false} AscendingIsOne(a: seq<nat>, b: seq<nat>)
    requires Ascending(a) && Ascending(b) && forall i: int :: i in a <==> i in b
    ensures a == b
    decreases |a|
  {
    HasSome(b);
    if a != [] {
      assert a[0] in b && b != [] && b[0] in a;
      assert a[0] == b[0];
      forall i: int ensures i in a[1..] <==> i in b[1..] {
        assert i in a <==> i == a[0] || i in a[1..];
        assert i in b <==> i == b[0] || i in b[1..];
      }
      AscendingIsOne(a[1..], b[1..]);
      assert a == [a[0]] + a[1..] && b == [b[0]] + b[1..];
    }
  }

  lemma HasSome(b: seq<nat>)
    ensures b == [] || exists i: int :: i in b
  {
    if b != [] {
      assert b[0] in b;
    }
  }
}
