/** The order Python 2's `sorted` puts manifest keys in: `str` values compare
    character by character, a proper prefix sorts first, and `None` sorts
    before every string.  `sorted(missing)[0]` is the least key of `missing`. */
module Py2Order {
  import opened Wrappers

  /** Python 2 `a < b` on two `str` values. */
  predicate StrLess(a: string, b: string)
    decreases |a|
  {
    if a == [] then b != []
    else if b == [] then false
    else if a[0] != b[0] then a[0] < b[0]
    else StrLess(a[1..], b[1..])
  }

  /** Python 2 `a < b` on keys that are a string or `None`. */
  predicate KeyLess(a: Option<string>, b: Option<string>) {
    match a
    case None => b.Some?
    case Some(x) => b.Some? && StrLess(x, b.value)
  }

  predicate KeyLessEq(a: Option<string>, b: Option<string>) {
    a == b || KeyLess(a, b)
  }

  lemma {:induction false} StrLessIrreflexive(a: string)
    ensures !StrLess(a, a)
    decreases |a|
  {
    if a != [] {
      StrLessIrreflexive(a[1..]);
    }
  }

  lemma {:induction false} StrLessTransitive(a: string, b: string, c: string)
    requires StrLess(a, b) && StrLess(b, c)
    ensures StrLess(a, c)
    decreases |a|
  {
    if a != [] && a[0] == b[0] && b[0] == c[0] {
      StrLessTransitive(a[1..], b[1..], c[1..]);
    }
  }

  lemma {:induction false} StrLessTotal(a: string, b: string)
    ensures a == b || StrLess(a, b) || StrLess(b, a)
    decreases |a|
  {
    if a != [] && b != [] && a[0] == b[0] {
      StrLessTotal(a[1..], b[1..]);
      if a[1..] == b[1..] {
        assert a == [a[0]] + a[1..] && b == [b[0]] + b[1..];
      }
    }
  }

  /** `KeyLess` is a strict total order. */
  lemma KeyLessStrictTotal(a: Option<string>, b: Option<string>, c: Option<string>)
    ensures !KeyLess(a, a)
    ensures a == b || KeyLess(a, b) || KeyLess(b, a)
    ensures KeyLess(a, b) && KeyLess(b, c) ==> KeyLess(a, c)
  {
    if a.Some? {
      StrLessIrreflexive(a.value);
      if b.Some? {
        StrLessTotal(a.value, b.value);
        if c.Some? && KeyLess(a, b) && KeyLess(b, c) {
          StrLessTransitive(a.value, b.value, c.value);
        }
      }
    }
  }

  /** `k` is what `sorted(s)[0]` returns. */
  predicate IsLeast(k: Option<string>, s: set<Option<string>>) {
    k in s && forall y :: y in s ==> KeyLessEq(k, y)
  }

  lemma LeastUnique(a: Option<string>, b: Option<string>, s: set<Option<string>>)
    requires IsLeast(a, s) && IsLeast(b, s)
    ensures a == b
  {
    KeyLessStrictTotal(a, b, a);
  }

  /** The least element of a non-empty set of keys. */
  ghost function Least(s: set<Option<string>>): (k: Option<string>)
    requires s != {}
    ensures IsLeast(k, s)
    decreases |s|
  {
    var x :| x in s;
    if s == {x} then x
    else
      var m := Least(s - {x});
      KeyLessStrictTotal(x, m, x);
      var k := if KeyLess(x, m) then x else m;
      assert forall y :: y in s ==> KeyLessEq(k, y) by {
        forall y | y in s ensures KeyLessEq(k, y) {
          if y != x {
            assert y in s - {x};
            KeyLessStrictTotal(k, m, y);
          }
        }
      }
      k
  }

  /** `sorted(missing)[0]`, computed by one pass over the set. */
  method SmallestKey(s: set<Option<string>>) returns (k: Option<string>)
    requires s != {}
    ensures IsLeast(k, s)
  {
    k :| k in s;
    var rest := s - {k};
    while rest != {}
      invariant rest <= s && k in s && k !in rest
      invariant forall y :: y in s && y !in rest ==> KeyLessEq(k, y)
      decreases |rest|
    {
      var y :| y in rest;
      KeyLessStrictTotal(k, y, k);
      if KeyLess(y, k) {
        forall z | z in s && z !in rest
          ensures KeyLessEq(y, z)
        {
          KeyLessStrictTotal(y, k, z);
        }
        k := y;
      }
      rest := rest - {y};
    }
  }
}
