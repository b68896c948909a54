/** The order of Rust strings: byte by byte. */
module Lexicographic {
  import opened ChitchatTypes

  predicate AtMost(a: Bytes, b: Bytes) {
    a == [] || (b != [] && (a[0] < b[0] || (a[0] == b[0] && AtMost(a[1..], b[1..]))))
  }

  predicate Before(a: Bytes, b: Bytes) { a != b && AtMost(a, b) }

  lemma {:induction false} Antisymmetric(a: Bytes, b: Bytes)
    requires AtMost(a, b) && AtMost(b, a)
    ensures a == b
  {
    if a != [] && b != [] {
      Antisymmetric(a[1..], b[1..]);
      assert a == [a[0]] + a[1..] && b == [b[0]] + b[1..];
    }
  }

  lemma {:induction false} AtMostIsTransitive(a: Bytes, b: Bytes, c: Bytes)
    requires AtMost(a, b) && AtMost(b, c)
    ensures AtMost(a, c)
  {
    if a != [] {
      if a[0] == b[0] == c[0] {
        AtMostIsTransitive(a[1..], b[1..], c[1..]);
      }
    }
  }

  /** A prefix of a string comes no later than the string. */
  lemma {:induction false} PrefixIsAtMost(p: Bytes, a: Bytes)
    requires p <= a
    ensures AtMost(p, a)
  {
    if p != [] {
      PrefixIsAtMost(p[1..], a[1..]);
    }
  }

  /** What lies between a prefix and a string that begins with it begins with it too. */
  lemma {:induction false} PrefixesAreContiguous(p: Bytes, x: Bytes, y: Bytes)
    requires AtMost(p, x) && AtMost(x, y) && p <= y
    ensures p <= x
  {
    if p != [] {
      assert x[0] == y[0] == p[0];
      PrefixesAreContiguous(p[1..], x[1..], y[1..]);
      assert x == [x[0]] + x[1..] && p == [p[0]] + p[1..];
    }
  }
}
