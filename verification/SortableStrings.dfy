/** Numbers as strings that sort like the numbers (database/src/helpers.rs): lower-case hexadecimal, preceded by
one digit for its length. */
module SortableStrings {
  import opened ChitchatTypes
  import opened Lexicographic

  function HexDigit(n: nat): (c: byte)
    requires n < 16
    ensures 48 <= c < 58 || 97 <= c < 103
  {
    if n < 10 then 48 + n else 87 + n
  }

  function Hex(v: nat): (s: Bytes)
    ensures |s| >= 1
  {
    if v < 16 then [HexDigit(v)] else Hex(v / 16) + [HexDigit(v % 16)]
  }

  function DigitValue(c: byte): nat { if 97 <= c then c - 87 else if 48 <= c then c - 48 else 0 }

  function HexValue(s: Bytes): nat {
    if s == [] then 0 else HexValue(s[..|s| - 1]) * 16 + DigitValue(s[|s| - 1])
  }

  lemma {:induction false} HexRoundTrip(v: nat)
    ensures HexValue(Hex(v)) == v
  {
    var s := Hex(v);
    if v < 16 {
      assert s[..0] == [];
    } else {
      HexRoundTrip(v / 16);
      assert s[..|s| - 1] == Hex(v / 16);
    }
  }

  // ----- length -----

  function Pow16(n: nat): nat { if n == 0 then 1 else 16 * Pow16(n - 1) }

  lemma {:induction false} HexLength(v: nat, n: nat)
    requires 1 <= n && v < Pow16(n)
    ensures |Hex(v)| <= n
  {
    if v >= 16 {
      HexLength(v / 16, n - 1);
    }
  }

  lemma U64HexLength(v: nat)
    requires v < U64_MODULUS
    ensures |Hex(v)| <= 16
  {
    assert Pow16(4) == 0x1_0000;
    assert Pow16(8) == 0x1_0000_0000;
    assert Pow16(12) == 0x1_0000_0000_0000;
    assert Pow16(16) == U64_MODULUS;
    HexLength(v, 16);
  }

  lemma {:induction false} LongerIsLarger(a: nat, b: nat)
    requires a <= b
    ensures |Hex(a)| <= |Hex(b)|
  {
    if a >= 16 {
      LongerIsLarger(a / 16, b / 16);
    }
  }

  // ----- order -----

  lemma {:induction false} BeforeStays(x: Bytes, y: Bytes, u: Bytes, v: Bytes)
    requires |x| == |y| && Before(x, y)
    ensures Before(x + u, y + v)
  {
    if x[0] == y[0] {
      assert x == [x[0]] + x[1..] && y == [y[0]] + y[1..];
      BeforeStays(x[1..], y[1..], u, v);
      assert (x + u)[1..] == x[1..] + u && (y + v)[1..] == y[1..] + v;
    }
    assert (x + u)[..|x|] == x && (y + v)[..|x|] == y;
  }

  lemma {:induction false} BeforeAfterSame(x: Bytes, u: Bytes, v: Bytes)
    requires Before(u, v)
    ensures Before(x + u, x + v)
  {
    if x == [] {
      assert x + u == u && x + v == v;
    } else {
      BeforeAfterSame(x[1..], u, v);
      assert (x + u)[1..] == x[1..] + u && (x + v)[1..] == x[1..] + v;
    }
    assert (x + u)[|x|..] == u && (x + v)[|x|..] == v;
  }

  lemma {:induction false} SameLengthInOrder(a: nat, b: nat)
    requires a < b && |Hex(a)| == |Hex(b)|
    ensures Before(Hex(a), Hex(b))
  {
    if 16 <= a && a / 16 < b / 16 {
      SameLengthInOrder(a / 16, b / 16);
      BeforeStays(Hex(a / 16), Hex(b / 16), [HexDigit(a % 16)], [HexDigit(b % 16)]);
    } else if 16 <= a {
      assert Before([HexDigit(a % 16)], [HexDigit(b % 16)]);
      BeforeAfterSame(Hex(a / 16), [HexDigit(a % 16)], [HexDigit(b % 16)]);
    }
  }

  function Sortable(v: nat): Bytes
    requires v < U64_MODULUS
  {
    U64HexLength(v);
    [HexDigit(|Hex(v)| - 1)] + Hex(v)
  }

  lemma SmallerIsBefore(a: nat, b: nat)
    requires a < b < U64_MODULUS
    ensures Before(Sortable(a), Sortable(b))
  {
    U64HexLength(a);
    U64HexLength(b);
    LongerIsLarger(a, b);
    if |Hex(a)| == |Hex(b)| {
      SameLengthInOrder(a, b);
      BeforeAfterSame([HexDigit(|Hex(a)| - 1)], Hex(a), Hex(b));
    }
  }

  /** The strings sort like the numbers, in both directions, and the first character dropped, the digits are left. */
  lemma OrderIsPreserved(a: nat, b: nat)
    requires a < U64_MODULUS && b < U64_MODULUS
    ensures a < b <==> Before(Sortable(a), Sortable(b))
    ensures HexValue(Sortable(a)[1..]) == a && DigitValue(Sortable(a)[0]) + 2 == |Sortable(a)|
  {
    if a < b {
      SmallerIsBefore(a, b);
    } else if b < a {
      SmallerIsBefore(b, a);
      if AtMost(Sortable(a), Sortable(b)) {
        Antisymmetric(Sortable(a), Sortable(b));
      }
    }
    U64HexLength(a);
    assert Sortable(a)[1..] == Hex(a);
    HexRoundTrip(a);
  }

  /** `u64_to_string`. */
  method U64ToString(value: nat) returns (text: Bytes)
    requires value < U64_MODULUS
    ensures text == Sortable(value)
  {
    U64HexLength(value);
    text := Hex(value);
    text := [HexDigit(|text| - 1)] + text;
  }
}
