/** Deriving keys from a password (transport-layer/src/pkcs12.rs): the in-place byte arithmetic of the source
against section B.2 of RFC 7292, which adds whole blocks as 512-bit numbers. */
module Pkcs12 {
  import opened ChitchatTypes
  import opened Streams

  const U := 20
  const V := 64

  /** SHA-1, of which only the length of its output matters here: any function to 20 bytes is of this form. */
  datatype Hash = Hash(byteAt: (Bytes, nat) -> byte)
  {
    function Of(m: Bytes): (r: Bytes)
      ensures |r| == U
    {
      seq<byte>(U, k requires 0 <= k < U => byteAt(m, k))
    }
  }

  // ----- blocks as numbers -----

  /** Big-endian. */
  function Value(x: Bytes): nat { if x == [] then 0 else x[0] * Pow256(|x| - 1) + Value(x[1..]) }

  function ToBytes(v: nat, n: nat): Bytes
    decreases n
  {
    if n == 0 then [] else [v / Pow256(n - 1) % 256] + ToBytes(v % Pow256(n - 1), n - 1)
  }

  lemma MulMonotone(a: nat, b: nat, p: nat)
    requires a <= b
    ensures a * p <= b * p
  {
    assert (b - a) * p >= 0;
  }

  lemma {:induction false} ValueBound(x: Bytes)
    ensures Value(x) < Pow256(|x|)
  {
    if x != [] {
      ValueBound(x[1..]);
      MulMonotone(x[0], 255, Pow256(|x| - 1));
    }
  }

  lemma {:induction false} ToBytesOfValue(x: Bytes)
    ensures ToBytes(Value(x), |x|) == x
  {
    if x != [] {
      var p, rest := Pow256(|x| - 1), Value(x[1..]);
      ValueBound(x[1..]);
      DivMod(x[0], rest, p);
      ToBytesOfValue(x[1..]);
      assert x == [x[0]] + x[1..];
    }
  }

  lemma SameQuotient(q: nat, r: nat, a: nat, b: nat, p: nat)
    requires q * p + r == a * p + b && r < p && b < p
    ensures q == a && r == b
  {
    if q < a {
      MulMonotone(q + 1, a, p);
    } else if a < q {
      MulMonotone(a + 1, q, p);
    }
  }

  lemma DivMod(a: nat, b: nat, p: nat)
    requires b < p
    ensures (a * p + b) / p == a && (a * p + b) % p == b
  {
    var n := a * p + b;
    SameQuotient(n / p, n % p, a, b, p);
  }

  // ----- adding a block byte by byte -----

  /** `x + y + carry` from the last byte to the first, and the carry out of it. */
  function AddBytes(x: Bytes, y: Bytes, carry: nat): (r: (Bytes, nat))
    requires |x| == |y| && carry <= 1
    ensures |r.0| == |x| && r.1 <= 1
  {
    if x == [] then ([], carry)
    else
      var (rest, c) := AddBytes(x[1..], y[1..], carry);
      var sum := x[0] + y[0] + c;
      ([sum % 256] + rest, sum / 256)
  }

  lemma {:induction false} AddBytesValue(x: Bytes, y: Bytes, carry: nat)
    requires |x| == |y| && carry <= 1
    ensures var (r, c) := AddBytes(x, y, carry);
            Value(r) + c * Pow256(|x|) == Value(x) + Value(y) + carry
  {
    if x != [] {
      AddBytesValue(x[1..], y[1..], carry);
      var (rest, c) := AddBytes(x[1..], y[1..], carry);
      var (r, _) := AddBytes(x, y, carry);
      assert r[1..] == rest;
      Carry(x[0], y[0], c, Pow256(|x| - 1));
    }
  }

  lemma Carry(x: nat, y: nat, c: nat, p: nat)
    ensures var sum := x + y + c;
            (sum % 256) * p + (sum / 256) * (256 * p) == x * p + y * p + c * p
  {
    var sum := x + y + c;
    assert sum == sum % 256 + (sum / 256) * 256;
    assert sum * p == (sum % 256) * p + ((sum / 256) * 256) * p;
    assert ((sum / 256) * 256) * p == (sum / 256) * (256 * p);
  }

  /** Two blocks added with a carry of 1, as numbers modulo 2^512. */
  function AddOne(x: Bytes, b: Bytes): Bytes
    requires |x| == |b| == V
  {
    ToBytes((Value(x) + Value(b) + 1) % Pow256(V), V)
  }

  lemma AddBytesIsAddOne(x: Bytes, b: Bytes)
    requires |x| == |b| == V
    ensures AddBytes(x, b, 1).0 == AddOne(x, b)
  {
    hide Value, Pow256, ToBytes;
    var (r, c) := AddBytes(x, b, 1);
    AddBytesValue(x, b, 1);
    ValueBound(r);
    DivMod(c, Value(r), Pow256(V));
    ToBytesOfValue(r);
  }

  // ----- sweeping over all blocks -----

  /** Step B.2.6.C of the RFC: every block of `i` becomes its sum with `b` and 1. */
  function NextInput(i: Bytes, b: Bytes): (r: Bytes)
    requires |i| % V == 0 && |b| == V
    decreases |i|
  {
    if |i| < V then [] else AddOne(i[..V], b) + NextInput(i[V..], b)
  }

  /** The last `k` bytes after `k` steps of the loop, and the carry. */
  function Sweep(s: Bytes, b: Bytes, k: nat): (r: (Bytes, nat))
    requires k <= |s| && |b| == V
    ensures |r.0| == k && r.1 <= 1
  {
    if k == 0 then ([], 1)
    else
      var (done, c) := Sweep(s, b, k - 1);
      var sum := s[|s| - k] + b[V - 1 - (k - 1) % V] + if (k - 1) % V == 0 then 1 else c;
      ([sum % 256] + done, sum / 256)
  }

  lemma OffsetInBlock(m: nat, r: nat)
    requires m % V == 0 && r < V
    ensures (m + r) % V == r
  {
  }

  lemma SweepOneMore(s: Bytes, b: Bytes, m: nat, r: nat)
    requires |b| == V && m % V == 0 && r < V && m + r < |s|
    ensures var (done, c) := Sweep(s, b, m + r);
            var sum: nat := s[|s| - m - r - 1] + b[V - r - 1] + if r == 0 then 1 else c;
            Sweep(s, b, m + r + 1) == ([sum % 256] + done, sum / 256)
  {
    OffsetInBlock(m, r);
  }

  /** Since the carry is set at each block, `r` steps into a block are an addition of `r` bytes. */
  lemma {:induction false} SweepWithinBlock(s: Bytes, b: Bytes, m: nat, r: nat)
    requires |b| == V && m % V == 0 && 1 <= r <= V && m + r <= |s|
    ensures var (x, c) := AddBytes(s[|s| - m - r..|s| - m], b[V - r..], 1);
            Sweep(s, b, m + r) == (x + Sweep(s, b, m).0, c)
  {
    hide Sweep, AddBytes;
    var x, y := s[|s| - m - r..|s| - m], b[V - r..];
    AddBytesUnfolds(x, y, 1);
    SweepOneMore(s, b, m, r - 1);
    var start := Sweep(s, b, m).0;
    if r == 1 {
      assert x[1..] == [] && y[1..] == [];
      AddNothing();
      var sum: nat := x[0] as int + y[0] as int + 1;
      assert [sum % 256] + start == ([sum % 256] + []) + start;
    } else {
      SweepWithinBlock(s, b, m, r - 1);
      assert x[1..] == s[|s| - m - (r - 1)..|s| - m] && y[1..] == b[V - (r - 1)..];
      var (rest, c) := AddBytes(x[1..], y[1..], 1);
      var sum: nat := x[0] + y[0] + c;
      assert [sum % 256] + (rest + start) == ([sum % 256] + rest) + start;
    }
  }

  lemma AddNothing()
    ensures AddBytes([], [], 1) == ([], 1)
  {
  }

  lemma AddBytesUnfolds(x: Bytes, y: Bytes, carry: nat)
    requires |x| == |y| > 0 && carry <= 1
    ensures var (rest, c) := AddBytes(x[1..], y[1..], carry);
            var sum: nat := x[0] + y[0] + c;
            AddBytes(x, y, carry) == ([sum % 256] + rest, sum / 256)
  {
  }

  /** The whole sweep is the addition of `b` and 1 to each block. */
  lemma {:induction false} SweepIsNextInput(s: Bytes, b: Bytes, m: nat)
    requires |b| == V && |s| % V == 0 && m % V == 0 && m <= |s|
    ensures Sweep(s, b, m).0 == NextInput(s[|s| - m..], b)
  {
    hide AddOne, AddBytes;
    if m > 0 {
      SweepIsNextInput(s, b, m - V);
      SweepWithinBlock(s, b, m - V, V);
      var t := s[|s| - m..];
      assert t[..V] == s[|s| - m..|s| - (m - V)] && t[V..] == s[|s| - (m - V)..];
      AddBytesIsAddOne(t[..V], b);
      assert b[V - V..] == b;
    }
  }

  // ----- deriving the key -----

  /** `iter().cycle().take(n)`; nothing, if there is nothing to repeat. */
  function Cycled(s: Bytes, n: nat): (r: Bytes)
    requires s == [] ==> n == 0
    ensures |r| == n
  {
    seq(n, k requires 0 <= k < n => s[k % |s|])
  }

  function Blocks(n: nat): (len: nat)
    ensures len % V == 0 && n <= len < n + V
  {
    V * ((n + V - 1) / V)
  }

  function Id(id: byte): Bytes { seq(V, _ => id) }

  /** Salt and password, each repeated to whole blocks. */
  function Input(pass: Bytes, salt: Bytes): (i: Bytes)
    ensures |i| % V == 0
  {
    Cycled(salt, Blocks(|salt|)) + Cycled(pass, Blocks(|pass|))
  }

  function Copies(s: Bytes, m: nat): Bytes { if m == 0 then [] else s + Copies(s, m - 1) }

  lemma {:induction false} CopiesLength(s: Bytes, m: nat)
    ensures |Copies(s, m)| == m * |s|
  {
    if m > 0 {
      CopiesLength(s, m - 1);
    }
  }

  lemma {:induction false} CopiesAt(s: Bytes, m: nat, k: nat, q: nat, j: nat)
    requires j < |s| && q * |s| + j == k < |Copies(s, m)|
    ensures Copies(s, m)[k] == s[j]
    decreases q
  {
    if q > 0 {
      assert (q - 1) * |s| == q * |s| - |s|;
      MulMonotone(1, q, |s|);
      CopiesAt(s, m - 1, k - |s|, q - 1, j);
    }
  }

  lemma CycledIsCopies(s: Bytes, n: nat, m: nat)
    requires s == [] ==> n == 0
    requires n <= m * |s|
    ensures n <= |Copies(s, m)| && Cycled(s, n) == Copies(s, m)[..n]
  {
    hide Copies;
    CopiesLength(s, m);
    forall k | 0 <= k < n ensures Cycled(s, n)[k] == Copies(s, m)[k] {
      CopiesAt(s, m, k, k / |s|, k % |s|);
    }
  }

  /** Steps 2 to 4 of section B.2 of RFC 7292: copies of the salt, cut to whole blocks, then copies of the password. */
  lemma InputIsSaltThenPassword(pass: Bytes, salt: Bytes, m: nat, n: nat)
    requires Blocks(|salt|) <= m * |salt| && Blocks(|pass|) <= n * |pass|
    ensures Blocks(|salt|) <= |Copies(salt, m)| && Blocks(|pass|) <= |Copies(pass, n)|
    ensures Input(pass, salt) == Copies(salt, m)[..Blocks(|salt|)] + Copies(pass, n)[..Blocks(|pass|)]
  {
    hide Cycled, Copies, Blocks;
    CycledIsCopies(salt, Blocks(|salt|), m);
    CycledIsCopies(pass, Blocks(|pass|), n);
  }

  function Hashed(h: Hash, m: Bytes, iterations: nat): (r: Bytes)
    ensures |r| == if iterations == 0 then |m| else U
  {
    if iterations == 0 then m else h.Of(Hashed(h, m, iterations - 1))
  }

  /** `I` before round `n`, and the hash `A` of round `n`, counted from 0. */
  function InputAt(h: Hash, id: byte, input: Bytes, r: nat, n: nat): (i: Bytes)
    requires |input| % V == 0
    ensures |i| == |input|
    decreases n, 0
  {
    if n == 0 then input
    else
      var i := InputAt(h, id, input, r, n - 1);
      NextInputLength(i, Cycled(HashAt(h, id, input, r, n - 1), V));
      NextInput(i, Cycled(HashAt(h, id, input, r, n - 1), V))
  }

  function HashAt(h: Hash, id: byte, input: Bytes, r: nat, n: nat): (a: Bytes)
    requires |input| % V == 0
    ensures |a| >= U
    decreases n, 1
  {
    Hashed(h, Id(id) + InputAt(h, id, input, r, n), r)
  }

  /** The hashes of the first `n` rounds. */
  function Stream(h: Hash, id: byte, input: Bytes, r: nat, n: nat): (a: Bytes)
    requires |input| % V == 0
    decreases n
  {
    if n == 0 then [] else Stream(h, id, input, r, n - 1) + HashAt(h, id, input, r, n - 1)
  }

  function Rounds(size: nat): (c: nat)
    ensures U * c >= size && c >= 1
  {
    if size == 0 then 1 else (size + U - 1) / U
  }

  /** Section B.2 of RFC 7292. */
  function Derived(h: Hash, pass: Bytes, salt: Bytes, r: nat, id: byte, size: nat): (key: Bytes)
    ensures |key| == size
  {
    StreamLength(h, id, Input(pass, salt), r, Rounds(size));
    Stream(h, id, Input(pass, salt), r, Rounds(size))[..size]
  }

  lemma {:induction false} NextInputLength(i: Bytes, b: Bytes)
    requires |i| % V == 0 && |b| == V
    ensures |NextInput(i, b)| == |i|
    decreases |i|
  {
    if |i| >= V {
      NextInputLength(i[V..], b);
      ToBytesLength((Value(i[..V]) + Value(b) + 1) % Pow256(V), V);
    }
  }

  lemma {:induction false} ToBytesLength(v: nat, n: nat)
    ensures |ToBytes(v, n)| == n
    decreases n
  {
    if n > 0 {
      ToBytesLength(v % Pow256(n - 1), n - 1);
    }
  }

  lemma StillPrefix(a: Bytes, b: Bytes, c: Bytes)
    requires a <= b
    ensures a <= b + c
  {
  }

  lemma {:induction false} StreamLength(h: Hash, id: byte, input: Bytes, r: nat, n: nat)
    requires |input| % V == 0
    ensures |Stream(h, id, input, r, n)| >= U * n
    decreases n
  {
    if n > 0 {
      StreamLength(h, id, input, r, n - 1);
    }
  }

  lemma {:induction false} StreamPrefix(h: Hash, id: byte, input: Bytes, r: nat, m: nat, n: nat)
    requires |input| % V == 0 && m <= n
    ensures Stream(h, id, input, r, m) <= Stream(h, id, input, r, n)
    decreases n
  {
    hide HashAt, InputAt;
    if m < n {
      StreamPrefix(h, id, input, r, m, n - 1);
      StillPrefix(Stream(h, id, input, r, m), Stream(h, id, input, r, n - 1), HashAt(h, id, input, r, n - 1));
    }
  }

  /** A shorter key is a prefix of a longer one. */
  lemma ShorterKeyIsPrefix(h: Hash, pass: Bytes, salt: Bytes, r: nat, id: byte, short: nat, long: nat)
    requires short <= long
    ensures Derived(h, pass, salt, r, id, short) <= Derived(h, pass, salt, r, id, long)
  {
    hide Stream, Input;
    StreamPrefix(h, id, Input(pass, salt), r, Rounds(short), Rounds(long));
    StreamLength(h, id, Input(pass, salt), r, Rounds(short));
    StreamLength(h, id, Input(pass, salt), r, Rounds(long));
  }

  /** `pbepkcs12sha1core`. */
  method Core(h: Hash, d: Bytes, i: Bytes, a: Bytes, iterations: nat) returns (ai: Bytes, appended: Bytes)
    ensures ai == Hashed(h, d + i, iterations) && appended == a + ai
  {
    ai := d + i;
    for n := 0 to iterations
      invariant ai == Hashed(h, d + i, n)
    {
      ai := h.Of(ai);
    }
    appended := a + ai;
  }

  /** Two `overflowing_add`s. */
  method AddByte(x: byte, y: byte, carry: nat) returns (sum: byte, out: nat)
    requires carry <= 1
    ensures sum == (x as int + y as int + carry) % 256 && out == (x as int + y as int + carry) / 256
  {
    var first := x as int + y as int;
    var second := first % 256 + carry;
    sum := second % 256;
    out := if first >= 256 || second >= 256 then 1 else 0;
  }

  lemma SweepUnfolds(s: Bytes, b: Bytes, k: nat)
    requires k < |s| && |b| == V
    ensures var (done, c) := Sweep(s, b, k);
            var sum: nat := s[|s| - 1 - k] as int + b[V - 1 - k % V] as int + if k % V == 0 then 1 else c;
            Sweep(s, b, k + 1) == ([sum % 256] + done, sum / 256)
  {
  }

  /** The loop that adds `b` and 1 to every block of `i` in place, from the last byte to the first. */
  method AddToBlocks(i: array<byte>, b: Bytes)
    requires i.Length % V == 0 && |b| == V
    modifies i
    ensures i[..] == NextInput(old(i[..]), b)
  {
    hide NextInput, Sweep;
    ghost var s := i[..];
    var inc := 1;
    NothingSwept(s, b);
    for i3 := 0 to i.Length
      invariant 0 <= inc <= 1
      invariant i[..i.Length - i3] == s[..i.Length - i3]
      invariant i[i.Length - i3..] == Sweep(s, b, i3).0
      invariant i3 > 0 ==> inc == Sweep(s, b, i3).1
    {
      if i3 % V == 0 {
        inc := 1;
      }
      SweepUnfolds(s, b, i3);
      var at := i.Length - 1 - i3;
      assert i[..at + 1][at] == s[..at + 1][at];
      ghost var done := i[at + 1..];
      var sum;
      sum, inc := AddByte(i[at], b[V - 1 - i3 % V], inc);
      i[at] := sum;
      assert i[at..] == [sum] + done;
    }
    SweepIsNextInput(s, b, i.Length);
    assert s[|s| - i.Length..] == s;
  }

  lemma NothingSwept(s: Bytes, b: Bytes)
    requires |b| == V
    ensures Sweep(s, b, 0) == ([], 1)
  {
  }

  lemma RoundUnfolds(h: Hash, id: byte, input: Bytes, r: nat, n: nat)
    requires |input| % V == 0
    ensures var a := Hashed(h, Id(id) + InputAt(h, id, input, r, n), r);
            && Stream(h, id, input, r, n + 1) == Stream(h, id, input, r, n) + a
            && |a| > 0 && InputAt(h, id, input, r, n + 1) == NextInput(InputAt(h, id, input, r, n), Cycled(a, V))
  {
    hide Hashed, NextInput, Cycled;
  }

  /** The rounds of `pbepkcs12sha1`: the last one is outside the loop, and there is one even if `c` is 0. */
  method HashRounds(h: Hash, input: Bytes, iterations: nat, id: byte, c: nat) returns (a: Bytes)
    requires |input| % V == 0
    ensures a == Stream(h, id, input, iterations, Max(c, 1))
  {
    hide NextInput, Hashed, InputAt, HashAt, Stream, Cycled, Id;
    var i := new byte[|input|](k requires 0 <= k < |input| => input[k]);
    assert i[..] == input;
    a := [];
    NoRounds(h, id, input, iterations);
    for n := 1 to Max(c, 1)
      invariant i[..] == InputAt(h, id, input, iterations, n - 1)
      invariant a == Stream(h, id, input, iterations, n - 1)
    {
      RoundUnfolds(h, id, input, iterations, n - 1);
      var ai;
      ai, a := Core(h, Id(id), i[..], a, iterations);
      AddToBlocks(i, Cycled(ai, V));
    }
    RoundUnfolds(h, id, input, iterations, Max(c, 1) - 1);
    var last;
    last, a := Core(h, Id(id), i[..], a, iterations);
  }

  /** `pbepkcs12sha1`. */
  method DeriveKey(h: Hash, pass: Bytes, salt: Bytes, iterations: nat, id: byte, size: nat) returns (key: Bytes)
    ensures key == Derived(h, pass, salt, iterations, id, size)
  {
    hide Stream, Input;
    var a := HashRounds(h, Input(pass, salt), iterations, id, (size + U - 1) / U);
    StreamLength(h, id, Input(pass, salt), iterations, Rounds(size));
    key := a[..size];
  }

  lemma NoRounds(h: Hash, id: byte, input: Bytes, r: nat)
    requires |input| % V == 0
    ensures InputAt(h, id, input, r, 0) == input && Stream(h, id, input, r, 0) == []
  {
  }

  // ----- what the parameters do to the key -----

  /** `d` is the diversifier of section B.1 of RFC 7292. */
  predicate IsDiversifier(d: Bytes, id: byte) { |d| == 64 && forall k :: 0 <= k < 64 ==> d[k] == id }

  lemma FirstRounds(h: Hash, id: byte, input: Bytes, r: nat)
    requires |input| % V == 0
    ensures Stream(h, id, input, r, 1) == Hashed(h, Id(id) + input, r)
    ensures Stream(h, id, input, r, 2)
            == Stream(h, id, input, r, 1)
               + Hashed(h, Id(id) + NextInput(input, Cycled(Hashed(h, Id(id) + input, r), V)), r)
  {
    hide Hashed, NextInput, Cycled, Id;
    NoRounds(h, id, input, r);
    RoundUnfolds(h, id, input, r, 0);
    RoundUnfolds(h, id, input, r, 1);
  }

  lemma OneRound(size: nat)
    requires size <= 20
    ensures Rounds(size) == 1
  {
  }

  /** A key of up to one hash: the iterated hash of the diversifier, the salt and the password. */
  lemma KeyOfOneHash(h: Hash, pass: Bytes, salt: Bytes, r: nat, id: byte, size: nat) returns (d: Bytes)
    requires r >= 1 && size <= 20
    ensures IsDiversifier(d, id) && Derived(h, pass, salt, r, id, size) == Hashed(h, d + Input(pass, salt), r)[..size]
    ensures r == 1 ==> Derived(h, pass, salt, r, id, size) == h.Of(d + Input(pass, salt))[..size]
  {
    hide Stream, Input, Hashed, Rounds;
    d := Id(id);
    OneRound(size);
    FirstRounds(h, id, Input(pass, salt), r);
    OneIteration(h, d + Input(pass, salt));
  }

  predicate IsCycle(b: Bytes, a: Bytes) {
    |b| == 64 && a != [] && forall k :: 0 <= k < 64 ==> b[k] == a[k % |a|]
  }

  /** The hash, repeated, and 1 are added to every block of the input. */
  ghost predicate Continues(input: Bytes, hash: Bytes, next: Bytes) {
    |input| % 64 == 0 && exists b :: IsCycle(b, hash) && next == NextInput(input, b)
  }

  /** The inputs and the hashes of a number of rounds with the diversifier `d`. */
  ghost predicate AreRounds(h: Hash, d: Bytes, r: nat, inputs: seq<Bytes>, hashes: seq<Bytes>) {
    && |inputs| == |hashes|
    && (forall n :: 0 <= n < |inputs| ==> hashes[n] == Hashed(h, d + inputs[n], r))
    && (forall n, m :: 0 <= n < m < |inputs| && m == n + 1 ==> Continues(inputs[n], hashes[n], inputs[m]))
  }

  function Flatten(parts: seq<Bytes>): Bytes {
    if parts == [] then [] else Flatten(parts[..|parts| - 1]) + parts[|parts| - 1]
  }

  lemma RoundContinues(h: Hash, id: byte, input: Bytes, r: nat, n: nat)
    requires |input| % V == 0
    ensures Continues(InputAt(h, id, input, r, n), Hashed(h, Id(id) + InputAt(h, id, input, r, n), r),
                      InputAt(h, id, input, r, n + 1))
  {
    hide Hashed, NextInput, Id, InputAt, Stream;
    RoundUnfolds(h, id, input, r, n);
    var a := Hashed(h, Id(id) + InputAt(h, id, input, r, n), r);
    assert IsCycle(Cycled(a, V), a);
  }

  lemma {:induction false} StreamIsRounds(h: Hash, id: byte, input: Bytes, r: nat, c: nat)
    returns (inputs: seq<Bytes>, hashes: seq<Bytes>)
    requires |input| % V == 0
    ensures |inputs| == c && AreRounds(h, Id(id), r, inputs, hashes) && Flatten(hashes) == Stream(h, id, input, r, c)
    ensures forall n :: 0 <= n < c ==> inputs[n] == InputAt(h, id, input, r, n)
  {
    hide Hashed, NextInput, Id, InputAt, Stream, Continues;
    NoRounds(h, id, input, r);
    if c == 0 {
      inputs, hashes := [], [];
    } else {
      var n := c - 1;
      var before, done := StreamIsRounds(h, id, input, r, n);
      RoundUnfolds(h, id, input, r, n);
      inputs := before + [InputAt(h, id, input, r, n)];
      hashes := done + [Hashed(h, Id(id) + InputAt(h, id, input, r, n), r)];
      assert hashes[..n] == done;
      if n > 0 {
        RoundContinues(h, id, input, r, n - 1);
      }
    }
  }

  /** The key is the beginning of the hashes of as many rounds as it takes, the first of which hashes salt and
      password. */
  lemma KeyIsHashes(h: Hash, pass: Bytes, salt: Bytes, r: nat, id: byte, size: nat)
    returns (d: Bytes, inputs: seq<Bytes>, hashes: seq<Bytes>)
    ensures IsDiversifier(d, id) && AreRounds(h, d, r, inputs, hashes)
    ensures |inputs| >= 1 && inputs[0] == Input(pass, salt)
    ensures size <= |Flatten(hashes)| && Derived(h, pass, salt, r, id, size) == Flatten(hashes)[..size]
  {
    hide Stream, Input, AreRounds, Flatten;
    d := Id(id);
    inputs, hashes := StreamIsRounds(h, id, Input(pass, salt), r, Rounds(size));
    StreamLength(h, id, Input(pass, salt), r, Rounds(size));
  }

  lemma OneIteration(h: Hash, m: Bytes)
    ensures Hashed(h, m, 1) == h.Of(m)
  {
    assert Hashed(h, m, 0) == m;
  }

  lemma FirstHash(h: Hash, pass: Bytes, salt: Bytes, r: nat, id: byte)
    requires r >= 1
    ensures Derived(h, pass, salt, r, id, 20) == Hashed(h, Id(id) + Input(pass, salt), r)
  {
    hide Stream, Input, Id, Hashed, Rounds;
    OneRound(20);
    FirstRounds(h, id, Input(pass, salt), r);
    var a := Hashed(h, Id(id) + Input(pass, salt), r);
    assert |a| == 20 && a[..20] == a;
  }

  /** One more iteration hashes the first hash once more. */
  lemma IterationHashesAgain(h: Hash, pass: Bytes, salt: Bytes, r: nat, id: byte)
    requires r >= 1
    ensures Derived(h, pass, salt, r + 1, id, 20) == h.Of(Derived(h, pass, salt, r, id, 20))
  {
    hide Derived, Input, Id;
    FirstHash(h, pass, salt, r, id);
    FirstHash(h, pass, salt, r + 1, id);
  }

  /** The hash that repeats the first byte of its message. */
  const REPEATING := Hash((m: Bytes, k) => if m == [] then 0 else m[0])

  lemma {:induction false} RepeatedFirstByte(m: Bytes, r: nat)
    requires m != [] && r >= 1
    ensures Hashed(REPEATING, m, r)[0] == m[0]
  {
    if r == 1 {
      OneIteration(REPEATING, m);
    } else {
      RepeatedFirstByte(m, r - 1);
    }
  }

  /** The identifier is part of what is hashed: some hash tells any two of them apart, whatever the rest is. */
  lemma IdsTellKeysApart(pass: Bytes, salt: Bytes, r: nat, a: byte, b: byte, size: nat)
    requires r >= 1 && a != b && size >= 1
    ensures Derived(REPEATING, pass, salt, r, a, size) != Derived(REPEATING, pass, salt, r, b, size)
  {
    hide Derived;
    FirstByteIsId(pass, salt, r, a, size);
    FirstByteIsId(pass, salt, r, b, size);
  }

  lemma FirstByteIsId(pass: Bytes, salt: Bytes, r: nat, id: byte, size: nat)
    requires r >= 1 && size >= 1
    ensures Derived(REPEATING, pass, salt, r, id, size)[0] == id
  {
    hide Stream, Input;
    var input := Input(pass, salt);
    FirstRounds(REPEATING, id, input, r);
    StreamPrefix(REPEATING, id, input, r, 1, Rounds(size));
    StreamLength(REPEATING, id, input, r, Rounds(size));
    RepeatedFirstByte(Id(id) + input, r);
  }
}
