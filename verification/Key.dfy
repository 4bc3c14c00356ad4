/**
  Lock identities: the 64-bit FNV-1a hash of a key's UTF-8 bytes, read as the signed `bigint` that Postgres locks.
 */
module Key {

  const TWO64: int := 0x1_0000_0000_0000_0000
  const TWO63: int := 0x8000_0000_0000_0000
  const FNV_OFFSET_BASIS: int := 0xcbf29ce484222325
  const FNV_PRIME: int := 0x100000001b3
  const MAX_LOCK_KEY_BYTES := 512

  /** The multiplicative inverse of FNV_PRIME modulo 2^64. */
  const FNV_PRIME_INVERSE: int := 0xce965057aff6957b

  type Byte = x: int | 0 <= x < 256
  type Bytes = seq<Byte>
  type Word = x: int | 0 <= x < TWO64

  // ---------------------------------------------------------------------
  // Keys as bytes
  // ---------------------------------------------------------------------

  /** The UTF-8 bytes of one character. */
  function Encoded(c: char): (bytes: Bytes)
    ensures 1 <= |bytes| <= 4
  {
    var n := c as int;
    var m := n / 64;
    var l := m / 64;
    if n < 0x80 then [n]
    else if n < 0x800 then [0xc0 + m, 0x80 + n % 64]
    else if n < 0x1_0000 then [0xe0 + l, 0x80 + m % 64, 0x80 + n % 64]
    else [0xf0 + l / 64, 0x80 + l % 64, 0x80 + m % 64, 0x80 + n % 64]
  }

  function Utf8(s: string): Bytes
    decreases |s|
  {
    if s == [] then [] else Encoded(s[0]) + Utf8(s[1..])
  }

  datatype KeyResult = ValidKey(key: string) | KeyTooLong(bytes: nat)

  /** The contract's length bound; the key is handed back unchanged. */
  function LockKey(key: string): KeyResult {
    if |Utf8(key)| > MAX_LOCK_KEY_BYTES then KeyTooLong(|Utf8(key)|) else ValidKey(key)
  }

  lemma AdmittedExactly(key: string)
    ensures LockKey(key) == if |Utf8(key)| <= 512 then ValidKey(key) else KeyTooLong(|Utf8(key)|)
  {
  }

  lemma {:induction false} Utf8Append(a: string, b: string)
    ensures Utf8(a + b) == Utf8(a) + Utf8(b)
    decreases |a|
  {
    if a == [] {
      assert a + b == b;
    } else {
      assert (a + b)[1..] == a[1..] + b;
      Utf8Append(a[1..], b);
    }
  }

  /** Six more bits. */
  function Sextet(front: int, byte: int): int {
    front * 64 + (byte - 0x80)
  }

  /** The code point that one to four bytes stand for. */
  function CodePoint(bytes: seq<int>): int {
    if |bytes| == 1 then bytes[0]
    else if |bytes| == 2 then Sextet(bytes[0] - 0xc0, bytes[1])
    else if |bytes| == 3 then Sextet(Sextet(bytes[0] - 0xe0, bytes[1]), bytes[2])
    else if |bytes| == 4 then Sextet(Sextet(Sextet(bytes[0] - 0xf0, bytes[1]), bytes[2]), bytes[3])
    else -1
  }

  lemma SextetOfQuotient(n: nat)
    ensures Sextet(n / 64, 0x80 + n % 64) == n
  {
  }

  lemma CodePointOfEncoded(c: char)
    ensures CodePoint(Encoded(c)) == c as int
  {
    var n := c as int;
    SextetOfQuotient(n);
    SextetOfQuotient(n / 64);
    SextetOfQuotient(n / 64 / 64);
  }

  /** The byte patterns of UTF-8: a lead byte for each length, and continuation bytes after it. */
  lemma EncodedShape(c: char)
    ensures var bytes, n := Encoded(c), c as int;
      && (|bytes| == 1 <==> n <= 0x7f) && (|bytes| == 4 <==> n >= 0x1_0000)
      && (|bytes| == 2 <==> 0x80 <= n <= 0x7ff)
      && (|bytes| == 1 ==> bytes[0] == n)
      && (|bytes| == 2 ==> 0xc2 <= bytes[0] <= 0xdf)
      && (|bytes| == 3 ==> 0xe0 <= bytes[0] <= 0xef)
      && (|bytes| == 4 ==> 0xf0 <= bytes[0] <= 0xf4)
      && forall i :: 1 <= i < |bytes| ==> 0x80 <= bytes[i] <= 0xbf
  {
  }

  /** One key of each length. */
  lemma EncodedExamples()
    ensures Utf8("a") == [0x61] && Utf8("\U{e9}") == [0xc3, 0xa9]
    ensures Utf8("\U{20ac}") == [0xe2, 0x82, 0xac] && Utf8("\U{1f600}") == [0xf0, 0x9f, 0x98, 0x80]
  {
    forall c: char ensures Utf8([c]) == Encoded(c) {
      assert [c][1..] == [];
      assert Utf8([c]) == Encoded(c) + [];
    }
    assert "a" == ['a'] && "\U{e9}" == ['\U{e9}'] && "\U{20ac}" == ['\U{20ac}'];
    assert "\U{1f600}" == ['\U{1f600}'];
  }

  lemma FirstByteTellsLength(c: char, d: char)
    requires Encoded(c)[0] == Encoded(d)[0]
    ensures |Encoded(c)| == |Encoded(d)|
  {
  }

  /** No character's bytes begin those of another. */
  lemma EncodedApart(c: char, d: char, x: Bytes, y: Bytes)
    requires Encoded(c) + x == Encoded(d) + y
    ensures c == d && x == y
  {
    var all, n := Encoded(c) + x, |Encoded(c)|;
    assert all[0] == Encoded(c)[0] == Encoded(d)[0];
    FirstByteTellsLength(c, d);
    assert all[..n] == Encoded(c) && all[..n] == Encoded(d);
    assert all[n..] == x && all[n..] == y;
    CodePointOfEncoded(c);
    CodePointOfEncoded(d);
  }

  /** Different keys are different bytes. */
  lemma {:induction false} Utf8Injective(a: string, b: string)
    requires Utf8(a) == Utf8(b)
    ensures a == b
    decreases |a|
  {
    if a == [] || b == [] {
    } else {
      EncodedApart(a[0], b[0], Utf8(a[1..]), Utf8(b[1..]));
      Utf8Injective(a[1..], b[1..]);
      assert a == [a[0]] + a[1..] && b == [b[0]] + b[1..];
    }
  }

  // ---------------------------------------------------------------------
  // The hash
  // ---------------------------------------------------------------------

  /**
    Bitwise exclusive-or of two non-negative bigints, lowest bit first. A bigint is unbounded, so masking to 64 bits
    is written out as a remainder; only this is a bit operation.
   */
  function Xor(x: nat, y: nat): (r: nat)
    decreases x + y
  {
    if x == 0 && y == 0 then 0
    else (if x % 2 == y % 2 then 0 else 1) + 2 * Xor(x / 2, y / 2)
  }

  function Pow2(n: nat): (r: nat)
    ensures r > 0
  {
    if n == 0 then 1 else 2 * Pow2(n - 1)
  }

  lemma {:induction false} XorBound(x: nat, y: nat, n: nat)
    requires x < Pow2(n) && y < Pow2(n)
    ensures Xor(x, y) < Pow2(n)
  {
    if n == 0 {
    } else {
      XorBound(x / 2, y / 2, n - 1);
    }
  }

  lemma {:induction false} Pow2Doubled(n: nat)
    ensures Pow2(2 * n) == Pow2(n) * Pow2(n)
  {
    if n == 0 {
    } else {
      Pow2Doubled(n - 1);
      assert Pow2(2 * n) == 2 * Pow2(2 * n - 1) == 4 * Pow2(2 * (n - 1));
    }
  }

  lemma Squared(n: nat, v: nat)
    requires Pow2(n) == v
    ensures Pow2(2 * n) == v * v
  {
    Pow2Doubled(n);
  }

  lemma Pow2Of64()
    ensures Pow2(64) == TWO64
  {
    assert Pow2(0) == 1 && Pow2(1) == 2;
    Squared(1, 2);
    Squared(2, 4);
    Squared(4, 16);
    Squared(8, 256);
    Squared(16, 0x1_0000);
    Squared(32, 0x1_0000_0000);
  }

  lemma XorOfWords(x: Word, y: Word)
    ensures Xor(x, y) < TWO64
  {
    Pow2Of64();
    XorBound(x, y, 64);
  }

  /** One round: exclusive-or, multiply by the prime, keep 64 bits. */
  function Absorb(hash: Word, byte: Byte): Word
  {
    Xor(hash, byte) * FNV_PRIME % TWO64
  }

  /** The hash state after absorbing `bytes` from state `hash`, last byte outermost. */
  function Digest(hash: Word, bytes: Bytes): Word
  {
    if bytes == [] then hash else Absorb(Digest(hash, bytes[..|bytes| - 1]), bytes[|bytes| - 1])
  }

  method Fnv1a64(key: Bytes) returns (hash: Word)
    ensures hash == Digest(FNV_OFFSET_BASIS, key)
  {
    hash := FNV_OFFSET_BASIS;
    for i := 0 to |key|
      invariant hash == Digest(FNV_OFFSET_BASIS, key[..i])
    {
      assert key[..i + 1][..i] == key[..i];
      var mixed := Xor(hash, key[i]);
      hash := mixed * FNV_PRIME % TWO64;
    }
    assert key[..|key|] == key;
  }

  /** Two's-complement reading of the low 64 bits. */
  function AsInt64(word: Word): (r: int)
    ensures -TWO63 <= r < TWO63
  {
    if word < TWO63 then word else word - TWO64
  }

  /** The Postgres key of a lock. */
  function AdvisoryKey(key: Bytes): int
  {
    AsInt64(Digest(FNV_OFFSET_BASIS, key))
  }

  // ---------------------------------------------------------------------
  // Which hash it is
  // ---------------------------------------------------------------------

  /** The `i`-th bit, the lowest first. */
  predicate Bit(n: nat, i: nat)
    decreases i
  {
    if i == 0 then n % 2 == 1 else Bit(n / 2, i - 1)
  }

  /** Bit by bit, one or the other and not both. */
  lemma {:induction false} XorIsBitwise(x: nat, y: nat, i: nat)
    ensures Bit(Xor(x, y), i) <==> (Bit(x, i) != Bit(y, i))
    decreases i
  {
    if i == 0 {
    } else {
      assert Xor(x, y) / 2 == Xor(x / 2, y / 2);
      XorIsBitwise(x / 2, y / 2, i - 1);
    }
  }

  lemma {:induction false} XorZero(x: nat)
    ensures Xor(x, 0) == x
  {
    if x == 0 {
    } else {
      XorZero(x / 2);
    }
  }

  lemma {:induction false} XorLow(q: nat, r: nat, b: nat, n: nat)
    requires r < Pow2(n) && b < Pow2(n)
    ensures Xor(Pow2(n) * q + r, b) == Pow2(n) * q + Xor(r, b)
    decreases n
  {
    if n == 0 {
      XorZero(q);
    } else {
      var p := Pow2(n - 1);
      assert Pow2(n) * q == 2 * (p * q);
      assert (Pow2(n) * q + r) / 2 == p * q + r / 2 && (Pow2(n) * q + r) % 2 == r % 2;
      XorLow(q, r / 2, b / 2, n - 1);
    }
  }

  lemma RoundFrom(hash: Word, front: nat, low: Byte, byte: Byte)
    requires hash == 256 * front + low
    ensures Digest(hash, [byte]) == (256 * front + Xor(low, byte)) * 0x100000001b3 % 0x1_0000_0000_0000_0000
  {
    assert [byte][..0] == [];
    assert Digest(hash, [byte]) == Absorb(hash, byte);
    assert Pow2(8) == 256 by {
      assert Pow2(0) == 1 && Pow2(2) == 4 && Pow2(4) == 16;
    }
    XorLow(front, low, byte, 8);
  }

  /** A byte is mixed into the low byte before the multiplication, and touches nothing else of the state. */
  lemma RoundExactly(hash: Word, byte: Byte)
    ensures Digest(hash, [byte]) ==
      (256 * (hash / 256) + Xor(hash % 256, byte)) * 0x100000001b3 % 0x1_0000_0000_0000_0000
  {
    RoundFrom(hash, hash / 256, hash % 256, byte);
  }

  lemma MultiplesVanish(a: int, q: int)
    ensures (a + 256 * q) % 256 == a % 256
  {
  }

  lemma RemainderSplits(a: int, m: int) returns (q: int)
    requires m > 0
    ensures a % m == a - q * m
  {
    q := a / m;
  }

  lemma LowByteLeft(high: int, mixed: int, q: int, left: int)
    requires left == (256 * high + mixed) * 0x100000001b3 - q * 0x1_0000_0000_0000_0000
    ensures left % 256 == mixed * 0xb3 % 256
  {
    var above := high * 0x100000001b3 + mixed * 0x1_0000_0001 - q * 0x100_0000_0000_0000;
    assert left == mixed * 0xb3 + 256 * above;
    MultiplesVanish(mixed * 0xb3, above);
  }

  /** The low byte of the state never depends on what is above it. */
  lemma LowByte(hash: Word, byte: Byte)
    ensures Digest(hash, [byte]) % 256 == Xor(hash % 256, byte) * 0xb3 % 256
  {
    RoundExactly(hash, byte);
    var mixed := Xor(hash % 256, byte);
    var q := RemainderSplits((256 * (hash / 256) + mixed) * 0x100000001b3, 0x1_0000_0000_0000_0000);
    LowByteLeft(hash / 256, mixed, q, Digest(hash, [byte]));
  }

  lemma SignedReading(word: Word)
    ensures AsInt64(word) % 0x1_0000_0000_0000_0000 == word
    ensures -0x8000_0000_0000_0000 <= AsInt64(word) < 0x8000_0000_0000_0000
  {
  }

  /** The empty key is the offset basis. */
  lemma KeyOfNothing()
    ensures AdvisoryKey(Utf8("")) == 0xcbf29ce484222325 - 0x1_0000_0000_0000_0000
  {
  }

  lemma XorUnrolled(x: nat, y: nat, higher: nat)
    requires x + y > 0 && Xor(x / 2, y / 2) == higher
    ensures Xor(x, y) == (if x % 2 == y % 2 then 0 else 1) + 2 * higher
  {
  }

  lemma XorOfA()
    ensures Xor(0x25, 0x61) == 0x44
  {
    XorUnrolled(0, 1, 0);
    XorUnrolled(1, 3, 1);
    XorUnrolled(2, 6, 2);
    XorUnrolled(4, 12, 4);
    XorUnrolled(9, 24, 8);
    XorUnrolled(18, 48, 17);
    XorUnrolled(37, 97, 34);
  }

  lemma AsciiKey(key: string)
    requires |key| == 1 && key[0] as int < 0x80
    ensures Utf8(key) == [key[0] as int]
  {
    assert Utf8(key) == [key[0] as int] + Utf8(key[1..]);
  }

  lemma KeyOfByte(byte: Byte, hash: Word)
    requires hash == (0xcbf29ce484222300 + Xor(0x25, byte)) * 0x100000001b3 % 0x1_0000_0000_0000_0000
    ensures AdvisoryKey([byte]) == AsInt64(hash)
  {
    RoundFrom(FNV_OFFSET_BASIS, 0xcbf29ce4842223, 0x25, byte);
  }

  lemma ProductOfA()
    ensures 0xcbf29ce484222344 * 0x100000001b3 % 0x1_0000_0000_0000_0000 == 0xaf63dc4c8601ec8c
  {
  }

  /** And the key `a`, whose byte is mixed in before the multiplication. */
  lemma KeyOfA(key: string)
    requires key == ['a']
    ensures AdvisoryKey(Utf8(key)) == -5808556873153909620
  {
    var byte, hash := key[0] as int, 0xaf63dc4c8601ec8c;
    assert Xor(0x25, byte) == 0x44 by {
      XorOfA();
    }
    ProductOfA();
    AsciiKey(key);
    KeyOfByte(byte, hash);
  }

  // ---------------------------------------------------------------------
  // Injectivity
  // ---------------------------------------------------------------------

  lemma {:induction false} XorCancels(a: nat, b: nat, mask: nat)
    requires Xor(a, mask) == Xor(b, mask)
    ensures a == b
    decreases a + b + mask
  {
    if a == 0 && b == 0 && mask == 0 {
    } else {
      XorCancels(a / 2, b / 2, mask / 2);
    }
  }

  lemma {:induction false} XorCommutes(x: nat, y: nat)
    ensures Xor(x, y) == Xor(y, x)
  {
    if x == 0 && y == 0 {
    } else {
      XorCommutes(x / 2, y / 2);
    }
  }

  lemma Unmultiply(a: Word)
    ensures (a * FNV_PRIME % TWO64) * FNV_PRIME_INVERSE % TWO64 == a
  {
    var q := a * FNV_PRIME / TWO64;
    var r := a * FNV_PRIME % TWO64;
    var c := FNV_PRIME * FNV_PRIME_INVERSE / TWO64;
    assert FNV_PRIME * FNV_PRIME_INVERSE == c * TWO64 + 1;
    assert r * FNV_PRIME_INVERSE == a + TWO64 * (c * a - q * FNV_PRIME_INVERSE);
  }

  /** The prime is odd, so multiplying by it modulo 2^64 can be undone. */
  lemma PrimeCancels(a: nat, b: nat)
    requires a < TWO64 && b < TWO64
    requires a * FNV_PRIME % TWO64 == b * FNV_PRIME % TWO64
    ensures a == b
  {
    Unmultiply(a);
    Unmultiply(b);
  }

  lemma AbsorbCancels(a: Word, b: Word, byte: Byte)
    ensures Absorb(a, byte) == Absorb(b, byte) <==> a == b
  {
    if Absorb(a, byte) == Absorb(b, byte) {
      XorOfWords(a, byte);
      XorOfWords(b, byte);
      PrimeCancels(Xor(a, byte), Xor(b, byte));
      XorCancels(a, b, byte);
    }
  }

  lemma {:induction false} DigestAppend(hash: Word, a: Bytes, b: Bytes)
    ensures Digest(hash, a + b) == Digest(Digest(hash, a), b)
    decreases |b|
  {
    if b == [] {
      assert a + b == a;
    } else {
      assert (a + b)[..|a + b| - 1] == a + b[..|b| - 1];
      DigestAppend(hash, a, b[..|b| - 1]);
    }
  }

  /** Absorbing a common suffix is injective in the starting state. */
  lemma {:induction false} SuffixCancels(h1: Word, h2: Word, suffix: Bytes)
    ensures Digest(h1, suffix) == Digest(h2, suffix) <==> h1 == h2
    decreases |suffix|
  {
    if suffix == [] {
    } else {
      var init := suffix[..|suffix| - 1];
      SuffixCancels(h1, h2, init);
      AbsorbCancels(Digest(h1, init), Digest(h2, init), suffix[|suffix| - 1]);
    }
  }

  lemma AsInt64Injective(a: Word, b: Word)
    ensures AsInt64(a) == AsInt64(b) <==> a == b
  {
  }

  lemma AsInt64Onto(n: int)
    requires -TWO63 <= n < TWO63
    ensures exists word: Word :: AsInt64(word) == n
  {
    assert AsInt64(if n < 0 then n + TWO64 else n) == n;
  }

  /** A common suffix neither creates nor removes a collision between two keys. */
  lemma CollisionsSurviveSuffixes(a: Bytes, b: Bytes, suffix: Bytes)
    ensures AdvisoryKey(a + suffix) == AdvisoryKey(b + suffix) <==> AdvisoryKey(a) == AdvisoryKey(b)
  {
    DigestAppend(FNV_OFFSET_BASIS, a, suffix);
    DigestAppend(FNV_OFFSET_BASIS, b, suffix);
    SuffixCancels(Digest(FNV_OFFSET_BASIS, a), Digest(FNV_OFFSET_BASIS, b), suffix);
  }

  lemma AbsorbSeparates(hash: Word, x: Byte, y: Byte)
    requires x != y
    ensures Absorb(hash, x) != Absorb(hash, y)
  {
    if Absorb(hash, x) == Absorb(hash, y) {
      XorOfWords(hash, x);
      XorOfWords(hash, y);
      PrimeCancels(Xor(hash, x), Xor(hash, y));
      XorCommutes(hash, x);
      XorCommutes(hash, y);
      XorCancels(x, y, hash);
    }
  }

  lemma DigestSnoc(prefix: Bytes, byte: Byte)
    ensures Digest(FNV_OFFSET_BASIS, prefix + [byte]) == Absorb(Digest(FNV_OFFSET_BASIS, prefix), byte)
  {
    assert (prefix + [byte])[..|prefix|] == prefix;
  }

  /** Keys of equal length that differ in exactly one byte never share an advisory key. */
  lemma OneByteApartNeverCollide(a: Bytes, b: Bytes, i: nat)
    requires |a| == |b| && i < |a|
    requires a[i] != b[i]
    requires forall j :: 0 <= j < |a| && j != i ==> a[j] == b[j]
    ensures AdvisoryKey(a) != AdvisoryKey(b)
  {
    var prefix, suffix := a[..i], a[i + 1..];
    var p, q := prefix + [a[i]], prefix + [b[i]];
    assert a == p + suffix && b == q + suffix;
    DigestSnoc(prefix, a[i]);
    DigestSnoc(prefix, b[i]);
    AbsorbSeparates(Digest(FNV_OFFSET_BASIS, prefix), a[i], b[i]);
    CollisionsSurviveSuffixes(p, q, suffix);
  }

  lemma AsciiBetween(before: string, x: char, after: string)
    requires x as int < 0x80
    ensures Utf8(before + [x] + after) == Utf8(before) + [x as int] + Utf8(after)
  {
    Utf8Append(before + [x], after);
    Utf8Append(before, [x]);
    assert [x][1..] == [];
    assert Utf8([x]) == [x as int] + [];
  }

  /** Keys that differ in one ASCII character and nothing else never share an advisory key. */
  lemma OneAsciiCharacterApart(before: string, x: char, y: char, after: string)
    requires x != y && x as int < 0x80 && y as int < 0x80
    ensures AdvisoryKey(Utf8(before + [x] + after)) != AdvisoryKey(Utf8(before + [y] + after))
  {
    var p, s := Utf8(before), Utf8(after);
    AsciiBetween(before, x, after);
    AsciiBetween(before, y, after);
    OneByteApartNeverCollide(p + [x as int] + s, p + [y as int] + s, |p|);
  }
}
