/** The 32-bit transcript checksum: the signed JavaScript loop, the unsigned fold it
    computes, and its sensitivity to every single code unit. */
module Checksum {
  import opened CodeUnits

  const WORDS: nat := 0x1_0000_0000
  const HALF: nat := 0x8000_0000
  const OFFSET_BASIS: nat := 0x811c9dc5
  const PRIME: nat := 0x01000193

  /** The inverse of the prime modulo 2^32. */
  const PRIME_INVERSE: nat := 0x359c449b

  type Word = n: nat | n < 0x1_0000_0000

  // ----- JavaScript's 32-bit operators -----

  function ToUint32(n: int): Word {
    n % WORDS
  }

  function ToInt32(n: int): int {
    if n % WORDS < HALF then n % WORDS else n % WORDS - WORDS
  }

  /** Bitwise exclusive or of two natural numbers. */
  function Xor(a: nat, b: nat): nat {
    if a == 0 && b == 0 then 0
    else 2 * Xor(a / 2, b / 2) + (if a % 2 == b % 2 then 0 else 1)
  }

  function Pow2(n: nat): nat {
    if n == 0 then 1 else 2 * Pow2(n - 1)
  }

  lemma {:induction false} XorBound(a: nat, b: nat, n: nat)
    requires a < Pow2(n) && b < Pow2(n)
    ensures Xor(a, b) < Pow2(n)
    decreases n
  {
    if n > 0 {
      XorBound(a / 2, b / 2, n - 1);
    }
  }

  lemma WordIsPow2()
    ensures Pow2(32) == WORDS
  {
    assert Pow2(8) == 256;
    assert Pow2(16) == 65536 by {
      assert Pow2(12) == 16 * Pow2(8);
      assert Pow2(16) == 16 * Pow2(12);
    }
    assert Pow2(20) == 16 * Pow2(16);
    assert Pow2(24) == 16 * Pow2(20);
    assert Pow2(28) == 16 * Pow2(24);
    assert Pow2(32) == 16 * Pow2(28);
  }

  function XorWords(a: Word, b: Word): Word {
    WordIsPow2();
    XorBound(a, b, 32);
    Xor(a, b)
  }

  /** `a ^ b`. */
  function BitXor(a: int, b: int): int {
    ToInt32(XorWords(ToUint32(a), ToUint32(b)))
  }

  /** `Math.imul(a, b)`. */
  function Imul(a: int, b: int): int {
    ToInt32(ToUint32(a) * ToUint32(b))
  }

  // ----- the fold -----

  /** One step: mix in a code unit, multiply, keep 32 bits. */
  function Mix(h: Word, c: CodeUnit): Word {
    (XorWords(h, c) * PRIME) % WORDS
  }

  function FoldFrom(h: Word, content: Text): Word
    decreases |content|
  {
    if content == [] then h else FoldFrom(Mix(h, content[0]), content[1..])
  }

  function Fold(content: Text): Word {
    FoldFrom(OFFSET_BASIS, content)
  }

  function HexDigit(d: nat): CodeUnit
    requires d < 16
  {
    if d < 10 then DIGIT_ZERO + d else 0x61 + (d - 10)
  }

  /** `n.toString(16)`. */
  function Hex(n: nat): Text {
    if n < 16 then [HexDigit(n)] else Hex(n / 16) + [HexDigit(n % 16)]
  }

  const STEM: Text := [0x66, 0x6E, 0x76, 0x33, 0x32, 0x3A]  // fnv32:

  function ChecksumText(content: Text): Text {
    STEM + Hex(Fold(content))
  }

  lemma WordOfSigned(n: int)
    ensures ToUint32(ToInt32(n)) == ToUint32(n)
  {
  }

  lemma MixIsJavaScript(hash: int, c: CodeUnit)
    ensures ToUint32(Imul(BitXor(hash, c), PRIME)) == Mix(ToUint32(hash), c)
  {
    assert ToUint32(c) == c && ToUint32(PRIME) == PRIME;
    var mixed := XorWords(ToUint32(hash), c);
    WordOfSigned(mixed);
    assert ToUint32(mixed) == mixed;
    assert ToUint32(BitXor(hash, c)) == mixed;
    WordOfSigned(mixed * PRIME);
    hide XorWords;
    hide ToInt32;
  }

  /** The signed loop computes the unsigned fold. */
  method ChecksumOf(content: Text) returns (checksum: Text)
    ensures checksum == ChecksumText(content)
  {
    var hash: int := OFFSET_BASIS;
    var index := 0;
    while index < |content|
      invariant 0 <= index <= |content|
      invariant FoldFrom(ToUint32(hash), content[index..]) == Fold(content)
    {
      MixIsJavaScript(hash, content[index]);
      assert content[index..][0] == content[index] && content[index..][1..] == content[index + 1..];
      hash := BitXor(hash, content[index]);
      hash := Imul(hash, PRIME);
      index := index + 1;
    }
    checksum := STEM + Hex(ToUint32(hash));
  }

  // ----- sensitivity -----

  lemma {:induction false} XorInjective(a: nat, b: nat, c: nat)
    requires Xor(a, c) == Xor(b, c)
    ensures a == b
    decreases a + b + c
  {
    if a != 0 || b != 0 || c != 0 {
      assert Xor(a, c) == 2 * Xor(a / 2, c / 2) + (if a % 2 == c % 2 then 0 else 1);
      assert Xor(b, c) == 2 * Xor(b / 2, c / 2) + (if b % 2 == c % 2 then 0 else 1);
      hide Xor;
      XorInjective(a / 2, b / 2, c / 2);
    }
  }

  lemma {:induction false} XorSymmetric(a: nat, b: nat)
    ensures Xor(a, b) == Xor(b, a)
    decreases a + b
  {
    if a != 0 || b != 0 {
      XorSymmetric(a / 2, b / 2);
    }
  }

  /** What has an inverse modulo w can be cancelled modulo w. */
  lemma Cancel(d: int, p: int, inverse: int, k: int, q: int, w: int)
    requires d * p == q * w && p * inverse == 1 + k * w && -w < d < w
    ensures d == 0
  {
    var m := q * inverse - d * k;
    calc {
      m * w;
      (q * w) * inverse - d * (k * w);
      (d * p) * inverse - d * (k * w);
      d * (p * inverse) - d * (k * w);
      d;
    }
    if m > 0 {
      MultipleAtLeast(m, w);
    } else if m < 0 {
      MultipleAtLeast(-m, w);
    }
  }

  lemma MultipleAtLeast(m: int, w: int)
    requires m > 0 && w > 0
    ensures m * w >= w
  {
  }

  /** Multiplying by the prime is a bijection of words, because the prime has an inverse. */
  lemma PrimeInjective(a: Word, b: Word)
    requires (a * PRIME) % WORDS == (b * PRIME) % WORDS
    ensures a == b
  {
    var x, y := a * PRIME, b * PRIME;
    var q := x / WORDS - y / WORDS;
    assert x - y == q * WORDS;
    assert PRIME * PRIME_INVERSE == 1 + 3513497 * WORDS;
    Cancel(a - b, PRIME, PRIME_INVERSE, 3513497, q, WORDS);
  }

  lemma MixInjective(h: Word, k: Word, c: CodeUnit, d: CodeUnit)
    requires Mix(h, c) == Mix(k, d)
    ensures c == d ==> h == k
    ensures h == k ==> c == d
  {
    PrimeInjective(XorWords(h, c), XorWords(k, d));
    XorSymmetric(h, c);
    XorSymmetric(k, d);
    assert Xor(h, c) == Xor(k, d);
    hide Xor;
    if c == d {
      XorInjective(h, k, c);
    }
    if h == k {
      XorInjective(c, d, h);
    }
  }

  lemma {:induction false} FoldFromInjective(h: Word, k: Word, content: Text)
    requires FoldFrom(h, content) == FoldFrom(k, content)
    ensures h == k
    decreases |content|
  {
    hide Mix;
    if content != [] {
      FoldFromInjective(Mix(h, content[0]), Mix(k, content[0]), content[1..]);
      MixInjective(h, k, content[0], content[0]);
    }
  }

  lemma {:induction false} FoldSensitive(h: Word, content: Text, i: nat, c: CodeUnit)
    requires i < |content| && content[i] != c
    ensures FoldFrom(h, content[i := c]) != FoldFrom(h, content)
    decreases |content|
  {
    hide Mix;
    var changed := content[i := c];
    if i == 0 {
      assert changed[1..] == content[1..];
      if FoldFrom(h, changed) == FoldFrom(h, content) {
        FoldFromInjective(Mix(h, c), Mix(h, content[0]), content[1..]);
        MixInjective(h, h, c, content[0]);
      }
    } else {
      assert changed[1..] == content[1..][i - 1 := c];
      FoldSensitive(Mix(h, content[0]), content[1..], i - 1, c);
    }
  }

  lemma HexDigitInjective(d: nat, e: nat)
    requires d < 16 && e < 16 && HexDigit(d) == HexDigit(e)
    ensures d == e
  {
  }

  lemma {:induction false} HexNonEmpty(n: nat)
    ensures Hex(n) != []
    decreases n
  {
  }

  lemma {:induction false} HexInjective(n: nat, m: nat)
    requires Hex(n) == Hex(m)
    ensures n == m
    decreases n
  {
    var a, b := Hex(n), Hex(m);
    assert a[|a| - 1] == HexDigit(n % 16) && b[|b| - 1] == HexDigit(m % 16);
    HexDigitInjective(n % 16, m % 16);
    hide HexDigit;
    HexNonEmpty(n / 16);
    HexNonEmpty(m / 16);
    if n >= 16 && m >= 16 {
      assert a[..|a| - 1] == Hex(n / 16) && b[..|b| - 1] == Hex(m / 16);
      HexInjective(n / 16, m / 16);
    }
  }

  /** Changing exactly one code unit, in a text of any length, changes the checksum. */
  lemma ChecksumSensitive(content: Text, i: nat, c: CodeUnit)
    requires i < |content| && content[i] != c
    ensures ChecksumText(content[i := c]) != ChecksumText(content)
  {
    FoldSensitive(OFFSET_BASIS, content, i, c);
    hide FoldFrom;
    var a, b := ChecksumText(content[i := c]), ChecksumText(content);
    if a == b {
      hide Hex;
      assert a[|STEM|..] == Hex(Fold(content[i := c])) && b[|STEM|..] == Hex(Fold(content));
      HexInjective(Fold(content[i := c]), Fold(content));
    }
  }

  /** The signed value of the low 32 bits. */
  lemma Int32Is(n: int)
    ensures 0 - HALF <= ToInt32(n) < HALF && (n - ToInt32(n)) % WORDS == 0
  {
  }

  lemma HexDigitsAre(d: nat)
    requires d < 16
    ensures HexDigit(d) == Literal("0123456789abcdef")[d]
  {
  }

  lemma {:induction false} XorNothing(a: nat)
    ensures Xor(a, 0) == a
    decreases a
  {
    if a != 0 {
      XorNothing(a / 2);
    }
  }

  /** The published values of the 32-bit FNV-1a hash: 811c9dc5 for the empty text, e40c292c for the letter a. */
  lemma ChecksumSample()
    ensures ChecksumText([]) == [0x66, 0x6E, 0x76, 0x33, 0x32, 0x3A] + [0x38, 0x31, 0x31, 0x63, 0x39, 0x64, 0x63, 0x35]
    ensures ChecksumText([0x61])
            == [0x66, 0x6E, 0x76, 0x33, 0x32, 0x3A] + [0x65, 0x34, 0x30, 0x63, 0x32, 0x39, 0x32, 0x63]
  {
    SampleMixed();
    SampleHexOfBasis();
    SampleHexOfLetter();
    hide XorWords, Hex;
    assert [0x61 as CodeUnit][1..] == [];
    assert Fold([0x61]) == Mix(OFFSET_BASIS, 0x61) == 0xe40c292c;
    assert Fold([]) == 0x811c9dc5;
    hide *;
  }

  lemma SampleMixed()
    ensures XorWords(OFFSET_BASIS, 0x61) == 0x811c9da4
  {
    XorNothing(0x102393b);
    assert Xor(0x2047277, 0x1) == 0x2047276;
    assert Xor(0x408e4ee, 0x3) == 0x408e4ed;
    assert Xor(0x811c9dc, 0x6) == 0x811c9da;
    assert Xor(0x102393b8, 0xc) == 0x102393b4;
    assert Xor(0x20472771, 0x18) == 0x20472769;
    assert Xor(0x408e4ee2, 0x30) == 0x408e4ed2;
    assert Xor(0x811c9dc5, 0x61) == 0x811c9da4;
  }

  lemma SampleHexOfBasis()
    ensures Hex(0x811c9dc5) == [0x38, 0x31, 0x31, 0x63, 0x39, 0x64, 0x63, 0x35]
  {
    assert Hex(0x8) == [0x38];
    assert Hex(0x81) == [0x38, 0x31];
    assert Hex(0x811) == [0x38, 0x31, 0x31];
    assert Hex(0x811c) == [0x38, 0x31, 0x31, 0x63];
    assert Hex(0x811c9) == [0x38, 0x31, 0x31, 0x63, 0x39];
    assert Hex(0x811c9d) == [0x38, 0x31, 0x31, 0x63, 0x39, 0x64];
    assert Hex(0x811c9dc) == [0x38, 0x31, 0x31, 0x63, 0x39, 0x64, 0x63];
  }

  lemma SampleHexOfLetter()
    ensures Hex(0xe40c292c) == [0x65, 0x34, 0x30, 0x63, 0x32, 0x39, 0x32, 0x63]
  {
    assert Hex(0xe) == [0x65];
    assert Hex(0xe4) == [0x65, 0x34];
    assert Hex(0xe40) == [0x65, 0x34, 0x30];
    assert Hex(0xe40c) == [0x65, 0x34, 0x30, 0x63];
    assert Hex(0xe40c2) == [0x65, 0x34, 0x30, 0x63, 0x32];
    assert Hex(0xe40c29) == [0x65, 0x34, 0x30, 0x63, 0x32, 0x39];
    assert Hex(0xe40c292) == [0x65, 0x34, 0x30, 0x63, 0x32, 0x39, 0x32];
  }
}
