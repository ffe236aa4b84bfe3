/** JavaScript strings as sequences of 16-bit code units, with the few string
    operations whose structure the proofs depend on. */
module CodeUnits {

  type CodeUnit = n: int | 0 <= n < 0x1_0000

  type Text = seq<CodeUnit>

  const LF: CodeUnit := 10
  const CR: CodeUnit := 13
  const SPACE: CodeUnit := 32
  const DASH: CodeUnit := 45
  const DIGIT_ZERO: CodeUnit := 48
  const COLON: CodeUnit := 58

  /** The white space and line terminators that `String.prototype.trim` removes. */
  predicate IsSpace(c: CodeUnit) {
    9 <= c <= 13 || c == 32 || c == 0xA0 || c == 0x1680 || 0x2000 <= c <= 0x200A ||
    c == 0x2028 || c == 0x2029 || c == 0x202F || c == 0x205F || c == 0x3000 || c == 0xFEFF
  }

  /** White space and line terminators by name: tab, line feed, vertical tab, form feed, carriage return, space,
      no-break space, ogham space, the typographic spaces, both separators, the two narrow spaces, the ideographic
      space and the byte order mark. */
  lemma SpacesAre(c: CodeUnit)
    ensures IsSpace(c) <==>
            c in {0x9, 0xA, 0xB, 0xC, 0xD, 0x20, 0xA0, 0x1680, 0x2028, 0x2029, 0x202F, 0x205F, 0x3000, 0xFEFF} ||
            c in {0x2000, 0x2001, 0x2002, 0x2003, 0x2004, 0x2005, 0x2006, 0x2007, 0x2008, 0x2009, 0x200A}
  {
  }

  function TrimStart(t: Text): Text {
    if t != [] && IsSpace(t[0]) then TrimStart(t[1..]) else t
  }

  function TrimEnd(t: Text): Text {
    if t != [] && IsSpace(t[|t| - 1]) then TrimEnd(t[..|t| - 1]) else t
  }

  function Trim(t: Text): Text {
    TrimEnd(TrimStart(t))
  }

  /** A text that trims to nothing. */
  predicate Blank(t: Text) {
    Trim(t) == []
  }

  lemma {:induction false} BlankIsAllSpace(t: Text)
    ensures Blank(t) <==> forall c <- t :: IsSpace(c)
    decreases |t|
  {
    if t != [] && IsSpace(t[0]) {
      BlankIsAllSpace(t[1..]);
      assert t == [t[0]] + t[1..];
    } else if t != [] {
      TrimEndKeepsFirst(t);
      assert t[0] in t;
    }
  }

  lemma {:induction false} TrimEndKeepsFirst(t: Text)
    requires t != [] && !IsSpace(t[0])
    ensures TrimEnd(t) != []
    decreases |t|
  {
    if IsSpace(t[|t| - 1]) {
      TrimEndKeepsFirst(t[..|t| - 1]);
    }
  }

  lemma {:induction false} TrimStartIs(t: Text) returns (i: nat)
    ensures i <= |t| && TrimStart(t) == t[i..]
    ensures (forall k: nat | k < i :: IsSpace(t[k])) && (i < |t| ==> !IsSpace(t[i]))
    decreases |t|
  {
    if t != [] && IsSpace(t[0]) {
      i := TrimStartIs(t[1..]);
      assert forall k: nat | 0 < k < i + 1 :: t[k] == t[1..][k - 1];
      i := i + 1;
    } else {
      i := 0;
    }
  }

  lemma {:induction false} TrimEndIs(t: Text) returns (j: nat)
    ensures j <= |t| && TrimEnd(t) == t[..j] && (forall k: nat | j <= k < |t| :: IsSpace(t[k]))
    ensures 0 < j ==> !IsSpace(t[j - 1])
    decreases |t|
  {
    j := |t|;
    if t != [] && IsSpace(t[|t| - 1]) {
      j := TrimEndIs(t[..|t| - 1]);
      assert t[..|t| - 1][..j] == t[..j];
      assert forall k: nat | k < |t| - 1 :: t[..|t| - 1][k] == t[k];
    }
  }

  /** Trimming removes exactly the white space at both ends. */
  lemma TrimIs(t: Text) returns (i: nat, j: nat)
    ensures i <= j <= |t| && Trim(t) == t[i..j]
    ensures forall k: nat | k < i || j <= k < |t| :: IsSpace(t[k])
    ensures i < j ==> !IsSpace(t[i]) && !IsSpace(t[j - 1])
  {
    i := TrimStartIs(t);
    var rest := t[i..];
    var n := TrimEndIs(rest);
    j := i + n;
    assert rest[..n] == t[i..j];
    assert forall k: nat | i <= k < |t| :: t[k] == rest[k - i];
    hide IsSpace;
    if i < j {
      assert t[j - 1] == rest[n - 1];
    }
  }

  /** A literal, character by character. */
  function Literal(s: string): Text {
    seq(|s|, i requires 0 <= i < |s| => s[i] as int % 0x1_0000)
  }

  // ----- decimal numerals -----

  predicate IsDigit(c: CodeUnit) {
    DIGIT_ZERO <= c < DIGIT_ZERO + 10
  }

  /** `String(n)` for a non-negative integer. */
  function Decimal(n: nat): Text {
    if n < 10 then [DIGIT_ZERO + n] else Decimal(n / 10) + [DIGIT_ZERO + n % 10]
  }

  lemma {:induction false} DecimalIsDigits(n: nat)
    ensures Decimal(n) != [] && forall c <- Decimal(n) :: IsDigit(c)
    decreases n
  {
    if n >= 10 {
      DecimalIsDigits(n / 10);
    }
  }

  lemma {:induction false} DecimalInjective(n: nat, m: nat)
    requires Decimal(n) == Decimal(m)
    ensures n == m
    decreases n
  {
    DecimalIsDigits(n / 10);
    DecimalIsDigits(m / 10);
    var a, b := Decimal(n), Decimal(m);
    assert a[|a| - 1] == DIGIT_ZERO + n % 10;
    assert b[|b| - 1] == DIGIT_ZERO + m % 10;
    if n >= 10 && m >= 10 {
      assert a[..|a| - 1] == Decimal(n / 10);
      assert b[..|b| - 1] == Decimal(m / 10);
      DecimalInjective(n / 10, m / 10);
    }
  }

  /** A numbered name determines its number and its stem, because the separator is not a digit. */
  lemma {:induction false} NumberedNamesInjective(a: Text, x: CodeUnit, n: nat, b: Text, y: CodeUnit, m: nat)
    requires !IsDigit(x) && !IsDigit(y)
    requires a + [x] + Decimal(n) == b + [y] + Decimal(m)
    ensures a == b && x == y && n == m
  {
    DecimalIsDigits(n);
    DecimalIsDigits(m);
    var s, t := a + [x] + Decimal(n), b + [y] + Decimal(m);
    assert s[|a|] == x && t[|b|] == y;
    assert forall i | |a| < i < |s| :: s[i] == Decimal(n)[i - |a| - 1];
    assert forall i | |b| < i < |t| :: t[i] == Decimal(m)[i - |b| - 1];
    assert |a| == |b|;
    assert s[..|a|] == a && t[..|b|] == b;
    assert s[|a| + 1..] == Decimal(n) && t[|b| + 1..] == Decimal(m);
    DecimalInjective(n, m);
  }
}
