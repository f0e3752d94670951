/** Deriving identifiers from a provider's call id. */
module CallIds {
  import opened Arithmetic

  type Byte = b: int | 0 <= b < 256 witness 0
  type Bytes = seq<Byte>

  const DASH: Byte := 45
  const UNDERSCORE: Byte := 95
  const MAX_LEN := 48

  /** [A-Za-z0-9_-] */
  predicate Safe(c: Byte) {
    65 <= c <= 90 || 97 <= c <= 122 || 48 <= c <= 57 || c == UNDERSCORE || c == DASH
  }

  // ---- FNV-1a, 32 bits ----

  const WORD: int := 0x1_0000_0000
  const FNV_OFFSET: int := 2166136261
  const FNV_PRIME: int := 16777619
  const FNV_INVERSE: int := 899433627

  type Word = w: int | 0 <= w < WORD witness 0

  /** The exclusive or of two n-bit numbers. */
  function Xor(a: nat, b: nat, n: nat): (r: nat)
    ensures r < Pow2(n)
  {
    if n == 0 then 0 else (a % 2 + b % 2) % 2 + 2 * Xor(a / 2, b / 2, n - 1)
  }

  /** Xor is injective in either operand. */
  lemma {:induction false} XorIsInjective(a: nat, b: nat, a': nat, b': nat, n: nat)
    requires a < Pow2(n) && b < Pow2(n) && a' < Pow2(n) && b' < Pow2(n)
    requires Xor(a, b, n) == Xor(a', b', n)
    ensures b == b' ==> a == a'
    ensures a == a' ==> b == b'
  {
    if n > 0 {
      LowBit((a % 2 + b % 2) % 2, Xor(a / 2, b / 2, n - 1), (a' % 2 + b' % 2) % 2, Xor(a' / 2, b' / 2, n - 1));
      XorIsInjective(a / 2, b / 2, a' / 2, b' / 2, n - 1);
    }
  }

  lemma LowBit(p: nat, q: nat, p': nat, q': nat)
    requires p < 2 && p' < 2 && p + 2 * q == p' + 2 * q'
    ensures p == p' && q == q'
  {
  }

  /** The xor of a byte into the low byte of a word. */
  function Mix(h: Word, b: Byte): (r: Word)
    ensures r / 256 == h / 256 && r % 256 == Xor(h % 256, b, 8) < 256
  {
    assert Pow2(8) == 256;
    LowByte(h, Xor(h % 256, b, 8));
    h - h % 256 + Xor(h % 256, b, 8)
  }

  lemma LowByte(h: int, x: int)
    requires 0 <= x < 256
    ensures (h - h % 256 + x) / 256 == h / 256 && (h - h % 256 + x) % 256 == x
  {
  }

  function FnvStep(h: Word, b: Byte): Word {
    Mix(h, b) * FNV_PRIME % WORD
  }

  function Fnv32a(s: Bytes): Word {
    if s == [] then FNV_OFFSET else FnvStep(Fnv32a(s[..|s| - 1]), s[|s| - 1])
  }

  /** Multiplying by the prime can be undone. */
  lemma PrimeIsInvertible(x: Word)
    ensures x * FNV_PRIME % WORD * FNV_INVERSE % WORD == x
  {
    var q, r := x * FNV_PRIME / WORD, x * FNV_PRIME % WORD;
    var k := FNV_PRIME * FNV_INVERSE / WORD;
    assert FNV_PRIME * FNV_INVERSE == k * WORD + 1;
    calc {
      r * FNV_INVERSE;
      (x * FNV_PRIME - q * WORD) * FNV_INVERSE;
      x * (FNV_PRIME * FNV_INVERSE) - q * WORD * FNV_INVERSE;
      x * (k * WORD + 1) - q * WORD * FNV_INVERSE;
      (x * k - q * FNV_INVERSE) * WORD + x;
    }
    ModUnique(r * FNV_INVERSE, x * k - q * FNV_INVERSE, x, WORD);
  }

  lemma MixIsInjective(h: Word, b: Byte, h': Word, b': Byte)
    requires Mix(h, b) == Mix(h', b')
    ensures b == b' ==> h == h'
    ensures h == h' ==> b == b'
  {
    assert Pow2(8) == 256;
    XorIsInjective(h % 256, b, h' % 256, b', 8);
  }

  /** One step is injective in the hash so far, and in the byte. */
  lemma StepIsInjective(h: Word, b: Byte, h': Word, b': Byte)
    requires FnvStep(h, b) == FnvStep(h', b')
    ensures b == b' ==> h == h'
    ensures h == h' ==> b == b'
  {
    PrimeIsInvertible(Mix(h, b));
    PrimeIsInvertible(Mix(h', b'));
    MixIsInjective(h, b, h', b');
  }

  predicate OneByteApart(a: Bytes, b: Bytes) {
    |a| == |b| && exists i :: 0 <= i < |a| && a[i] != b[i] && b == a[i := b[i]]
  }

  /** Ids of equal length that differ in exactly one byte hash differently. */
  lemma {:induction false} HashesDiffer(a: Bytes, b: Bytes, i: nat)
    requires |a| == |b| && i < |a| && a[i] != b[i] && b == a[i := b[i]]
    ensures Fnv32a(a) != Fnv32a(b)
  {
    var n := |a| - 1;
    if i == n {
      assert a[..n] == b[..n];
    } else {
      assert b[..n] == a[..n][i := b[..n][i]];
      HashesDiffer(a[..n], b[..n], i);
    }
    if Fnv32a(a) == Fnv32a(b) {
      StepIsInjective(Fnv32a(a[..n]), a[n], Fnv32a(b[..n]), b[n]);
    }
  }

  // ---- the derived identifier ----

  function HexDigit(d: int): (c: Byte)
    requires 0 <= d < 16
    ensures Safe(c)
  {
    if d < 10 then 48 + d else 87 + d
  }

  /** The lower-case hex form on n digits. */
  function Hex(h: nat, n: nat): (s: Bytes)
    ensures |s| == n && forall i :: 0 <= i < n ==> Safe(s[i])
  {
    if n == 0 then [] else Hex(h / 16, n - 1) + [HexDigit(h % 16)]
  }

  lemma HexLast(h: nat, n: nat)
    requires n > 0
    ensures Hex(h, n)[n - 1] == HexDigit(h % 16) && Hex(h, n)[..n - 1] == Hex(h / 16, n - 1)
  {
  }

  lemma Nibble(h: nat, h': nat, q: nat)
    requires h < 16 * q && h' < 16 * q
    ensures h / 16 < q && h' / 16 < q
    ensures h / 16 == h' / 16 && HexDigit(h % 16) == HexDigit(h' % 16) ==> h == h'
  {
  }

  lemma {:induction false} HexIsInjective(h: nat, h': nat, n: nat)
    requires Hex(h, n) == Hex(h', n) && h < Pow2(4 * n) && h' < Pow2(4 * n)
    ensures h == h'
  {
    if n > 0 {
      HexLast(h, n);
      HexLast(h', n);
      Pow2Adds(4, 4 * (n - 1));
      Nibble(h, h', Pow2(4 * (n - 1)));
      HexIsInjective(h / 16, h' / 16, n - 1);
    }
  }

  function Clean(c: Byte): Byte { if Safe(c) then c else DASH }

  function CleanAll(s: Bytes): Bytes {
    seq(|s|, i requires 0 <= i < |s| => Clean(s[i]))
  }

  function Take(s: Bytes, n: nat): Bytes { if |s| > n then s[..n] else s }

  function Sanitized(raw: Bytes): Bytes {
    Take(CleanAll(raw), MAX_LEN) + [DASH] + Hex(Fnv32a(raw), 8)
  }

  /** The identifier is safe in a URL path segment and at most 57 bytes long. */
  lemma SanitizedIsSafe(raw: Bytes)
    ensures forall i :: 0 <= i < |Sanitized(raw)| ==> Safe(Sanitized(raw)[i])
    ensures |Sanitized(raw)| == (if |raw| > MAX_LEN then MAX_LEN else |raw|) + 9 <= 57
  {
    var body := Take(CleanAll(raw), MAX_LEN);
    forall i | 0 <= i < |body|
      ensures Safe(body[i])
    {
    }
  }

  /** The number a lower-case hex text stands for. */
  function HexValue(s: Bytes): int {
    if s == [] then 0
    else
      var c := s[|s| - 1];
      16 * HexValue(s[..|s| - 1]) + if 48 <= c <= 57 then c - 48 else if 97 <= c <= 102 then c - 87 else 0
  }

  lemma {:induction false} HexReads(h: nat, n: nat)
    requires h < Pow2(4 * n)
    ensures HexValue(Hex(h, n)) == h
    ensures forall i :: 0 <= i < n ==> 48 <= Hex(h, n)[i] <= 57 || 97 <= Hex(h, n)[i] <= 102
  {
    if n > 0 {
      HexLast(h, n);
      Pow2Adds(4, 4 * (n - 1));
      Nibble(h, h, Pow2(4 * (n - 1)));
      HexReads(h / 16, n - 1);
    }
  }

  /** The identifier: the first 48 bytes of the raw id, where each safe byte stands as
      it was and every other one is a dash; then a dash; then the hash of the whole
      raw id in eight hex digits. */
  lemma SanitizedReads(raw: Bytes)
    ensures
      var id, n := Sanitized(raw), if |raw| > 48 then 48 else |raw|;
      && |id| == n + 9
      && (forall i :: 0 <= i < n ==> id[i] == if Safe(raw[i]) then raw[i] else DASH)
      && id[n] == DASH && HexValue(id[n + 1..]) == Fnv32a(raw)
  {
    var n := if |raw| > 48 then 48 else |raw|;
    var body, hex := Take(CleanAll(raw), MAX_LEN), Hex(Fnv32a(raw), 8);
    assert forall i :: 0 <= i < n ==> body[i] == Clean(raw[i]);
    Joined(body, hex);
    WordIsPow2();
    HexReads(Fnv32a(raw), 8);
  }

  lemma Joined(body: Bytes, hex: Bytes)
    ensures var id := body + [DASH] + hex;
            id[..|body|] == body && id[|body|] == DASH && id[|body| + 1..] == hex
            && forall i :: 0 <= i < |body| ==> id[i] == body[i]
  {
  }

  /** The published test vectors of FNV-1a for "" and "a". */
  lemma FnvKnownAnswers()
    ensures Fnv32a([]) == 0x811C9DC5
    ensures Fnv32a([97]) == 0xE40C292C
  {
    assert [97][..0] == [];
    XorOfBytes();
    assert 0x811C9DC5 % 256 == 0xC5;
  }

  lemma XorOfBytes()
    ensures Xor(0xC5, 97, 8) == 0xA4
  {
    assert Xor(0, 0, 0) == 0;
    assert Xor(1, 0, 1) == 1;
    assert Xor(3, 1, 2) == 2;
    assert Xor(6, 3, 3) == 5;
    assert Xor(12, 6, 4) == 10;
    assert Xor(24, 12, 5) == 20;
    assert Xor(49, 24, 6) == 41;
    assert Xor(98, 48, 7) == 82;
  }

  lemma WordIsPow2()
    ensures Pow2(4 * 8) == WORD
  {
    assert Pow2(8) == 256;
    Pow2Adds(8, 8);
    Pow2Adds(16, 16);
  }

  /** The identifier determines the hash of the raw id. */
  lemma SanitizedDeterminesHash(a: Bytes, b: Bytes)
    requires Sanitized(a) == Sanitized(b)
    ensures Fnv32a(a) == Fnv32a(b)
  {
    var x, y := Sanitized(a), Sanitized(b);
    assert x[|x| - 8..] == Hex(Fnv32a(a), 8);
    assert y[|y| - 8..] == Hex(Fnv32a(b), 8);
    WordIsPow2();
    HexIsInjective(Fnv32a(a), Fnv32a(b), 8);
  }

  /** Raw ids one byte apart never alias, even when they clean to the same text. */
  lemma OneByteApartNeverAliases(a: Bytes, b: Bytes)
    requires OneByteApart(a, b)
    ensures Sanitized(a) != Sanitized(b)
  {
    var i :| 0 <= i < |a| && a[i] != b[i] && b == a[i := b[i]];
    HashesDiffer(a, b, i);
    if Sanitized(a) == Sanitized(b) { SanitizedDeterminesHash(a, b); }
  }

  method Hash(s: Bytes) returns (h: Word)
    ensures h == Fnv32a(s)
  {
    h := FNV_OFFSET;
    for i := 0 to |s|
      invariant h == Fnv32a(s[..i])
    {
      assert s[..i + 1][..i] == s[..i];
      h := Mix(h, s[i]);
      h := h * FNV_PRIME % WORD;
    }
    assert s[..|s|] == s;
  }

  method SanitizeCallId(callId: Bytes) returns (id: Bytes)
    ensures id == Sanitized(callId)
  {
    var b := new Byte[|callId|](i requires 0 <= i < |callId| => callId[i]);
    for i := 0 to b.Length
      invariant forall j :: 0 <= j < i ==> b[j] == Clean(callId[j])
      invariant forall j :: i <= j < b.Length ==> b[j] == callId[j]
    {
      var c := b[i];
      if 65 <= c <= 90 || 97 <= c <= 122 || 48 <= c <= 57 || c == UNDERSCORE || c == DASH {
        continue;
      }
      b[i] := DASH;
    }
    assert b[..] == CleanAll(callId);
    var body := b[..];
    if |body| > MAX_LEN {
      body := body[..MAX_LEN];
    }
    var h := Hash(callId);
    id := body + [DASH] + Hex(h, 8);
  }
}
