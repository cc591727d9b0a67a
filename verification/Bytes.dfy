/** Byte strings: lexicographic comparison, little-endian integers, and concatenation. */
module Bytes {
  newtype byte = x: int | 0 <= x < 256

  type ByteString = seq<byte>

  // The output of SHA-256
  type Digest = d: ByteString | |d| == 32 witness seq(32, _ => 0)

  // SHA-256 itself is uninterpreted: everything is stated for an arbitrary function of this type.
  type Hash = ByteString -> Digest

  /** No two different members of a finite set of preimages share a digest. */
  ghost predicate NoCollisions(sha: Hash, preimages: set<ByteString>) {
    forall x, y :: x in preimages && y in preimages && sha(x) == sha(y) ==> x == y
  }

  lemma NoCollisionsAmongFewer(sha: Hash, few: set<ByteString>, many: set<ByteString>)
    requires few <= many && NoCollisions(sha, many)
    ensures NoCollisions(sha, few)
  {
  }

  // ---- Order (the `<` of Python's bytes) ----

  predicate Less(a: ByteString, b: ByteString) {
    |b| > 0 && (|a| == 0 || a[0] < b[0] || (a[0] == b[0] && Less(a[1..], b[1..])))
  }

  lemma {:induction false} LessIsIrreflexive(a: ByteString)
    ensures !Less(a, a)
  {
    if |a| > 0 {
      LessIsIrreflexive(a[1..]);
    }
  }

  lemma {:induction false} LessIsTransitive(a: ByteString, b: ByteString, c: ByteString)
    requires Less(a, b) && Less(b, c)
    ensures Less(a, c)
  {
    if |a| > 0 && a[0] == b[0] == c[0] {
      LessIsTransitive(a[1..], b[1..], c[1..]);
    }
  }

  lemma {:induction false} LessIsTotal(a: ByteString, b: ByteString)
    ensures Less(a, b) || a == b || Less(b, a)
  {
    if |a| > 0 && |b| > 0 && a[0] == b[0] {
      LessIsTotal(a[1..], b[1..]);
      assert a == [a[0]] + a[1..] && b == [b[0]] + b[1..];
    }
  }

  /** Smaller at the first byte that differs, or a proper prefix. */
  ghost predicate SmallerAt(a: ByteString, b: ByteString, k: nat) {
    k <= |a| && k < |b| && a[..k] == b[..k] && (k == |a| || a[k] < b[k])
  }

  lemma {:induction false} LessIsLexicographic(a: ByteString, b: ByteString)
    ensures Less(a, b) <==> exists k: nat :: SmallerAt(a, b, k)
  {
    if |a| > 0 && |b| > 0 && a[0] == b[0] {
      LessIsLexicographic(a[1..], b[1..]);
      assert a == [a[0]] + a[1..] && b == [b[0]] + b[1..];
      if k: nat :| SmallerAt(a[1..], b[1..], k) {
        assert a[..k + 1] == [a[0]] + a[1..][..k] && b[..k + 1] == [b[0]] + b[1..][..k];
        assert SmallerAt(a, b, k + 1);
      }
      if k: nat :| SmallerAt(a, b, k) {
        assert k > 0;
        assert a[1..][..k - 1] == a[..k][1..] && b[1..][..k - 1] == b[..k][1..];
        assert SmallerAt(a[1..], b[1..], k - 1);
      }
    } else if Less(a, b) {
      assert SmallerAt(a, b, 0);
    } else if k: nat :| SmallerAt(a, b, k) {
      if k > 0 {
        FirstBytesAgree(a, b, k);
      }
    }
  }

  lemma FirstBytesAgree(a: ByteString, b: ByteString, k: nat)
    requires 0 < k <= |a| && k <= |b| && a[..k] == b[..k]
    ensures a[0] == b[0]
  {
    assert a[..k][0] == b[..k][0];
  }

  /** The `>=` of Python's bytes. */
  predicate AtLeast(a: ByteString, b: ByteString) {
    a == b || Less(b, a)
  }

  lemma AtLeastMeansNotLess(a: ByteString, b: ByteString)
    ensures AtLeast(a, b) <==> !Less(a, b)
  {
    LessIsTotal(a, b);
    LessIsIrreflexive(a);
    if Less(a, b) && Less(b, a) {
      LessIsTransitive(a, b, a);
    }
  }

  // ---- Little-endian integers ----

  function Power(base: nat, exponent: nat): nat {
    if exponent == 0 then 1 else base * Power(base, exponent - 1)
  }

  /** `int.from_bytes(s, "little")` */
  function FromLittleEndian(s: ByteString): nat {
    if s == [] then 0 else s[0] as nat + 256 * FromLittleEndian(s[1..])
  }

  /** `n.to_bytes(width, "little")` */
  function ToLittleEndian(n: nat, width: nat): (s: ByteString)
    requires n < Power(256, width)
    ensures |s| == width
  {
    if width == 0 then [] else [(n % 256) as byte] + ToLittleEndian(n / 256, width - 1)
  }

  lemma {:induction false} LittleEndianRoundTrip(n: nat, width: nat)
    requires n < Power(256, width)
    ensures FromLittleEndian(ToLittleEndian(n, width)) == n
  {
    if width > 0 {
      LittleEndianRoundTrip(n / 256, width - 1);
      assert ToLittleEndian(n, width)[1..] == ToLittleEndian(n / 256, width - 1);
    }
  }

  /** A byte counts with the power of 256 of its place. */
  lemma {:induction false} ByteWeighs(s: ByteString, i: nat, b: byte)
    requires i < |s|
    ensures FromLittleEndian(s[i := b]) == FromLittleEndian(s) + (b as int - s[i] as int) * Power(256, i)
  {
    var t := s[i := b];
    if i == 0 {
      assert t[1..] == s[1..];
    } else {
      ByteWeighs(s[1..], i - 1, b);
      assert t[1..] == s[1..][i - 1 := b];
      var w := Power(256, i - 1);
      assert 256 * ((b as int - s[i] as int) * w) == (b as int - s[i] as int) * (256 * w);
    }
  }

  lemma {:induction false} ZeroBytesAreZero(s: ByteString)
    requires forall i :: 0 <= i < |s| ==> s[i] == 0
    ensures FromLittleEndian(s) == 0
  {
    if s != [] {
      ZeroBytesAreZero(s[1..]);
    }
  }

  lemma {:induction false} FromLittleEndianBound(s: ByteString)
    ensures FromLittleEndian(s) < Power(256, |s|)
  {
    if s != [] {
      FromLittleEndianBound(s[1..]);
    }
  }

  lemma {:induction false} PowerOfBits(n: nat)
    ensures Power(256, n) == Power(2, 8 * n) >= 1
  {
    if n > 0 {
      PowerOfBits(n - 1);
      EightBits(8 * (n - 1));
    }
  }

  lemma EightBits(n: nat)
    ensures Power(2, n + 8) == 256 * Power(2, n)
  {
    assert Power(2, n + 4) == 16 * Power(2, n) by {
      assert Power(2, n + 2) == 4 * Power(2, n);
      assert Power(2, n + 4) == 4 * Power(2, n + 2);
    }
    assert Power(2, n + 6) == 4 * Power(2, n + 4);
    assert Power(2, n + 8) == 4 * Power(2, n + 6);
  }

  // ---- 32-bit fields ----

  const UINT32_LIMIT: nat := 0x1_0000_0000

  function Encode32(n: nat): (s: ByteString)
    requires n < UINT32_LIMIT
    ensures |s| == 4
  {
    assert Power(256, 4) == UINT32_LIMIT by {
      assert Power(256, 2) == 65536;
      assert Power(256, 4) == 256 * (256 * Power(256, 2));
    }
    ToLittleEndian(n, 4)
  }

  /** Lowest byte first. */
  lemma Encode32Layout(n: nat)
    requires n < UINT32_LIMIT
    ensures UINT32_LIMIT == 0x1_0000_0000
    ensures var s := Encode32(n);
            && s[0] as int == n % 0x100 && s[1] as int == n / 0x100 % 0x100
            && s[2] as int == n / 0x1_0000 % 0x100 && s[3] as int == n / 0x100_0000
  {
    assert Power(256, 4) == UINT32_LIMIT by {
      assert Power(256, 2) == 65536;
      assert Power(256, 4) == 256 * (256 * Power(256, 2));
    }
    assert Power(256, 3) == 0x100_0000 && Power(256, 2) == 0x1_0000 && Power(256, 1) == 0x100;
    var n1, n2, n3 := n / 256, n / 256 / 256, n / 256 / 256 / 256;
    assert ToLittleEndian(n, 4) == [(n % 256) as byte] + ToLittleEndian(n1, 3);
    assert ToLittleEndian(n1, 3) == [(n1 % 256) as byte] + ToLittleEndian(n2, 2);
    assert ToLittleEndian(n2, 2) == [(n2 % 256) as byte] + ToLittleEndian(n3, 1);
    assert ToLittleEndian(n3, 1) == [(n3 % 256) as byte] + ToLittleEndian(n3 / 256, 0);
  }

  lemma Encode32IsInjective(m: nat, n: nat)
    requires m < UINT32_LIMIT && n < UINT32_LIMIT
    requires Encode32(m) == Encode32(n)
    ensures m == n
  {
    assert Power(256, 4) == UINT32_LIMIT by {
      assert Power(256, 2) == 65536;
      assert Power(256, 4) == 256 * (256 * Power(256, 2));
    }
    LittleEndianRoundTrip(m, 4);
    LittleEndianRoundTrip(n, 4);
  }

  // ---- Concatenation ----

  /** The length of the first part decides how a concatenation splits. */
  lemma SplitConcatenation(a: ByteString, b: ByteString, c: ByteString, d: ByteString)
    requires a + b == c + d && |a| == |c|
    ensures a == c && b == d
  {
    assert a == (a + b)[..|a|] && c == (c + d)[..|a|];
    assert b == (a + b)[|a|..] && d == (c + d)[|a|..];
  }
}
