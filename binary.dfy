/**
  Base-2 text: `bint.toString(2)`, `padStart(64, "0")` and
  `Number.parseInt(s, 2)` as the decoder uses them.
*/
module Binary {
  import opened Bits

  predicate IsBinary(s: string) {
    forall i :: 0 <= i < |s| ==> s[i] == '0' || s[i] == '1'
  }

  function BitChar(b: nat): (ch: char)
    requires b < 2
  {
    if b == 0 then '0' else '1'
  }

  /** `Number.parseInt(s, 2)` on a non-empty run of binary digits (the model reads the empty run as 0; the decoder never parses an empty run). */
  function ParseBinary(s: string): (r: nat)
    requires IsBinary(s)
    ensures r < Pow2(|s|)
  {
    if s == [] then 0
    else 2 * ParseBinary(s[..|s| - 1]) + (if s[|s| - 1] == '1' then 1 else 0)
  }

  /** `n.toString(2)` for a non-negative BigInt: no leading zeros, "0" for zero. */
  function ToBinary(n: nat): (s: string)
    ensures |s| >= 1 && IsBinary(s)
  {
    if n < 2 then [BitChar(n)] else ToBinary(n / 2) + [BitChar(n % 2)]
  }

  function Zeros(m: nat): (s: string)
    ensures |s| == m && forall i :: 0 <= i < m ==> s[i] == '0'
  {
    seq(m, _ => '0')
  }

  /** `s.padStart(width, "0")`: left-fill with zeros up to `width`, never truncate. */
  function PadStart(s: string, width: nat): (r: string)
    ensures |r| == if |s| >= width then |s| else width
    ensures r[|r| - |s|..] == s
    ensures forall i :: 0 <= i < |r| - |s| ==> r[i] == '0'
    ensures IsBinary(s) ==> IsBinary(r)
  {
    if |s| >= width then s else Zeros(width - |s|) + s
  }

  /** The low k bits of n as exactly k binary digits, most significant first. */
  function FixedBits(n: nat, k: nat): (s: string)
    ensures |s| == k && IsBinary(s)
  {
    if k == 0 then [] else FixedBits(n / 2, k - 1) + [BitChar(n % 2)]
  }

  /** Reading k fixed bits back gives n modulo 2^k. */
  lemma {:induction false} ParseFixedBits(n: nat, k: nat)
    ensures ParseBinary(FixedBits(n, k)) == n % Pow2(k)
  {
    if k > 0 {
      var s := FixedBits(n, k);
      assert s[..k - 1] == FixedBits(n / 2, k - 1);
      ParseFixedBits(n / 2, k - 1);
      ModDouble(n, Pow2(k - 1));
    }
  }

  /** j + k fixed bits of n are the j bits above position k followed by the low k bits. */
  lemma {:induction false} SplitFixedBits(n: nat, j: nat, k: nat)
    ensures FixedBits(n, j + k) == FixedBits(Shr(n, k), j) + FixedBits(n, k)
  {
    if k > 0 {
      SplitFixedBits(n / 2, j, k - 1);
      assert FixedBits(n, j + k) == FixedBits(n / 2, j + (k - 1)) + [BitChar(n % 2)];
    }
  }

  /** Parsing a concatenation: the prefix is shifted left by the length of the suffix. */
  lemma {:induction false} ParseAppend(a: string, b: string)
    requires IsBinary(a) && IsBinary(b)
    ensures ParseBinary(a + b) == ParseBinary(a) * Pow2(|b|) + ParseBinary(b)
  {
    var ab := a + b;
    if b == [] {
      assert ab == a;
    } else {
      var b' := b[..|b| - 1];
      var last := if b[|b| - 1] == '1' then 1 else 0;
      assert ab[..|ab| - 1] == a + b';
      assert ParseBinary(ab) == 2 * ParseBinary(a + b') + last;
      assert ParseBinary(b) == 2 * ParseBinary(b') + last;
      assert Pow2(|b|) == 2 * Pow2(|b'|);
      ParseAppend(a, b');
      var pa, pb := ParseBinary(a), Pow2(|b'|);
      assert ParseBinary(ab) == 2 * (pa * pb + ParseBinary(b')) + last;
      DoubleFactor(pa, pb);
    }
  }

  lemma {:induction false} FixedBitsOfZero(m: nat)
    ensures FixedBits(0, m) == Zeros(m)
  {
    if m > 0 {
      FixedBitsOfZero(m - 1);
      assert Zeros(m) == Zeros(m - 1) + ['0'];
    }
  }

  /**
    For n < 2^k, zero-padding `n.toString(2)` to width k gives exactly the k
    fixed bits of n: ids with leading zero bits keep their width.
  */
  lemma {:induction false} PadToFixedBits(n: nat, k: nat)
    requires k >= 1 && n < Pow2(k)
    ensures |ToBinary(n)| <= k
    ensures PadStart(ToBinary(n), k) == FixedBits(n, k)
  {
    if n < 2 {
      FixedBitsOfZero(k - 1);
      assert FixedBits(n, k) == FixedBits(0, k - 1) + [BitChar(n)];
    } else {
      assert k >= 2;
      HalfBelow(n, Pow2(k - 1));
      PadToFixedBits(n / 2, k - 1);
      assert ToBinary(n) == ToBinary(n / 2) + [BitChar(n % 2)];
      assert FixedBits(n, k) == FixedBits(n / 2, k - 1) + [BitChar(n % 2)];
      var z := Zeros(k - |ToBinary(n)|);
      assert z == Zeros(k - 1 - |ToBinary(n / 2)|);
    }
  }
}
