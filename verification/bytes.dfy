/** Byte sequences and the integer codecs the instrument's frames use:
    big-endian unsigned and two's-complement readings of any length (Python's
    `int.from_bytes`), the shift-and-mask encoding the command builders use,
    and Python's clamping slice `s[i:j]`. */
module Bytes {

  /** One octet as the transport delivers it. */
  type byte = x: int | 0 <= x < 256

  /** 256 to the power n: the number of distinct n-byte strings. */
  function Pow256(n: nat): (r: nat)
    ensures r >= 1
    ensures n > 0 ==> r >= 256 && r % 2 == 0
  {
    if n == 0 then 1 else 256 * Pow256(n - 1)
  }

  /** Big-endian unsigned value of `s` (`int.from_bytes(s, 'big', signed=False)`);
      the empty sequence reads as 0. */
  function Unsigned(s: seq<byte>): (r: nat)
    ensures r < Pow256(|s|)
  {
    if |s| == 0 then 0
    else
      var hi := Unsigned(s[..|s| - 1]);
      assert hi + 1 <= Pow256(|s| - 1);
      assert (hi + 1) * 256 <= Pow256(|s| - 1) * 256;
      hi * 256 + s[|s| - 1]
  }

  /** Big-endian two's-complement value of `s`
      (`int.from_bytes(s, 'big', signed=True)`); the empty sequence reads as 0. */
  function Signed(s: seq<byte>): (r: int)
    ensures |s| == 0 ==> r == 0
    ensures |s| > 0 ==> -(Pow256(|s|) / 2) <= r < Pow256(|s|) / 2
    ensures r == Unsigned(s) || r == Unsigned(s) - Pow256(|s|)
  {
    var u := Unsigned(s);
    if |s| > 0 && 2 * u >= Pow256(|s|) then u - Pow256(|s|) else u
  }

  /** Bytes holding a value of the signed range modulo 256^n read back,
      as two's complement, as that value. */
  lemma SignedOfResidue(s: seq<byte>, v: int)
    requires |s| > 0 && -(Pow256(|s|) / 2) <= v < Pow256(|s|) / 2
    requires Unsigned(s) == v % Pow256(|s|)
    ensures Signed(s) == v
  {
    var p := Pow256(|s|);
    if v >= 0 {
      DivModUnique(v, p, 0, v);
    } else {
      DivModUnique(v, p, -1, v + p);
    }
  }

  /** The n low-order bytes of `v`, most significant first: the list
      `[(v >> 8*i) & 0xFF for i in range(n-1, -1, -1)]`. Python's `>>` floors
      and `& 0xFF` keeps the low byte, so a negative `v` is written in two's
      complement. */
  function ToBytes(v: int, n: nat): (r: seq<byte>)
    ensures |r| == n
    decreases n
  {
    if n == 0 then [] else ToBytes(v / 256, n - 1) + [v % 256]
  }

  /** Python's slice `s[i:j]` for non-negative bounds: out-of-range bounds
      are clamped and an inverted range is empty. */
  function Slice<T>(s: seq<T>, i: nat, j: nat): (r: seq<T>)
    ensures |r| == if i < j && i < |s| then (if j < |s| then j else |s|) - i else 0
    ensures forall k :: 0 <= k < |r| ==> r[k] == s[i + k]
  {
    if i >= |s| || j <= i then [] else if j <= |s| then s[i..j] else s[i..]
  }

  /** Division with remainder is unique: the witness of a Euclidean split is
      Dafny's `/` and `%`. */
  lemma DivModUnique(v: int, m: int, q: int, c: int)
    requires m > 0 && 0 <= c < m && v == m * q + c
    ensures v / m == q && v % m == c
  {
    var q' := v / m;
    var c' := v % m;
    assert v == m * q' + c';
    if q' < q {
      MulStrictMono(m, q', q);
    } else if q < q' {
      MulStrictMono(m, q, q');
    }
  }

  lemma MulStrictMono(m: int, a: int, b: int)
    requires m > 0 && a < b
    ensures m * a + m <= m * b
  {
    MulAtLeast(m, b - a);
    assert m * b - m * a == m * (b - a);
  }

  lemma {:induction false} MulAtLeast(m: nat, k: nat)
    requires k >= 1
    ensures m * k >= m
    decreases k
  {
    if k > 1 {
      MulAtLeast(m, k - 1);
      assert m * k == m * (k - 1) + m;
    }
  }

  /** Appending a low-order byte shifts the value by one byte. */
  lemma UnsignedSnoc(pre: seq<byte>, b: byte)
    ensures Unsigned(pre + [b]) == Unsigned(pre) * 256 + b
  {
    assert (pre + [b])[..|pre|] == pre;
  }

  /** Reducing modulo 256*p splits into the low byte and the rest modulo p. */
  lemma ModSplit(v: int, p: nat)
    requires p >= 1
    ensures v % (256 * p) == ((v / 256) % p) * 256 + v % 256
    ensures v / (256 * p) == (v / 256) / p
  {
    var q := v / 256;
    var c := v % 256;
    var a := q / p;
    var low := (q % p) * 256 + c;
    assert q == p * a + q % p;
    assert v == 256 * q + c;
    assert 256 * q == (256 * p) * a + (q % p) * 256;
    assert low < 256 * p by {
      assert q % p + 1 <= p;
      assert (q % p + 1) * 256 <= p * 256;
    }
    DivModUnique(v, 256 * p, a, low);
  }

  /** The encoder keeps exactly the value modulo 256^n. */
  lemma {:induction false} UnsignedOfToBytes(v: int, n: nat)
    ensures Unsigned(ToBytes(v, n)) == v % Pow256(n)
    decreases n
  {
    if n == 0 {
      assert v % 1 == 0;
    } else {
      UnsignedOfToBytes(v / 256, n - 1);
      UnsignedSnoc(ToBytes(v / 256, n - 1), v % 256);
      ModSplit(v, Pow256(n - 1));
    }
  }

  /** Byte k of the encoding is `(v >> 8*(n-1-k)) & 0xFF`, the shift-and-mask
      form the command builders write. */
  lemma {:induction false} ToBytesShifts(v: int, n: nat, k: nat)
    requires k < n
    ensures ToBytes(v, n)[k] == (v / Pow256(n - 1 - k)) % 256
    decreases n
  {
    if k < n - 1 {
      ToBytesShifts(v / 256, n - 1, k);
      ModSplit(v, Pow256(n - 2 - k));
    }
  }

  /** Decoding and re-encoding at the same width gives back the bytes. */
  lemma {:induction false} ToBytesOfUnsigned(s: seq<byte>)
    ensures ToBytes(Unsigned(s), |s|) == s
  {
    if |s| > 0 {
      var pre := s[..|s| - 1];
      var u := Unsigned(s);
      DivModUnique(u, 256, Unsigned(pre), s[|s| - 1]);
      ToBytesOfUnsigned(pre);
      assert s == pre + [s[|s| - 1]];
    }
  }

  /** Round trip of the encoder for a value that fits in n bytes. */
  lemma ToBytesRoundTrip(v: int, n: nat)
    requires 0 <= v < Pow256(n)
    ensures Unsigned(ToBytes(v, n)) == v
  {
    UnsignedOfToBytes(v, n);
    DivModUnique(v, Pow256(n), 0, v);
  }

  /** Unsigned reading of a two-byte big-endian field. */
  lemma UnsignedPair(hi: byte, lo: byte)
    ensures Unsigned([hi, lo]) == hi * 256 + lo
  {
    assert [hi, lo][..1] == [hi];
    assert [hi][..0] == [];
  }
}
