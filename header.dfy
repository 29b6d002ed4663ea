/**
 * The length prefix of a safetensors file, line 22 of scripts/loras.py:
 * The script reads the first eight bytes of a file as an unsigned 64-bit little-endian
 * integer (format `<Q`), and then reads at most that many bytes as the JSON header.
 */
module Header {
  import opened Base

  type byte = x: int | 0 <= x < 256

  /** The unpacking fails: the file holds fewer than eight bytes. */
  datatype HeaderError = TruncatedHeader

  function Pow256(k: nat): (r: nat)
    ensures r >= 1
  {
    if k == 0 then 1 else 256 * Pow256(k - 1)
  }

  /** The value of `b` read least significant byte first. */
  function LittleEndian(b: seq<byte>): (r: nat)
    ensures r < Pow256(|b|)
  {
    if |b| == 0 then 0 else b[0] + 256 * LittleEndian(b[1..])
  }

  /** The sum of b[i] * 256^i over the positions of `b`. */
  function WeightedSum(b: seq<byte>): nat
  {
    if |b| == 0 then 0 else WeightedSum(b[..|b| - 1]) + b[|b| - 1] * Pow256(|b| - 1)
  }

  /** `k` bytes holding `n`, least significant first. */
  function LittleEndianBytes(n: nat, k: nat): (r: seq<byte>)
    ensures |r| == k
  {
    if k == 0 then [] else [n % 256] + LittleEndianBytes(n / 256, k - 1)
  }

  lemma Distribute(x: int, w: int, y: int, p: int)
    ensures x + 256 * w + y * (256 * p) == x + 256 * (w + y * p)
  {
  }

  lemma {:induction false} WeightedSumPrepend(x: byte, b: seq<byte>)
    ensures WeightedSum([x] + b) == x + 256 * WeightedSum(b)
    decreases |b|
  {
    if |b| > 0 {
      var c := [x] + b;
      var b', y := b[..|b| - 1], b[|b| - 1];
      assert c[..|c| - 1] == [x] + b';
      assert c[|c| - 1] == y;
      WeightedSumPrepend(x, b');
      assert WeightedSum(c) == x + 256 * WeightedSum(b') + y * Pow256(|b|);
      assert WeightedSum(b) == WeightedSum(b') + y * Pow256(|b'|);
      Distribute(x, WeightedSum(b'), y, Pow256(|b'|));
    } else {
      assert ([x] + b)[..0] == [];
    }
  }

  /** Reading little-endian is the positional sum of the bytes. */
  lemma {:induction false} LittleEndianIsWeightedSum(b: seq<byte>)
    ensures LittleEndian(b) == WeightedSum(b)
    decreases |b|
  {
    if |b| > 0 {
      LittleEndianIsWeightedSum(b[1..]);
      WeightedSumPrepend(b[0], b[1..]);
      assert [b[0]] + b[1..] == b;
    }
  }

  /** Encoding then decoding gives back every number that fits in `k` bytes. */
  lemma {:induction false} DecodeEncode(n: nat, k: nat)
    requires n < Pow256(k)
    ensures LittleEndian(LittleEndianBytes(n, k)) == n
    decreases k
  {
    if k > 0 {
      DecodeEncode(n / 256, k - 1);
      assert LittleEndianBytes(n, k)[1..] == LittleEndianBytes(n / 256, k - 1);
    }
  }

  /** Decoding then encoding gives back the bytes: each value has exactly one encoding. */
  lemma {:induction false} EncodeDecode(b: seq<byte>)
    ensures LittleEndianBytes(LittleEndian(b), |b|) == b
    decreases |b|
  {
    if |b| > 0 {
      var n := LittleEndian(b);
      assert n % 256 == b[0] && n / 256 == LittleEndian(b[1..]);
      EncodeDecode(b[1..]);
      assert [b[0]] + b[1..] == b;
    }
  }

  lemma Pow256Eight()
    ensures Pow256(8) == 0x1_0000_0000_0000_0000
  {
    assert Pow256(4) == 0x1_0000_0000 by {
      assert Pow256(2) == 0x1_0000;
    }
    assert Pow256(8) == Pow256(4) * Pow256(4) by {
      assert Pow256(8) == 256 * 256 * 256 * 256 * Pow256(4);
    }
  }

  /**
   * The header length: an error when the file is shorter than eight bytes, and otherwise
   * the unsigned 64-bit number whose little-endian encoding is the first eight bytes.
   */
  function HeaderLength(contents: seq<byte>): (r: Result<nat, HeaderError>)
    ensures r.Err? <==> |contents| < 8
    ensures r.Ok? ==> r.value < 0x1_0000_0000_0000_0000
    ensures r.Ok? ==> LittleEndianBytes(r.value, 8) == contents[..8]
    ensures r.Ok? ==> r.value == WeightedSum(contents[..8])
  {
    if |contents| < 8 then Err(TruncatedHeader)
    else
      var n := LittleEndian(contents[..8]);
      Pow256Eight();
      EncodeDecode(contents[..8]);
      LittleEndianIsWeightedSum(contents[..8]);
      Ok(n)
  }

  /** The read after the prefix: at most `length` bytes, fewer at the end of the file. */
  function HeaderBytes(contents: seq<byte>, length: nat): (r: seq<byte>)
    requires |contents| >= 8
    ensures |r| == Min(length, |contents| - 8)
    ensures r == contents[8..8 + |r|]
  {
    contents[8..8 + Min(length, |contents| - 8)]
  }

  /** A file that starts with the encoding of `n` declares a header of length `n`. */
  lemma HeaderLengthOfEncoding(n: nat, rest: seq<byte>)
    requires n < 0x1_0000_0000_0000_0000
    ensures HeaderLength(LittleEndianBytes(n, 8) + rest) == Ok(n)
  {
    Pow256Eight();
    DecodeEncode(n, 8);
    assert (LittleEndianBytes(n, 8) + rest)[..8] == LittleEndianBytes(n, 8);
  }
}
