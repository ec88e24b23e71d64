/** Bytes and the 4-byte rounding used by both binary formats. */
module ByteSeqs {

  type Byte = x: int | 0 <= x < 256

  function Align4(n: nat): (r: nat)
    ensures n <= r < n + 4 && r % 4 == 0
  {
    (n + 3) / 4 * 4
  }

  function Zeros(n: nat): (r: seq<Byte>)
    ensures |r| == n
  {
    seq(n, _ => 0)
  }

  /** Filled up with NUL bytes to length `n`. */
  function Padded(s: seq<Byte>, n: nat): (r: seq<Byte>)
    ensures |r| == if |s| <= n then n else |s|
    ensures r[..|s|] == s
  {
    s + Zeros(if |s| <= n then n - |s| else 0)
  }

  /** The bytes of a text of ASCII characters. */
  function Ascii(text: string): (r: seq<Byte>)
    requires forall i :: 0 <= i < |text| ==> text[i] < 128 as char
    ensures |r| == |text|
  {
    seq(|text|, i requires 0 <= i < |text| => text[i] as int)
  }
}
