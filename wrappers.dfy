/** Option and Result values shared by every module of the model. */
module Wrappers {
  datatype Option<T> = None | Some(value: T)
  {
    predicate IsSome() { Some? }

    function GetOr(default: T): (r: T)
      ensures Some? ==> r == value
      ensures None? ==> r == default
    {
      match this
      case Some(v) => v
      case None => default
    }
  }

  /** The outcome of an operation whose source reports failure with an error code or an exception. */
  datatype Result<T, E> = Ok(value: T) | Err(error: E)
}

/** Octets as the sources read and write them. */
module Bytes {
  type byte = x: int | 0 <= x < 256

  /** The four bytes of a non-negative 32-bit value, least significant first. */
  function LittleEndian32(n: nat): (b: seq<byte>)
    requires n < 0x1_0000_0000
    ensures |b| == 4
  {
    [n % 256, (n / 256) % 256, (n / 65536) % 256, n / 16777216]
  }

  /** The four bytes of a non-negative 32-bit value, most significant first. */
  function BigEndian32(n: nat): (b: seq<byte>)
    requires n < 0x1_0000_0000
    ensures |b| == 4
  {
    [n / 16777216, (n / 65536) % 256, (n / 256) % 256, n % 256]
  }

  /** The unsigned value of four bytes, least significant first. */
  function UnsignedLE(b: seq<byte>): (u: nat)
    requires |b| == 4
    ensures u < 0x1_0000_0000
  {
    b[0] as int + 256 * (b[1] as int) + 65536 * (b[2] as int) + 16777216 * (b[3] as int)
  }

  lemma LittleEndianRoundTrip(n: nat)
    requires n < 0x1_0000_0000
    ensures UnsignedLE(LittleEndian32(n)) == n
  {
    var b := LittleEndian32(n);
    assert n == n % 256 + 256 * (n / 256);
    assert n / 256 == (n / 256) % 256 + 256 * (n / 65536);
    assert n / 65536 == (n / 65536) % 256 + 256 * (n / 16777216);
  }

  /** Bytes read as text one character per byte, each character's code the byte's value. */
  function Chars(b: seq<byte>): (s: string)
    ensures |s| == |b|
    ensures forall k :: 0 <= k < |b| ==> s[k] as int == b[k]
  {
    seq(|b|, k requires 0 <= k < |b| => b[k] as char)
  }

  /** The unsigned value of four bytes, most significant first. */
  function UnsignedBE(b: seq<byte>): (u: nat)
    requires |b| == 4
    ensures u < 0x1_0000_0000
  {
    16777216 * (b[0] as int) + 65536 * (b[1] as int) + 256 * (b[2] as int) + b[3] as int
  }

  lemma BigEndianRoundTrip(n: nat)
    requires n < 0x1_0000_0000
    ensures UnsignedBE(BigEndian32(n)) == n
  {
    assert n == n % 256 + 256 * (n / 256);
    assert n / 256 == (n / 256) % 256 + 256 * (n / 65536);
    assert n / 65536 == (n / 65536) % 256 + 256 * (n / 16777216);
  }
}
