/**
 * The stored-block codec behind the cache (backend/src/cache.rs): one
 * uncompressed block as in section 3.2.4 of RFC 1951, with a 16-bit length.
 */
module StoredBlock {

  import opened Wrappers

  type byte = b: int | 0 <= b < 256

  const WORD: nat := 65536

  /** The two bytes of a 16-bit number, low byte first. */
  function LowFirst(n: nat): seq<byte>
    requires n < WORD
  {
    [n % 256, n / 256]
  }

  function FromLowFirst(lo: byte, hi: byte): nat {
    lo + 256 * hi
  }

  function Complement(n: nat): nat
    requires n < WORD
  {
    WORD - 1 - n
  }

  /** The length is cast to 16 bits; the data is not cut. */
  function Compress(data: seq<byte>): seq<byte> {
    var len := |data| % WORD;
    [1] + LowFirst(len) + LowFirst(Complement(len)) + data
  }

  function Decompress(data: seq<byte>): Option<seq<byte>> {
    if |data| < 5 then None
    else
      var len := FromLowFirst(data[1], data[2]);
      var nlen := FromLowFirst(data[3], data[4]);
      if len != Complement(nlen) then None
      else if |data| < 5 + len then None
      else Some(data[5..5 + len])
  }

  /** A final stored block: its length, low byte first, then the complement of each byte, then the data. */
  lemma BlockIs(data: seq<byte>)
    ensures
      var block := Compress(data);
      && |block| == 5 + |data| && block[5..] == data && block[0] == 1
      && block[1] as int + 256 * block[2] as int == |data| % 65536
      && block[3] == 255 - block[1] && block[4] == 255 - block[2]
  {
  }

  /** A block is read exactly when its length and complement agree and that much data follows. */
  lemma DecompressExactly(block: seq<byte>)
    ensures
      if |block| < 5 then Decompress(block) == None
      else
        var length := block[1] as int + 256 * block[2] as int;
        var good := block[3] == 255 - block[1] && block[4] == 255 - block[2] && |block| >= 5 + length;
        Decompress(block) == if good then Some(block[5..5 + length]) else None
  {
  }

  /** Only the length modulo 65536 survives, so the round trip is exact up to 65535 bytes and no further. */
  lemma CodecRoundTrip(data: seq<byte>)
    ensures Decompress(Compress(data)) == Some(data[..|data| % 65536])
    ensures Decompress(Compress(data)) == Some(data) <==> |data| < 65536
  {
    var block, len := Compress(data), |data| % WORD;
    assert block[1] == len % 256 && block[2] == len / 256;
    assert block[3] == Complement(len) % 256 && block[4] == Complement(len) / 256;
    assert block[5..5 + len] == data[..len];
    if |data| < WORD {
      assert data[..len] == data;
    } else {
      assert |data[..len]| < |data|;
    }
  }

  datatype Stored = Raw(bytes: seq<byte>) | Compressed(bytes: seq<byte>)

  function Encode(value: seq<byte>, threshold: nat): Stored {
    if |value| >= threshold then Compressed(Compress(value)) else Raw(value)
  }

  function Decode(stored: Stored): Option<seq<byte>> {
    match stored
    case Raw(bytes) => Some(bytes)
    case Compressed(bytes) => Decompress(bytes)
  }

  /** What a reader gets back for a value written under a compression threshold. */
  function Kept(value: seq<byte>, threshold: nat): seq<byte> {
    if |value| >= threshold then value[..|value| % WORD] else value
  }

  lemma EncodeRoundTrip(value: seq<byte>, threshold: nat)
    ensures Decode(Encode(value, threshold)) == Some(Kept(value, threshold))
    ensures Kept(value, threshold) == value <==> |value| < threshold || |value| < 65536
    ensures Encode(value, threshold).Compressed? <==> |value| >= threshold
  {
    CodecRoundTrip(value);
  }
}
