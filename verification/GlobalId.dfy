/** Global package ids: 16 bits of shard, 48 bits of local id (internal/globalid/id.go). */
module GlobalId {

  const TWO_16: int := 0x1_0000
  const TWO_48: int := 0x1_0000_0000_0000
  const TWO_63: int := 0x8000_0000_0000_0000
  const TWO_64: int := 0x1_0000_0000_0000_0000

  /** uint64(x) for a Go int or int64. */
  function ToU64(x: int): (u: int)
    ensures 0 <= u < TWO_64
  {
    x % TWO_64
  }

  /** int64(u): the upper half becomes negative. */
  function ToI64(u: int): int
    requires 0 <= u < TWO_64
  {
    if u < TWO_63 then u else u - TWO_64
  }

  /** The shifted shard and the masked local id share no bit, so | adds them. */
  function Encode(shardID: int, localID: int): (g: int)
    ensures -TWO_63 <= g < TWO_63
  {
    ToI64((ToU64(shardID) * TWO_48) % TWO_64 + ToU64(localID) % TWO_48)
  }

  function Decode(globalID: int): (r: (int, int))
    ensures 0 <= r.0 < TWO_16 && 0 <= r.1 < TWO_48
  {
    (ToU64(globalID) / TWO_48, ToU64(globalID) % TWO_48)
  }

  /** Decoding an encoded pair gives it back exactly when both parts fit their fields. */
  lemma DecodeOfEncode(shardID: int, localID: int)
    ensures Decode(Encode(shardID, localID)) == (shardID, localID) <==>
      0 <= shardID < TWO_16 && 0 <= localID < TWO_48
  {
    if 0 <= shardID < TWO_16 && 0 <= localID < TWO_48 {
      assert ToU64(shardID) == shardID && ToU64(localID) == localID;
      assert ToU64(Encode(shardID, localID)) == shardID * TWO_48 + localID;
    }
  }

  /** Every 64-bit id is the encoding of its two parts. */
  lemma EncodeOfDecode(globalID: int)
    requires -TWO_63 <= globalID < TWO_63
    ensures var (s, l) := Decode(globalID); Encode(s, l) == globalID
  {
    var (s, l) := Decode(globalID);
    assert ToU64(s) == s && ToU64(l) == l;
    assert s * TWO_48 + l == ToU64(globalID);
    assert (s * TWO_48) % TWO_64 == s * TWO_48;
  }
}
