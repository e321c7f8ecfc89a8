/** The deployment salt of a pool: its id in big-endian order at the end of 32 bytes. */
module FactorySalt {
  import opened Host

  const SALT_LENGTH: nat := 32

  function BigEndian(id: u32): seq<byte> {
    [id / 0x100_0000, id / 0x1_0000 % 0x100, id / 0x100 % 0x100, id % 0x100]
  }

  function Salt(id: u32): (salt: seq<byte>)
    ensures |salt| == SALT_LENGTH
  {
    seq(28, _ => 0) + BigEndian(id)
  }

  /** Reads an id back from a salt. */
  function IdOfSalt(salt: seq<byte>): int
    requires |salt| == SALT_LENGTH
  {
    (salt[28] as int) * 0x100_0000 + (salt[29] as int) * 0x1_0000 + (salt[30] as int) * 0x100 + (salt[31] as int)
  }

  lemma BytesSpellId(id: u32)
    ensures id == id / 0x100_0000 * 0x100_0000 + id / 0x1_0000 % 0x100 * 0x1_0000
                  + id / 0x100 % 0x100 * 0x100 + id % 0x100
  {
    var high, mid := id / 0x1_0000, id / 0x100;
    assert mid / 0x100 == high && high / 0x100 == id / 0x100_0000;
    assert id == mid * 0x100 + id % 0x100;
    assert mid == high * 0x100 + mid % 0x100;
    assert high == high / 0x100 * 0x100 + high % 0x100;
  }

  /** The id is read back from the last four bytes, and the other 28 are zero. */
  lemma SaltRoundTrip(id: u32)
    ensures IdOfSalt(Salt(id)) == id
    ensures forall k :: 0 <= k < 28 ==> Salt(id)[k] == 0
  {
    var bytes := BigEndian(id);
    BytesSpellId(id);
    assert Salt(id)[28] == bytes[0] && Salt(id)[29] == bytes[1] && Salt(id)[30] == bytes[2] && Salt(id)[31] == bytes[3];
  }

  /** Distinct pools get distinct salts, hence distinct addresses. */
  lemma SaltInjective(id: u32, other: u32)
    ensures Deployed(Salt(id)) == Deployed(Salt(other)) ==> id == other
  {
    SaltRoundTrip(id);
    SaltRoundTrip(other);
  }

  /** `pool_salt`: a zeroed buffer whose last four bytes are overwritten. */
  method PoolSalt(id: u32) returns (salt: seq<byte>)
    ensures salt == Salt(id)
  {
    var bytes := new byte[SALT_LENGTH](_ => 0);
    var encoded := BigEndian(id);
    for i := 0 to 4
      invariant forall k :: 0 <= k < SALT_LENGTH ==> bytes[k] == if 28 <= k < 28 + i then encoded[k - 28] else 0
    {
      bytes[28 + i] := encoded[i];
    }
    salt := bytes[..];
    assert salt == Salt(id);
  }
}
