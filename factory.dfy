/**
 * The two factories' scheme check (MockDrmCryptoPlugin.cpp:39-48, 57-60).
 * Both `MockDrmFactory::isCryptoSchemeSupported` and
 * `MockCryptoFactory::isCryptoSchemeSupported` have the same body, modelled
 * once here.
 */
module MockFactory {
  import opened DrmTypes
  import opened ByteCompare

  /** The scheme identifier the mock plugin claims: bytes 0x01 through 0x10. */
  const MockUuid: seq<byte> := [0x01, 0x02, 0x03, 0x04, 0x05, 0x06, 0x07, 0x08,
                                0x09, 0x0a, 0x0b, 0x0c, 0x0d, 0x0e, 0x0f, 0x10]

  /**
   * The check as written: `memcmp(uuid, mock_uuid, sizeof(uuid))`.  The array
   * parameter decays to a pointer, so `sizeof(uuid)` is the pointer size k
   * (4 or 8 on the usual platforms), not 16.
   */
  function IsCryptoSchemeSupported(uuid: seq<byte>, k: nat): (r: bool)
    requires |uuid| == 16 && k <= 16
    ensures r <==> uuid[..k] == MockUuid[..k]
  {
    Memcmp(uuid, MockUuid, k) == 0
  }

  /** The mock scheme's own identifier is always accepted. */
  lemma MockUuidSupported(k: nat)
    requires k <= 16
    ensures IsCryptoSchemeSupported(MockUuid, k)
  {
  }

  /**
   * With fewer than 16 compared bytes, an identifier that differs from the
   * mock one in its last byte is accepted as well.
   */
  lemma ForeignUuidAccepted(k: nat)
    requires k < 16
    ensures MockUuid[..15] + [0x00] != MockUuid
    ensures IsCryptoSchemeSupported(MockUuid[..15] + [0x00], k)
  {
  }

  /** The evidently intended check: all 16 bytes compared. */
  function IsSchemeSupportedFull(uuid: seq<byte>): (r: bool)
    requires |uuid| == 16
    ensures r <==> uuid == MockUuid
  {
    assert uuid[..16] == uuid && MockUuid[..16] == MockUuid;
    Memcmp(uuid, MockUuid, 16) == 0
  }

  /** Comparing all 16 bytes, the check as written is the intended one. */
  lemma FullWidthCheckIsIntended(uuid: seq<byte>)
    requires |uuid| == 16
    ensures IsCryptoSchemeSupported(uuid, 16) <==> IsSchemeSupportedFull(uuid)
  {
  }
}
