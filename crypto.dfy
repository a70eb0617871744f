/** The stateless crypto plugin (MockDrmCryptoPlugin.cpp:372-392). */
module MockCrypto {

  /** The mock crypto plugin never asks for a secure decoder, whatever the MIME type. */
  function RequiresSecureDecoderComponent(mime: string): (r: bool)
    ensures !r
  {
    false
  }
}
