/**
 * The `javax.crypto.Cipher` object the core drives. The block cipher itself
 * (AES in CBC or CTR mode with padding) is abstract: a `Transformation` is a
 * pair of functions that encrypt and decrypt a byte string under a key and
 * an initialisation vector, either of which may fail. What the core relies on
 * is stated as `RoundTrips`.
 */
module Cipher {
  import opened JavaLang

  /** The AES block size in bytes, which is also the IV length of CBC and CTR. */
  const BLOCK_SIZE: int := 16

  datatype OpMode = EncryptMode | DecryptMode

  /**
   * A cipher transformation such as "AES/CBC/PKCS5Padding": `seal(key, iv,
   * plain)` encrypts, `open(key, iv, cipherText)` decrypts; `None` stands for
   * the exception the provider throws (bad padding, bad length, bad key).
   */
  datatype Transformation = Transformation(
    name: string,
    seal: (seq<byte>, seq<byte>, seq<byte>) -> Option<seq<byte>>,
    open: (seq<byte>, seq<byte>, seq<byte>) -> Option<seq<byte>>)

  /**
   * The assumption made of the cipher: whatever it encrypts under a key and a
   * block-sized IV, it decrypts back under the same key and IV.
   */
  ghost predicate RoundTrips(t: Transformation) {
    forall key, iv, plain ::
      |iv| == BLOCK_SIZE && t.seal(key, iv, plain).Some? ==>
        t.open(key, iv, t.seal(key, iv, plain).value) == Some(plain)
  }

  /**
   * A `Cipher` object: a fixed transformation, and the mode, key and IV that
   * the latest `init` installed.
   */
  class Cipher {
    const transformation: Transformation
    var opmode: Option<OpMode>
    var key: seq<byte>
    var iv: seq<byte>

    constructor (transformation: Transformation)
      ensures this.transformation == transformation && opmode == None
    {
      this.transformation := transformation;
      opmode := None;
      key := [];
      iv := [];
    }

    /**
     * `init(opmode, key, ivSpec)`. For encryption `init(ENCRYPT_MODE, key)`
     * draws a random IV inside the provider; here that IV is the argument.
     */
    method Init(opmode: OpMode, key: seq<byte>, iv: seq<byte>)
      modifies this
      ensures this.opmode == Some(opmode) && this.key == key && this.iv == iv
    {
      this.opmode := Some(opmode);
      this.key := key;
      this.iv := iv;
    }

    /** `getIV()`. */
    function GetIV(): seq<byte>
      reads this
    {
      iv
    }

    /**
     * `doFinal(input)`: it encrypts or decrypts under the installed key and IV,
     * fails when `init` was never called, and leaves the cipher as it was.
     */
    method DoFinal(input: seq<byte>) returns (output: Option<seq<byte>>)
      ensures opmode.None? ==> output.None?
      ensures opmode == Some(EncryptMode) ==> output == transformation.seal(key, iv, input)
      ensures opmode == Some(DecryptMode) ==> output == transformation.open(key, iv, input)
    {
      match opmode {
        case None => output := None;
        case Some(EncryptMode) => output := transformation.seal(key, iv, input);
        case Some(DecryptMode) => output := transformation.open(key, iv, input);
      }
    }
  }
}
