/**
 * `Encryption`: key validation, the device-identity key, and the framing of
 * an encrypted value as Base64 text of `iv ‖ ciphertext`.
 */
module Encryption {
  import opened JavaLang
  import Utf8
  import Base64
  import Decimal
  import opened Cipher

  const DEFAULT_PROVIDER: string := "AndroidOpenSSL"
  const DEFAULT_ALGORITHM_MODE: string := "AES/CBC/PKCS5Padding"
  const LEGACY_ALGORITHM_MODE: string := "AES/CTR/PKCS5Padding"

  /** The key length in bytes: 128 bits. */
  const KEY_LENGTH: int := 128 / 8

  /** The message of the exception `android.util.Base64.decode` throws. */
  const BAD_BASE64: string := "bad base-64"

  /** `SecretKeySpec`: the raw key and the algorithm name it is meant for. */
  datatype SecretKeySpec = SecretKeySpec(key: seq<byte>, algorithm: string)

  function KeyLengthMessage(problem: string, length: int): string {
    "private key is too " + problem + ". Expected=" + Decimal.Show(KEY_LENGTH) + " but got=" + Decimal.Show(length)
  }

  /**
   * `createKeySpec`: a private key is accepted exactly when it is
   * `KEY_LENGTH` bytes long; otherwise `IllegalArgumentException` says
   * whether it is too short or too long.
   */
  function CreateKeySpec(algorithm: string, privateKey: seq<byte>): (r: Result<SecretKeySpec>)
    ensures r.Ok? <==> |privateKey| == KEY_LENGTH
    ensures r.Ok? ==> r.value.key == privateKey && r.value.algorithm == algorithm
    ensures r.Err? ==> r.error.IllegalArgument?
  {
    if |privateKey| < KEY_LENGTH then
      Err(IllegalArgument(KeyLengthMessage("short", |privateKey|)))
    else if |privateKey| > KEY_LENGTH then
      Err(IllegalArgument(KeyLengthMessage("long", |privateKey|)))
    else
      Ok(SecretKeySpec(privateKey, algorithm))
  }

  /**
   * A key given as a string is measured after UTF-8 encoding: it is accepted
   * exactly when its encoding is 16 bytes, and a 16-character key exactly
   * when all its characters are ASCII.
   */
  lemma StringKeyAccepted(algorithm: string, privateKey: string)
    ensures CreateKeySpec(algorithm, Utf8.Encode(privateKey)).Ok? <==> |Utf8.Encode(privateKey)| == KEY_LENGTH
    ensures Utf8.IsAscii(privateKey) ==> (CreateKeySpec(algorithm, Utf8.Encode(privateKey)).Ok? <==> |privateKey| == KEY_LENGTH)
    ensures |privateKey| == KEY_LENGTH ==> (CreateKeySpec(algorithm, Utf8.Encode(privateKey)).Ok? <==> Utf8.IsAscii(privateKey))
    ensures |privateKey| > KEY_LENGTH ==> CreateKeySpec(algorithm, Utf8.Encode(privateKey)).Err?
  {
    Utf8.EncodedLength(privateKey);
  }

  lemma ShowKeyLengths()
    ensures Decimal.Show(16) == "16" && Decimal.Show(17) == "17" && Decimal.Show(1) == "1"
  {
    assert Decimal.Digits(16) == Decimal.Digits(1) + [Decimal.DigitChar(6)];
    assert Decimal.Digits(17) == Decimal.Digits(1) + [Decimal.DigitChar(7)];
  }

  lemma ShortKeyMessage()
    ensures KeyLengthMessage("short", 1) == "private key is too short. Expected=16 but got=1"
  {
    ShowKeyLengths();
  }

  lemma LongKeyMessage()
    ensures KeyLengthMessage("long", 17) == "private key is too long. Expected=16 but got=17"
  {
    ShowKeyLengths();
  }

  lemma AsciiKeyLength(privateKey: string)
    requires Utf8.IsAscii(privateKey)
    ensures |Utf8.Encode(privateKey)| == |privateKey|
  {
    Utf8.EncodeAscii(privateKey);
  }

  /** The one-character key of the tests is too short. */
  lemma ShortKeyExample(algorithm: string)
    ensures CreateKeySpec(algorithm, Utf8.Encode("?")) == Err(IllegalArgument("private key is too short. Expected=16 but got=1"))
  {
    AsciiKeyLength("?");
    ShortKeyMessage();
  }

  /** `StringUtils.repeat(c, n)`, as the tests build their keys. */
  function Repeat(c: char, n: nat): (s: string)
    ensures |s| == n && forall i :: 0 <= i < n ==> s[i] == c
  {
    seq(n, _ => c)
  }

  /** `KEY_LENGTH + 1` dots, the key of the tests, are too long. */
  lemma LongKeyExample(algorithm: string)
    ensures CreateKeySpec(algorithm, Utf8.Encode(Repeat('.', KEY_LENGTH + 1)))
         == Err(IllegalArgument("private key is too long. Expected=16 but got=17"))
  {
    AsciiKeyLength(Repeat('.', KEY_LENGTH + 1));
    LongKeyMessage();
  }

  /**
   * What `getDefaultPrivateKey` computes from the UTF-8 bytes of ANDROID_ID
   * and the MD5 digest of the package name: the digest with its first
   * `|androidId|` bytes exclusive-or'ed with the ID's. Java assertions are off
   * on Android, so the length checks of the source do not run: a longer ID
   * runs off the end of the digest array.
   */
  function MixedKey(androidId: seq<byte>, packageDigest: seq<byte>): Result<seq<byte>>
  {
    if |androidId| > |packageDigest| then
      Err(ArrayIndexOutOfBounds(|packageDigest|))
    else
      Ok(seq(|packageDigest|, i requires 0 <= i < |packageDigest| =>
        if i < |androidId| then XorByte(packageDigest[i], androidId[i]) else packageDigest[i]))
  }

  /**
   * `getDefaultPrivateKey`: exclusive-ors ANDROID_ID into the package digest
   * in place. The platform lookups are the string arguments; MD5 is `md5`.
   */
  method GetDefaultPrivateKey(androidId: string, packageName: string, md5: seq<byte> -> seq<byte>)
    returns (r: Result<seq<byte>>)
    ensures r == MixedKey(Utf8.Encode(androidId), md5(Utf8.Encode(packageName)))
  {
    var id := Utf8.Encode(androidId);
    var digest := md5(Utf8.Encode(packageName));
    var packageDigest := new byte[|digest|](i requires 0 <= i < |digest| => digest[i]);
    var i := 0;
    while i < |id|
      invariant 0 <= i <= |id| && i <= packageDigest.Length
      invariant forall j :: 0 <= j < i ==> packageDigest[j] == XorByte(digest[j], id[j])
      invariant forall j :: i <= j < packageDigest.Length ==> packageDigest[j] == digest[j]
    {
      if i >= packageDigest.Length {
        return Err(ArrayIndexOutOfBounds(i));
      }
      packageDigest[i] := XorByte(packageDigest[i], id[i]);
      i := i + 1;
    }
    assert packageDigest[..] == MixedKey(id, digest).value;
    r := Ok(packageDigest[..]);
  }

  /**
   * With a 16-byte ID and a 16-byte digest the key is 16 bytes, byte `i`
   * is `digest[i] ^ androidId[i]`, and `createKeySpec` accepts it.
   */
  lemma MixedKeyShape(androidId: seq<byte>, packageDigest: seq<byte>, algorithm: string)
    requires |androidId| == KEY_LENGTH && |packageDigest| == KEY_LENGTH
    ensures MixedKey(androidId, packageDigest).Ok?
    ensures var key := MixedKey(androidId, packageDigest).value;
      |key| == KEY_LENGTH &&
      (forall i :: 0 <= i < KEY_LENGTH ==> key[i] == XorByte(packageDigest[i], androidId[i])) &&
      CreateKeySpec(algorithm, key).Ok?
  {
  }

  /** Mixing the ID in a second time gives the package digest back. */
  lemma {:induction false} MixedKeyUnmix(androidId: seq<byte>, packageDigest: seq<byte>)
    requires |androidId| == |packageDigest|
    ensures MixedKey(androidId, MixedKey(androidId, packageDigest).value) == Ok(packageDigest)
  {
    var key := MixedKey(androidId, packageDigest).value;
    assert |key| == |packageDigest|;
    var back := MixedKey(androidId, key).value;
    forall i | 0 <= i < |packageDigest| ensures back[i] == packageDigest[i] {
      XorCancel(packageDigest[i], androidId[i]);
    }
    assert back == packageDigest;
  }

  /**
   * For one device, distinct package digests give distinct keys: two apps
   * share a key only if MD5 maps their package names to the same digest.
   */
  lemma MixedKeyInjective(androidId: seq<byte>, digest1: seq<byte>, digest2: seq<byte>)
    requires |androidId| == |digest1| == |digest2|
    requires MixedKey(androidId, digest1) == MixedKey(androidId, digest2)
    ensures digest1 == digest2
  {
    MixedKeyUnmix(androidId, digest1);
    MixedKeyUnmix(androidId, digest2);
  }

  /**
   * Splits a decoded buffer as `decrypt` does: bytes `[0, KEY_LENGTH)` are the
   * IV and the rest the ciphertext. A shorter buffer makes `IvParameterSpec`
   * throw inside the `try`, which surfaces as `UnexpectedDecryptionStateException`.
   */
  function SplitFrame(buffer: seq<byte>): (r: Result<(seq<byte>, seq<byte>)>)
    ensures r.Ok? <==> |buffer| >= KEY_LENGTH
    ensures r.Ok? ==> |r.value.0| == KEY_LENGTH && r.value.0 + r.value.1 == buffer
    ensures r.Err? ==> r.error == UnexpectedDecryptionState
  {
    if |buffer| < KEY_LENGTH then Err(UnexpectedDecryptionState)
    else Ok((buffer[..KEY_LENGTH], buffer[KEY_LENGTH..]))
  }

  /**
   * `encrypt` frames with the cipher's IV length, `decrypt` splits at
   * `KEY_LENGTH`: the split recovers the IV and the ciphertext exactly when
   * the IV is `KEY_LENGTH` bytes long.
   */
  lemma SplitFrameRecovers(iv: seq<byte>, cipherText: seq<byte>)
    ensures SplitFrame(iv + cipherText) == Ok((iv, cipherText)) <==> |iv| == KEY_LENGTH
  {
    if |iv| == KEY_LENGTH {
      assert (iv + cipherText)[..KEY_LENGTH] == iv;
      assert (iv + cipherText)[KEY_LENGTH..] == cipherText;
    }
  }

  /**
   * The value `encrypt(plainText)` returns when the provider draws `iv`:
   * Base64 of `iv ‖ ciphertext`, or `UnexpectedEncryptionStateException`
   * when the cipher fails.
   */
  function EncryptBlob(t: Transformation, key: seq<byte>, iv: seq<byte>, plainText: string): Result<string>
  {
    match t.seal(key, iv, Utf8.Encode(plainText))
    case None => Err(UnexpectedEncryptionState)
    case Some(cipherText) => Ok(Base64.EncodeToString(iv + cipherText))
  }

  /**
   * The value `decrypt(encrypted)` returns. A Base64 failure happens before
   * the `try` and is not wrapped; every failure after it is
   * `UnexpectedDecryptionStateException`.
   */
  function DecryptBlob(t: Transformation, key: seq<byte>, encrypted: string): (r: Result<string>)
    ensures r.Err? ==> r.error == (if Base64.Decode(Utf8.Encode(encrypted)).None?
                                   then IllegalArgument(BAD_BASE64) else UnexpectedDecryptionState)
  {
    match Base64.Decode(Utf8.Encode(encrypted))
    case None => Err(IllegalArgument(BAD_BASE64))
    case Some(buffer) =>
      match SplitFrame(buffer)
      case Err(e) => Err(e)
      case Ok((iv, cipherText)) =>
        match t.open(key, iv, cipherText)
        case None => Err(UnexpectedDecryptionState)
        case Some(decrypted) => Ok(Utf8.Decode(decrypted))
  }

  /**
   * The exception hierarchy as the caller sees it: every failure of
   * `encrypt` is an `UnexpectedEncryptionStateException`, and a failure of
   * `decrypt` is an `UnexpectedStateException` exactly when the text was
   * valid Base64 (otherwise it is the decoder's `IllegalArgumentException`).
   */
  lemma FailuresAreUnexpectedStates(t: Transformation, key: seq<byte>, iv: seq<byte>, plainText: string, encrypted: string)
    ensures EncryptBlob(t, key, iv, plainText).Err? ==>
      EncryptBlob(t, key, iv, plainText).error == UnexpectedEncryptionState
      && EncryptBlob(t, key, iv, plainText).error.IsUnexpectedState()
    ensures DecryptBlob(t, key, encrypted).Err? ==>
      (DecryptBlob(t, key, encrypted).error.IsUnexpectedState() <==> Base64.Decode(Utf8.Encode(encrypted)).Some?)
  {
  }

  /** The UTF-8 bytes of the encoded text are the Base64 bytes themselves. */
  lemma EncodedTextBytes(buffer: seq<byte>)
    ensures Utf8.Encode(Base64.EncodeToString(buffer)) == Base64.Encode(buffer)
  {
    var text := Base64.EncodeToString(buffer);
    Base64.EncodeToStringBytes(buffer);
    assert Utf8.IsAscii(text);
    Utf8.EncodeAscii(text);
  }

  /**
   * `decrypt(encrypt(s)) == s` for every string, ASCII or not, provided the
   * cipher round-trips and its IV is `KEY_LENGTH` bytes long.
   */
  lemma DecryptEncrypt(t: Transformation, key: seq<byte>, iv: seq<byte>, plainText: string)
    requires RoundTrips(t) && |iv| == KEY_LENGTH
    requires EncryptBlob(t, key, iv, plainText).Ok?
    ensures DecryptBlob(t, key, EncryptBlob(t, key, iv, plainText).value) == Ok(plainText)
  {
    var plain := Utf8.Encode(plainText);
    var cipherText := t.seal(key, iv, plain).value;
    EncodedTextBytes(iv + cipherText);
    Base64.DecodeEncode(iv + cipherText);
    SplitFrameRecovers(iv, cipherText);
    Utf8.DecodeEncode(plainText);
  }

  /** The test's "foo" decodes to two bytes, too short for an IV. */
  lemma DecryptFoo(t: Transformation, key: seq<byte>)
    ensures DecryptBlob(t, key, "foo") == Err(UnexpectedDecryptionState)
  {
    assert Utf8.IsAscii("foo");
    Utf8.EncodeAscii("foo");
    assert Utf8.Encode("foo") == [102, 111, 111];
  }

  /**
   * `System.arraycopy(src, srcPos, dest, destPos, length)`: the source range
   * is read before anything is written, so an overlapping copy is exact.
   */
  method ArrayCopy(src: seq<byte>, srcPos: nat, dest: array<byte>, destPos: nat, length: nat)
    requires srcPos + length <= |src| && destPos + length <= dest.Length
    modifies dest
    ensures dest[..] == old(dest[..destPos]) + src[srcPos..srcPos + length] + old(dest[destPos + length..])
  {
    var k := 0;
    while k < length
      invariant 0 <= k <= length
      invariant forall j :: 0 <= j < destPos ==> dest[j] == old(dest[j])
      invariant forall j :: destPos <= j < destPos + k ==> dest[j] == src[srcPos + (j - destPos)]
      invariant forall j :: destPos + k <= j < dest.Length ==> dest[j] == old(dest[j])
    {
      dest[destPos + k] := src[srcPos + k];
      k := k + 1;
    }
    ghost var expected := old(dest[..destPos]) + src[srcPos..srcPos + length] + old(dest[destPos + length..]);
    forall j | 0 <= j < dest.Length ensures dest[j] == expected[j] {
      if j < destPos {
      } else if j < destPos + length {
      } else {
        assert expected[j] == old(dest[destPos + length..])[j - destPos - length];
      }
    }
    assert dest[..] == expected;
  }

  /** An `Encryption`: a cipher object and a validated key, both fixed for its lifetime. */
  class Encryption {
    const cipher: Cipher
    const secretKeySpec: SecretKeySpec

    /** `Encryption(Cipher, SecretKeySpec)`. */
    constructor (cipher: Cipher, secretKeySpec: SecretKeySpec)
      ensures this.cipher == cipher && this.secretKeySpec == secretKeySpec
    {
      this.cipher := cipher;
      this.secretKeySpec := secretKeySpec;
    }

    /** `Encryption(Cipher, byte[])`: validates the key first. */
    static method WithKeyBytes(cipher: Cipher, privateKey: seq<byte>) returns (r: Result<Encryption>)
      ensures r.Ok? <==> |privateKey| == KEY_LENGTH
      ensures r.Err? ==> r.error == CreateKeySpec(cipher.transformation.name, privateKey).error
      ensures r.Ok? ==> (fresh(r.value) && r.value.cipher == cipher
                         && r.value.secretKeySpec == SecretKeySpec(privateKey, cipher.transformation.name))
    {
      match CreateKeySpec(cipher.transformation.name, privateKey) {
        case Err(e) => r := Err(e);
        case Ok(spec) =>
          var encryption := new Encryption(cipher, spec);
          r := Ok(encryption);
      }
    }

    /** `Encryption(Cipher, String)`: the key is the string's UTF-8 bytes. */
    static method WithKeyString(cipher: Cipher, privateKey: string) returns (r: Result<Encryption>)
      ensures r.Ok? <==> |Utf8.Encode(privateKey)| == KEY_LENGTH
      ensures r.Ok? ==> (fresh(r.value) && r.value.cipher == cipher
                         && r.value.secretKeySpec.key == Utf8.Encode(privateKey))
    {
      r := WithKeyBytes(cipher, Utf8.Encode(privateKey));
    }

    /** `Encryption(Cipher, Context)`: the key is `getDefaultPrivateKey(context)`. */
    static method WithDeviceKey(cipher: Cipher, androidId: string, packageName: string, md5: seq<byte> -> seq<byte>)
      returns (r: Result<Encryption>)
      ensures var key := MixedKey(Utf8.Encode(androidId), md5(Utf8.Encode(packageName)));
        && (r.Ok? <==> key.Ok? && |key.value| == KEY_LENGTH)
        && (r.Ok? ==> fresh(r.value) && r.value.cipher == cipher && r.value.secretKeySpec.key == key.value)
    {
      var key := GetDefaultPrivateKey(androidId, packageName, md5);
      match key {
        case Err(e) => r := Err(e);
        case Ok(k) => r := WithKeyBytes(cipher, k);
      }
    }

    /**
     * `encrypt(plainText)`, with `randomIv` the IV the provider draws when
     * the cipher is initialised for encryption.
     */
    method Encrypt(plainText: string, randomIv: seq<byte>) returns (r: Result<string>)
      modifies cipher
      ensures r == EncryptBlob(cipher.transformation, secretKeySpec.key, randomIv, plainText)
    {
      cipher.Init(EncryptMode, secretKeySpec.key, randomIv);
      var encrypted := cipher.DoFinal(Utf8.Encode(plainText));
      if encrypted.None? {
        return Err(UnexpectedEncryptionState);
      }
      var iv := cipher.GetIV();
      var cipherText := encrypted.value;
      var buffer := new byte[|iv| + |cipherText|];
      ArrayCopy(iv, 0, buffer, 0, |iv|);
      ArrayCopy(cipherText, 0, buffer, |iv|, |cipherText|);
      assert buffer[..] == iv + cipherText;
      r := Ok(Base64.EncodeToString(buffer[..]));
    }

    /** `decrypt(encrypted)`: the result depends only on the key and the text. */
    method Decrypt(encrypted: string) returns (r: Result<string>)
      modifies cipher
      ensures r == DecryptBlob(cipher.transformation, secretKeySpec.key, encrypted)
    {
      var decoded := Base64.Decode(Utf8.Encode(encrypted));
      if decoded.None? {
        return Err(IllegalArgument(BAD_BASE64));
      }
      var buffer := decoded.value;
      if |buffer| < KEY_LENGTH {
        return Err(UnexpectedDecryptionState);
      }
      cipher.Init(DecryptMode, secretKeySpec.key, buffer[..KEY_LENGTH]);
      var decrypted := cipher.DoFinal(buffer[KEY_LENGTH..]);
      if decrypted.None? {
        return Err(UnexpectedDecryptionState);
      }
      r := Ok(Utf8.Decode(decrypted.value));
    }
  }
}
