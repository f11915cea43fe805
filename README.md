# Encrypted shared preferences, modelled in Dafny

This project models two classes of an Android library that stores
application preferences encrypted.

`Encryption` turns a text into an opaque blob and back:

- The private key is validated to be exactly `KEY_LENGTH` = 16 bytes.
- A key given as a string is measured after UTF-8 encoding.
- A device key can be derived by exclusive-or'ing the device's ANDROID_ID into the MD5 digest of the package name.
- `encrypt` encrypts the UTF-8 bytes of the text. It frames the result as `iv ‖ ciphertext` and Base64-encodes the frame without line breaks.
- `decrypt` Base64-decodes the text and takes the first 16 bytes as the IV. It decrypts the rest.
- Any cipher failure is wrapped in `UnexpectedDecryptionStateException` (for `encrypt`, `UnexpectedEncryptionStateException`).

`EncryptedSharedPreferences` decorates a `SharedPreferences` store:

- Every value is written as the encrypted text of its string form.
- Every value is decrypted and parsed on the way out. A missing key yields the caller's default.
- `getAll` decrypts the whole store.
- Change listeners are wrapped so that callbacks report the decorator, not the base store.

The files:

- **`java_lang.dfy`**: Java bytes and fixed-width integers, the byte-wise exclusive-or, nullable values as `Option`, and the exceptions as values of a `Result`.
- **`utf8.dfy`**: UTF-8 as in section 3 of RFC 3629. The decoder replaces each maximal ill-formed subpart with U+FFFD, as Java's does.
- **`base64.dfy`**: the "base64" encoding of section 4 of RFC 4648 with padding, as `android.util.Base64` with `NO_WRAP` applies it.
- **`decimal.dfy`**: `String.valueOf` and `Integer.parseInt`, `Long.parseLong` and `Boolean.parseBoolean`.
- **`cipher.dfy`**: the `javax.crypto.Cipher` object.
  - Its transformation is abstract: a pair of functions that encrypt and decrypt under a key and an IV, either of which may fail.
  - `RoundTrips` states the one thing assumed of the cipher: whatever it encrypts with a 16-byte IV, it decrypts back.
- **`encryption.dfy`**: `Encryption` itself.
- **`encrypted_shared_preferences.dfy`**: the decorator, its editor, and the listener table.
  - The base store is a map from keys to optional strings, plus the set of listener wrappers registered on it.
  - The base editor is a list of pending edits that a commit applies in order.

Three points where the code behaves in a way that is easy to miss:

- **Key derivation with Java assertions off.** The code checks that ANDROID_ID and the digest are 16 bytes with `assert`, which does not run on Android.
  - `MixedKey` follows the loop bound instead.
  - A shorter ID leaves the rest of the digest as it is.
  - A longer one runs off the end of the array (`ArrayIndexOutOfBoundsException`).
- **Decoded length.** The framing rejects only blobs shorter than 16 bytes. `IvParameterSpec` accepts a blob of exactly 16 bytes, and the cipher then receives an empty ciphertext and decides (Encryption.java:171-173).
- **Malformed Base64.** Such input fails with the decoder's `IllegalArgumentException("bad base-64")`. That call sits before the `try`, so the exception is not wrapped in a decryption exception.

## Model

| member | source | states |
|---|---|---|
| JavaLang.XorCancel | lib/src/main/java/com/github/gfx/util/encrypt/Encryption.java:81-83 | `(a ^ b) ^ b == a`: mixing the same bytes in twice undoes the mix |
| JavaLang.XorInjective | lib/src/main/java/com/github/gfx/util/encrypt/Encryption.java:81-83 | for a fixed right operand, `^` is injective in its left operand |
| Utf8.DecodeEncode | lib/src/main/java/com/github/gfx/util/encrypt/Encryption.java:153-177 | `new String(s.getBytes(UTF_8), UTF_8) == s` for every well-formed string, multi-byte ones included |
| Utf8.EncodeAscii | lib/src/main/java/com/github/gfx/util/encrypt/Encryption.java:135 | an ASCII string encodes to its character codes, one byte each |
| Utf8.EncodedLength | lib/src/main/java/com/github/gfx/util/encrypt/Encryption.java:135 | a string takes at least one byte per character, and exactly one per character iff it is ASCII |
| Base64.EncodeLength | lib/src/main/java/com/github/gfx/util/encrypt/Encryption.java:162 | the encoding has four symbols per started group of three bytes |
| Base64.EncodeAlphabet | lib/src/main/java/com/github/gfx/util/encrypt/Encryption.java:162 | the encoding holds only alphabet symbols and `=`, so there is no line break |
| Base64.DecodeEncode | lib/src/main/java/com/github/gfx/util/encrypt/Encryption.java:162-167 | decoding the encoding of any byte string gives that byte string back |
| Base64.EncodeToStringBytes | lib/src/main/java/com/github/gfx/util/encrypt/Encryption.java:162-167 | the encoded string is ASCII and its character codes are the encoded bytes |
| Decimal.DigitsValueOfDigits | lib/src/main/java/com/github/gfx/util/encrypt/EncryptedSharedPreferences.java:175 | reading back the decimal numeral of `n` gives `n` |
| Decimal.ParseShow | lib/src/main/java/com/github/gfx/util/encrypt/EncryptedSharedPreferences.java:88-97 | parsing `String.valueOf(v)` gives `v` when it is in range, and `NumberFormatException` otherwise |
| Decimal.ParseIntShow | lib/src/main/java/com/github/gfx/util/encrypt/EncryptedSharedPreferences.java:174-177 | `Integer.parseInt(String.valueOf(v)) == v` for every `int` |
| Decimal.ParseLongShow | lib/src/main/java/com/github/gfx/util/encrypt/EncryptedSharedPreferences.java:180-183 | `Long.parseLong(String.valueOf(v)) == v` for every `long` |
| Decimal.ParseBooleanShow | lib/src/main/java/com/github/gfx/util/encrypt/EncryptedSharedPreferences.java:192-195 | `Boolean.parseBoolean(String.valueOf(b)) == b` |
| Cipher.Cipher.constructor | lib/src/main/java/com/github/gfx/util/encrypt/Encryption.java:53-69 | a cipher obtained from the provider has its transformation and is not yet initialised |
| Cipher.Cipher.Init | lib/src/main/java/com/github/gfx/util/encrypt/Encryption.java:152 | `init` installs the mode, key and IV, and nothing else |
| Cipher.Cipher.DoFinal | lib/src/main/java/com/github/gfx/util/encrypt/Encryption.java:153 | `doFinal` encrypts or decrypts according to the installed mode, key and IV, and fails when the cipher is uninitialised |
| Encryption.CreateKeySpec | lib/src/main/java/com/github/gfx/util/encrypt/Encryption.java:99-108 | a key is accepted iff it is 16 bytes, and keeps the key and the cipher's algorithm; otherwise the result is `IllegalArgumentException` |
| Encryption.StringKeyAccepted | lib/src/main/java/com/github/gfx/util/encrypt/Encryption.java:134-136 | a well-formed string key is accepted iff its UTF-8 encoding is 16 bytes; a 16-character key iff it is ASCII; a longer one never |
| Encryption.ShortKeyExample | lib/src/main/java/com/github/gfx/util/encrypt/Encryption.java:100-102 | the key "?" fails with "private key is too short. Expected=16 but got=1" |
| Encryption.LongKeyExample | lib/src/main/java/com/github/gfx/util/encrypt/Encryption.java:103-105 | a 17-dot key fails with "private key is too long. Expected=16 but got=17" |
| Encryption.GetDefaultPrivateKey | lib/src/main/java/com/github/gfx/util/encrypt/Encryption.java:72-85 | the in-place loop computes `MixedKey` of the UTF-8 ANDROID_ID and the package digest |
| Encryption.MixedKeyShape | lib/src/main/java/com/github/gfx/util/encrypt/Encryption.java:76-84 | with a 16-byte ID and digest, the key is 16 bytes, byte `i` is `digest[i] ^ id[i]`, and `createKeySpec` accepts it |
| Encryption.MixedKeyUnmix | lib/src/main/java/com/github/gfx/util/encrypt/Encryption.java:81-83 | mixing the ID into the derived key again gives back the package digest |
| Encryption.MixedKeyInjective | lib/src/main/java/com/github/gfx/util/encrypt/Encryption.java:78-84 | on one device, different package digests give different keys |
| Encryption.SplitFrame | lib/src/main/java/com/github/gfx/util/encrypt/Encryption.java:171-173 | a buffer splits iff it has at least 16 bytes, into a 16-byte IV and the rest, which concatenate back to the buffer; otherwise `UnexpectedDecryptionStateException` |
| Encryption.SplitFrameRecovers | lib/src/main/java/com/github/gfx/util/encrypt/Encryption.java:157-173 | splitting `iv ‖ ciphertext` gives back exactly `iv` and `ciphertext` iff the IV is 16 bytes |
| Encryption.DecryptBlob | lib/src/main/java/com/github/gfx/util/encrypt/Encryption.java:165-178 | a failed decryption is `IllegalArgumentException("bad base-64")` iff the text is not Base64, and `UnexpectedDecryptionStateException` otherwise |
| Encryption.FailuresAreUnexpectedStates | lib/src/main/java/com/github/gfx/util/encrypt/Encryption.java:180-199 | every `encrypt` failure is an `UnexpectedStateException`; a `decrypt` failure is one iff the text was valid Base64 |
| Encryption.EncodedTextBytes | lib/src/main/java/com/github/gfx/util/encrypt/Encryption.java:162-167 | the UTF-8 bytes of the Base64 text are the Base64 bytes themselves |
| Encryption.DecryptEncrypt | lib/src/main/java/com/github/gfx/util/encrypt/Encryption.java:147-178 | `decrypt(encrypt(s)) == s` for every well-formed string, given a round-tripping cipher and a 16-byte IV |
| Encryption.DecryptFoo | lib/src/main/java/com/github/gfx/util/encrypt/Encryption.java:167-176 | `decrypt("foo")` fails with `UnexpectedDecryptionStateException` whatever the cipher and key |
| Encryption.ArrayCopy | lib/src/main/java/com/github/gfx/util/encrypt/Encryption.java:159-161 | `System.arraycopy` replaces exactly the destination range with the source range and keeps the rest |
| Encryption.Encryption.constructor | lib/src/main/java/com/github/gfx/util/encrypt/Encryption.java:142-145 | the object keeps the given cipher and key spec |
| Encryption.Encryption.WithKeyBytes | lib/src/main/java/com/github/gfx/util/encrypt/Encryption.java:138-140 | construction succeeds iff the key is 16 bytes, otherwise it throws `createKeySpec`'s exception |
| Encryption.Encryption.WithKeyString | lib/src/main/java/com/github/gfx/util/encrypt/Encryption.java:134-136 | construction succeeds iff the key's UTF-8 encoding is 16 bytes, and the key is that encoding |
| Encryption.Encryption.WithDeviceKey | lib/src/main/java/com/github/gfx/util/encrypt/Encryption.java:130-132 | the key is the derived device key, so two instances built from the same device and package share it |
| Encryption.Encryption.Encrypt | lib/src/main/java/com/github/gfx/util/encrypt/Encryption.java:147-163 | the result is the Base64 text of `iv ‖ ciphertext` for the IV the cipher drew, or `UnexpectedEncryptionStateException` |
| Encryption.Encryption.Decrypt | lib/src/main/java/com/github/gfx/util/encrypt/Encryption.java:165-178 | the result is `DecryptBlob` of the key and the text alone, so decrypting twice gives the same answer |
| EncryptedSharedPreferences.DefaultPreferenceName | lib/src/main/java/com/github/gfx/util/encrypt/EncryptedSharedPreferences.java:19-21 | the name is the package name followed by "_preferences_encrypted" |
| EncryptedSharedPreferences.DefaultPreferenceNameInjective | lib/src/main/java/com/github/gfx/util/encrypt/EncryptedSharedPreferences.java:19-21 | different packages get different default preference names |
| EncryptedSharedPreferences.ApplyEditsAppend | lib/src/main/java/com/github/gfx/util/encrypt/EncryptedSharedPreferences.java:209-212 | committing edits then one more is applying that one to the result |
| EncryptedSharedPreferences.EditOtherKey | lib/src/main/java/com/github/gfx/util/encrypt/EncryptedSharedPreferences.java:161-207 | a put or remove of one key changes neither the stored text nor the presence of any other key |
| EncryptedSharedPreferences.DecryptedAll | lib/src/main/java/com/github/gfx/util/encrypt/EncryptedSharedPreferences.java:61-72 | the decrypted view has exactly the base store's keys, with nulls exactly where the base has nulls |
| EncryptedSharedPreferences.GetAbsent | lib/src/main/java/com/github/gfx/util/encrypt/EncryptedSharedPreferences.java:76-109 | with no text stored under a key, `getString`, `getInt`, `getLong` and `getBoolean` return the caller's default |
| EncryptedSharedPreferences.GetUndecryptable | lib/src/main/java/com/github/gfx/util/encrypt/EncryptedSharedPreferences.java:76-109 | a stored text that does not decrypt makes every getter throw the decryption exception, whatever the default |
| EncryptedSharedPreferences.PutStringGetString | lib/src/main/java/com/github/gfx/util/encrypt/EncryptedSharedPreferences.java:161-165 | `putString(k, v)` then `getString(k, d)` gives `v`, or `d` when `v` is null |
| EncryptedSharedPreferences.StoredTextRoundTrip | lib/src/main/java/com/github/gfx/util/encrypt/EncryptedSharedPreferences.java:174-175 | the encrypted text stored under a key decrypts back to the text |
| EncryptedSharedPreferences.PutIntGetInt | lib/src/main/java/com/github/gfx/util/encrypt/EncryptedSharedPreferences.java:174-177 | `putInt(k, v)` then `getInt(k, d)` gives `v` |
| EncryptedSharedPreferences.PutLongGetLong | lib/src/main/java/com/github/gfx/util/encrypt/EncryptedSharedPreferences.java:180-183 | `putLong(k, v)` then `getLong(k, d)` gives `v` |
| EncryptedSharedPreferences.PutBooleanGetBoolean | lib/src/main/java/com/github/gfx/util/encrypt/EncryptedSharedPreferences.java:192-195 | `putBoolean(k, v)` then `getBoolean(k, d)` gives `v` |
| EncryptedSharedPreferences.RemoveThenGet | lib/src/main/java/com/github/gfx/util/encrypt/EncryptedSharedPreferences.java:197-201 | after `remove(k)` the key is absent and `getString`, `getInt`, `getLong` and `getBoolean` return their defaults |
| EncryptedSharedPreferences.ClearThenGet | lib/src/main/java/com/github/gfx/util/encrypt/EncryptedSharedPreferences.java:203-207 | after `clear()` no key is present, `getAll` is empty and `getString`, `getInt`, `getLong` and `getBoolean` return their defaults |
| EncryptedSharedPreferences.TrackedNotifies | lib/src/main/java/com/github/gfx/util/encrypt/EncryptedSharedPreferences.java:122-143 | while the wrapper table agrees with the base, the listeners called back are exactly the table's keys |
| EncryptedSharedPreferences.EncryptedSharedPreferences.constructor | lib/src/main/java/com/github/gfx/util/encrypt/EncryptedSharedPreferences.java:44-48 | the decorator keeps the base store and the encryption, with an empty wrapper table, so the table invariant `Tracked` holds from the start |
| EncryptedSharedPreferences.EncryptedSharedPreferences.WithKey | lib/src/main/java/com/github/gfx/util/encrypt/EncryptedSharedPreferences.java:39-42 | construction from a string key succeeds iff its UTF-8 encoding is 16 bytes, giving a fresh decorator over the base store with an empty table on which `Tracked` holds |
| EncryptedSharedPreferences.EncryptedSharedPreferences.GetAll | lib/src/main/java/com/github/gfx/util/encrypt/EncryptedSharedPreferences.java:60-72 | `getAll` succeeds iff every value decrypts, and then it is the decrypted view; otherwise it throws some entry's decryption exception |
| EncryptedSharedPreferences.EncryptedSharedPreferences.GetString | lib/src/main/java/com/github/gfx/util/encrypt/EncryptedSharedPreferences.java:74-79 | `getString` is the default when nothing is stored, else the decryption of the stored text |
| EncryptedSharedPreferences.EncryptedSharedPreferences.GetInt | lib/src/main/java/com/github/gfx/util/encrypt/EncryptedSharedPreferences.java:87-91 | `getInt` is the default when nothing is stored, else `Integer.parseInt` of the decryption |
| EncryptedSharedPreferences.EncryptedSharedPreferences.GetLong | lib/src/main/java/com/github/gfx/util/encrypt/EncryptedSharedPreferences.java:93-97 | `getLong` is the default when nothing is stored, else `Long.parseLong` of the decryption |
| EncryptedSharedPreferences.EncryptedSharedPreferences.GetBoolean | lib/src/main/java/com/github/gfx/util/encrypt/EncryptedSharedPreferences.java:105-109 | `getBoolean` is the default when nothing is stored, else `Boolean.parseBoolean` of the decryption |
| EncryptedSharedPreferences.EncryptedSharedPreferences.GetStringSet | lib/src/main/java/com/github/gfx/util/encrypt/EncryptedSharedPreferences.java:81-85 | always `UnsupportedOperationException` |
| EncryptedSharedPreferences.EncryptedSharedPreferences.Contains | lib/src/main/java/com/github/gfx/util/encrypt/EncryptedSharedPreferences.java:111-114 | a key is contained iff the base store holds it, a stored null included |
| EncryptedSharedPreferences.EncryptedSharedPreferences.Edit | lib/src/main/java/com/github/gfx/util/encrypt/EncryptedSharedPreferences.java:116-120 | `edit()` gives a new encrypting editor over a new, empty editor of the base store |
| EncryptedSharedPreferences.EncryptedSharedPreferences.RegisterListenerAsWritten | lib/src/main/java/com/github/gfx/util/encrypt/EncryptedSharedPreferences.java:122-133 | as written: a new wrapper for the listener replaces its table entry and is added to the base, even if one was there |
| EncryptedSharedPreferences.EncryptedSharedPreferences.RegisterListener | lib/src/main/java/com/github/gfx/util/encrypt/EncryptedSharedPreferences.java:122-133 | a new listener gets one fresh wrapper in the table and on the base; a known one changes nothing; the table stays in agreement with the base and the listener is called back |
| EncryptedSharedPreferences.EncryptedSharedPreferences.UnregisterListener | lib/src/main/java/com/github/gfx/util/encrypt/EncryptedSharedPreferences.java:135-143 | a known listener loses exactly its entry and its wrapper on the base; an unknown one changes nothing; afterwards it is no longer called back |
| EncryptedSharedPreferences.EncryptedEditor.constructor | lib/src/main/java/com/github/gfx/util/encrypt/EncryptedSharedPreferences.java:157-159 | the editor wraps the base editor of its preferences |
| EncryptedSharedPreferences.EncryptedEditor.PutEncrypted | lib/src/main/java/com/github/gfx/util/encrypt/EncryptedSharedPreferences.java:50-53 | records `putString(key, encrypt(text))` and returns the editor, or throws `encrypt`'s exception and records nothing |
| EncryptedSharedPreferences.EncryptedEditor.PutString | lib/src/main/java/com/github/gfx/util/encrypt/EncryptedSharedPreferences.java:161-165 | records the encrypted value, or null for a null value, and nothing when encryption fails |
| EncryptedSharedPreferences.EncryptedEditor.PutInt | lib/src/main/java/com/github/gfx/util/encrypt/EncryptedSharedPreferences.java:173-177 | records the encrypted decimal text of the value |
| EncryptedSharedPreferences.EncryptedEditor.PutLong | lib/src/main/java/com/github/gfx/util/encrypt/EncryptedSharedPreferences.java:179-183 | records the encrypted decimal text of the value |
| EncryptedSharedPreferences.EncryptedEditor.PutBoolean | lib/src/main/java/com/github/gfx/util/encrypt/EncryptedSharedPreferences.java:191-195 | records the encrypted "true" or "false" |
| EncryptedSharedPreferences.EncryptedEditor.PutStringSet | lib/src/main/java/com/github/gfx/util/encrypt/EncryptedSharedPreferences.java:167-171 | always `UnsupportedOperationException`, and nothing is recorded |
| EncryptedSharedPreferences.EncryptedEditor.Remove | lib/src/main/java/com/github/gfx/util/encrypt/EncryptedSharedPreferences.java:197-201 | records `remove(key)` unchanged on the base editor |
| EncryptedSharedPreferences.EncryptedEditor.Clear | lib/src/main/java/com/github/gfx/util/encrypt/EncryptedSharedPreferences.java:203-207 | records `clear()` unchanged on the base editor |
| EncryptedSharedPreferences.EncryptedEditor.Commit | lib/src/main/java/com/github/gfx/util/encrypt/EncryptedSharedPreferences.java:209-212 | the base store becomes the old store with the pending edits applied in order |
| EncryptedSharedPreferences.EncryptedEditor.Apply | lib/src/main/java/com/github/gfx/util/encrypt/EncryptedSharedPreferences.java:214-217 | the same effect on the store as `commit` |
| EncryptedSharedPreferences.PutIntThenGetInt | lib/src/androidTest/java/com/github/gfx/util/encrypt/EncryptedSharedPreferencesTest.java:41-45 | `edit().putInt(k, v).apply()` then `getInt(k, d)` gives `v` |
| EncryptedSharedPreferences.DoubleRegisterAsWritten | lib/src/main/java/com/github/gfx/util/encrypt/EncryptedSharedPreferences.java:122-143 | as written, register twice then unregister leaves the listener out of the table but still called back |
| EncryptedSharedPreferences.DoubleRegister | lib/src/main/java/com/github/gfx/util/encrypt/EncryptedSharedPreferences.java:122-143 | with the corrected register, the same sequence leaves the listener no longer called back |

## Left out

- The AES cipher itself, in CBC and CTR modes. It is the abstract `Transformation`, and `RoundTrips` is assumed of it where a round trip is stated.
- Provider lookup in `getDefaultCipher` and `getLegacyDefaultCipher`, with its `AssertionError` paths. A cipher is a parameter of the factories.
- The three deprecated constructors of `Encryption`. They are the factories applied to the legacy cipher.
- The IV that `init(ENCRYPT_MODE, key)` draws at random. It is a parameter of `Encrypt`.
- MD5 (`MessageDigest`). It is a function parameter, and `md5`'s own `AssertionError` path is left out with it.
- Platform lookups: ANDROID_ID, the package name, and `Context.getSharedPreferences`. These are parameters. `EncryptedSharedPreferences(Context)` is not modelled apart from `DefaultPreferenceName` and `Encryption.WithDeviceKey`.
- Strings are sequences of Unicode scalar values. A Java `String` can hold an unpaired surrogate, which `getBytes(UTF_8)` replaces with `?`; such strings, and that replacement in keys and in `encrypt`, are not modelled.
- A null ANDROID_ID, which throws `NullPointerException` in the source.
- `getFloat` and `putFloat`, because they need floating-point printing and parsing.
- Thread safety. The source documents `Encryption` as not thread-safe, and the model is sequential.
- The base store's own behaviour is reduced to a map:
  - commit applies edits in call order, whereas Android's implementation applies `clear()` first;
  - a put of null is kept as a stored null, whereas Android's implementation removes the key;
  - writes to disk are not modelled.
- Callback dispatch to listeners. The model records which listeners a change would reach (`NotifiedBy`). Android's base store holds listeners only weakly, so garbage collection is not modelled.
- Listeners registered directly on the base store by other code.
- `finalize`, which unregisters every wrapper when the object is collected.
- Android's Base64 decoder skips characters outside the alphabet. This decoder rejects them.
- `Integer.parseInt` and `Long.parseLong` accept non-ASCII Unicode digits, and `equalsIgnoreCase` folds non-ASCII letters. The model handles ASCII only.
- Security properties, such as "the ciphertext differs from the plaintext" (asserted by the tests). They depend on the cipher's strength.

## Findings

| source | as written | input that shows it | evidently intended | confidence | as-written member | corrected member |
|---|---|---|---|---|---|---|
| lib/src/main/java/com/github/gfx/util/encrypt/EncryptedSharedPreferences.java:122-133 | registering a listener that already has a wrapper replaces the table entry with a new wrapper and registers that one too; the first wrapper stays on the base store | `register(L); register(L); unregister(L)` | after `unregister(L)`, `L` is no longer called back | medium, not executed (Android's store holds the leftover wrapper only weakly, so the extra callbacks last until it is collected) | EncryptedSharedPreferences.DoubleRegisterAsWritten | EncryptedSharedPreferences.EncryptedSharedPreferences.RegisterListener |
