/**
 * `EncryptedSharedPreferences`: a `SharedPreferences` decorator that stores
 * every value as the encrypted text of its string form, and decrypts on the
 * way out.
 *
 * The underlying store is modelled by `BaseStore` (a map from keys to
 * optional strings, and the change listeners registered on it) and its
 * `BaseEditor` (the pending edits, applied in order on commit).
 */
module EncryptedSharedPreferences {
  import opened JavaLang
  import Utf8
  import Decimal
  import opened Cipher
  import opened Encryption

  const PREFERENCE_NAME_SUFFIX: string := "_preferences_encrypted"

  /**
   * `getDefaultPreferenceName`: the package name followed by
   * "_preferences_encrypted".
   */
  function DefaultPreferenceName(packageName: string): (name: string)
    ensures |name| == |packageName| + |PREFERENCE_NAME_SUFFIX|
    ensures name[..|packageName|] == packageName && name[|packageName|..] == PREFERENCE_NAME_SUFFIX
  {
    packageName + PREFERENCE_NAME_SUFFIX
  }

  /** Two packages never share a default preference file. */
  lemma DefaultPreferenceNameInjective(packageName1: string, packageName2: string)
    requires DefaultPreferenceName(packageName1) == DefaultPreferenceName(packageName2)
    ensures packageName1 == packageName2
  {
    var name := DefaultPreferenceName(packageName1);
    assert packageName1 == name[..|packageName1|] == packageName2;
  }

  /** The contents of a preference file: `None` is a stored null. */
  type Store = map<string, Option<string>>

  /** One pending change of an editor. */
  datatype Edit = PutString(key: string, value: Option<string>) | Remove(key: string) | Clear

  function ApplyEdit(entries: Store, e: Edit): Store
  {
    match e
    case PutString(key, value) => entries[key := value]
    case Remove(key) => entries - {key}
    case Clear => map[]
  }

  /** The store after a commit of `edits`, in the order they were made. */
  function ApplyEdits(entries: Store, edits: seq<Edit>): Store
    decreases |edits|
  {
    if edits == [] then entries else ApplyEdits(ApplyEdit(entries, edits[0]), edits[1..])
  }

  lemma {:induction false} ApplyEditsAppend(entries: Store, edits: seq<Edit>, e: Edit)
    ensures ApplyEdits(entries, edits + [e]) == ApplyEdit(ApplyEdits(entries, edits), e)
    decreases |edits|
  {
    if edits != [] {
      assert (edits + [e])[1..] == edits[1..] + [e];
      ApplyEditsAppend(ApplyEdit(entries, edits[0]), edits[1..], e);
    }
  }

  /** `base.getString(key, null)`: the stored text, if any. */
  function Stored(entries: Store, key: string): Option<string>
  {
    if key in entries then entries[key] else None
  }

  /** An edit of another key leaves a key's stored text as it was. */
  lemma EditOtherKey(entries: Store, e: Edit, key: string)
    requires !e.Clear? && e.key != key
    ensures Stored(ApplyEdit(entries, e), key) == Stored(entries, key)
    ensures key in ApplyEdit(entries, e) <==> key in entries
  {
  }

  /** The decrypted form of one stored value; a stored null stays null. */
  function DecryptEntry(t: Transformation, secret: seq<byte>, value: Option<string>): Result<Option<string>>
  {
    match value
    case None => Ok(None)
    case Some(encrypted) =>
      match DecryptBlob(t, secret, encrypted)
      case Err(e) => Err(e)
      case Ok(s) => Ok(Some(s))
  }

  predicate AllDecrypt(entries: Store, t: Transformation, secret: seq<byte>)
  {
    forall key :: key in entries ==> DecryptEntry(t, secret, entries[key]).Ok?
  }

  /** What `getAll` returns when every value decrypts. */
  function DecryptedAll(entries: Store, t: Transformation, secret: seq<byte>): (m: map<string, Option<string>>)
    requires AllDecrypt(entries, t, secret)
    ensures m.Keys == entries.Keys
    ensures forall key :: key in m ==> (m[key].None? <==> entries[key].None?)
  {
    map key | key in entries :: DecryptEntry(t, secret, entries[key]).value
  }

  /** `getString(key, defValue)`. */
  function GetStringOf(entries: Store, t: Transformation, secret: seq<byte>, key: string, defValue: Option<string>): Result<Option<string>>
  {
    match Stored(entries, key)
    case None => Ok(defValue)
    case Some(encrypted) => DecryptEntry(t, secret, Some(encrypted))
  }

  /** The decrypted text of a key, or `None` when nothing is stored. */
  function DecryptedText(entries: Store, t: Transformation, secret: seq<byte>, key: string): Result<Option<string>>
  {
    GetStringOf(entries, t, secret, key, None)
  }

  /** `getInt(key, defValue)`. */
  function GetIntOf(entries: Store, t: Transformation, secret: seq<byte>, key: string, defValue: int32): Result<int32>
  {
    match DecryptedText(entries, t, secret, key)
    case Err(e) => Err(e)
    case Ok(None) => Ok(defValue)
    case Ok(Some(s)) => Decimal.ParseInt(s)
  }

  /** `getLong(key, defValue)`. */
  function GetLongOf(entries: Store, t: Transformation, secret: seq<byte>, key: string, defValue: int64): Result<int64>
  {
    match DecryptedText(entries, t, secret, key)
    case Err(e) => Err(e)
    case Ok(None) => Ok(defValue)
    case Ok(Some(s)) => Decimal.ParseLong(s)
  }

  /** `getBoolean(key, defValue)`. */
  function GetBooleanOf(entries: Store, t: Transformation, secret: seq<byte>, key: string, defValue: bool): Result<bool>
  {
    match DecryptedText(entries, t, secret, key)
    case Err(e) => Err(e)
    case Ok(None) => Ok(defValue)
    case Ok(Some(s)) => Ok(Decimal.ParseBoolean(s))
  }

  /**
   * With no text stored under `key` (absent, or a stored null) every getter
   * returns the caller's default, and `getAll` has no text for it either.
   */
  lemma GetAbsent(entries: Store, t: Transformation, secret: seq<byte>, key: string)
    requires Stored(entries, key).None?
    ensures forall d :: GetStringOf(entries, t, secret, key, d) == Ok(d)
    ensures forall d: int32 :: GetIntOf(entries, t, secret, key, d) == Ok(d)
    ensures forall d: int64 :: GetLongOf(entries, t, secret, key, d) == Ok(d)
    ensures forall d :: GetBooleanOf(entries, t, secret, key, d) == Ok(d)
  {
  }

  /**
   * A stored text that does not decrypt makes every getter fail with the
   * decryption error, whatever the default.
   */
  lemma GetUndecryptable(entries: Store, t: Transformation, secret: seq<byte>, key: string)
    requires Stored(entries, key).Some? && DecryptBlob(t, secret, Stored(entries, key).value).Err?
    ensures var e := DecryptBlob(t, secret, Stored(entries, key).value).error;
      && (e.IllegalArgument? || e == UnexpectedDecryptionState)
      && (forall d :: GetStringOf(entries, t, secret, key, d) == Err(e))
      && (forall d: int32 :: GetIntOf(entries, t, secret, key, d) == Err(e))
      && (forall d: int64 :: GetLongOf(entries, t, secret, key, d) == Err(e))
      && (forall d :: GetBooleanOf(entries, t, secret, key, d) == Err(e))
  {
  }

  /** The edit `putString(key, value)` records, given the IV the cipher draws. */
  function PutStringEdit(t: Transformation, secret: seq<byte>, iv: seq<byte>, key: string, value: Option<string>): Result<Edit>
  {
    match value
    case None => Ok(PutString(key, None))
    case Some(v) =>
      match EncryptBlob(t, secret, iv, v)
      case Err(e) => Err(e)
      case Ok(encrypted) => Ok(PutString(key, Some(encrypted)))
  }

  /**
   * `putString` then `getString` gives the value back (a null value gives
   * the default), provided the cipher round-trips with a 16-byte IV.
   */
  lemma PutStringGetString(entries: Store, t: Transformation, secret: seq<byte>, iv: seq<byte>,
                           key: string, value: Option<string>, defValue: Option<string>)
    requires RoundTrips(t) && |iv| == KEY_LENGTH
    requires PutStringEdit(t, secret, iv, key, value).Ok?
    ensures var after := ApplyEdit(entries, PutStringEdit(t, secret, iv, key, value).value);
      && key in after
      && GetStringOf(after, t, secret, key, defValue) == Ok(if value.None? then defValue else value)
  {
    if value.Some? {
      DecryptEncrypt(t, secret, iv, value.value);
    }
  }

  /** The encrypted text of `v` reads back as `v`. */
  lemma StoredTextRoundTrip(entries: Store, t: Transformation, secret: seq<byte>, iv: seq<byte>, key: string, text: string)
    requires RoundTrips(t) && |iv| == KEY_LENGTH
    requires EncryptBlob(t, secret, iv, text).Ok?
    ensures DecryptedText(ApplyEdit(entries, PutString(key, Some(EncryptBlob(t, secret, iv, text).value))), t, secret, key)
         == Ok(Some(text))
  {
    DecryptEncrypt(t, secret, iv, text);
  }

  /** `putInt(key, v)` then `getInt(key, d)` gives `v`: for example 42. */
  lemma PutIntGetInt(entries: Store, t: Transformation, secret: seq<byte>, iv: seq<byte>, key: string, v: int32, defValue: int32)
    requires RoundTrips(t) && |iv| == KEY_LENGTH
    requires EncryptBlob(t, secret, iv, Decimal.Show(v)).Ok?
    ensures GetIntOf(ApplyEdit(entries, PutString(key, Some(EncryptBlob(t, secret, iv, Decimal.Show(v)).value))), t, secret, key, defValue)
         == Ok(v)
  {
    StoredTextRoundTrip(entries, t, secret, iv, key, Decimal.Show(v));
    Decimal.ParseIntShow(v);
  }

  /** `putLong(key, v)` then `getLong(key, d)` gives `v`. */
  lemma PutLongGetLong(entries: Store, t: Transformation, secret: seq<byte>, iv: seq<byte>, key: string, v: int64, defValue: int64)
    requires RoundTrips(t) && |iv| == KEY_LENGTH
    requires EncryptBlob(t, secret, iv, Decimal.Show(v)).Ok?
    ensures GetLongOf(ApplyEdit(entries, PutString(key, Some(EncryptBlob(t, secret, iv, Decimal.Show(v)).value))), t, secret, key, defValue)
         == Ok(v)
  {
    StoredTextRoundTrip(entries, t, secret, iv, key, Decimal.Show(v));
    Decimal.ParseLongShow(v);
  }

  /** `putBoolean(key, v)` then `getBoolean(key, d)` gives `v`. */
  lemma PutBooleanGetBoolean(entries: Store, t: Transformation, secret: seq<byte>, iv: seq<byte>, key: string, v: bool, defValue: bool)
    requires RoundTrips(t) && |iv| == KEY_LENGTH
    requires EncryptBlob(t, secret, iv, Decimal.ShowBoolean(v)).Ok?
    ensures GetBooleanOf(ApplyEdit(entries, PutString(key, Some(EncryptBlob(t, secret, iv, Decimal.ShowBoolean(v)).value))), t, secret, key, defValue)
         == Ok(v)
  {
    StoredTextRoundTrip(entries, t, secret, iv, key, Decimal.ShowBoolean(v));
    Decimal.ParseBooleanShow(v);
  }

  /** After `remove(key)` the key is absent and every getter returns its default. */
  lemma RemoveThenGet(entries: Store, t: Transformation, secret: seq<byte>, key: string)
    ensures key !in ApplyEdit(entries, Remove(key))
    ensures Stored(ApplyEdit(entries, Remove(key)), key).None?
    ensures forall d :: GetStringOf(ApplyEdit(entries, Remove(key)), t, secret, key, d) == Ok(d)
    ensures forall d: int32 :: GetIntOf(ApplyEdit(entries, Remove(key)), t, secret, key, d) == Ok(d)
    ensures forall d: int64 :: GetLongOf(ApplyEdit(entries, Remove(key)), t, secret, key, d) == Ok(d)
    ensures forall d :: GetBooleanOf(ApplyEdit(entries, Remove(key)), t, secret, key, d) == Ok(d)
  {
    GetAbsent(ApplyEdit(entries, Remove(key)), t, secret, key);
  }

  /** After `clear()` no key is present, `getAll` is empty and every getter returns its default. */
  lemma ClearThenGet(entries: Store, t: Transformation, secret: seq<byte>, key: string)
    ensures ApplyEdit(entries, Clear).Keys == {}
    ensures AllDecrypt(ApplyEdit(entries, Clear), t, secret) && DecryptedAll(ApplyEdit(entries, Clear), t, secret) == map[]
    ensures forall d :: GetStringOf(ApplyEdit(entries, Clear), t, secret, key, d) == Ok(d)
    ensures forall d: int32 :: GetIntOf(ApplyEdit(entries, Clear), t, secret, key, d) == Ok(d)
    ensures forall d: int64 :: GetLongOf(ApplyEdit(entries, Clear), t, secret, key, d) == Ok(d)
    ensures forall d :: GetBooleanOf(ApplyEdit(entries, Clear), t, secret, key, d) == Ok(d)
  {
    GetAbsent(ApplyEdit(entries, Clear), t, secret, key);
  }

  /** A client's `OnSharedPreferenceChangeListener`, compared by identity. */
  class Listener {
  }

  /**
   * The anonymous listener `registerOnSharedPreferenceChangeListener`
   * installs on the base store: it forwards each change to `listener`,
   * passing `owner` as the preferences that changed.
   */
  class Wrapper {
    const listener: Listener
    const owner: EncryptedSharedPreferences

    constructor (listener: Listener, owner: EncryptedSharedPreferences)
      ensures this.listener == listener && this.owner == owner
    {
      this.listener := listener;
      this.owner := owner;
    }
  }

  /** The underlying `SharedPreferences`: its entries and its registered listeners. */
  class BaseStore {
    var entries: Store
    var listeners: set<Wrapper>

    constructor (entries: Store)
      ensures this.entries == entries && listeners == {}
    {
      this.entries := entries;
      listeners := {};
    }

    method RegisterListener(w: Wrapper)
      modifies this
      ensures entries == old(entries) && listeners == old(listeners) + {w}
    {
      listeners := listeners + {w};
    }

    method UnregisterListener(w: Wrapper)
      modifies this
      ensures entries == old(entries) && listeners == old(listeners) - {w}
    {
      listeners := listeners - {w};
    }
  }

  /** The underlying `SharedPreferences.Editor`: the edits not yet committed. */
  class BaseEditor {
    const store: BaseStore
    var edits: seq<Edit>

    constructor (store: BaseStore)
      ensures this.store == store && edits == []
    {
      this.store := store;
      edits := [];
    }

    method Record(e: Edit)
      modifies this
      ensures edits == old(edits) + [e]
    {
      edits := edits + [e];
    }

    /** `commit()`: the edits take effect in order and the editor starts afresh. */
    method Commit() returns (ok: bool)
      modifies this, store
      ensures store.entries == ApplyEdits(old(store.entries), old(edits)) && store.listeners == old(store.listeners)
      ensures edits == [] && ok
    {
      store.entries := ApplyEdits(store.entries, edits);
      edits := [];
      ok := true;
    }
  }

  class EncryptedSharedPreferences {
    const base: BaseStore
    const encryption: Encryption
    var listenerWrappers: map<Listener, Wrapper>

    /** `EncryptedSharedPreferences(SharedPreferences, Encryption)`. */
    constructor (base: BaseStore, encryption: Encryption)
      ensures this.base == base && this.encryption == encryption && listenerWrappers == map[]
      ensures Tracked()
    {
      this.base := base;
      this.encryption := encryption;
      listenerWrappers := map[];
    }

    /**
     * `EncryptedSharedPreferences(SharedPreferences, String)`: `cipher` is
     * the one `new Encryption(privateKey)` obtains from the provider.
     */
    static method WithKey(base: BaseStore, cipher: Cipher, privateKey: string) returns (r: Result<EncryptedSharedPreferences>)
      ensures r.Ok? <==> |Utf8.Encode(privateKey)| == KEY_LENGTH
      ensures r.Ok? ==> (fresh(r.value) && r.value.base == base && r.value.listenerWrappers == map[]
                         && r.value.encryption.cipher == cipher && r.value.encryption.secretKeySpec.key == Utf8.Encode(privateKey))
      ensures r.Ok? ==> r.value.Tracked()
    {
      var encryption := Encryption.WithKeyString(cipher, privateKey);
      match encryption {
        case Err(e) => r := Err(e);
        case Ok(enc) =>
          var prefs := new EncryptedSharedPreferences(base, enc);
          r := Ok(prefs);
      }
    }

    function CipherTransformation(): Transformation {
      encryption.cipher.transformation
    }

    function SecretKey(): seq<byte> {
      encryption.secretKeySpec.key
    }

    /**
     * `getAll()`: the base entries with every value decrypted and nulls kept.
     * It fails, with that entry's error, if some value does not decrypt;
     * which failing entry is reported depends on the hash map's order.
     */
    method GetAll() returns (r: Result<map<string, Option<string>>>)
      modifies encryption.cipher
      ensures r.Ok? <==> AllDecrypt(base.entries, CipherTransformation(), SecretKey())
      ensures r.Ok? ==> r.value == DecryptedAll(base.entries, CipherTransformation(), SecretKey())
      ensures r.Err? ==> exists key :: key in base.entries
                          && DecryptEntry(CipherTransformation(), SecretKey(), base.entries[key]) == Err(r.error)
    {
      var entries := base.entries;
      var newMap: map<string, Option<string>> := map[];
      var remaining := entries.Keys;
      while remaining != {}
        invariant remaining <= entries.Keys
        invariant newMap.Keys == entries.Keys - remaining
        invariant forall key :: key in newMap ==> DecryptEntry(CipherTransformation(), SecretKey(), entries[key]) == Ok(newMap[key])
        decreases remaining
      {
        var key :| key in remaining;
        var value := entries[key];
        if value.Some? {
          var decrypted := encryption.Decrypt(value.value);
          if decrypted.Err? {
            return Err(decrypted.error);
          }
          newMap := newMap[key := Some(decrypted.value)];
        } else {
          newMap := newMap[key := None];
        }
        remaining := remaining - {key};
      }
      assert AllDecrypt(entries, CipherTransformation(), SecretKey());
      r := Ok(newMap);
    }

    /** `getString(key, defValue)`. */
    method GetString(key: string, defValue: Option<string>) returns (r: Result<Option<string>>)
      modifies encryption.cipher
      ensures r == GetStringOf(base.entries, CipherTransformation(), SecretKey(), key, defValue)
    {
      var encrypted := Stored(base.entries, key);
      if encrypted.None? {
        return Ok(defValue);
      }
      var decrypted := encryption.Decrypt(encrypted.value);
      if decrypted.Err? {
        return Err(decrypted.error);
      }
      r := Ok(Some(decrypted.value));
    }

    /** `getInt(key, defValue)`. */
    method GetInt(key: string, defValue: int32) returns (r: Result<int32>)
      modifies encryption.cipher
      ensures r == GetIntOf(base.entries, CipherTransformation(), SecretKey(), key, defValue)
    {
      var encrypted := Stored(base.entries, key);
      if encrypted.None? {
        return Ok(defValue);
      }
      var decrypted := encryption.Decrypt(encrypted.value);
      if decrypted.Err? {
        return Err(decrypted.error);
      }
      r := Decimal.ParseInt(decrypted.value);
    }

    /** `getLong(key, defValue)`. */
    method GetLong(key: string, defValue: int64) returns (r: Result<int64>)
      modifies encryption.cipher
      ensures r == GetLongOf(base.entries, CipherTransformation(), SecretKey(), key, defValue)
    {
      var encrypted := Stored(base.entries, key);
      if encrypted.None? {
        return Ok(defValue);
      }
      var decrypted := encryption.Decrypt(encrypted.value);
      if decrypted.Err? {
        return Err(decrypted.error);
      }
      r := Decimal.ParseLong(decrypted.value);
    }

    /** `getBoolean(key, defValue)`. */
    method GetBoolean(key: string, defValue: bool) returns (r: Result<bool>)
      modifies encryption.cipher
      ensures r == GetBooleanOf(base.entries, CipherTransformation(), SecretKey(), key, defValue)
    {
      var encrypted := Stored(base.entries, key);
      if encrypted.None? {
        return Ok(defValue);
      }
      var decrypted := encryption.Decrypt(encrypted.value);
      if decrypted.Err? {
        return Err(decrypted.error);
      }
      r := Ok(Decimal.ParseBoolean(decrypted.value));
    }

    /** `getStringSet`: not supported. */
    method GetStringSet(key: string, defValues: set<string>) returns (r: Result<set<string>>)
      ensures r == Err(UnsupportedOperation)
    {
      r := Err(UnsupportedOperation);
    }

    /** `contains(key)`: presence in the base store, a stored null included. */
    method Contains(key: string) returns (b: bool)
      ensures b <==> key in base.entries
    {
      b := key in base.entries;
    }

    /** `edit()`: a fresh encrypting editor over a fresh base editor. */
    method Edit() returns (e: EncryptedEditor)
      ensures fresh(e) && fresh(e.editor)
      ensures e.prefs == this && e.editor.store == base && e.editor.edits == []
    {
      var editor := new BaseEditor(base);
      e := new EncryptedEditor(this, editor);
    }

    /** The client listeners that a change of the base store reaches through this object's wrappers. */
    function NotifiedBy(): set<Listener>
      reads this, base
    {
      set w | w in base.listeners && w.owner == this :: w.listener
    }

    /**
     * The wrapper table and the base store agree: each tracked listener's
     * wrapper belongs to it and is registered on the base, and each of this
     * object's wrappers on the base is the one the table holds.
     */
    predicate Tracked()
      reads this, base
    {
      && (forall l :: l in listenerWrappers ==>
            listenerWrappers[l].listener == l && listenerWrappers[l].owner == this && listenerWrappers[l] in base.listeners)
      && (forall w :: w in base.listeners && w.owner == this ==>
            w.listener in listenerWrappers && listenerWrappers[w.listener] == w)
    }

    /**
     * `registerOnSharedPreferenceChangeListener` as written: a new wrapper
     * replaces the table entry, and is registered on the base, even when the
     * listener already had one.
     */
    method RegisterListenerAsWritten(listener: Listener)
      modifies this, base
      ensures listener in listenerWrappers && fresh(listenerWrappers[listener])
      ensures listenerWrappers[listener].listener == listener && listenerWrappers[listener].owner == this
      ensures listenerWrappers == old(listenerWrappers)[listener := listenerWrappers[listener]]
      ensures base.listeners == old(base.listeners) + {listenerWrappers[listener]} && base.entries == old(base.entries)
    {
      var wrapper := new Wrapper(listener, this);
      listenerWrappers := listenerWrappers[listener := wrapper];
      base.RegisterListener(wrapper);
    }

    /**
     * `registerOnSharedPreferenceChangeListener`, registering a listener at
     * most once: a listener that already has a wrapper keeps it.
     */
    method RegisterListener(listener: Listener)
      modifies this, base
      ensures old(listener in listenerWrappers) ==> listenerWrappers == old(listenerWrappers) && base.listeners == old(base.listeners)
      ensures !old(listener in listenerWrappers) ==>
        && listener in listenerWrappers && fresh(listenerWrappers[listener])
        && listenerWrappers == old(listenerWrappers)[listener := listenerWrappers[listener]]
        && base.listeners == old(base.listeners) + {listenerWrappers[listener]}
      ensures base.entries == old(base.entries)
      ensures old(Tracked()) ==> Tracked() && NotifiedBy() == old(NotifiedBy()) + {listener}
    {
      if listener in listenerWrappers {
        assert old(Tracked()) ==> listener in NotifiedBy() by {
          if old(Tracked()) {
            assert listenerWrappers[listener] in base.listeners;
          }
        }
        return;
      }
      var wrapper := new Wrapper(listener, this);
      listenerWrappers := listenerWrappers[listener := wrapper];
      base.RegisterListener(wrapper);
      assert wrapper in base.listeners;
    }

    /**
     * `unregisterOnSharedPreferenceChangeListener`: removes the listener's
     * entry and its wrapper from the base; an unknown listener changes nothing.
     */
    method UnregisterListener(listener: Listener)
      modifies this, base
      ensures old(listener in listenerWrappers) ==>
        listenerWrappers == old(listenerWrappers) - {listener}
        && base.listeners == old(base.listeners) - {old(listenerWrappers[listener])}
      ensures !old(listener in listenerWrappers) ==>
        listenerWrappers == old(listenerWrappers) && base.listeners == old(base.listeners)
      ensures base.entries == old(base.entries)
      ensures old(Tracked()) ==> Tracked() && NotifiedBy() == old(NotifiedBy()) - {listener}
    {
      if listener in listenerWrappers {
        var wrapper := listenerWrappers[listener];
        listenerWrappers := listenerWrappers - {listener};
        base.UnregisterListener(wrapper);
      }
    }
  }

  /** While the table is tracked, the listeners reached are exactly the table's keys. */
  lemma TrackedNotifies(prefs: EncryptedSharedPreferences)
    requires prefs.Tracked()
    ensures prefs.NotifiedBy() == prefs.listenerWrappers.Keys
  {
    forall l | l in prefs.listenerWrappers ensures l in prefs.NotifiedBy() {
      assert prefs.listenerWrappers[l] in prefs.base.listeners;
    }
  }

  /**
   * `EncryptedEditor`: encrypts each value it is given before recording it
   * on the base editor, using the enclosing preferences' `Encryption`.
   */
  class EncryptedEditor {
    const prefs: EncryptedSharedPreferences
    const editor: BaseEditor

    constructor (prefs: EncryptedSharedPreferences, editor: BaseEditor)
      ensures this.prefs == prefs && this.editor == editor
    {
      this.prefs := prefs;
      this.editor := editor;
    }

    function CipherTransformation(): Transformation {
      prefs.encryption.cipher.transformation
    }

    function SecretKey(): seq<byte> {
      prefs.encryption.secretKeySpec.key
    }

    /** Records `putString(key, encrypt(text))`, or fails as `encrypt` does and records nothing. */
    method PutEncrypted(key: string, text: string, randomIv: seq<byte>) returns (r: Result<EncryptedEditor>)
      modifies editor, prefs.encryption.cipher
      ensures var blob := EncryptBlob(CipherTransformation(), SecretKey(), randomIv, text);
        && (r.Ok? <==> blob.Ok?)
        && (r.Ok? ==> r.value == this && editor.edits == old(editor.edits) + [Edit.PutString(key, Some(blob.value))])
        && (r.Err? ==> r.error == blob.error && editor.edits == old(editor.edits))
    {
      var encrypted := prefs.encryption.Encrypt(text, randomIv);
      match encrypted {
        case Err(e) => r := Err(e);
        case Ok(blob) =>
          editor.Record(Edit.PutString(key, Some(blob)));
          r := Ok(this);
      }
    }

    /** `putString(key, value)`: a null value is recorded as null, unencrypted. */
    method PutString(key: string, value: Option<string>, randomIv: seq<byte>) returns (r: Result<EncryptedEditor>)
      modifies editor, prefs.encryption.cipher
      ensures var edit := PutStringEdit(CipherTransformation(), SecretKey(), randomIv, key, value);
        && (r.Ok? <==> edit.Ok?)
        && (r.Ok? ==> r.value == this && editor.edits == old(editor.edits) + [edit.value])
        && (r.Err? ==> r.error == edit.error && editor.edits == old(editor.edits))
    {
      match value {
        case None =>
          editor.Record(Edit.PutString(key, None));
          r := Ok(this);
        case Some(text) =>
          r := PutEncrypted(key, text, randomIv);
      }
    }

    /** `putInt(key, value)`: stores the encrypted decimal text. */
    method PutInt(key: string, value: int32, randomIv: seq<byte>) returns (r: Result<EncryptedEditor>)
      modifies editor, prefs.encryption.cipher
      ensures var blob := EncryptBlob(CipherTransformation(), SecretKey(), randomIv, Decimal.Show(value));
        && (r.Ok? <==> blob.Ok?)
        && (r.Ok? ==> r.value == this && editor.edits == old(editor.edits) + [Edit.PutString(key, Some(blob.value))])
        && (r.Err? ==> r.error == blob.error && editor.edits == old(editor.edits))
    {
      r := PutEncrypted(key, Decimal.Show(value), randomIv);
    }

    /** `putLong(key, value)`: stores the encrypted decimal text. */
    method PutLong(key: string, value: int64, randomIv: seq<byte>) returns (r: Result<EncryptedEditor>)
      modifies editor, prefs.encryption.cipher
      ensures var blob := EncryptBlob(CipherTransformation(), SecretKey(), randomIv, Decimal.Show(value));
        && (r.Ok? <==> blob.Ok?)
        && (r.Ok? ==> r.value == this && editor.edits == old(editor.edits) + [Edit.PutString(key, Some(blob.value))])
        && (r.Err? ==> r.error == blob.error && editor.edits == old(editor.edits))
    {
      r := PutEncrypted(key, Decimal.Show(value), randomIv);
    }

    /** `putBoolean(key, value)`: stores the encrypted "true" or "false". */
    method PutBoolean(key: string, value: bool, randomIv: seq<byte>) returns (r: Result<EncryptedEditor>)
      modifies editor, prefs.encryption.cipher
      ensures var blob := EncryptBlob(CipherTransformation(), SecretKey(), randomIv, Decimal.ShowBoolean(value));
        && (r.Ok? <==> blob.Ok?)
        && (r.Ok? ==> r.value == this && editor.edits == old(editor.edits) + [Edit.PutString(key, Some(blob.value))])
        && (r.Err? ==> r.error == blob.error && editor.edits == old(editor.edits))
    {
      r := PutEncrypted(key, Decimal.ShowBoolean(value), randomIv);
    }

    /** `putStringSet`: not supported; nothing is recorded. */
    method PutStringSet(key: string, values: set<string>) returns (r: Result<EncryptedEditor>)
      ensures r == Err(UnsupportedOperation)
    {
      r := Err(UnsupportedOperation);
    }

    /** `remove(key)`: forwarded unchanged. */
    method Remove(key: string) returns (r: EncryptedEditor)
      modifies editor
      ensures r == this && editor.edits == old(editor.edits) + [Edit.Remove(key)]
    {
      editor.Record(Edit.Remove(key));
      r := this;
    }

    /** `clear()`: forwarded unchanged. */
    method Clear() returns (r: EncryptedEditor)
      modifies editor
      ensures r == this && editor.edits == old(editor.edits) + [Edit.Clear]
    {
      editor.Record(Edit.Clear);
      r := this;
    }

    /** `commit()`: forwarded unchanged. */
    method Commit() returns (ok: bool)
      modifies editor, editor.store
      ensures editor.store.entries == ApplyEdits(old(editor.store.entries), old(editor.edits))
      ensures editor.store.listeners == old(editor.store.listeners)
      ensures editor.edits == [] && ok
    {
      ok := editor.Commit();
    }

    /** `apply()`: forwarded unchanged; the write to disk is not modelled. */
    method Apply()
      modifies editor, editor.store
      ensures editor.store.entries == ApplyEdits(old(editor.store.entries), old(editor.edits))
      ensures editor.store.listeners == old(editor.store.listeners)
      ensures editor.edits == []
    {
      var _ := editor.Commit();
    }
  }

  /**
   * `prefs.edit().putInt(key, v).apply()` followed by `prefs.getInt(key, d)`
   * returns `v`, whatever was stored before.
   */
  method PutIntThenGetInt(prefs: EncryptedSharedPreferences, key: string, v: int32, defValue: int32, randomIv: seq<byte>)
    returns (r: Result<int32>)
    requires RoundTrips(prefs.CipherTransformation()) && |randomIv| == KEY_LENGTH
    modifies prefs.base, prefs.encryption.cipher
    ensures EncryptBlob(prefs.CipherTransformation(), prefs.SecretKey(), randomIv, Decimal.Show(v)).Ok? ==> r == Ok(v)
  {
    var editor := prefs.Edit();
    var put := editor.PutInt(key, v, randomIv);
    if put.Err? {
      return Err(put.error);
    }
    var before := prefs.base.entries;
    var edit := editor.editor.edits[0];
    assert editor.editor.edits == [edit];
    editor.Apply();
    assert prefs.base.entries == ApplyEdit(before, edit);
    PutIntGetInt(before, prefs.CipherTransformation(), prefs.SecretKey(), randomIv, key, v, defValue);
    r := prefs.GetInt(key, defValue);
  }

  /**
   * The listener table as written: registering a listener twice and then
   * unregistering it leaves the first wrapper on the base store, so the
   * listener is still called back.
   */
  method DoubleRegisterAsWritten(prefs: EncryptedSharedPreferences, listener: Listener)
    requires prefs.Tracked() && listener !in prefs.listenerWrappers
    modifies prefs, prefs.base
    ensures listener !in prefs.listenerWrappers
    ensures listener in prefs.NotifiedBy()
    ensures !prefs.Tracked()
  {
    prefs.RegisterListenerAsWritten(listener);
    var first := prefs.listenerWrappers[listener];
    prefs.RegisterListenerAsWritten(listener);
    prefs.UnregisterListener(listener);
    assert first in prefs.base.listeners && first.owner == prefs;
  }

  /** The same sequence with `RegisterListener`: the listener is no longer called back. */
  method DoubleRegister(prefs: EncryptedSharedPreferences, listener: Listener)
    requires prefs.Tracked() && listener !in prefs.listenerWrappers
    modifies prefs, prefs.base
    ensures listener !in prefs.listenerWrappers
    ensures listener !in prefs.NotifiedBy()
    ensures prefs.Tracked()
  {
    prefs.RegisterListener(listener);
    prefs.RegisterListener(listener);
    prefs.UnregisterListener(listener);
  }
}
