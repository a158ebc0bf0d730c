/** lib/security/encryption.ts: the `encrypted:v1:` text format around an authenticated cipher. */
module Encryption {
  import opened Wrappers
  import opened Text

  type Bytes = seq<bv8>

  const IV_LENGTH := 12
  const AUTH_TAG_LENGTH := 16
  const KEY_LENGTH := 32
  const MARK := "encrypted:v1:"

  datatype Error =
    EmptyInput | KeyNotSet | KeyLength | UnusableKey | FiveParts | WrongPrefix | WrongVersion | IvLength | TagLength | NotAuthentic

  /** AES-256-GCM with base64 ciphertext, base64 and hex. `open` yields None when the tag does not
      fit. */
  datatype Cipher = Cipher(
    seal: (Bytes, Bytes, string) -> (string, Bytes),
    open: (Bytes, Bytes, string, Bytes) -> Option<string>,
    toBase64: Bytes -> string,
    fromBase64: string -> Bytes,
    fromHex: string -> Bytes)

  /** Decryption inverts encryption, decoding inverts encoding, the base64 alphabet (section 4 of
      RFC 4648) has no colon, and text is never longer than the base64 of its encryption (three
      bytes take four characters, and a character of text at least one byte). */
  ghost predicate Lawful(c: Cipher) {
    && (forall b :: ':' !in c.toBase64(b) && c.fromBase64(c.toBase64(b)) == b)
    && (forall key, iv, p :: |key| == KEY_LENGTH && |iv| == IV_LENGTH ==>
          && ':' !in c.seal(key, iv, p).0 && |c.seal(key, iv, p).1| == AUTH_TAG_LENGTH
          && c.open(key, iv, c.seal(key, iv, p).0, c.seal(key, iv, p).1) == Some(p))
    && (forall key, iv, data, tag :: c.open(key, iv, data, tag).Some? ==> |c.open(key, iv, data, tag).value| <= |data|)
  }

  // ---- The key ----

  /** The key bytes named by the environment. Hex text with a stray character decodes to fewer than
      32 bytes, which the cipher refuses when it is created. */
  function KeyOf(c: Cipher, env: Option<string>): Result<Bytes, Error> {
    if env.None? || env.value == "" then Err(KeyNotSet)
    else if |env.value| != 64 then Err(KeyLength)
    else Ok(c.fromHex(env.value))
  }

  /** The key is set and usable. */
  predicate HasKey(c: Cipher, env: Option<string>) {
    KeyOf(c, env).Ok? && |KeyOf(c, env).value| == KEY_LENGTH
  }

  /** The module's cached key. */
  class KeyCache {
    const cipher: Cipher
    var cachedKey: Option<Bytes>
    var cachedKeySource: Option<string>

    constructor (cipher: Cipher)
      ensures Valid() && this.cipher == cipher
    {
      this.cipher, cachedKey, cachedKeySource := cipher, None, None;
    }

    /** What is cached was decoded from the text it is cached for. */
    ghost predicate Valid()
      reads this
    {
      cachedKey.Some? ==> cachedKeySource.Some? && cachedKey.value == cipher.fromHex(cachedKeySource.value)
    }

    /** The cache never shows: the key is always that of the present environment. */
    method GetEncryptionKey(env: Option<string>) returns (r: Result<Bytes, Error>)
      requires Valid()
      modifies this
      ensures Valid() && r == KeyOf(cipher, env)
    {
      if env.None? || env.value == "" { return Err(KeyNotSet); }
      if |env.value| != 64 { return Err(KeyLength); }
      if cachedKey.Some? && cachedKeySource == env { return Ok(cachedKey.value); }
      cachedKey := Some(cipher.fromHex(env.value));
      cachedKeySource := env;
      return Ok(cachedKey.value);
    }
  }

  // ---- Printing and parsing ----

  predicate IsEncrypted(value: string) {
    MARK <= value
  }

  /** `iv` is the random initialisation vector of this call. */
  function Encrypt(c: Cipher, env: Option<string>, iv: Bytes, plaintext: string): Result<string, Error> {
    if plaintext == "" then Err(EmptyInput)
    else if IsEncrypted(plaintext) then Ok(plaintext)
    else
      match KeyOf(c, env)
      case Err(e) => Err(e)
      case Ok(key) =>
        if |key| != KEY_LENGTH then Err(UnusableKey)
        else
          var (ciphertext, tag) := c.seal(key, iv, plaintext);
          Ok(MARK + c.toBase64(iv) + ":" + ciphertext + ":" + c.toBase64(tag))
  }

  function Decrypt(c: Cipher, env: Option<string>, text: string): Result<string, Error> {
    if text == "" then Err(EmptyInput)
    else if !IsEncrypted(text) then Ok(text)
    else
      match KeyOf(c, env)
      case Err(e) => Err(e)
      case Ok(key) =>
        var parts := Split(text, ':');
        if |parts| != 5 then Err(FiveParts)
        else if parts[0] != "encrypted" then Err(WrongPrefix)
        else if parts[1] != "v1" then Err(WrongVersion)
        else Opened(c, key, c.fromBase64(parts[2]), parts[3], c.fromBase64(parts[4]))
  }

  function Opened(c: Cipher, key: Bytes, iv: Bytes, data: string, tag: Bytes): Result<string, Error> {
    if |iv| != IV_LENGTH then Err(IvLength)
    else if |tag| != AUTH_TAG_LENGTH then Err(TagLength)
    else if |key| != KEY_LENGTH then Err(UnusableKey)
    else match c.open(key, iv, data, tag) { case Some(p) => Ok(p) case None => Err(NotAuthentic) }
  }

  /** The text with three given parts after the mark. */
  function Printed(iv: string, data: string, tag: string): string {
    MARK + iv + ":" + data + ":" + tag
  }

  lemma MarkSplit(rest: string)
    ensures Split(MARK + rest, ':') == ["encrypted", "v1"] + Split(rest, ':')
  {
    assert MARK + rest == "encrypted" + [':'] + ("v1" + [':'] + rest);
    assert ':' !in "encrypted" && ':' !in "v1";
    SplitHead("encrypted", ':', "v1" + [':'] + rest);
    SplitHead("v1", ':', rest);
  }

  lemma PrintedSplit(iv: string, data: string, tag: string)
    requires ':' !in iv && ':' !in data && ':' !in tag
    ensures Split(Printed(iv, data, tag), ':') == ["encrypted", "v1", iv, data, tag]
  {
    var rest := iv + [':'] + (data + [':'] + tag);
    assert Printed(iv, data, tag) == MARK + rest;
    MarkSplit(rest);
    SplitHead(iv, ':', data + [':'] + tag);
    SplitHead(data, ':', tag);
    SplitOne(tag, ':');
  }

  lemma JoinThree(parts: seq<string>)
    requires |parts| == 3
    ensures Join(parts, ':') == parts[0] + ":" + parts[1] + ":" + parts[2]
  {
    assert parts[1..][1..] == [parts[2]];
    assert Join(parts[1..], ':') == parts[1] + [':'] + parts[2];
  }

  /** Marked text that splits into five parts is the printing of its last three. */
  lemma FivePartsPrinted(text: string)
    requires IsEncrypted(text) && |Split(text, ':')| == 5
    ensures var parts := Split(text, ':');
            && text == Printed(parts[2], parts[3], parts[4])
            && ':' !in parts[2] && ':' !in parts[3] && ':' !in parts[4]
  {
    var rest := text[|MARK|..];
    var tail := Split(rest, ':');
    assert text == MARK + rest;
    assert Split(text, ':') == ["encrypted", "v1"] + tail by { MarkSplit(rest); }
    SplitClean(text, ':');
    assert rest == tail[0] + ":" + tail[1] + ":" + tail[2] by {
      SplitJoin(rest, ':');
      JoinThree(tail);
    }
  }

  // ---- Main results ----

  /** Decrypting what was encrypted gives it back, for every non-empty text without the mark. */
  lemma RoundTrip(c: Cipher, env: Option<string>, iv: Bytes, plaintext: string)
    requires Lawful(c) && HasKey(c, env) && |iv| == IV_LENGTH
    requires plaintext != "" && !IsEncrypted(plaintext)
    ensures var e := Encrypt(c, env, iv, plaintext);
            e.Ok? && IsEncrypted(e.value) && Decrypt(c, env, e.value) == Ok(plaintext)
  {
    var key := KeyOf(c, env).value;
    var (data, tag) := c.seal(key, iv, plaintext);
    assert c.open(key, iv, data, tag) == Some(plaintext);
    PrintedSplit(c.toBase64(iv), data, c.toBase64(tag));
    var text := Printed(c.toBase64(iv), data, c.toBase64(tag));
    assert MARK <= text;
  }

  /** What `encrypt` returns it leaves alone: under any key, with any later vector. */
  lemma EncryptIdempotent(c: Cipher, env: Option<string>, iv: Bytes, plaintext: string, env': Option<string>, iv': Bytes)
    requires Encrypt(c, env, iv, plaintext).Ok?
    ensures var e := Encrypt(c, env, iv, plaintext).value; Encrypt(c, env', iv', e) == Ok(e)
  {
    if !IsEncrypted(plaintext) {
      var (data, tag) := c.seal(KeyOf(c, env).value, iv, plaintext);
      assert MARK <= Printed(c.toBase64(iv), data, c.toBase64(tag));
    }
  }

  /** Marked text is accepted if and only if it is the printing of three colon-free parts that open
      under the key; so the checks of prefix and version after the split never fail. */
  lemma DecryptExact(c: Cipher, env: Option<string>, text: string, plaintext: string)
    requires IsEncrypted(text) && HasKey(c, env)
    ensures Decrypt(c, env, text) == Ok(plaintext) <==>
              exists iv, data, tag ::
                && text == Printed(iv, data, tag) && ':' !in iv && ':' !in data && ':' !in tag
                && |c.fromBase64(iv)| == IV_LENGTH && |c.fromBase64(tag)| == AUTH_TAG_LENGTH
                && c.open(KeyOf(c, env).value, c.fromBase64(iv), data, c.fromBase64(tag)) == Some(plaintext)
    ensures Decrypt(c, env, text) !in {Err(WrongPrefix), Err(WrongVersion), Err(EmptyInput)}
  {
    var parts := Split(text, ':');
    if |parts| == 5 {
      FivePartsPrinted(text);
      PrintedSplit(parts[2], parts[3], parts[4]);
    }
    forall iv, data, tag | text == Printed(iv, data, tag) && ':' !in iv && ':' !in data && ':' !in tag
      ensures parts == ["encrypted", "v1", iv, data, tag]
    {
      PrintedSplit(iv, data, tag);
    }
  }

  /** Text without the mark is handed back as it is, whatever the key, and empty text is refused. */
  lemma PlainTextPasses(c: Cipher, env: Option<string>, text: string)
    requires !("encrypted:v1:" <= text)
    ensures Decrypt(c, env, text) == if text == "" then Err(EmptyInput) else Ok(text)
  {
  }

  /** A key is usable if and only if it is 64 characters of hex for 32 bytes. */
  lemma HasKeyExactly(c: Cipher, env: Option<string>)
    ensures HasKey(c, env) <==> env.Some? && |env.value| == 64 && |c.fromHex(env.value)| == 32
  {
  }

  /** What `encrypt` writes for a text without the mark: the mark, then vector, ciphertext and tag, with
      colons between them; and what it answers otherwise. */
  lemma EncryptExactly(c: Cipher, env: Option<string>, iv: Bytes, plaintext: string)
    ensures plaintext == "" ==> Encrypt(c, env, iv, plaintext) == Err(EmptyInput)
    ensures "encrypted:v1:" <= plaintext ==> Encrypt(c, env, iv, plaintext) == Ok(plaintext)
    ensures plaintext != "" && !("encrypted:v1:" <= plaintext) ==>
              Encrypt(c, env, iv, plaintext) ==
                if env.None? || env.value == "" then Err(KeyNotSet)
                else if |env.value| != 64 then Err(KeyLength)
                else if |c.fromHex(env.value)| != 32 then Err(UnusableKey)
                else
                  var (data, tag) := c.seal(c.fromHex(env.value), iv, plaintext);
                  Ok("encrypted:v1:" + c.toBase64(iv) + ":" + data + ":" + c.toBase64(tag))
  {
  }

  /** Why a marked text is refused: for the key, for not having three parts after the mark, for the length
      of its vector or tag, or because the tag does not fit. */
  lemma RefusalExact(c: Cipher, env: Option<string>, iv: string, data: string, tag: string)
    requires ':' !in iv && ':' !in data && ':' !in tag
    ensures Decrypt(c, env, "encrypted:v1:" + iv + ":" + data + ":" + tag) ==
              if env.None? || env.value == "" then Err(KeyNotSet)
              else if |env.value| != 64 then Err(KeyLength)
              else if |c.fromBase64(iv)| != 12 then Err(IvLength)
              else if |c.fromBase64(tag)| != 16 then Err(TagLength)
              else if |c.fromHex(env.value)| != 32 then Err(UnusableKey)
              else match c.open(c.fromHex(env.value), c.fromBase64(iv), data, c.fromBase64(tag))
                   case Some(p) => Ok(p)
                   case None => Err(NotAuthentic)
  {
    var text := "encrypted:v1:" + iv + ":" + data + ":" + tag;
    assert text == Printed(iv, data, tag) && MARK <= text;
    PrintedSplit(iv, data, tag);
  }

  /** What a marked text opens to is shorter, so it is never its own decryption. */
  lemma DecryptedIsShorter(c: Cipher, env: Option<string>, text: string)
    requires Lawful(c) && IsEncrypted(text) && Decrypt(c, env, text).Ok?
    ensures |Decrypt(c, env, text).value| < |text|
  {
    var parts := Split(text, ':');
    FivePartsPrinted(text);
    assert c.open(KeyOf(c, env).value, c.fromBase64(parts[2]), parts[3], c.fromBase64(parts[4])).Some?;
  }

  /** Encrypting and then decrypting gives a text back if and only if it is not empty, does not
      carry the mark, and there is a usable key. */
  lemma RoundTripExactly(c: Cipher, env: Option<string>, iv: Bytes, plaintext: string)
    requires Lawful(c) && |iv| == IV_LENGTH
    ensures (Encrypt(c, env, iv, plaintext).Ok? && Decrypt(c, env, Encrypt(c, env, iv, plaintext).value) == Ok(plaintext))
       <==> plaintext != "" && !IsEncrypted(plaintext) && HasKey(c, env)
  {
    if plaintext != "" && !IsEncrypted(plaintext) && HasKey(c, env) {
      RoundTrip(c, env, iv, plaintext);
    } else if IsEncrypted(plaintext) && Decrypt(c, env, plaintext).Ok? {
      DecryptedIsShorter(c, env, plaintext);
    }
  }

  /** For example, when nothing after the mark is a colon, `decrypt` refuses the text. */
  lemma MarkedPlaintextLost(c: Cipher, env: Option<string>, iv: Bytes, rest: string)
    requires HasKey(c, env) && ':' !in rest
    ensures Encrypt(c, env, iv, MARK + rest) == Ok(MARK + rest)
    ensures Decrypt(c, env, MARK + rest) == Err(FiveParts)
  {
    MarkSplit(rest);
    SplitOne(rest, ':');
    assert MARK <= MARK + rest;
  }
}

/** lib/security/session-encryption.ts: encrypting the secrets inside a session authorization. */
module SessionEncryption {
  import opened Wrappers
  import opened Encryption

  /** The three kinds of authorization. Fields neither function looks at are kept as one text. */
  datatype Authorization =
    | Session7702(address: string, sessionKeyAddress: string, approvedVaults: seq<string>, expiry: int, rest: string,
                  serializedAccount: Option<string>, sessionPrivateKey: Option<string>)
    | SessionErc4337(address: string, sessionKeyAddress: string, approvedVaults: seq<string>, expiry: int, rest: string,
                     serializedAccount: Option<string>)
    | TransferSession(address: string, sessionKeyAddress: string, expiry: int, rest: string,
                      serializedAccount: Option<string>, sessionPrivateKey: Option<string>)

  function PrivateKey(a: Authorization): Option<string> {
    if a.SessionErc4337? then None else a.sessionPrivateKey
  }

  /** Present and not empty. */
  predicate Filled(secret: Option<string>) {
    secret.Some? && secret.value != ""
  }

  predicate Plain(secret: Option<string>) {
    Filled(secret) && !IsEncrypted(secret.value)
  }

  function SealSecret(c: Cipher, env: Option<string>, iv: Bytes, secret: Option<string>): Result<Option<string>, Error> {
    if !Plain(secret) then Ok(secret)
    else match Encrypt(c, env, iv, secret.value) { case Ok(e) => Ok(Some(e)) case Err(e) => Err(e) }
  }

  function OpenSecret(c: Cipher, env: Option<string>, secret: Option<string>): Result<Option<string>, Error> {
    if !Filled(secret) then Ok(secret)
    else match Decrypt(c, env, secret.value) { case Ok(p) => Ok(Some(p)) case Err(e) => Err(e) }
  }

  function EncryptAuthorization(c: Cipher, env: Option<string>, ivs: (Bytes, Bytes), a: Authorization): Result<Authorization, Error> {
    match SealSecret(c, env, ivs.0, a.serializedAccount)
    case Err(e) => Err(e)
    case Ok(account) =>
      var cloned := a.(serializedAccount := account);
      if a.SessionErc4337? then Ok(cloned)
      else
        match SealSecret(c, env, ivs.1, a.sessionPrivateKey)
        case Err(e) => Err(e)
        case Ok(key) => Ok(cloned.(sessionPrivateKey := key))
  }

  function DecryptAuthorization(c: Cipher, env: Option<string>, a: Authorization): Result<Authorization, Error> {
    match OpenSecret(c, env, a.serializedAccount)
    case Err(e) => Err(e)
    case Ok(account) =>
      var cloned := a.(serializedAccount := account);
      if a.SessionErc4337? then Ok(cloned)
      else
        match OpenSecret(c, env, a.sessionPrivateKey)
        case Err(e) => Err(e)
        case Ok(key) => Ok(cloned.(sessionPrivateKey := key))
  }

  predicate IsAuthorizationEncrypted(a: Authorization) {
    || (Filled(a.serializedAccount) && IsEncrypted(a.serializedAccount.value))
    || (Filled(PrivateKey(a)) && IsEncrypted(PrivateKey(a).value))
  }

  /** The secret can go through encryption and back. */
  predicate Survives(c: Cipher, env: Option<string>, secret: Option<string>) {
    Filled(secret) ==> !IsEncrypted(secret.value) && HasKey(c, env)
  }

  /** What comes back of one secret: itself, unless it carries the mark or the key is missing. */
  lemma SecretBack(c: Cipher, env: Option<string>, iv: Bytes, secret: Option<string>)
    requires Lawful(c) && |iv| == IV_LENGTH
    ensures var sealed := SealSecret(c, env, iv, secret);
            (sealed.Ok? && OpenSecret(c, env, sealed.value) == Ok(secret)) <==> Survives(c, env, secret)
  {
    if Filled(secret) {
      RoundTripExactly(c, env, iv, secret.value);
      if Encrypt(c, env, iv, secret.value).Ok? {
        EncryptFilled(c, env, iv, secret.value);
      }
    }
  }

  lemma EncryptFilled(c: Cipher, env: Option<string>, iv: Bytes, plaintext: string)
    requires plaintext != "" && Encrypt(c, env, iv, plaintext).Ok?
    ensures IsEncrypted(Encrypt(c, env, iv, plaintext).value) && Encrypt(c, env, iv, plaintext).value != ""
  {
    if !IsEncrypted(plaintext) {
      var (data, tag) := c.seal(KeyOf(c, env).value, iv, plaintext);
      assert MARK <= Printed(c.toBase64(iv), data, c.toBase64(tag));
    }
  }

  lemma SecretSealed(c: Cipher, env: Option<string>, iv: Bytes, secret: Option<string>)
    requires SealSecret(c, env, iv, secret).Ok?
    ensures var sealed := SealSecret(c, env, iv, secret).value;
            (Filled(secret) <==> Filled(sealed)) && (Filled(secret) ==> IsEncrypted(sealed.value))
  {
    if Plain(secret) {
      EncryptFilled(c, env, iv, secret.value);
    }
  }

  /** The two functions work secret by secret and leave every other field alone. */
  lemma BySecret(c: Cipher, env: Option<string>, ivs: (Bytes, Bytes), a: Authorization)
    ensures var e := EncryptAuthorization(c, env, ivs, a);
            var account, key := SealSecret(c, env, ivs.0, a.serializedAccount), SealSecret(c, env, ivs.1, PrivateKey(a));
            && (e.Ok? <==> account.Ok? && key.Ok?)
            && (e.Ok? ==>
                  && e.value.serializedAccount == account.value && PrivateKey(e.value) == key.value
                  && (DecryptAuthorization(c, env, e.value) == Ok(a) <==>
                        OpenSecret(c, env, account.value) == Ok(a.serializedAccount) && OpenSecret(c, env, key.value) == Ok(PrivateKey(a))))
  {
  }

  predicate ComesBack(c: Cipher, env: Option<string>, ivs: (Bytes, Bytes), a: Authorization) {
    var e := EncryptAuthorization(c, env, ivs, a);
    e.Ok? && DecryptAuthorization(c, env, e.value) == Ok(a)
  }

  /** Decrypting an encrypted authorization gives it back, field by field, for all three kinds, if and
      only if no secret carries the mark already and, if there is a secret, the key is usable. Absent
      and empty secrets do not matter. */
  lemma AuthorizationRoundTrip(c: Cipher, env: Option<string>, ivs: (Bytes, Bytes), a: Authorization)
    requires Lawful(c) && |ivs.0| == IV_LENGTH && |ivs.1| == IV_LENGTH
    ensures ComesBack(c, env, ivs, a) <==> Survives(c, env, a.serializedAccount) && Survives(c, env, PrivateKey(a))
  {
    BySecret(c, env, ivs, a);
    SecretBack(c, env, ivs.0, a.serializedAccount);
    SecretBack(c, env, ivs.1, PrivateKey(a));
  }

  /** Each secret is sealed on its own, the account under the first vector and the private key under the
      second, and no other field changes. */
  lemma SealedApart(c: Cipher, env: Option<string>, ivs: (Bytes, Bytes), a: Authorization)
    requires EncryptAuthorization(c, env, ivs, a).Ok?
    ensures var e := EncryptAuthorization(c, env, ivs, a).value;
            && (Plain(a.serializedAccount) ==>
                  e.serializedAccount.Some? && Encrypt(c, env, ivs.0, a.serializedAccount.value) == Ok(e.serializedAccount.value))
            && (Plain(PrivateKey(a)) ==>
                  PrivateKey(e).Some? && Encrypt(c, env, ivs.1, PrivateKey(a).value) == Ok(PrivateKey(e).value))
            && (!Plain(a.serializedAccount) ==> e.serializedAccount == a.serializedAccount)
            && (!Plain(PrivateKey(a)) ==> PrivateKey(e) == PrivateKey(a))
            && e.address == a.address && e.sessionKeyAddress == a.sessionKeyAddress && e.expiry == a.expiry && e.rest == a.rest
            && (a.Session7702? <==> e.Session7702?) && (a.SessionErc4337? <==> e.SessionErc4337?)
            && (!a.TransferSession? ==> e.approvedVaults == a.approvedVaults)
  {
  }

  /** Afterwards no secret is left in the clear, and encrypting again changes nothing. */
  lemma AuthorizationSealed(c: Cipher, env: Option<string>, ivs: (Bytes, Bytes), a: Authorization, ivs': (Bytes, Bytes))
    requires Lawful(c) && HasKey(c, env) && |ivs.0| == IV_LENGTH && |ivs.1| == IV_LENGTH
    ensures var e := EncryptAuthorization(c, env, ivs, a);
            && e.Ok? && !Plain(e.value.serializedAccount) && !Plain(PrivateKey(e.value))
            && (IsAuthorizationEncrypted(e.value) <==> Filled(a.serializedAccount) || Filled(PrivateKey(a)))
            && EncryptAuthorization(c, env, ivs', e.value) == Ok(e.value)
  {
    BySecret(c, env, ivs, a);
    SecretSealed(c, env, ivs.0, a.serializedAccount);
    SecretSealed(c, env, ivs.1, PrivateKey(a));
    BySecret(c, env, ivs', EncryptAuthorization(c, env, ivs, a).value);
  }

  /** Without a usable key it fails exactly when there is a secret to encrypt. */
  lemma NeedsKeyExactly(c: Cipher, env: Option<string>, ivs: (Bytes, Bytes), a: Authorization)
    requires !HasKey(c, env)
    ensures EncryptAuthorization(c, env, ivs, a).Err? <==> Plain(a.serializedAccount) || Plain(PrivateKey(a))
  {
  }
}
