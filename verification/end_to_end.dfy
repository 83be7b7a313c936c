/** The path of a message key: the client wraps it once per participant, the server stores the
    wrapped copies, each participant fetches its own copy and unwraps it. */
module EndToEnd {
  import opened Wrappers
  import opened SymbolicCrypto
  import opened Tables
  import opened Queries
  import opened ServiceRuns
  import opened ServiceGuarantees
  import opened Uuids

  /** The stored algorithm id, parsed: three scrypt numbers, or text that does not parse. */
  datatype AlgorithmId = Scrypt(n: nat, r: nat, p: nat) | Unparsable(text: string)

  const DEFAULT_ALGORITHM := Scrypt(16384, 8, 1)

  function DeriveKey(password: string, salt: nat, a: AlgorithmId): Term
    requires a.Scrypt?
  {
    DerivedKey(password, salt, a.n, a.r, a.p)
  }

  datatype EncryptedKeyMaterial = EncryptedKeyMaterial(salt: nat, encryptedKey: Term, algorithm: AlgorithmId)

  /** What registration with a password leaves in the key store. */
  function Protect(password: string, seed: nat, salt: nat, iv: nat): EncryptedKeyMaterial {
    EncryptedKeyMaterial(salt, Encrypted(DeriveKey(password, salt, DEFAULT_ALGORITHM), iv, PrivateKey(seed)), DEFAULT_ALGORITHM)
  }

  /** What unlocking with a password yields. */
  function Unlock(stored: Option<EncryptedKeyMaterial>, password: string, fits: Padding): Result<Term, string> {
    match stored
    case None => Err("Failed to load the encrypted key from a cache.")
    case Some(material) =>
      if material.algorithm.Unparsable? then Err("Invalid or corrupted algorithm identifier")
      else DecryptSymmetric(material.encryptedKey, DeriveKey(password, material.salt, material.algorithm), fits)
  }

  /** The password of the registration unlocks the registered key and no other password yields it.
      A wrong one still counts as unlocking exactly when the padding fits, and then what is loaded
      is no private key at all. */
  lemma UnlockExactly(password: string, attempt: string, seed: nat, salt: nat, iv: nat, fits: Padding)
    ensures var r := Unlock(Some(Protect(password, seed, salt, iv)), attempt, fits);
            && (r == Ok(PrivateKey(seed)) <==> attempt == password)
            && (attempt != password ==> (r.Ok? <==> fits(Protect(password, seed, salt, iv).encryptedKey, DeriveKey(attempt, salt, DEFAULT_ALGORITHM))))
            && (attempt != password && r.Ok? ==> forall wrapped :: UnwrapKey(wrapped, r.value).Err?)
  {
  }

  /** What unlocks, for any key store: there has to be material with a readable algorithm id, and the key
      has to be encrypted under what its numbers derive from the password, or the padding has to fit. */
  lemma UnlocksExactly(stored: Option<EncryptedKeyMaterial>, password: string, fits: Padding)
    ensures Unlock(stored, password, fits).Ok?
            <==> && stored.Some? && stored.value.algorithm.Scrypt?
                 && var a, cipher := stored.value.algorithm, stored.value.encryptedKey;
                    var key := DerivedKey(password, stored.value.salt, a.n, a.r, a.p);
                    (cipher.Encrypted? && cipher.key == key) || fits(cipher, key)
    ensures stored == None ==> Unlock(stored, password, fits) == Err("Failed to load the encrypted key from a cache.")
  {
  }

  /** The client's key manager: a key store and the private key of the session. */
  class ClientKeyManager {
    var keyStore: Option<EncryptedKeyMaterial>
    var loadedPrivateKey: Term

    constructor ()
      ensures keyStore == None && loadedPrivateKey == Text("")
    {
      keyStore, loadedPrivateKey := None, Text("");
    }

    /** Random bytes are parameters. The key pair is stored but not loaded. */
    method GenerateAndProtectKeyPair(password: string, seed: nat, salt: nat, iv: nat) returns (pair: KeyPair)
      modifies this`keyStore
      ensures pair == GenerateKeyPair(seed)
      ensures keyStore == Some(Protect(password, seed, salt, iv))
      ensures keyStore.value.encryptedKey == Encrypted(DerivedKey(password, salt, 16384, 8, 1), iv, pair.privateKey)
    {
      pair := GenerateKeyPair(seed);
      var privateKeyEncryptionKey := DeriveKey(password, salt, DEFAULT_ALGORITHM);
      var encrypted := EncryptSymmetric(pair.privateKey, privateKeyEncryptionKey, iv);
      keyStore := Some(EncryptedKeyMaterial(salt, encrypted.value, DEFAULT_ALGORITHM));
    }

    method UnlockPrivateKey(password: string, fits: Padding) returns (r: Result<(), string>)
      modifies this`loadedPrivateKey
      ensures r.Ok? <==> Unlock(keyStore, password, fits).Ok?
      ensures keyStore == None ==> r == Err("Failed to load the encrypted key from a cache.")
      ensures loadedPrivateKey == if r.Ok? then Unlock(keyStore, password, fits).value else old(loadedPrivateKey)
    {
      if keyStore.None? {
        return Err("Failed to load the encrypted key from a cache.");
      }
      var cached := keyStore.value;
      if cached.algorithm.Unparsable? {
        return Err("Invalid or corrupted algorithm identifier");
      }
      var key := DeriveKey(password, cached.salt, cached.algorithm);
      var decrypted := DecryptSymmetric(cached.encryptedKey, key, fits);
      if decrypted.Err? {
        return Err(decrypted.error);
      }
      loadedPrivateKey := decrypted.value;
      return Ok(());
    }

    method GetPrivateKey() returns (key: Term)
      ensures key == loadedPrivateKey
    {
      key := loadedPrivateKey;
    }

    /** Clears the store only: a key already loaded stays loaded. */
    method DeleteProtectedKeys()
      modifies this`keyStore
      ensures keyStore == None
    {
      keyStore := None;
    }
  }

  /** The request body of a send: JSON object members are keyed by text. */
  datatype Payload = Payload(ciphertext: Term, encryptedKeys: map<string, Term>, kind: string)

  /** Every participant has a usable public key in the directory. */
  predicate AllWrappable(participants: seq<string>, directory: map<string, Term>) {
    forall u :: u in participants ==> u in directory && directory[u].PublicKey?
  }

  function WrappedKeys(participants: seq<string>, directory: map<string, Term>, aesKey: Term): map<string, Term>
    requires AllWrappable(participants, directory)
  {
    map u | u in participants :: WrappedKey(directory[u].pair, aesKey)
  }

  /** `directory` answers GetPublicKey; a participant without an entry makes the lookup throw. */
  method BuildSendMessagePayload(ciphertext: Term, participants: seq<string>, aesKey: Term, directory: map<string, Term>)
    returns (r: Result<Payload, string>)
    ensures r.Ok? <==> AllWrappable(participants, directory)
    ensures r.Ok? ==> r.value == Payload(ciphertext, WrappedKeys(participants, directory, aesKey), "TEXT")
  {
    var keys: map<string, Term> := map[];
    for i := 0 to |participants|
      invariant AllWrappable(participants[..i], directory)
      invariant keys == WrappedKeys(participants[..i], directory, aesKey)
    {
      var user := participants[i];
      assert participants[..i + 1] == participants[..i] + [user];
      assert user in participants;
      if user !in directory {
        return Err("Not found");
      }
      var wrapped := WrapKey(aesKey, directory[user]);
      if wrapped.Err? {
        return Err(wrapped.error);
      }
      keys := keys[user := wrapped.value];
    }
    assert participants[..|participants|] == participants;
    return Ok(Payload(ciphertext, keys, "TEXT"));
  }

  /** The client's send up to the request: a fresh AES key, the ciphertext, the wrapped keys. */
  method PrepareMessage(plainText: Term, participants: seq<string>, directory: map<string, Term>, seed: nat, iv: nat)
    returns (r: Result<Payload, string>)
    ensures r.Ok? <==> AllWrappable(participants, directory)
    ensures r.Ok? ==> r.value == Prepared(plainText, participants, directory, seed, iv)
  {
    var aesKey := SymmetricKey(seed);
    var ciphertext := EncryptSymmetric(plainText, aesKey, iv);
    r := BuildSendMessagePayload(ciphertext.value, participants, aesKey, directory);
  }

  function Prepared(plainText: Term, participants: seq<string>, directory: map<string, Term>, seed: nat, iv: nat): Payload
    requires AllWrappable(participants, directory)
  {
    Payload(Encrypted(SymmetricKey(seed), iv, plainText), WrappedKeys(participants, directory, SymmetricKey(seed)), "TEXT")
  }

  /** The server's reading of the `encrypted_keys` object: the same map, keyed by user id. */
  function ByUserId(keys: map<string, Term>): map<UserId, Term> {
    map u: UserId | u in Ids(keys.Keys) :: keys[u.text]
  }

  function Ids(texts: set<string>): set<UserId> {
    set s | s in texts :: UserId(s)
  }

  method ExtractEncryptedKeys(encryptedKeys: map<string, Term>) returns (keys: map<UserId, Term>)
    ensures keys == ByUserId(encryptedKeys)
  {
    keys := map[];
    var items := encryptedKeys.Keys;
    while items != {}
      invariant items <= encryptedKeys.Keys
      invariant keys.Keys == Ids(encryptedKeys.Keys - items)
      invariant forall u :: u in keys ==> u.text in encryptedKeys && keys[u] == encryptedKeys[u.text]
      decreases |items|
    {
      var text :| text in items;
      assert Ids(encryptedKeys.Keys - (items - {text})) == Ids(encryptedKeys.Keys - items) + {UserId(text)} by {
        assert encryptedKeys.Keys - (items - {text}) == (encryptedKeys.Keys - items) + {text};
      }
      keys := keys[UserId(text) := encryptedKeys[text]];
      items := items - {text};
    }
    assert encryptedKeys.Keys - items == encryptedKeys.Keys;
  }

  /** The receiving client: fetch the own wrapped key, unwrap it, decrypt the ciphertext. */
  function DecryptIncomingMessage(t: Tables, m: Message, user: UserId, privateKey: Term, fits: Padding): Result<Term, string> {
    match GetEncryptedKey(t, m.id, user)
    case None => Err("Encrypted key not found or you lack permission to access it.")
    case Some(wrapped) =>
      match UnwrapKey(wrapped, privateKey)
      case Err(e) => Err(e)
      case Ok(aesKey) => DecryptSymmetric(m.ciphertext, aesKey, fits)
  }

  /** A user's registration: the key in the directory belongs to the protected private key. */
  datatype Registration = Registration(password: string, seed: nat, salt: nat, iv: nat) {
    function Material(): EncryptedKeyMaterial { Protect(password, seed, salt, iv) }
  }

  /** A send that committed put in exactly its message and its keys. */
  lemma CommittedSend(states: seq<System>, steps: seq<Step>, i: nat)
    requires IsRun(states, steps) && i < |steps| && steps[i].StoreMessage?
    requires steps[i].message.id in states[i + 1].tables.messages
    ensures states[i + 1].tables == WithMessage(states[i].tables, steps[i].message, steps[i].keys)
    ensures forall who :: (steps[i].message.id, who) !in states[i].tables.keys
    ensures steps[i].message.id in states[i + 1].usedMessages
  {
    RunKeepsInv(states, steps, i);
    StepEffect(states[i], steps[i]);
  }

  lemma StepAddsNoKeys(s: System, step: Step, id: MessageId, who: UserId)
    requires SystemInv(s) && Enabled(s, step) && id in s.usedMessages
    requires (id, who) !in s.tables.keys
    ensures (id, who) !in Next(s, step).tables.keys
  {
    assert ForeignKeys(s.tables);
    StepEffect(s, step);
    EffectAddsNoKeys(s, step, Next(s, step).tables, id, who);
  }

  lemma EffectAddsNoKeys(s: System, step: Step, t': Tables, id: MessageId, who: UserId)
    requires Enabled(s, step) && Effect(s, step, t') && id in s.usedMessages && (id, who) !in s.tables.keys
    ensures (id, who) !in t'.keys
  {
  }

  /** A key that a committed send did not carry is never added afterwards. */
  lemma {:induction false} MissingKeysStayMissing(states: seq<System>, steps: seq<Step>, i: nat, j: nat, id: MessageId, who: UserId)
    requires IsRun(states, steps) && i <= j < |states|
    requires id in states[i].usedMessages && (id, who) !in states[i].tables.keys
    ensures (id, who) !in states[j].tables.keys
    decreases j
  {
    if i < j {
      MissingKeysStayMissing(states, steps, i, j - 1, id, who);
      UsedIdsGrow(states, steps, i, j - 1);
      RunKeepsInv(states, steps, j - 1);
      StepAddsNoKeys(states[j - 1], steps[j - 1], id, who);
    }
  }

  /** Each listed user's copy of the key is what the server holds for as long as the message lives. */
  lemma StoredKeysArePayloadKeys(states: seq<System>, steps: seq<Step>, i: nat, j: nat, who: UserId)
    requires IsRun(states, steps) && i < |steps| && i < j < |states| && steps[i].StoreMessage?
    requires steps[i].message.id in states[i + 1].tables.messages && steps[i].message.id in states[j].tables.messages
    ensures states[j].tables.messages[steps[i].message.id] == steps[i].message
    ensures GetEncryptedKey(states[j].tables, steps[i].message.id, who)
            == if who in steps[i].keys then Some(steps[i].keys[who]) else None
  {
    var id, keys := steps[i].message.id, steps[i].keys;
    CommittedSend(states, steps, i);
    LiveMessagesAreUnaltered(states, steps, i + 1, j, j, id);
    if who in keys {
      assert (id, who) in KeyCells(id, keys.Keys);
      RunKeepsRows(states, steps, i + 1, j, id, who);
    } else {
      MissingKeysStayMissing(states, steps, i + 1, j, id, who);
    }
  }

  /** The directory answers every spelling of a user's id with that user's key. */
  ghost predicate Answers(canon: Canon, directory: map<string, Term>, user: UserId, publicKey: Term) {
    forall text :: text in directory && canon(UserId(text)) == user ==> directory[text] == publicKey
  }

  ghost predicate IsListed(canon: Canon, participants: seq<string>, user: UserId) {
    exists i :: 0 <= i < |participants| && canon(UserId(participants[i])) == user
  }

  /** What the server holds for a user, whichever way the sender spelled the id. */
  lemma KeyOfUser(canon: Canon, participants: seq<string>, directory: map<string, Term>, aesKey: Term, user: UserId, pair: nat)
    requires AllWrappable(participants, directory) && Answers(canon, directory, user, PublicKey(pair))
    requires OneSpelling(canon, ByUserId(WrappedKeys(participants, directory, aesKey)).Keys)
    ensures var stored := Canonical(canon, ByUserId(WrappedKeys(participants, directory, aesKey)));
            && (user in stored <==> IsListed(canon, participants, user))
            && (user in stored ==> stored[user] == WrappedKey(pair, aesKey))
  {
    var keys := WrappedKeys(participants, directory, aesKey);
    var byText := ByUserId(keys);
    if i :| 0 <= i < |participants| && canon(UserId(participants[i])) == user {
      assert participants[i] in keys && UserId(participants[i]) in byText;
      assert canon(UserId(participants[i])) in Canonical(canon, byText);
    }
    if user in Canonical(canon, byText) {
      var u :| u in byText.Keys && canon(u) == user;
      assert u.text in participants;
    }
  }

  lemma ReadsOrNot(wrapped: Option<Term>, pair: nat, plainText: Term, aesKey: Term, iv: nat, privateKey: Term, fits: Padding, t: Tables, m: Message, user: UserId)
    requires GetEncryptedKey(t, m.id, user) == wrapped && m.ciphertext == Encrypted(aesKey, iv, plainText) && aesKey.SymmetricKey?
    requires wrapped.Some? ==> wrapped.value == WrappedKey(pair, aesKey)
    requires privateKey == PrivateKey(pair) || forall w :: UnwrapKey(w, privateKey).Err?
    ensures var read := DecryptIncomingMessage(t, m, user, privateKey, fits);
            if wrapped.Some? && privateKey == PrivateKey(pair) then read == Ok(plainText) else read.Err?
  {
  }

  /** Once a send has committed, then in every later state in which the message still exists, a
      registered user whose unlocking did not fail reads exactly the plaintext if the sender listed
      that user, in whatever spelling, and the password was the registration's, and gets an error
      otherwise. A send commits only if its list has no id in two spellings. */
  lemma ReadableExactlyByTheListed(
      states: seq<System>, steps: seq<Step>, i: nat, j: nat, canon: Canon,
      plainText: Term, participants: seq<string>, directory: map<string, Term>, seed: nat, iv: nat,
      user: UserId, registration: Registration, password: string, fits: Padding)
    requires IsRun(states, steps) && i < |steps| && i < j < |states|
    requires AllWrappable(participants, directory)
    requires steps[i].StoreMessage? && steps[i].message.ciphertext == Prepared(plainText, participants, directory, seed, iv).ciphertext
    requires var texts := ByUserId(Prepared(plainText, participants, directory, seed, iv).encryptedKeys);
             OneSpelling(canon, texts.Keys) && steps[i].keys == Canonical(canon, texts)
    requires steps[i].message.id in states[i + 1].tables.messages
    requires steps[i].message.id in states[j].tables.messages
    requires Answers(canon, directory, user, GenerateKeyPair(registration.seed).publicKey)
    requires Unlock(Some(registration.Material()), password, fits).Ok?
    ensures var m := states[j].tables.messages[steps[i].message.id];
            var read := DecryptIncomingMessage(states[j].tables, m, user, Unlock(Some(registration.Material()), password, fits).value, fits);
            if IsListed(canon, participants, user) && password == registration.password then read == Ok(plainText) else read.Err?
  {
    var t, aesKey := states[j].tables, SymmetricKey(seed);
    StoredKeysArePayloadKeys(states, steps, i, j, user);
    KeyOfUser(canon, participants, directory, aesKey, user, registration.seed);
    UnlockExactly(registration.password, password, registration.seed, registration.salt, registration.iv, fits);
    var m := t.messages[steps[i].message.id];
    ReadsOrNot(GetEncryptedKey(t, m.id, user), registration.seed, plainText, aesKey, iv,
      Unlock(Some(registration.Material()), password, fits).value, fits, t, m, user);
  }
}
