/** Cryptography as a term algebra: a string that the client or the server handles is the text it
    is, or the operation that produced it. Random bytes are the numbers passed in. */
module SymbolicCrypto {
  import opened Wrappers

  datatype Term =
    | Text(text: string)
    | SymmetricKey(seed: nat)                               // GenerateSymmetricKey
    | DerivedKey(password: string, salt: nat, n: nat, r: nat, p: nat) // DeriveKey, the scrypt parameters
    | PublicKey(pair: nat)
    | PrivateKey(pair: nat)
    | Encrypted(key: Term, iv: nat, body: Term)             // EncryptSymmetric
    | WrappedKey(pair: nat, key: Term)                      // WrapKey under PublicKey(pair)
    | Garbage(cipher: Term, key: Term)                      // what decryption with a wrong key leaves

  datatype KeyPair = KeyPair(privateKey: Term, publicKey: Term)

  function GenerateKeyPair(seed: nat): KeyPair {
    KeyPair(PrivateKey(seed), PublicKey(seed))
  }

  predicate IsCipherKey(t: Term) {
    t.SymmetricKey? || t.DerivedKey?
  }

  /** AES keys are checked for their size before use. */
  function EncryptSymmetric(body: Term, key: Term, iv: nat): Result<Term, string> {
    if IsCipherKey(key) then Ok(Encrypted(key, iv, body)) else Err("Invalid AES key size")
  }

  /** Whether the last block of a ciphertext happens to end in a valid padding under a wrong key. */
  type Padding = (Term, Term) -> bool

  /** CBC has no authentication: all that a wrong key has to get past is the padding check. */
  function DecryptSymmetric(cipher: Term, key: Term, fits: Padding): Result<Term, string> {
    if !IsCipherKey(key) then Err("Invalid AES key size")
    else if cipher.Encrypted? && cipher.key == key then Ok(cipher.body)
    else if fits(cipher, key) then Ok(Garbage(cipher, key))
    else Err("AES decryption failed (Message corrupted or wrong key)")
  }

  function WrapKey(key: Term, publicKey: Term): Result<Term, string> {
    if publicKey.PublicKey? then Ok(WrappedKey(publicKey.pair, key)) else Err("Failed to load public key")
  }

  function UnwrapKey(wrapped: Term, privateKey: Term): Result<Term, string> {
    if !privateKey.PrivateKey? then Err("Failed to load private key")
    else if wrapped.WrappedKey? && wrapped.pair == privateKey.pair then Ok(wrapped.key)
    else Err("RSA key unwrapping failed (Incorrect Private Key)")
  }
}
