/**
 * What the plugin borrows from its host: the shell, Node's hash, codec and
 * cipher libraries, and its sources of randomness. None of them is
 * implemented here; an `Env` fixes one behaviour for each, and every
 * operation of the model is stated for an arbitrary `Env`.
 */
module Runtime {
  import opened Wrappers

  type Byte = bv8

  /** A 32-byte AES-256 key, as `scryptSync(password, "salt", 32)` returns it. */
  type Key = k: seq<Byte> | |k| == 32 witness seq(32, _ => 0)

  /** A 16-byte initialisation vector. */
  type Iv = v: seq<Byte> | |v| == 16 witness seq(16, _ => 0)

  /** AES-256-CBC output with PKCS#7 padding: one or more whole 16-byte blocks. */
  type CipherText = c: seq<Byte> | |c| > 0 && |c| % 16 == 0 witness seq(16, _ => 0)

  /** What deciphering produces: the UTF-8 text, or the message of the error it raised. */
  datatype Deciphered = Plaintext(text: string) | CryptoError(message: string)

  /**
   * One behaviour of the host:
   * - `exec`: the text a shell command yields, which for a failed command is
   *   `"Error: "` followed by the failure message;
   * - the hash digests in lowercase hex, the base64 and percent codecs
   *   (`urlDecode` is `None` where `decodeURIComponent` throws);
   * - `entropy`: the bytes the next `randomBytes` call returns, by index;
   * - `uuid`: what `crypto.randomUUID()` returns;
   * - `scrypt`: the key derived from a password with the fixed salt;
   * - `encipher` and `decipher`: AES-256-CBC under a key and an IV; the
   *   decipher is given the ciphertext as the hex text `update` receives,
   *   so it is the decipher that rejects hex of odd length (with the IV's
   *   length checked before that).
   */
  datatype Env = Env(
    exec: string -> string,
    md5: string -> string,
    sha1: string -> string,
    sha256: string -> string,
    base64Encode: string -> string,
    base64Decode: string -> string,
    urlEncode: string -> string,
    urlDecode: string -> Option<string>,
    entropy: nat -> Byte,
    uuid: string,
    scrypt: string -> Key,
    encipher: (Key, Iv, string) -> CipherText,
    decipher: (Key, seq<Byte>, string) -> Deciphered)

  /** The result of a call that may throw. */
  datatype Outcome<T> = Done(value: T) | Threw

  /** `randomBytes(n)` for a size it accepts. */
  function RandomBytes(h: Env, n: nat): (b: seq<Byte>)
    ensures |b| == n
    ensures forall i | 0 <= i < n :: b[i] == h.entropy(i)
  {
    seq(n, (i: int) requires 0 <= i < n => h.entropy(i))
  }
}
