/**
 * The helper functions the two dispatchers share: the URL-decoding wrapper,
 * password generation from random bytes, and the hex wire format of the
 * AES helpers with the format check on the decrypting side.
 */
module ToolFunctions {
  import opened Wrappers
  import opened JsText
  import opened JsNumber
  import opened Runtime

  /** What `urlDecode` returns when `decodeURIComponent` throws. */
  const UrlDecodeError := "Error: Invalid URL encoded string"

  /** `urlDecode`: the decoded text, or the error text when decoding fails. */
  function UrlDecode(h: Env, text: string): (r: string)
    ensures h.urlDecode(text).None? ==> r == UrlDecodeError
    ensures h.urlDecode(text).Some? ==> r == h.urlDecode(text).value
  {
    match h.urlDecode(text)
    case None => UrlDecodeError
    case Some(t) => t
  }

  // ---------------------------------------------------------------- passwords

  /** The characters a generated password is drawn from. */
  const Alphabet := "ABCDEFGHIJKLMNOPQRSTUVWXYZabcdefghijklmnopqrstuvwxyz0123456789!@#$%^&*"

  /** The password the random bytes select: byte `i` picks character `bytes[i] mod 70`. */
  function Password(bytes: seq<Byte>): string {
    seq(|bytes|, i requires 0 <= i < |bytes| => Alphabet[bytes[i] as int % |Alphabet|])
  }

  /** `randomBytes` accepts the size: it is a number and not negative. */
  predicate SizeAccepted(length: Number) {
    length.Int? && length.value >= 0
  }

  /** What `generatePassword(length)` returns, or that it throws. */
  function PasswordOutcome(h: Env, length: Number): Outcome<string> {
    if SizeAccepted(length) then Done(Password(RandomBytes(h, length.value))) else Threw
  }

  /**
   * `generatePassword(length)`: draws `length` random bytes, then appends one
   * alphabet character per byte.
   */
  method GeneratePassword(h: Env, length: Number) returns (r: Outcome<string>)
    ensures r.Done? <==> SizeAccepted(length)
    ensures r.Done? ==> |r.value| == length.value
    ensures r.Done? ==> forall i | 0 <= i < |r.value| :: r.value[i] == Alphabet[h.entropy(i) as int % 70]
    ensures r == PasswordOutcome(h, length)
  {
    if !SizeAccepted(length) {
      return Threw;
    }
    var bytes := RandomBytes(h, length.value);
    var password := "";
    for i := 0 to length.value
      invariant |password| == i
      invariant forall k | 0 <= k < i :: password[k] == Alphabet[bytes[k] as int % |Alphabet|]
    {
      password := password + [Alphabet[bytes[i] as int % |Alphabet|]];
    }
    assert password == Password(bytes);
    return Done(password);
  }

  /** A password is as long as the bytes that select it, every character is from the alphabet, and no bytes give the empty password. */
  lemma PasswordFromAlphabet(bytes: seq<Byte>)
    ensures |Password(bytes)| == |bytes|
    ensures forall i | 0 <= i < |bytes| :: Password(bytes)[i] in Alphabet
    ensures bytes == [] ==> Password(bytes) == ""
  {
    forall i | 0 <= i < |bytes|
      ensures Password(bytes)[i] in Alphabet
    {
      var k := bytes[i] as int % |Alphabet|;
      assert Password(bytes)[i] == Alphabet[k];
    }
  }

  // ---------------------------------------------------------------- hex

  const HexDigits := "0123456789abcdef"

  predicate IsLowerHex(s: string) {
    forall x | 0 <= x < |s| :: s[x] in HexDigits
  }

  /** `buffer.toString("hex")`: two lowercase digits per byte, high nibble first. */
  function Hex(b: seq<Byte>): (r: string)
    ensures |r| == 2 * |b|
    ensures IsLowerHex(r)
  {
    if b == [] then ""
    else
      var rest := Hex(b[1..]);
      var r := [HexDigits[b[0] as int / 16], HexDigits[b[0] as int % 16]] + rest;
      assert forall x | 2 <= x < |r| :: r[x] == rest[x - 2];
      r
  }

  /** Hex text holds no colon, so a colon can separate two hex fields. */
  lemma HexHasNoColon(s: string)
    requires IsLowerHex(s)
    ensures ':' !in s
  {
    assert ':' !in HexDigits;
    forall x | 0 <= x < |s|
      ensures s[x] != ':'
    {
      assert s[x] in HexDigits;
    }
  }

  /** The value of a hex digit in either case. */
  function HexValue(c: char): (v: Option<nat>)
    ensures v.Some? ==> v.value < 16
  {
    if '0' <= c <= '9' then Some(c as int - '0' as int)
    else if 'a' <= c <= 'f' then Some(c as int - 'a' as int + 10)
    else if 'A' <= c <= 'F' then Some(c as int - 'A' as int + 10)
    else None
  }

  /**
   * `Buffer.from(s, "hex")`: decodes pairs of digits from the front and stops
   * at the first pair that is not two hex digits; a lone last digit is dropped.
   */
  function HexToBytes(s: string): (b: seq<Byte>)
    ensures 2 * |b| <= |s|
    decreases |s|
  {
    if |s| >= 2 && HexValue(s[0]).Some? && HexValue(s[1]).Some? then
      [(HexValue(s[0]).value * 16 + HexValue(s[1]).value) as Byte] + HexToBytes(s[2..])
    else []
  }

  lemma HexDigitValue(d: nat)
    requires d < 16
    ensures HexValue(HexDigits[d]) == Some(d)
  {
  }

  /** The two digits `Hex` writes for a byte decode to that byte. */
  lemma HexPair(v: Byte)
    ensures var hi, lo := HexDigits[v as int / 16], HexDigits[v as int % 16];
      HexValue(hi).Some? && HexValue(lo).Some? && (HexValue(hi).value * 16 + HexValue(lo).value) as Byte == v
  {
    HexDigitValue(v as int / 16);
    HexDigitValue(v as int % 16);
  }

  /** Decoding hex reads back the bytes it encodes. */
  lemma {:induction false} HexRoundTrip(b: seq<Byte>)
    ensures HexToBytes(Hex(b)) == b
  {
    if b != [] {
      var s := Hex(b);
      HexPair(b[0]);
      assert s[2..] == Hex(b[1..]);
      HexRoundTrip(b[1..]);
      assert b == [b[0]] + b[1..];
    }
  }

  // ---------------------------------------------------------------- AES

  /** `aesEncrypt(text, password)` once its IV is drawn: `hex(iv) ":" hex(ciphertext)`. */
  function EncryptWith(h: Env, text: string, password: string, iv: Iv): (r: string)
    ensures var ct := h.encipher(h.scrypt(password), iv, text);
      |r| == 33 + 2 * |ct| && r[..32] == Hex(iv) && r[32] == ':' && r[33..] == Hex(ct)
  {
    Hex(iv) + ":" + Hex(h.encipher(h.scrypt(password), iv, text))
  }

  /** `aesEncrypt(text, password)`, its IV being `randomBytes(16)`. */
  function AesEncrypt(h: Env, text: string, password: string): (r: string)
    ensures WellFormed(r)
    ensures var k, iv := h.scrypt(password), RandomBytes(h, 16);
      h.decipher(k, iv, Hex(h.encipher(k, iv, text))) == Plaintext(text) ==> AesDecrypt(h, r, password) == text
  {
    var iv: Iv := RandomBytes(h, 16);
    WireFormat(h, text, password, iv);
    AesRoundTrip(h, text, password, iv);
    EncryptWith(h, text, password, iv)
  }

  const FormatError := "Error: Invalid encrypted format"

  /** The first two `:`-separated segments, a missing second one read as empty. */
  function IvSegment(payload: string): string {
    SplitOn(payload, ':')[0]
  }

  function CipherSegment(payload: string): string {
    var parts := SplitOn(payload, ':');
    if |parts| > 1 then parts[1] else ""
  }

  /** The format check passes: both segments are present and non-empty. */
  predicate WellFormed(payload: string) {
    IvSegment(payload) != "" && CipherSegment(payload) != ""
  }

  /**
   * `aesDecrypt(payload, password)`: the format check comes first; otherwise
   * the key is derived, the IV segment is hex-decoded, and the decipher gets
   * the IV and the ciphertext segment as hex text; its error message is
   * reported after `"Error: "`.
   */
  function AesDecrypt(h: Env, payload: string, password: string): (r: string)
    ensures !WellFormed(payload) ==> r == FormatError
  {
    if !WellFormed(payload) then FormatError
    else
      match h.decipher(h.scrypt(password), HexToBytes(IvSegment(payload)), CipherSegment(payload))
      case Plaintext(t) => t
      case CryptoError(m) => "Error: " + m
  }

  /**
   * The format check rejects exactly a payload with no colon, one that starts
   * with a colon, and one whose second segment is empty (a second colon or
   * the end right after the first).
   */
  lemma FormatCheckCases(payload: string)
    ensures !WellFormed(payload) <==>
      var i := IndexOf(payload, ':', 0);
      i == |payload| || i == 0 || IndexOf(payload, ':', i + 1) == i + 1
  {
    var i := IndexOf(payload, ':', 0);
    SplitOnHead(payload);
    if i < |payload| {
      var rest := payload[i + 1..];
      SplitOnHead(rest);
      IndexOfShift(payload, i + 1);
    }
  }

  /** Searching a suffix finds the same separator, shifted. */
  lemma IndexOfShift(s: string, i: nat)
    requires i <= |s|
    ensures IndexOf(s[i..], ':', 0) == IndexOf(s, ':', i) - i
  {
    var j := IndexOf(s, ':', i);
    var t := s[i..];
    assert forall x | 0 <= x < j - i :: t[x] == s[i + x];
    IndexOfAt(t, ':', 0, j - i);
  }

  /** The first piece of a split runs to the first separator; the other pieces are those of the text after it. */
  lemma SplitOnHead(s: string)
    ensures |SplitOn(s, ':')[0]| == IndexOf(s, ':', 0)
    ensures |SplitOn(s, ':')| > 1 <==> IndexOf(s, ':', 0) < |s|
    ensures IndexOf(s, ':', 0) < |s| ==> SplitOn(s, ':')[1] == SplitOn(s[IndexOf(s, ':', 0) + 1..], ':')[0]
  {
  }

  /**
   * The ciphertext segment reaches the decipher exactly as written, whatever
   * its length: only the IV segment is hex-decoded before the decipher.
   */
  lemma SegmentReachesDecipher(h: Env, a: string, b: string, password: string)
    requires ':' !in a && ':' !in b && a != "" && b != ""
    ensures AesDecrypt(h, a + ":" + b, password) ==
      match h.decipher(h.scrypt(password), HexToBytes(a), b)
      case Plaintext(t) => t
      case CryptoError(m) => "Error: " + m
  {
    assert a + ":" + b == a + [':'] + b;
    SplitOnFirst(a, ':', b);
    SplitOnNone(b, ':');
  }

  /** Segments after the second colon do not reach the decipher. */
  lemma ExtraSegmentsIgnored(h: Env, a: string, b: string, rest: string, password: string)
    requires ':' !in a && ':' !in b
    ensures AesDecrypt(h, a + ":" + b + ":" + rest, password) == AesDecrypt(h, a + ":" + b, password)
  {
    var p := a + ":" + b + ":" + rest;
    var q := a + ":" + b;
    assert p == a + [':'] + (b + [':'] + rest);
    assert q == a + [':'] + b;
    SplitOnFirst(a, ':', b + [':'] + rest);
    SplitOnFirst(b, ':', rest);
    SplitOnFirst(a, ':', b);
    SplitOnNone(b, ':');
  }

  /**
   * The encrypted wire format: the split on `:` gives exactly the 32 hex
   * digits of the IV and the non-empty hex of the ciphertext, so the format
   * check passes.
   */
  lemma WireFormat(h: Env, text: string, password: string, iv: Iv)
    ensures var ct := h.encipher(h.scrypt(password), iv, text);
      SplitOn(EncryptWith(h, text, password, iv), ':') == [Hex(iv), Hex(ct)]
      && |Hex(iv)| == 32 && IsLowerHex(Hex(iv)) && |Hex(ct)| > 0 && IsLowerHex(Hex(ct))
    ensures WellFormed(EncryptWith(h, text, password, iv))
  {
    var ct := h.encipher(h.scrypt(password), iv, text);
    assert EncryptWith(h, text, password, iv) == Hex(iv) + [':'] + Hex(ct);
    HexHasNoColon(Hex(iv));
    HexHasNoColon(Hex(ct));
    SplitOnFirst(Hex(iv), ':', Hex(ct));
    SplitOnNone(Hex(ct), ':');
  }

  /**
   * Decrypting what was encrypted under the same password gives the text
   * back, whenever the cipher itself inverts under that key and IV.
   */
  lemma AesRoundTrip(h: Env, text: string, password: string, iv: Iv)
    ensures var k := h.scrypt(password);
      h.decipher(k, iv, Hex(h.encipher(k, iv, text))) == Plaintext(text) ==>
      AesDecrypt(h, EncryptWith(h, text, password, iv), password) == text
  {
    WireFormat(h, text, password, iv);
    HexRoundTrip(iv);
  }
}
