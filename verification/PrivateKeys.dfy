/**
 Models encryptPrivateKey and decryptPrivateKey of
 backend/src/endpoints/certificate/certificate.service.ts, which frame a cipher
 text as hex (section 8 of RFC 4648) of the initialisation vector, ':', hex of
 the cipher text.

 AES and UTF-8 are foreign; they are a `Crypto` whose promises are `Sound` and
 `Encodes`.
 */
module PrivateKeys {
  import opened Wrappers

  newtype Byte = n: int | 0 <= n < 256

  type Bytes = seq<Byte>

  datatype Error =
    | NotConfigured | Malformed
    | Forbidden | NoCompany | NoUser | IcidFailed | NoCertificate | AlreadyRevealed

  datatype Result<T> = Ok(value: T) | Err(error: Error)

  // ----- hex -----

  const DIGITS := "0123456789abcdef"

  function DigitValue(c: char): (v: Option<Byte>)
    ensures v.Some? ==> v.value < 16
  {
    if '0' <= c <= '9' then Some((c as int - '0' as int) as Byte)
    else if 'a' <= c <= 'f' then Some((c as int - 'a' as int + 10) as Byte)
    else if 'A' <= c <= 'F' then Some((c as int - 'A' as int + 10) as Byte)
    else None
  }

  function HexPair(n: Byte): (pair: string)
    ensures |pair| == 2
  {
    [DIGITS[n / 16], DIGITS[n % 16]]
  }

  function Combined(high: Byte, low: Byte): Byte
    requires high < 16 && low < 16
  {
    high * 16 + low
  }

  function ByteOf(high: char, low: char): Option<Byte> {
    var h, l := DigitValue(high), DigitValue(low);
    if h.None? || l.None? then None else Some(Combined(h.value, l.value))
  }

  /** toString('hex') */
  function ToHex(bytes: Bytes): string {
    if bytes == [] then "" else HexPair(bytes[0]) + ToHex(bytes[1..])
  }

  /** Buffer.from(s, 'hex'): reads pairs of digits and stops at the first that is none. */
  function FromHex(s: string): Bytes {
    if |s| < 2 || ByteOf(s[0], s[1]).None? then []
    else [ByteOf(s[0], s[1]).value] + FromHex(s[2..])
  }

  predicate IsLowerDigit(c: char) {
    '0' <= c <= '9' || 'a' <= c <= 'f'
  }

  /** Pairs of lower-case hex digits. */
  predicate IsLowerHex(s: string) {
    s != "" ==> |s| >= 2 && IsLowerDigit(s[0]) && IsLowerDigit(s[1]) && IsLowerHex(s[2..])
  }

  lemma DigitIsRead(c: char)
    requires IsLowerDigit(c)
    ensures DigitValue(c).Some? && DIGITS[DigitValue(c).value] == c
  {
  }

  lemma DigitIsWritten(n: Byte)
    requires n < 16
    ensures DigitValue(DIGITS[n]) == Some(n) && IsLowerDigit(DIGITS[n])
  {
  }

  lemma ByteRoundTrip(n: Byte)
    ensures var pair := HexPair(n);
        ByteOf(pair[0], pair[1]) == Some(n) && IsLowerDigit(pair[0]) && IsLowerDigit(pair[1])
  {
    DigitIsWritten(n / 16);
    DigitIsWritten(n % 16);
    hide DigitValue, IsLowerDigit;
    assert Combined(n / 16, n % 16) == n;
  }

  lemma PairRoundTrip(high: char, low: char)
    requires IsLowerDigit(high) && IsLowerDigit(low)
    ensures ByteOf(high, low).Some? && HexPair(ByteOf(high, low).value) == [high, low]
  {
    DigitIsRead(high);
    DigitIsRead(low);
    var h, l := DigitValue(high).value, DigitValue(low).value;
    hide DigitValue, IsLowerDigit;
    Nibbles(h, l);
    hide Combined;
  }

  lemma Nibbles(h: Byte, l: Byte)
    requires h < 16 && l < 16
    ensures Combined(h, l) / 16 == h && Combined(h, l) % 16 == l
  {
  }


  lemma {:induction false} HexRoundTrip(bytes: Bytes)
    ensures FromHex(ToHex(bytes)) == bytes
    ensures IsLowerHex(ToHex(bytes))
  {
    if bytes == [] {
    } else {
      ByteRoundTrip(bytes[0]);
      HexRoundTrip(bytes[1..]);
      hide ByteOf, HexPair, IsLowerDigit;
      assert ToHex(bytes)[2..] == ToHex(bytes[1..]);
    }
  }

  /** A text is the hex of the bytes read from it exactly when it is an even number of lower-case digits. */
  lemma HexOfBytesExactly(s: string)
    ensures ToHex(FromHex(s)) == s <==> IsLowerHex(s)
  {
    HexRoundTrip(FromHex(s));
    if IsLowerHex(s) {
      LowerHexIsRead(s);
    }
  }

  lemma {:induction false} LowerHexIsRead(s: string)
    requires IsLowerHex(s)
    ensures ToHex(FromHex(s)) == s
  {
    if s == "" {
    } else {
      PairRoundTrip(s[0], s[1]);
      hide ByteOf, HexPair, IsLowerDigit;
      LowerHexIsRead(s[2..]);
      assert s == [s[0], s[1]] + s[2..];
      assert FromHex(s)[1..] == FromHex(s[2..]);
    }
  }

  lemma {:induction false} HexHasNoColon(s: string)
    requires IsLowerHex(s)
    ensures ':' !in s
  {
    if s == "" {
    } else {
      HexHasNoColon(s[2..]);
      assert s == [s[0], s[1]] + s[2..];
    }
  }

  /** Two digits for each byte, the higher half first. */
  lemma {:induction false} HexAt(bytes: Bytes, i: nat)
    requires i < |bytes|
    ensures |ToHex(bytes)| == 2 * |bytes|
    ensures ToHex(bytes)[2 * i] == "0123456789abcdef"[bytes[i] / 16]
    ensures ToHex(bytes)[2 * i + 1] == "0123456789abcdef"[bytes[i] % 16]
  {
    if |bytes| == 1 {
    } else if i == 0 {
      HexAt(bytes[1..], 0);
    } else {
      HexAt(bytes[1..], i - 1);
    }
  }

  // ----- the frame -----

  /** split(':') */
  function SplitColon(s: string): (parts: seq<string>)
    ensures |parts| >= 1
  {
    if s == "" then [""]
    else
      var rest := SplitColon(s[1..]);
      if s[0] == ':' then [""] + rest else [[s[0]] + rest[0]] + rest[1..]
  }

  lemma {:induction false} SplitColonOnce(a: string, b: string)
    requires ':' !in a && ':' !in b
    ensures SplitColon(a + ":" + b) == [a, b]
  {
    if a == "" {
      NoColon(b);
      assert (a + ":" + b)[1..] == b;
    } else {
      SplitColonOnce(a[1..], b);
      assert (a + ":" + b)[1..] == a[1..] + ":" + b;
      assert [a[0]] + a[1..] == a;
    }
  }

  lemma {:induction false} NoColon(s: string)
    requires ':' !in s
    ensures SplitColon(s) == [s]
  {
    if s == "" {
    } else {
      NoColon(s[1..]);
      assert [s[0]] + s[1..] == s;
    }
  }

  /**
   `decrypt` answers None where createDecipheriv or final throws. `keyBytes` are
   the bytes of the configured secret.
   */
  datatype Crypto = Crypto(
    encrypt: (Bytes, Bytes, Bytes) -> Bytes,
    decrypt: (Bytes, Bytes, Bytes) -> Option<Bytes>,
    utf8: string -> Bytes,
    fromUtf8: Bytes -> string,
    keyBytes: Option<Bytes>)

  const IV_LENGTH := 16
  const KEY_LENGTH := 32

  /** For a key and an initialisation vector of the right lengths the cipher is undone by its inverse. */
  ghost predicate Sound(crypto: Crypto) {
    forall key, iv, plain | |key| == KEY_LENGTH && |iv| == IV_LENGTH ::
      crypto.decrypt(key, iv, crypto.encrypt(key, iv, plain)) == Some(plain)
  }

  /** UTF-8 loses nothing of the text; it would of an unpaired surrogate. */
  predicate Encodes(crypto: Crypto, text: string) {
    crypto.fromUtf8(crypto.utf8(text)) == text
  }

  function EncryptPrivateKey(crypto: Crypto, privateKey: string, iv: Bytes): Result<string> {
    if crypto.keyBytes.None? then Err(NotConfigured)
    else if |crypto.keyBytes.value| != KEY_LENGTH || |iv| != IV_LENGTH then Err(Malformed)
    else Ok(ToHex(iv) + ":" + ToHex(crypto.encrypt(crypto.keyBytes.value, iv, crypto.utf8(privateKey))))
  }

  function DecryptPrivateKey(crypto: Crypto, encrypted: string): Result<string> {
    if crypto.keyBytes.None? then Err(NotConfigured)
    else
      var parts := SplitColon(encrypted);
      if |parts| < 2 then Err(Malformed)
      else
        var iv, text := FromHex(parts[0]), FromHex(parts[1]);
        if |crypto.keyBytes.value| != KEY_LENGTH || |iv| != IV_LENGTH then Err(Malformed)
        else
          match crypto.decrypt(crypto.keyBytes.value, iv, text)
          case None => Err(Malformed)
          case Some(plain) => Ok(crypto.fromUtf8(plain))
  }

  /** The frame of an initialisation vector and a cipher text is taken apart into just these. */
  lemma FrameRoundTrip(iv: Bytes, text: Bytes)
    ensures var parts := SplitColon(ToHex(iv) + ":" + ToHex(text));
            |parts| == 2 && FromHex(parts[0]) == iv && FromHex(parts[1]) == text
  {
    HexRoundTrip(iv);
    HexRoundTrip(text);
    HexHasNoColon(ToHex(iv));
    HexHasNoColon(ToHex(text));
    hide ToHex, FromHex;
    SplitColonOnce(ToHex(iv), ToHex(text));
  }

  /** What is stored: the initialisation vector in 32 digits, ':', and the cipher text of the key in UTF-8. */
  lemma FrameExactly(crypto: Crypto, privateKey: string, iv: Bytes)
    ensures var stored := EncryptPrivateKey(crypto, privateKey, iv);
      && (stored.Ok? <==> crypto.keyBytes.Some? && |crypto.keyBytes.value| == 32 && |iv| == 16)
      && (stored.Ok? ==>
            && |stored.value| > 32 && stored.value[..32] == ToHex(iv) && stored.value[32] == ':'
            && stored.value[33..] == ToHex(crypto.encrypt(crypto.keyBytes.value, iv, crypto.utf8(privateKey))))
  {
    if |iv| > 0 { HexAt(iv, 0); }
  }

  /** Whatever was encrypted is decrypted to itself, whichever initialisation vector was drawn. */
  lemma DecryptUndoesEncrypt(crypto: Crypto, privateKey: string, iv: Bytes)
    requires Sound(crypto) && Encodes(crypto, privateKey)
    ensures var stored := EncryptPrivateKey(crypto, privateKey, iv);
            stored.Ok? ==> DecryptPrivateKey(crypto, stored.value) == Ok(privateKey) && stored.value != ""
  {
    if crypto.keyBytes.Some? {
      FrameRoundTrip(iv, crypto.encrypt(crypto.keyBytes.value, iv, crypto.utf8(privateKey)));
    }
  }
}
