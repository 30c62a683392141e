/** Secrets sealed at rest (internal/auth/secretbox.go) and the one-time-code seeds kept that way
    (internal/store/store.go, internal/store/auth.go). AES-GCM and base64 are parameters; all that is assumed
    is that opening undoes sealing, decoding undoes encoding, and neither makes its input longer. */
module SecretBox {
  import opened Common
  import opened Digits

  const PREFIX := "enc:v1:"

  datatype Result<+T> = Ok(value: T) | Err

  datatype Aead = Aead(nonceSize: nat,
                       seal: (string, string, string) -> string,
                       open: (string, string, string) -> Option<string>)

  ghost predicate LawfulCipher(a: Aead) {
    && (forall n, p, aad :: |n| == a.nonceSize ==> a.open(n, a.seal(n, p, aad), aad) == Some(p))
    && (forall n, c, aad :: a.open(n, c, aad).Some? ==> |a.open(n, c, aad).value| <= |c|)
  }

  type Cipher = a: Aead | LawfulCipher(a) witness Aead(12, (n, p, aad) => p, (n, c, aad) => Some(c))

  datatype Codec = Codec(encode: string -> string, decode: string -> Option<string>)

  ghost predicate LawfulCodec(c: Codec) {
    && (forall s :: c.decode(c.encode(s)) == Some(s))
    && (forall s :: c.decode(s).Some? ==> |c.decode(s).value| <= |s|)
  }

  type Base64 = c: Codec | LawfulCodec(c) witness Codec(s => s, s => Some(s))

  /** A configured key. The program's nil box is `None`. */
  datatype Box = Box(aead: Cipher, base64: Base64)

  predicate HasPrefix(s: string)
    ensures HasPrefix(s) <==> |s| >= 7 && s[..7] == "enc:v1:"
  {
    PREFIX <= s
  }

  /** `nonce` is the random nonce drawn (none: the random source failed). */
  function Encrypt(b: Option<Box>, plaintext: string, aad: string, nonce: Option<string>): Result<string> {
    if b == None || plaintext == "" then Ok(plaintext)
    else if HasPrefix(plaintext) then Ok(plaintext)
    else if nonce == None then Err
    else Ok(PREFIX + b.value.base64.encode(nonce.value + b.value.aead.seal(nonce.value, plaintext, aad)))
  }

  function Decrypt(b: Option<Box>, stored: string, aad: string): Result<string> {
    if !HasPrefix(stored) then Ok(stored)
    else if b == None then Err
    else
      var raw := b.value.base64.decode(stored[|PREFIX|..]);
      var ns := b.value.aead.nonceSize;
      if raw == None || |raw.value| < ns then Err
      else
        var plain := b.value.aead.open(raw.value[..ns], raw.value[ns..], aad);
        if plain == None then Err else Ok(plain.value)
  }

  function DecryptStrict(b: Option<Box>, stored: string, aad: string): Result<string> {
    if !HasPrefix(stored) then Err else Decrypt(b, stored, aad)
  }

  /** A value with the prefix opens to a text exactly if what follows decodes to a nonce and a ciphertext that the
      cipher opens to it; without a key it never opens. */
  lemma OpensIff(b: Box, stored: string, aad: string, plain: string)
    requires HasPrefix(stored)
    ensures Decrypt(None, stored, aad) == Err
    ensures Decrypt(Some(b), stored, aad) == Ok(plain) <==>
            exists nonce, c :: |nonce| == b.aead.nonceSize && b.base64.decode(stored[7..]) == Some(nonce + c)
                               && b.aead.open(nonce, c, aad) == Some(plain)
  {
    var raw, ns := b.base64.decode(stored[7..]), b.aead.nonceSize;
    if raw.Some? && |raw.value| >= ns {
      assert raw.value == raw.value[..ns] + raw.value[ns..];
    }
    if nonce, c :| |nonce| == ns && raw == Some(nonce + c) && b.aead.open(nonce, c, aad) == Some(plain) {
      assert (nonce + c)[..ns] == nonce && (nonce + c)[ns..] == c;
    }
  }

  predicate GoodNonce(b: Box, nonce: string) {
    |nonce| == b.aead.nonceSize
  }

  /** What a sealed value opens to is shorter than the sealed value. */
  lemma OpeningShrinks(b: Box, stored: string, aad: string)
    requires HasPrefix(stored)
    ensures Decrypt(Some(b), stored, aad).Ok? ==> |Decrypt(Some(b), stored, aad).value| < |stored|
  {
  }

  /** Sealing and opening with one key and one associated data gives the plaintext back exactly when it does not
      start with the prefix itself; the strict form moreover refuses the empty plaintext, which is never sealed. */
  lemma RoundTripIff(b: Box, plaintext: string, aad: string, nonce: string)
    requires GoodNonce(b, nonce)
    ensures var sealed := Encrypt(Some(b), plaintext, aad, Some(nonce));
            && sealed.Ok?
            && (Decrypt(Some(b), sealed.value, aad) == Ok(plaintext) <==> !HasPrefix(plaintext))
            && (DecryptStrict(Some(b), sealed.value, aad) == Ok(plaintext) <==>
                  !HasPrefix(plaintext) && plaintext != "")
  {
    if HasPrefix(plaintext) {
      OpeningShrinks(b, plaintext, aad);
    }
  }

  // ---------------------------------------------------------------- seeds

  predicate IsBase32(c: char) {
    'A' <= c <= 'Z' || '2' <= c <= '7'
  }

  predicate AreBase32(s: string) {
    forall i :: 0 <= i < |s| ==> IsBase32(s[i])
  }

  /** Unpadded base32 of five bytes, given as one 40-bit number, and of a whole multiple of five bytes. */
  function Base32Char(n: nat): (c: char)
    requires n < 32
    ensures IsBase32(c)
  {
    if n < 26 then ('A' as int + n) as char else ('2' as int + n - 26) as char
  }

  function Base32Group(v: nat, chars: nat): (s: string)
    ensures |s| == chars && AreBase32(s)
  {
    if chars == 0 then "" else Base32Group(v / 32, chars - 1) + [Base32Char(v % 32)]
  }

  function Base32Value(c: char): (n: nat)
    requires IsBase32(c)
    ensures n < 32
  {
    if c <= '7' then 26 + (c as int - '2' as int) else c as int - 'A' as int
  }

  function Base32Number(s: string): nat
    requires AreBase32(s)
  {
    if s == "" then 0 else Base32Number(s[..|s| - 1]) * 32 + Base32Value(s[|s| - 1])
  }

  function Pow32(e: nat): nat {
    if e == 0 then 1 else 32 * Pow32(e - 1)
  }

  /** A group denotes its number, A to Z for 0 to 25 and 2 to 7 for 26 to 31: no bit of a seed is lost. */
  lemma {:induction false} Base32GroupMeaning(v: nat, chars: nat)
    requires v < Pow32(chars)
    ensures Base32Number(Base32Group(v, chars)) == v
  {
    if chars > 0 {
      Base32GroupMeaning(v / 32, chars - 1);
      assert Base32Group(v, chars)[..chars - 1] == Base32Group(v / 32, chars - 1);
    }
  }

  /** So eight characters keep all of five bytes. */
  lemma GroupKeepsFiveBytes(v: nat)
    requires v < 0x100_0000_0000
    ensures Base32Number(Base32Group(v, 8)) == v
  {
    assert Pow32(4) == 0x10_0000 && Pow32(8) == 0x100_0000_0000;
    Base32GroupMeaning(v, 8);
  }

  /** A fresh seed: twenty random bytes, as four 40-bit groups. */
  function NewTOTPSecret(groups: (nat, nat, nat, nat)): (seed: string)
    ensures |seed| == 32 && !HasPrefix(seed)
  {
    var seed := Base32Group(groups.0, 8) + Base32Group(groups.1, 8)
                + Base32Group(groups.2, 8) + Base32Group(groups.3, 8);
    assert seed[0] == Base32Group(groups.0, 8)[0];
    seed
  }

  function UserAad(user: int): string {
    "totp:user:" + if user < 0 then "-" + Decimal(-user) else Decimal(user)
  }

  /** A sealed seed is bound to its user: no two users share their associated data. */
  lemma UserAadsDiffer(u: int, v: int)
    ensures UserAad(u) == UserAad(v) <==> u == v
  {
    var prefix := "totp:user:";
    var a, b := if u < 0 then "-" + Decimal(-u) else Decimal(u), if v < 0 then "-" + Decimal(-v) else Decimal(v);
    assert UserAad(u) == prefix + a && UserAad(v) == prefix + b;
    assert (prefix + a)[|prefix|..] == a && (prefix + b)[|prefix|..] == b;
    if a == b {
      var m, n := if u < 0 then -u else u, if v < 0 then -v else v;
      assert ("-" + Decimal(m))[1..] == Decimal(m) && ("-" + Decimal(n))[1..] == Decimal(n);
      DecimalIsInjective(m, n);
      assert IsDigit(Decimal(m)[0]) && IsDigit(Decimal(n)[0]);
      assert u < 0 <==> a[0] == '-';
      assert v < 0 <==> b[0] == '-';
    }
  }

  class SeedStore {
    var enc: Option<Box>
    var stored: map<int, string>
    ghost var seeds: map<int, string>

    /** Every user's row reads back as the seed last set for that user. */
    ghost predicate Valid()
      reads this
    {
      && stored.Keys == seeds.Keys
      && (forall u :: u in stored ==> Decode(u, stored[u]) == Ok(seeds[u]))
      && (enc == None ==> forall u :: u in stored ==> !HasPrefix(stored[u]))
    }

    function Decode(user: int, text: string): Result<string>
      reads this
    {
      if enc == None then Ok(text) else Decrypt(enc, text, UserAad(user))
    }

    constructor (users: set<int>)
      ensures Valid() && enc == None && seeds == (map u | u in users :: "")
    {
      enc, stored, seeds := None, map u | u in users :: "", map u | u in users :: "";
    }

    /** A key is configured once, on a database that may already hold plaintext seeds. */
    method UseSecretBox(b: Option<Box>)
      requires Valid() && enc == None
      modifies this`enc
      ensures Valid() && enc == b
    {
      enc := b;
    }

    /** UPDATE of one user's row. Every caller passes a base32 seed or the empty text, and those never look
        sealed already; a text that does would be stored as it is. `nonce` is the random draw, if it worked. */
    method SetUserTOTP(user: int, secret: string, nonce: Option<string>) returns (ok: bool)
      requires Valid()
      requires enc.Some? && nonce.Some? ==> GoodNonce(enc.value, nonce.value)
      modifies this`stored, this`seeds
      ensures !HasPrefix(secret) ==> Valid()
      ensures ok <==> nonce.Some? || enc == None || secret == "" || HasPrefix(secret)
      ensures ok && enc.Some? && secret != "" && user in stored ==> HasPrefix(stored[user])
      ensures seeds == if ok && user in old(seeds) then old(seeds)[user := secret] else old(seeds)
      ensures forall u :: u != user || !ok ==> Get(stored, u) == Get(old(stored), u)
    {
      var sealed := if enc == None then Ok(secret) else Encrypt(enc, secret, UserAad(user), nonce);
      if enc.Some? && nonce.Some? {
        RoundTripIff(enc.value, secret, UserAad(user), nonce.value);
      }
      if sealed.Err? {
        return false;
      }
      if user in stored {
        stored := stored[user := sealed.value];
        seeds := seeds[user := secret];
      }
      return true;
    }

    /** Reading a user returns the seed last set, sealed or not, before or after a key was configured. */
    method ReadSeed(user: int) returns (seed: Option<string>)
      requires Valid()
      ensures seed == Get(seeds, user)
    {
      if user !in stored {
        return None;
      }
      var r := Decode(user, stored[user]);
      if r.Err? {
        return None;
      }
      return Some(r.value);
    }
  }
}
