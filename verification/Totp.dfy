/** One-time codes (internal/auth/totp.go; RFC 4226, section 5.3). HMAC-SHA-1 is a parameter. */
module Totp {
  import opened Common
  import opened Digits

  const DIGITS := 6
  const MILLION := 1_000_000
  const PERIOD := 30

  type Byte = bv8
  type Digest = d: seq<Byte> | |d| == 20 witness seq(20, _ => 0)

  /** HMAC-SHA-1 of a 64-bit counter under a key. */
  type Mac = (seq<Byte>, nat) -> Digest

  // ---------------------------------------------------------------- numbers

  function BigEndian(bytes: seq<Byte>): nat {
    if bytes == [] then 0 else BigEndian(bytes[..|bytes| - 1]) * 256 + bytes[|bytes| - 1] as nat
  }

  function Zeros(n: nat): (s: string)
    ensures |s| == n && AreDigits(s)
  {
    seq(n, _ => '0')
  }

  /** The `%0*d` verb: decimal notation, filled with zeros on the left up to the width. */
  function Padded(n: nat, width: nat): (s: string)
    ensures AreDigits(s)
  {
    var d := Decimal(n);
    if |d| < width then Zeros(width - |d|) + d else d
  }

  lemma {:induction false} ZerosDenoteNothing(k: nat, s: string)
    requires AreDigits(s)
    ensures Value(Zeros(k) + s) == Value(s)
  {
    if s == "" {
      assert Zeros(k) + s == Zeros(k);
      if k > 0 {
        assert Zeros(k)[..k - 1] == Zeros(k - 1);
        ZerosDenoteNothing(k - 1, "");
        assert Zeros(k - 1) + "" == Zeros(k - 1);
      }
    } else {
      ZerosDenoteNothing(k, s[..|s| - 1]);
      assert (Zeros(k) + s)[..k + |s| - 1] == Zeros(k) + s[..|s| - 1];
    }
  }

  // ---------------------------------------------------------------- HOTP

  /** The dynamic truncation, on 32-bit words as the program computes it. */
  method Hotp(sum: Digest) returns (code: string)
    ensures code == HotpCode(sum)
  {
    LowBits(sum[|sum| - 1]);
    var offset := (sum[|sum| - 1] & 0x0f) as nat;
    var word := ((sum[offset] as bv32 & 0x7f) << 24)
                | (sum[offset + 1] as bv32 << 16)
                | (sum[offset + 2] as bv32 << 8)
                | sum[offset + 3] as bv32;
    WordOfBytes(word, sum, offset);
    code := Padded(word as nat % MILLION, DIGITS);
  }

  /** Four big-endian bytes at the offset, modulo 2^31, modulo 10^6, in six digits. */
  function HotpCode(sum: Digest): (code: string)
    ensures AreDigits(code)
  {
    var offset := sum[19] as nat % 16;
    Padded(BigEndian(sum[offset..offset + 4]) % 0x8000_0000 % MILLION, DIGITS)
  }

  lemma LowBits(a: Byte)
    ensures (a & 0x0f) as nat == a as nat % 16
  {
  }

  /** Masks, shifts and ors on a 32-bit word give the four bytes, read big-endian with the top bit dropped. */
  lemma WordOfBytes(word: bv32, sum: Digest, offset: nat)
    requires offset < 16
    requires word == ((sum[offset] as bv32 & 0x7f) << 24) | (sum[offset + 1] as bv32 << 16)
                     | (sum[offset + 2] as bv32 << 8) | sum[offset + 3] as bv32
    ensures word as nat == BigEndian(sum[offset..offset + 4]) % 0x8000_0000
  {
    var w := [sum[offset], sum[offset + 1], sum[offset + 2], sum[offset + 3]];
    assert sum[offset..offset + 4] == w;
    WordOfFour(word, w[0], w[1], w[2], w[3], w);
  }

  lemma WordOfFour(word: bv32, a: Byte, b: Byte, c: Byte, d: Byte, w: seq<Byte>)
    requires word == ((a as bv32 & 0x7f) << 24) | (b as bv32 << 16) | (c as bv32 << 8) | d as bv32
    requires w == [a, b, c, d]
    ensures word as nat == BigEndian(w) % 0x8000_0000
  {
    ShiftsAreWeights(word, a, b, c, d);
    FourBytes(w, a as nat, b as nat, c as nat, d as nat);
  }

  lemma ShiftsAreWeights(word: bv32, a: Byte, b: Byte, c: Byte, d: Byte)
    requires word == ((a as bv32 & 0x7f) << 24) | (b as bv32 << 16) | (c as bv32 << 8) | d as bv32
    ensures word as nat == a as nat % 128 * 0x100_0000 + b as nat * 0x1_0000 + c as nat * 0x100 + d as nat
  {
    var x, y, z, t := a as bv32 & 0x7f, b as bv32, c as bv32, d as bv32;
    TopBitDropped(x, a);
    Widened(y, b);
    Widened(z, c);
    Widened(t, d);
    var low1 := (z << 8) | t;
    var low2 := (y << 16) | low1;
    Joined(word, low2, low1, x, y, z, t);
  }

  lemma TopBitDropped(x: bv32, a: Byte)
    requires x == a as bv32 & 0x7f
    ensures x < 0x80 && x as nat == a as nat % 128
  {
  }

  lemma Widened(x: bv32, a: Byte)
    requires x == a as bv32
    ensures x < 0x100 && x as nat == a as nat
  {
  }

  lemma Joined(word: bv32, low2: bv32, low1: bv32, x: bv32, y: bv32, z: bv32, t: bv32)
    requires x < 0x80 && y < 0x100 && z < 0x100 && t < 0x100
    requires low1 == (z << 8) | t && low2 == (y << 16) | low1 && word == (x << 24) | low2
    ensures word as nat == x as nat * 0x100_0000 + y as nat * 0x1_0000 + z as nat * 0x100 + t as nat
  {
    JoinLow(low1, z, t);
    JoinMiddle(low2, y, low1);
    JoinHigh(word, x, low2);
  }

  lemma JoinLow(low: bv32, a: bv32, b: bv32)
    requires a < 0x100 && b < 0x100 && low == (a << 8) | b
    ensures low as nat == a as nat * 0x100 + b as nat && low < 0x1_0000
  {
  }

  lemma JoinMiddle(low: bv32, a: bv32, b: bv32)
    requires a < 0x100 && b < 0x1_0000 && low == (a << 16) | b
    ensures low as nat == a as nat * 0x1_0000 + b as nat && low < 0x100_0000
  {
  }

  lemma JoinHigh(word: bv32, a: bv32, b: bv32)
    requires a < 0x80 && b < 0x100_0000 && word == (a << 24) | b
    ensures word as nat == a as nat * 0x100_0000 + b as nat
  {
  }

  lemma FourBytes(w: seq<Byte>, a: nat, b: nat, c: nat, d: nat)
    requires |w| == 4 && a < 256 && b < 256 && c < 256 && d < 256
    requires w[0] as nat == a && w[1] as nat == b && w[2] as nat == c && w[3] as nat == d
    ensures BigEndian(w) % 0x8000_0000 == a % 128 * 0x100_0000 + b * 0x1_0000 + c * 0x100 + d
  {
    TwoBytes(w[..2], a, b);
    NextByte(w, w[..3], BigEndian(w[..3]), d);
    NextByte(w[..3], w[..2], BigEndian(w[..2]), c);
    Horner(BigEndian(w), BigEndian(w[..3]), BigEndian(w[..2]), a, b, c, d);
  }

  lemma Horner(n: nat, n3: nat, n2: nat, a: nat, b: nat, c: nat, d: nat)
    requires n == n3 * 256 + d && n3 == n2 * 256 + c && n2 == a * 256 + b
    requires a < 256 && b < 256 && c < 256 && d < 256
    ensures n % 0x8000_0000 == a % 128 * 0x100_0000 + b * 0x1_0000 + c * 0x100 + d
  {
    DropsTheTop(a, b * 0x1_0000 + c * 0x100 + d);
  }

  lemma TwoBytes(w: seq<Byte>, a: nat, b: nat)
    requires |w| == 2 && w[0] as nat == a && w[1] as nat == b
    ensures BigEndian(w) == a * 256 + b
  {
    NextByte(w[..1], [], 0, a);
    NextByte(w, w[..1], a, b);
  }

  lemma NextByte(w: seq<Byte>, before: seq<Byte>, n: nat, b: nat)
    requires w != [] && w[|w| - 1] as nat == b && w[..|w| - 1] == before && BigEndian(before) == n
    ensures BigEndian(w) == n * 256 + b
  {
  }

  lemma DropsTheTop(top: nat, rest: nat)
    requires top < 256 && rest < 0x100_0000
    ensures (top * 0x100_0000 + rest) % 0x8000_0000 == top % 128 * 0x100_0000 + rest
  {
  }

  /** For every digest, the code is exactly six digits and denotes the truncated value. */
  lemma HotpMeaning(sum: Digest)
    ensures var offset := sum[19] as nat % 16;
            && |HotpCode(sum)| == 6
            && Value(HotpCode(sum)) == BigEndian(sum[offset..offset + 4]) % 0x8000_0000 % 1_000_000
  {
    var offset := sum[19] as nat % 16;
    var n := BigEndian(sum[offset..offset + 4]) % 0x8000_0000 % MILLION;
    assert Pow10(3) == 1000 && Pow10(6) == MILLION;
    DecimalMeaning(n, DIGITS);
    ZerosDenoteNothing(DIGITS - |Decimal(n)|, Decimal(n));
  }

  // ---------------------------------------------------------------- verification with skew

  /** Division that truncates toward zero. */
  function TruncDiv(a: int, b: int): int
    requires b > 0
  {
    if a >= 0 then a / b else -((-a) / b)
  }

  /** `key` is the decoded secret (none: it does not decode), `code` the trimmed input. Succeeds exactly when some
      counter within the skew has this code, and returns the smallest such counter. A negative counter wraps to 64
      bits. */
  method VerifyTOTPCounter(mac: Mac, key: Option<seq<Byte>>, code: string, t: int, skew: int)
    returns (counter: int, ok: bool)
    ensures var step := if t >= 0 then t / 30 else -(-t / 30);
            && (ok <==> (key.Some? && exists c ::
                           step - skew <= c <= step + skew
                           && HotpCode(mac(key.value, c % 0x1_0000_0000_0000_0000)) == code))
            && (ok ==> step - skew <= counter <= step + skew
                       && HotpCode(mac(key.value, counter % 0x1_0000_0000_0000_0000)) == code)
            && (ok ==> forall c :: step - skew <= c < counter ==>
                         HotpCode(mac(key.value, c % 0x1_0000_0000_0000_0000)) != code)
    ensures !ok ==> counter == 0
  {
    if |code| != DIGITS {
      forall c | key.Some? ensures HotpCode(mac(key.value, c % 0x1_0000_0000_0000_0000)) != code {
        HotpMeaning(mac(key.value, c % 0x1_0000_0000_0000_0000));
      }
      return 0, false;
    }
    var base := TruncDiv(t, PERIOD);
    var i := -skew;
    while i <= skew
      invariant -skew <= i
      invariant i > -skew ==> key.Some?
      invariant key.Some? ==> forall c :: base - skew <= c < base + i ==>
                                HotpCode(mac(key.value, c % 0x1_0000_0000_0000_0000)) != code
    {
      var c := base + i;
      if key == None {
        return 0, false;
      }
      var want := Hotp(mac(key.value, c % 0x1_0000_0000_0000_0000));
      assert want == HotpCode(mac(key.value, c % 0x1_0000_0000_0000_0000));
      if want == code {
        return c, true;
      }
      i := i + 1;
    }
    return 0, false;
  }
}
