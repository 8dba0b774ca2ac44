/** The two-level HMAC of Telegram's Mini App initData check, over the uninterpreted digest. */
module Crypto {
  import opened Platform

  predicate IsLowerHexDigit(c: char)
  {
    '0' <= c <= '9' || 'a' <= c <= 'f'
  }

  function NibbleChar(d: int): (c: char)
    requires 0 <= d < 16
    ensures IsLowerHexDigit(c)
  {
    if d < 10 then ('0' as int + d) as char else ('a' as int + d - 10) as char
  }

  /** `digest('hex')`: two lowercase hexadecimal digits per byte, high nibble first. */
  function Hex(bytes: Bytes): (h: string)
    ensures |h| == 2 * |bytes|
    ensures forall i :: 0 <= i < |h| ==> IsLowerHexDigit(h[i])
  {
    if bytes == [] then ""
    else [NibbleChar(bytes[0] as int / 16), NibbleChar(bytes[0] as int % 16)] + Hex(bytes[1..])
  }

  /** Hex is injective, so comparing hex strings is comparing digests. */
  lemma {:induction false} HexInjective(a: Bytes, b: Bytes)
    requires Hex(a) == Hex(b)
    ensures a == b
  {
    if a != [] {
      assert |b| == |a|;
      var ha, hb := Hex(a), Hex(b);
      assert ha[0] == hb[0] && ha[1] == hb[1];
      var x, y := a[0] as int, b[0] as int;
      assert x / 16 == y / 16;
      assert x % 16 == y % 16;
      assert x == 16 * (x / 16) + x % 16 && y == 16 * (y / 16) + y % 16;
      assert Hex(a[1..]) == ha[2..] == hb[2..] == Hex(b[1..]);
      HexInjective(a[1..], b[1..]);
      assert a == [a[0]] + a[1..] && b == [b[0]] + b[1..];
    }
  }

  /** The constant key of the first HMAC layer. */
  const WebAppData := "WebAppData"

  /** `createHmac('sha256', 'WebAppData').update(botToken).digest()` */
  function SecretKey(p: Primitives, botToken: string): Bytes
  {
    p.hmacSha256(p.utf8(WebAppData), p.utf8(botToken))
  }

  /** `createHmac('sha256', secretKey).update(dataCheckString).digest('hex')` */
  function SignatureHex(p: Primitives, botToken: string, dataCheckString: string): string
  {
    Hex(p.hmacSha256(SecretKey(p, botToken), p.utf8(dataCheckString)))
  }
}
