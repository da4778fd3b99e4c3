/** The request signature of the Interfolio API: a canonical string to sign,
    its HMAC-SHA1 under the private key, encoded in base64 (section 4 of
    RFC 4648) and prefixed with the public key. HMAC-SHA1 itself is a
    parameter of the model; base64 encoding is written out. */
module Signing {
  import opened Records
  import opened Text

  type byte = x: int | 0 <= x < 256

  /** `hash_hmac("sha1", message, key, true)`, as a function of `(key, message)`:
      the raw HMAC-SHA1 digest (RFC 2104 over FIPS 180-4 SHA-1). */
  type Mac = (string, string) -> seq<byte>

  datatype Keys = Keys(publicKey: string, privateKey: string)

  // ---- Base64 ----

  /** The character of the base64 alphabet for a 6-bit value (Table 1 of RFC 4648). */
  function SextetChar(v: int): (c: char)
    requires 0 <= v < 64
  {
    if v < 26 then ('A' as int + v) as char
    else if v < 52 then ('a' as int + v - 26) as char
    else if v < 62 then ('0' as int + v - 52) as char
    else if v == 62 then '+'
    else '/'
  }

  /** The 6-bit value of an alphabet character, -1 for any other character. */
  function SextetValue(c: char): (v: int)
    ensures -1 <= v < 64
  {
    if 'A' <= c <= 'Z' then c as int - 'A' as int
    else if 'a' <= c <= 'z' then c as int - 'a' as int + 26
    else if '0' <= c <= '9' then c as int - '0' as int + 52
    else if c == '+' then 62
    else if c == '/' then 63
    else -1
  }

  predicate IsBase64Char(c: char) {
    SextetValue(c) >= 0 || c == '='
  }

  /** `base64_encode`: each group of three bytes becomes four characters; a
      final group of one or two bytes is padded with `=`. */
  function Base64Encode(b: seq<byte>): (r: string)
    ensures |r| == 4 * ((|b| + 2) / 3)
    ensures forall i :: 0 <= i < |r| ==> IsBase64Char(r[i])
    decreases |b|
  {
    if |b| == 0 then ""
    else if |b| == 1 then
      [SextetChar(b[0] / 4), SextetChar(b[0] % 4 * 16), '=', '=']
    else if |b| == 2 then
      [SextetChar(b[0] / 4), SextetChar(b[0] % 4 * 16 + b[1] / 16), SextetChar(b[1] % 16 * 4), '=']
    else
      [SextetChar(b[0] / 4), SextetChar(b[0] % 4 * 16 + b[1] / 16),
       SextetChar(b[1] % 16 * 4 + b[2] / 64), SextetChar(b[2] % 64)] + Base64Encode(b[3..])
  }

  /** Decoding of padded base64, the inverse that pins down what the encoding keeps. */
  function Base64Decode(s: string): Option<seq<byte>>
    decreases |s|
  {
    if s == [] then Some([])
    else if |s| < 4 then None
    else
      var v0, v1, v2, v3 := SextetValue(s[0]), SextetValue(s[1]), SextetValue(s[2]), SextetValue(s[3]);
      if v0 < 0 || v1 < 0 then None
      else if s[2] == '=' && s[3] == '=' then
        if |s| == 4 then Some([v0 * 4 + v1 / 16]) else None
      else if v2 < 0 then None
      else if s[3] == '=' then
        if |s| == 4 then Some([v0 * 4 + v1 / 16, v1 % 16 * 16 + v2 / 4]) else None
      else if v3 < 0 then None
      else
        match Base64Decode(s[4..])
        case None => None
        case Some(rest) => Some([v0 * 4 + v1 / 16, v1 % 16 * 16 + v2 / 4, v2 % 4 * 64 + v3] + rest)
  }

  lemma SextetRoundTrip(v: int)
    requires 0 <= v < 64
    ensures SextetValue(SextetChar(v)) == v
  {
  }

  /** The bit arithmetic of one group: the four sextets give the three bytes back. */
  lemma GroupArithmetic(b0: byte, b1: byte, b2: byte)
    ensures (b0 / 4) * 4 + (b0 % 4 * 16 + b1 / 16) / 16 == b0
    ensures (b0 % 4 * 16 + b1 / 16) % 16 * 16 + (b1 % 16 * 4 + b2 / 64) / 4 == b1
    ensures (b1 % 16 * 4 + b2 / 64) % 4 * 64 + b2 % 64 == b2
  {
  }

  /** Decoding a group of four alphabet characters with the given values. */
  lemma DecodeGroup(s: string, rest: seq<byte>, w0: int, w1: int, w2: int, w3: int, x0: byte, x1: byte, x2: byte)
    requires |s| >= 4
    requires SextetValue(s[0]) == w0 >= 0 && SextetValue(s[1]) == w1 >= 0
    requires SextetValue(s[2]) == w2 >= 0 && SextetValue(s[3]) == w3 >= 0
    requires w0 * 4 + w1 / 16 == x0 && w1 % 16 * 16 + w2 / 4 == x1 && w2 % 4 * 64 + w3 == x2
    requires Base64Decode(s[4..]) == Some(rest)
    ensures Base64Decode(s) == Some([x0, x1, x2] + rest)
  {
    assert s[2] != '=' && s[3] != '=';
  }

  /** The first four characters of the encoding of three or more bytes, by value. */
  lemma EncodeFullGroup(b: seq<byte>)
    requires |b| >= 3
    ensures var r := Base64Encode(b);
            |r| >= 4 && r[4..] == Base64Encode(b[3..]) &&
            SextetValue(r[0]) == b[0] / 4 &&
            SextetValue(r[1]) == b[0] % 4 * 16 + b[1] / 16 &&
            SextetValue(r[2]) == b[1] % 16 * 4 + b[2] / 64 &&
            SextetValue(r[3]) == b[2] % 64
  {
    SextetRoundTrip(b[0] / 4);
    SextetRoundTrip(b[0] % 4 * 16 + b[1] / 16);
    SextetRoundTrip(b[1] % 16 * 4 + b[2] / 64);
    SextetRoundTrip(b[2] % 64);
  }

  /** One full group followed by more groups decodes to its three bytes followed by the rest. */
  lemma DecodeFullGroup(b: seq<byte>)
    requires |b| >= 3
    requires Base64Decode(Base64Encode(b[3..])) == Some(b[3..])
    ensures Base64Decode(Base64Encode(b)) == Some(b)
  {
    var r := Base64Encode(b);
    EncodeFullGroup(b);
    DecodeEncodedGroup(r, b[3..], b[0], b[1], b[2]);
    SplitThree(b);
  }

  /** Four characters carrying the sextets of three bytes decode to those bytes. */
  lemma DecodeEncodedGroup(r: string, rest: seq<byte>, b0: byte, b1: byte, b2: byte)
    requires |r| >= 4 && Base64Decode(r[4..]) == Some(rest)
    requires SextetValue(r[0]) == b0 / 4 && SextetValue(r[1]) == b0 % 4 * 16 + b1 / 16
    requires SextetValue(r[2]) == b1 % 16 * 4 + b2 / 64 && SextetValue(r[3]) == b2 % 64
    ensures Base64Decode(r) == Some([b0, b1, b2] + rest)
  {
    GroupArithmetic(b0, b1, b2);
    DecodeGroup(r, rest, b0 / 4, b0 % 4 * 16 + b1 / 16, b1 % 16 * 4 + b2 / 64, b2 % 64, b0, b1, b2);
  }

  lemma SplitThree<T>(b: seq<T>)
    requires |b| >= 3
    ensures [b[0], b[1], b[2]] + b[3..] == b
  {
    assert ([b[0], b[1], b[2]] + b[3..])[..3] == b[..3];
  }

  /** Decoding undoes encoding: base64 loses nothing. */
  lemma {:induction false} Base64RoundTrip(b: seq<byte>)
    ensures Base64Decode(Base64Encode(b)) == Some(b)
    decreases |b|
  {
    if |b| == 1 {
      SextetRoundTrip(b[0] / 4);
      SextetRoundTrip(b[0] % 4 * 16);
      GroupArithmetic(b[0], 0, 0);
      assert [b[0]] == b;
    } else if |b| == 2 {
      SextetRoundTrip(b[0] / 4);
      SextetRoundTrip(b[0] % 4 * 16 + b[1] / 16);
      SextetRoundTrip(b[1] % 16 * 4);
      GroupArithmetic(b[0], b[1], 0);
      assert [b[0], b[1]] == b;
    } else if |b| >= 3 {
      Base64RoundTrip(b[3..]);
      DecodeFullGroup(b);
    }
  }

  /** PHP's `trim` has nothing to remove from base64 output. */
  lemma TrimOfBase64(b: seq<byte>)
    ensures Trim(Base64Encode(b), PhpSpace) == Base64Encode(b)
  {
    TrimTight(Base64Encode(b), PhpSpace);
  }

  // ---- The string to sign and the header ----

  /** The canonical string to sign for a GET request: the verb, two empty
      lines, the timestamp and the request path, separated by newlines. */
  function StringToSign(timestamp: string, request: string): string {
    "GET\n\n\n" + timestamp + "\n" + request
  }

  /** The position of the first occurrence of `c` in `s`. */
  function IndexOf(s: string, c: char): (r: Option<nat>)
    ensures r.Some? ==> r.value < |s| && s[r.value] == c && forall i :: 0 <= i < r.value ==> s[i] != c
    ensures r.None? ==> forall i :: 0 <= i < |s| ==> s[i] != c
  {
    if s == [] then None
    else if s[0] == c then Some(0)
    else match IndexOf(s[1..], c)
      case None => None
      case Some(k) => Some(k + 1)
  }

  /** Reads timestamp and request back from a string to sign. */
  function ParseStringToSign(s: string): Option<(string, string)> {
    if !StartsWith(s, "GET\n\n\n") then None
    else
      var rest := s[6..];
      match IndexOf(rest, '\n')
      case None => None
      case Some(k) => Some((rest[..k], rest[k + 1..]))
  }

  /** A timestamp without newlines (as `date('Y-m-d H:i:s')` produces) and the
      request can be read back from the string to sign. */
  lemma {:induction false} StringToSignRoundTrip(timestamp: string, request: string)
    requires forall i :: 0 <= i < |timestamp| ==> timestamp[i] != '\n'
    ensures ParseStringToSign(StringToSign(timestamp, request)) == Some((timestamp, request))
  {
    var s := StringToSign(timestamp, request);
    assert s[..6] == "GET\n\n\n";
    var rest := s[6..];
    assert rest == timestamp + "\n" + request;
    IndexOfAfter(timestamp, request);
    assert rest[..|timestamp|] == timestamp;
    assert rest[|timestamp| + 1..] == request;
  }

  lemma IndexOfAfter(prefix: string, suffix: string)
    requires forall i :: 0 <= i < |prefix| ==> prefix[i] != '\n'
    ensures IndexOf(prefix + "\n" + suffix, '\n') == Some(|prefix|)
  {
    var s := prefix + "\n" + suffix;
    assert s[|prefix|] == '\n';
    forall i | 0 <= i < |prefix| ensures s[i] != '\n' { assert s[i] == prefix[i]; }
    IndexOfIsFirst(s, '\n', |prefix|);
  }

  lemma IndexOfIsFirst(s: string, c: char, k: nat)
    requires k < |s| && s[k] == c && forall i :: 0 <= i < k ==> s[i] != c
    ensures IndexOf(s, c) == Some(k)
  {
  }

  /** Distinct (timestamp, request) pairs give distinct strings to sign. */
  lemma StringToSignInjective(t1: string, r1: string, t2: string, r2: string)
    requires forall i :: 0 <= i < |t1| ==> t1[i] != '\n'
    requires forall i :: 0 <= i < |t2| ==> t2[i] != '\n'
    requires StringToSign(t1, r1) == StringToSign(t2, r2)
    ensures t1 == t2 && r1 == r2
  {
    StringToSignRoundTrip(t1, r1);
    StringToSignRoundTrip(t2, r2);
  }

  /** The base64 signature of a request, before PHP's `trim`. */
  function Signature(mac: Mac, keys: Keys, timestamp: string, request: string): string {
    Base64Encode(mac(keys.privateKey, StringToSign(timestamp, request)))
  }

  /** `f180GetInterfolioAuthHeader`: `INTF <public key>:<trimmed base64 signature>`. */
  function AuthHeader(mac: Mac, keys: Keys, timestamp: string, request: string): string {
    "INTF " + keys.publicKey + ":" + Trim(Signature(mac, keys, timestamp, request), PhpSpace)
  }

  /** The trim in the header never changes the signature, and a 20-byte SHA-1
      digest always gives a 28-character signature of base64 characters. */
  lemma AuthHeaderShape(mac: Mac, keys: Keys, timestamp: string, request: string)
    ensures AuthHeader(mac, keys, timestamp, request) ==
            "INTF " + keys.publicKey + ":" + Signature(mac, keys, timestamp, request)
    ensures forall i :: 0 <= i < |Signature(mac, keys, timestamp, request)| ==>
              IsBase64Char(Signature(mac, keys, timestamp, request)[i])
    ensures |mac(keys.privateKey, StringToSign(timestamp, request))| == 20 ==>
              |Signature(mac, keys, timestamp, request)| == 28
  {
    TrimOfBase64(mac(keys.privateKey, StringToSign(timestamp, request)));
  }

  /** The position of the last occurrence of `c` in `s`. */
  function LastIndexOf(s: string, c: char): (r: Option<nat>)
    ensures r.Some? ==> r.value < |s| && s[r.value] == c && forall i :: r.value < i < |s| ==> s[i] != c
    ensures r.None? ==> forall i :: 0 <= i < |s| ==> s[i] != c
  {
    if s == [] then None
    else if s[|s| - 1] == c then Some(|s| - 1)
    else LastIndexOf(s[..|s| - 1], c)
  }

  /** Splits an `INTF` header at its last colon into public key and signature. */
  function ParseAuthHeader(h: string): Option<(string, string)> {
    if !StartsWith(h, "INTF ") then None
    else
      var rest := h[5..];
      match LastIndexOf(rest, ':')
      case None => None
      case Some(k) => Some((rest[..k], rest[k + 1..]))
  }

  lemma LastIndexOfIsLast(s: string, c: char, k: nat)
    requires k < |s| && s[k] == c && forall i :: k < i < |s| ==> s[i] != c
    ensures LastIndexOf(s, c) == Some(k)
  {
  }

  /** The header gives back the public key and the signature, whatever the
      public key contains: the base64 alphabet has no colon. */
  lemma AuthHeaderRoundTrip(mac: Mac, keys: Keys, timestamp: string, request: string)
    ensures ParseAuthHeader(AuthHeader(mac, keys, timestamp, request)) ==
            Some((keys.publicKey, Signature(mac, keys, timestamp, request)))
  {
    var sig := Signature(mac, keys, timestamp, request);
    AuthHeaderShape(mac, keys, timestamp, request);
    var h := AuthHeader(mac, keys, timestamp, request);
    assert h[..5] == "INTF ";
    var rest := h[5..];
    assert rest == keys.publicKey + ":" + sig;
    var k := |keys.publicKey|;
    forall i | k < i < |rest| ensures rest[i] != ':' {
      assert rest[i] == sig[i - k - 1];
      assert IsBase64Char(sig[i - k - 1]);
    }
    LastIndexOfIsLast(rest, ':', k);
    assert rest[..k] == keys.publicKey;
    assert rest[k + 1..] == sig;
  }
}
