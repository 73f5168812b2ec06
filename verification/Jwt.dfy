/** `expiry_from_jwt`: the expiry of a token read from its own payload (RFC 7519, section 4.1.4). */
module Jwt {
  import opened CStrings
  import opened StringScan
  import opened JsonText
  import opened RawValue
  import Base64Url

  const PAYLOAD_SIZE := 2048
  const EXP_SIZE := 32

  /** The text between the first dot and the second, or the end. */
  function Segment(token: string): Option<string> {
    var dot1 := StrChr(token, '.');
    if dot1.None? then None
    else
      var dot2 := StrChr(token, '.', dot1.value + 1);
      Some(token[dot1.value + 1..if dot2.Some? then dot2.value else |token|])
  }

  /** The payload as a C string: decoded, and cut at its first NUL. */
  function Payload(segment: string): Option<string> {
    var s := Base64Url.Unpadded(segment);
    if Base64Url.Alphabetic(s) && 6 * |s| / 8 < PAYLOAD_SIZE
    then Some(CText(Base64Url.Decoded(segment) + ['\0']))
    else None
  }

  /** None where the C program multiplies out of the 64-bit range, which is undefined. */
  function ExpiryOf(token: string): Option<int> {
    var segment := Segment(token);
    if segment.None? then Some(0)
    else
      var payload := Payload(segment.value);
      if payload.None? then Some(0)
      else
        var exp := RawValueOf(payload.value, "exp", EXP_SIZE);
        if exp.None? then Some(0) else Milliseconds(Atoll(exp.value))
  }

  function Milliseconds(seconds: int): Option<int> {
    if seconds <= 0 then Some(0)
    else if seconds * 1000 <= LLONG_MAX then Some(seconds * 1000)
    else None
  }

  method ExpiryFromJwt(token: string) returns (ms: Option<int>)
    ensures ms == ExpiryOf(token)
  {
    var dot1 := StrChr(token, '.');
    if dot1.None? { return Some(0); }
    var dot2 := StrChr(token, '.', dot1.value + 1);
    var segment := token[dot1.value + 1..if dot2.Some? then dot2.value else |token|];
    var payload := ReadPayload(segment);
    if payload.None? { return Some(0); }
    var seconds := ReadExp(payload.value);
    if seconds.None? { return Some(0); }
    return Milliseconds(seconds.value);
  }

  method ReadPayload(segment: string) returns (payload: Option<string>)
    ensures payload == Payload(segment)
  {
    var buf := new char[PAYLOAD_SIZE];
    var ok := Base64Url.DecodeInto(segment, buf);
    if !ok { return None; }
    TextOfBuffer(buf[..], Base64Url.Decoded(segment));
    return Some(CText(buf[..]));
  }

  method ReadExp(payload: string) returns (seconds: Option<int>)
    requires '\0' !in payload
    ensures var exp := RawValueOf(payload, "exp", EXP_SIZE);
            seconds == if exp.None? then None else Some(Atoll(exp.value))
  {
    var buf := new char[EXP_SIZE];
    var found := ExtractRawValue(payload, "exp", buf);
    if !found { return None; }
    ValueHasNoNul(payload, "exp", EXP_SIZE);
    CTextOf(buf[..], RawValueOf(payload, "exp", EXP_SIZE).value);
    return Some(Atoll(CText(buf[..])));
  }

  lemma TextOfBuffer(buf: seq<char>, t: string)
    requires |t| < |buf| && buf[..|t|] == t && buf[|t|] == '\0'
    ensures CText(buf) == CText(t + ['\0'])
  {
    var u := t + ['\0'];
    assert forall k :: 0 <= k <= |t| ==> buf[k] == u[k];
    SameText(buf, u, |t|);
  }

  lemma {:induction false} SameText(a: seq<char>, b: seq<char>, n: nat)
    requires n < |a| && n < |b| && a[n] == b[n] == '\0'
    requires forall k :: 0 <= k <= n ==> a[k] == b[k]
    ensures CText(a) == CText(b)
    decreases n
  {
    if a[0] != '\0' { SameText(a[1..], b[1..], n - 1); }
  }

  lemma ValueHasNoNul(obj: string, key: string, size: nat)
    requires '\0' !in obj && size > 0 && RawValueOf(obj, key, size).Some?
    ensures '\0' !in RawValueOf(obj, key, size).value
  {
  }

  /** The payload `p` first mentions "exp" as the claim, with the decimal value `n`. */
  ghost predicate Claims(p: string, i: nat, mid: string, pre: string, n: int) {
    var after := i + 5 + |mid| + |pre| + 1 + |DecInt(n)|;
    FirstMention(p, "exp", i) && AllBlank(Json, mid) && AllBlank(Json, pre) &&
    Occurs(p, i + 5, mid + ":" + pre + DecInt(n)) &&
    (after < |p| ==> !IsDigit(p[after]))
  }

  lemma DecIntIsBare(n: int)
    ensures forall k :: 0 <= k < |DecInt(n)| ==> IsDigit(DecInt(n)[k]) || DecInt(n)[k] == '-'
  {
    var d := Dec(if n < 0 then -n else n);
    if n < 0 { assert DecInt(n) == "-" + d; }
  }

  /** The claim is extracted with at most 31 characters and read back as its value. */
  lemma ClaimIsRead(p: string, i: nat, mid: string, pre: string, n: int)
    requires Claims(p, i, mid, pre, n) && InRange(n)
    ensures var exp := RawValueOf(p, "exp", EXP_SIZE); exp.Some? && Atoll(exp.value) == n
  {
    var d := DecInt(n);
    var more := RestOfClaim(p, i, mid, pre, n);
    ClaimText(p, i, mid, pre, n, more);
    SecondsAreShort(n);
    TakeKeepsHead(d, more, EXP_SIZE - 1);
    AtollOfInt(n, Take(more, EXP_SIZE - 1 - |d|));
    hide *;
  }

  lemma ClaimText(p: string, i: nat, mid: string, pre: string, n: int, more: string)
    requires Claims(p, i, mid, pre, n) && Occurs(p, i + 5, mid + ":" + pre + (DecInt(n) + more))
    requires forall k :: 0 <= k < |more| ==> more[k] != ',' && more[k] != '}' && more[k] != ']'
    requires var end := i + 6 + |mid| + |pre| + |DecInt(n)| + |more|;
             end == |p| || p[end] == ',' || p[end] == '}' || p[end] == ']'
    ensures RawValueOf(p, "exp", EXP_SIZE) == Some(Take(DecInt(n) + more, EXP_SIZE - 1))
  {
    DecIntIsBare(n);
    hide DecInt, RawValueOf, Occurs;
    ExtractsPrimitive(p, "exp", i, mid, pre, DecInt(n) + more, EXP_SIZE);
  }

  /** Numbers whose milliseconds are a 64-bit number. */
  predicate InRange(n: int) { -LLONG_MAX <= 1000 * n <= LLONG_MAX }

  lemma RestOfClaim(p: string, i: nat, mid: string, pre: string, n: int) returns (more: string)
    requires Claims(p, i, mid, pre, n)
    ensures Occurs(p, i + 5, mid + ":" + pre + (DecInt(n) + more))
    ensures forall k :: 0 <= k < |more| ==> more[k] != ',' && more[k] != '}' && more[k] != ']'
    ensures more != "" ==> !IsDigit(more[0])
    ensures var end := i + 6 + |mid| + |pre| + |DecInt(n)| + |more|;
            end == |p| || p[end] == ',' || p[end] == '}' || p[end] == ']'
  {
    var d := DecInt(n);
    var start := i + 6 + |mid| + |pre|;
    OccursSplit(p, i + 5, mid + ":" + pre, d);
    more := GoesOnTo(p, start, d);
    OccursSplit(p, start, d, more);
    OccursSplit(p, i + 5, mid + ":" + pre, d + more);
    if more != "" { assert p[start + |d|] == more[0]; }
  }

  lemma TakeKeepsHead(d: string, more: string, n: nat)
    requires |d| <= n
    ensures Take(d + more, n) == d + Take(more, n - |d|)
  {
  }

  lemma SecondsAreShort(n: int)
    requires InRange(n)
    ensures |DecInt(n)| <= 17
  {
    assert Pow10(4) == 10000;
    assert Pow10(8) == 1_0000_0000;
    assert Pow10(12) == 1_0000_0000_0000;
    assert Pow10(16) == 1_0000_0000_0000_0000;
    DecLength(if n < 0 then -n else n, 16);
  }

  /** A token `h.base64url(p)[.s]` under the token size, padded or not. */
  ghost predicate IsToken(token: string, h: string, p: string, pad: string, rest: string) {
    '.' !in h && Base64Url.IsBytes(p) && '\0' !in p && (pad == "" || pad == "=" || pad == "==") &&
    (rest == "" || rest[0] == '.') && |token| < 1024 &&
    token == h + "." + (Base64Url.Encode(p) + pad) + rest
  }

  lemma SegmentOf(token: string, h: string, body: string, rest: string)
    requires '.' !in h && '.' !in body && (rest == "" || rest[0] == '.')
    requires token == h + "." + body + rest
    ensures Segment(token) == Some(body)
  {
    var n := |h|;
    assert token[n] == '.';
    assert forall k :: 0 <= k < n ==> token[k] == h[k];
    assert StrChr(token, '.') == Some(n);
    assert forall k :: 0 <= k < |body| ==> token[n + 1 + k] == body[k];
    assert forall k :: n + 1 <= k < n + 1 + |body| ==> token[k] == body[k - n - 1];
    if rest != "" { assert token[n + 1 + |body|] == '.'; }
    assert token[n + 1..n + 1 + |body|] == body;
  }

  lemma NoDots(s: string)
    requires Base64Url.Alphabetic(s)
    ensures '.' !in s
  {
    assert Base64Url.Digit('.').None?;
  }

  /** The decode buffer never overflows for a token that fits the token buffer, and the payload comes
      out as it went in. */
  lemma PayloadOf(token: string, h: string, p: string, pad: string, rest: string)
    requires IsToken(token, h, p, pad, rest)
    ensures Segment(token) == Some(Base64Url.Encode(p) + pad)
    ensures Payload(Base64Url.Encode(p) + pad) == Some(p)
  {
    var body := Base64Url.Encode(p) + pad;
    NoDots(Base64Url.Encode(p));
    SegmentOf(token, h, body, rest);
    Base64Url.RoundTrip(p, pad);
    CTextOf(p + ['\0'], p);
  }

  /** For every such token whose payload first mentions "exp" as the claim with value n, the expiry is
      exactly 1000 n if that is positive, and unknown (0) otherwise. */
  lemma ExpiryIsClaim(token: string, h: string, p: string, pad: string, rest: string,
                      i: nat, mid: string, pre: string, n: int)
    requires IsToken(token, h, p, pad, rest) && Claims(p, i, mid, pre, n) && InRange(n)
    ensures ExpiryOf(token) == Some(if n > 0 then 1000 * n else 0)
  {
    hide IsToken, Claims, Segment, Payload, RawValueOf, Atoll;
    PayloadOf(token, h, p, pad, rest);
    ClaimIsRead(p, i, mid, pre, n);
  }

  /** It is unknown as well for a text that is no token, and for a token without the claim. */
  lemma NoTokenNoExpiry(token: string)
    requires '.' !in token
    ensures ExpiryOf(token) == Some(0)
  {
  }

  lemma NoClaimNoExpiry(token: string, h: string, p: string, pad: string, rest: string)
    requires IsToken(token, h, p, pad, rest) && forall k :: 0 <= k <= |p| ==> !Occurs(p, k, Quote("exp"))
    ensures ExpiryOf(token) == Some(0)
  {
    PayloadOf(token, h, p, pad, rest);
    NothingWithoutMention(p, "exp", EXP_SIZE);
  }
}
