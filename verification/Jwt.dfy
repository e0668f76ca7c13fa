/** `create_jwt` and `decode_jwt` of `app/api/middleware/jwt_auth.py`: the compact
    serialisation of section 7.1 of RFC 7515 with the `exp` check of section 4.1.4 of
    RFC 7519. */
module Jwt {
  import opened Collections
  import opened Wrappers
  import opened Base64Url

  /** The JSON values a claim can hold, as far as the code looks at them; `true` counts as the
      number 1, and `Other(0)` stands for the remaining falsy values. */
  datatype Claim = Num(n: real) | Text(s: string) | Other(tag: nat)

  type Claims = map<string, Claim>

  /** JSON and HMAC. `load` is `None` where `json.loads` raises. */
  datatype Primitives = Primitives(
    header: seq<byte>, dump: Claims -> seq<byte>, load: seq<byte> -> Option<Claims>,
    hmac: (string, string) -> seq<byte>)

  datatype JwtError = Malformed | BadSegment | InvalidSignature | BadPayload | Expired | NotComparable

  /** Python's `int()` of a timestamp truncates toward zero. */
  function Truncate(t: real): int {
    if t >= 0.0 then t.Floor else -((-t).Floor)
  }

  function WithTimes(payload: Claims, now: real, expiryMinutes: int): Claims {
    payload["iat" := Num(Truncate(now) as real)]["exp" := Num(Truncate(now + (expiryMinutes * 60) as real) as real)]
  }

  function Create(p: Primitives, payload: Claims, secret: string, now: real, expiryMinutes: int): string {
    var signed := Encode(p.header) + "." + Encode((p.dump)(WithTimes(payload, now, expiryMinutes)));
    signed + "." + Encode((p.hmac)(secret, signed))
  }

  /** `token.split(".")` */
  function Split(s: string): (parts: seq<string>)
    ensures parts != []
  {
    if s == "" then [""]
    else
      var rest := Split(s[1..]);
      if s[0] == '.' then [""] + rest else [[s[0]] + rest[0]] + rest[1..]
  }

  /** The check `if exp and time.time() > exp`. */
  function CheckExpiry(claims: Claims, time: real): Result<Claims, JwtError> {
    if "exp" !in claims then Success(claims)
    else match claims["exp"]
      case Num(n) => if n != 0.0 && time > n then Failure(Expired) else Success(claims)
      case Text(s) => if s != "" then Failure(NotComparable) else Success(claims)
      case Other(tag) => if tag != 0 then Failure(NotComparable) else Success(claims)
  }

  function DecodeJwt(p: Primitives, token: string, secret: string, time: real): Result<Claims, JwtError> {
    var parts := Split(token);
    if |parts| != 3 then Failure(Malformed)
    else
      var expected := (p.hmac)(secret, parts[0] + "." + parts[1]);
      match Decode(parts[2])
      case None => Failure(BadSegment)
      case Some(actual) =>
        if actual != expected then Failure(InvalidSignature)
        else match Decode(parts[1])
          case None => Failure(BadSegment)
          case Some(payload) =>
            match (p.load)(payload)
            case None => Failure(BadPayload)
            case Some(claims) => CheckExpiry(claims, time)
  }

  // ---- Splitting ------------------------------------------------------------------------

  predicate DotFree(s: string) {
    forall i :: 0 <= i < |s| ==> s[i] != '.'
  }

  lemma {:induction false} SplitDotFree(s: string)
    requires DotFree(s)
    ensures Split(s) == [s]
  {
    if s != "" {
      SplitDotFree(s[1..]);
      assert [s[0]] + s[1..] == s;
    }
  }

  lemma {:induction false} SplitFirst(a: string, rest: string)
    requires DotFree(a)
    ensures Split(a + "." + rest) == [a] + Split(rest)
  {
    var s := a + "." + rest;
    if a == "" {
      assert s[1..] == rest;
    } else {
      SplitFirst(a[1..], rest);
      assert s[1..] == a[1..] + "." + rest;
      assert ([a[1..]] + Split(rest))[1..] == Split(rest) && [a[0]] + a[1..] == a;
    }
  }

  lemma SplitThree(a: string, b: string, c: string)
    requires DotFree(a) && DotFree(b) && DotFree(c)
    ensures Split(a + "." + b + "." + c) == [a, b, c]
  {
    assert a + "." + b + "." + c == a + "." + (b + "." + c);
    SplitFirst(a, b + "." + c);
    SplitFirst(b, c);
    SplitDotFree(c);
  }

  lemma EncodeDotFree(d: seq<byte>)
    ensures DotFree(Encode(d))
  {
    EncodeExact(d);
    forall i | 0 <= i < |Encode(d)| ensures Encode(d)[i] != '.' {
      assert IsDigit(Encode(d)[i]);
    }
  }

  // ---- The theorems -----------------------------------------------------------------------

  /** JSON reads back the claims it wrote. */
  predicate JsonFaithful(p: Primitives, claims: Claims) {
    (p.load)((p.dump)(claims)) == Some(claims)
  }

  /** What decoding a created token comes down to, whichever secret it is decoded with. */
  lemma DecodeCreated(p: Primitives, payload: Claims, secret: string, now: real, minutes: int, other: string,
          time: real)
    requires JsonFaithful(p, WithTimes(payload, now, minutes))
    ensures var claims := WithTimes(payload, now, minutes);
            var signed := Encode(p.header) + "." + Encode((p.dump)(claims));
            DecodeJwt(p, Create(p, payload, secret, now, minutes), other, time) ==
              if (p.hmac)(secret, signed) != (p.hmac)(other, signed) then Failure(InvalidSignature)
              else CheckExpiry(claims, time)
  {
    var claims := WithTimes(payload, now, minutes);
    var body := (p.dump)(claims);
    var signed := Encode(p.header) + "." + Encode(body);
    var mac := (p.hmac)(secret, signed);
    EncodeDotFree(p.header);
    EncodeDotFree(body);
    EncodeDotFree(mac);
    SplitThree(Encode(p.header), Encode(body), Encode(mac));
    RoundTrip(mac);
    RoundTrip(body);
    hide Encode, Decode, Split, WithTimes;
    assert Split(Create(p, payload, secret, now, minutes)) == [Encode(p.header), Encode(body), Encode(mac)];
  }

  /** Round trip: a token decodes under its own secret to the payload with `iat` and `exp`,
      up to and including its expiry second; after that it is expired. A token whose `exp`
      comes out as 0 never expires. */
  lemma CreatedTokenDecodes(p: Primitives, payload: Claims, secret: string, now: real, minutes: int, time: real)
    requires JsonFaithful(p, WithTimes(payload, now, minutes))
    ensures var exp := Truncate(now + (minutes * 60) as real) as real;
            DecodeJwt(p, Create(p, payload, secret, now, minutes), secret, time) ==
              if exp == 0.0 || time <= exp then Success(WithTimes(payload, now, minutes)) else Failure(Expired)
  {
    DecodeCreated(p, payload, secret, now, minutes, secret, time);
  }

  /** What the decoded claims are: those of the payload, but `iat` and `exp` always the whole
      seconds of the two times. */
  lemma TimesExact(payload: Claims, now: real, minutes: int)
    ensures var claims := WithTimes(payload, now, minutes);
            && (forall k :: k != "iat" && k != "exp" ==>
                  (k in claims <==> k in payload) && (k in payload ==> claims[k] == payload[k]))
            && "iat" in claims && WholeSecond(claims["iat"], now)
            && "exp" in claims && WholeSecond(claims["exp"], now + (minutes * 60) as real)
  {
  }

  /** The whole second at or next to `t` on the side of zero. */
  predicate WholeSecond(c: Claim, t: real) {
    && c.Num? && c.n == c.n.Floor as real
    && (t >= 0.0 ==> c.n <= t < c.n + 1.0)
    && (t < 0.0 ==> c.n - 1.0 < t <= c.n)
  }

  // ---- Any token --------------------------------------------------------------------------

  /** The segments are free of dots and make up the string again. */
  lemma {:induction false} SplitExact(s: string)
    ensures forall i :: 0 <= i < |Split(s)| ==> DotFree(Split(s)[i])
    ensures Joined(Split(s)) == s
  {
    if s != "" {
      SplitExact(s[1..]);
      var rest := Split(s[1..]);
      if s[0] == '.' {
        assert ([""] + rest)[1..] == rest;
        assert s == "" + "." + s[1..];
      } else {
        var parts := [[s[0]] + rest[0]] + rest[1..];
        assert parts[1..] == rest[1..];
        assert [s[0]] + s[1..] == s;
        if |rest| > 1 {
          assert [s[0]] + (rest[0] + "." + Joined(rest[1..])) == [s[0]] + rest[0] + "." + Joined(rest[1..]);
        }
      }
    }
  }

  /** The segments with a dot between two. */
  function Joined(parts: seq<string>): string {
    if parts == [] then "" else if |parts| == 1 then parts[0] else parts[0] + "." + Joined(parts[1..])
  }

  /** The token is three segments: any first one, one that holds the claims, and the HMAC of
      the first two under this secret. */
  ghost predicate Genuine(p: Primitives, token: string, secret: string, claims: Claims, a: string, b: string,
      c: string) {
    && token == a + "." + b + "." + c && DotFree(a) && DotFree(b) && DotFree(c)
    && Decode(c) == Some((p.hmac)(secret, a + "." + b))
    && Decode(b).Some? && (p.load)(Decode(b).value) == Some(claims)
  }

  /** The token is not past its expiry; one without an `exp`, or with a falsy one, never is. */
  predicate Current(claims: Claims, time: real) {
    "exp" in claims ==>
      match claims["exp"]
      case Num(n) => n == 0.0 || time <= n
      case Text(s) => s == ""
      case Other(tag) => tag == 0
  }

  /** Exactly which strings decode, and to what. */
  lemma DecodeSucceedsIff(p: Primitives, token: string, secret: string, time: real, claims: Claims)
    ensures DecodeJwt(p, token, secret, time) == Success(claims) <==>
              Current(claims, time) && exists a, b, c :: Genuine(p, token, secret, claims, a, b, c)
  {
    hide Decode;
    var parts := Split(token);
    SplitExact(token);
    if DecodeJwt(p, token, secret, time) == Success(claims) {
      ThreeJoined(parts);
      assert Genuine(p, token, secret, claims, parts[0], parts[1], parts[2]);
    }
    if Current(claims, time) && exists a, b, c :: Genuine(p, token, secret, claims, a, b, c) {
      var a, b, c :| Genuine(p, token, secret, claims, a, b, c);
      SplitThree(a, b, c);
      hide Split;
    }
  }

  lemma ThreeJoined(parts: seq<string>)
    requires |parts| == 3
    ensures Joined(parts) == parts[0] + "." + parts[1] + "." + parts[2]
  {
    var rest := parts[1..];
    assert rest[1..] == [parts[2]] && rest[0] == parts[1];
    assert Joined(rest) == parts[1] + "." + parts[2];
    assert parts[0] + "." + (parts[1] + "." + parts[2]) == parts[0] + "." + parts[1] + "." + parts[2];
  }
}
