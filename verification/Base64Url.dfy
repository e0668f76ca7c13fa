/** Unpadded base64url, `_b64url_encode` and `_b64url_decode` of `app/api/middleware/jwt_auth.py`
    (section 5 of RFC 4648; appendix C of RFC 7515). The decoder is the lenient one the
    source calls: it skips characters outside the alphabet and stops at sufficient padding. */
module Base64Url {
  import opened Collections
  import opened Wrappers

  function Digit(v: nat): char
    requires v < 64
  {
    if v < 26 then 'A' + v as char
    else if v < 52 then 'a' + (v - 26) as char
    else if v < 62 then '0' + (v - 52) as char
    else if v == 62 then '-'
    else '_'
  }

  /** The URL-safe digits are translated to the standard ones, which are accepted too. */
  function DigitValue(c: char): Option<nat> {
    if 'A' <= c <= 'Z' then Some((c - 'A') as nat)
    else if 'a' <= c <= 'z' then Some((c - 'a') as nat + 26)
    else if '0' <= c <= '9' then Some((c - '0') as nat + 52)
    else if c == '-' || c == '+' then Some(62)
    else if c == '_' || c == '/' then Some(63)
    else None
  }

  lemma DigitRoundTrip(v: nat)
    requires v < 64
    ensures DigitValue(Digit(v)) == Some(v) && Digit(v) != '=' && Digit(v) != '.' && Digit(v) < 128 as char
  {
  }

  // ---- Encoding -----------------------------------------------------------------------------

  function Digit0(a: byte): char { Digit(a / 4) }

  function Digit1(a: byte, b: byte): char { Digit(a % 4 * 16 + b / 16) }

  function Digit2(b: byte, c: byte): char { Digit(b % 16 * 4 + c / 64) }

  function Digit3(c: byte): char { Digit(c % 64) }

  /** `base64.urlsafe_b64encode` */
  function Base64(d: seq<byte>): string {
    if d == [] then ""
    else if |d| == 1 then [Digit0(d[0]), Digit1(d[0], 0), '=', '=']
    else if |d| == 2 then [Digit0(d[0]), Digit1(d[0], d[1]), Digit2(d[1], 0), '=']
    else [Digit0(d[0]), Digit1(d[0], d[1]), Digit2(d[1], d[2]), Digit3(d[2])] + Base64(d[3..])
  }

  /** `rstrip(b"=")` */
  function StripPadding(s: string): string {
    if s != "" && s[|s| - 1] == '=' then StripPadding(s[..|s| - 1]) else s
  }

  function Encode(d: seq<byte>): string {
    StripPadding(Base64(d))
  }

  // ---- Decoding -----------------------------------------------------------------------------

  function Repeat(c: char, n: nat): string {
    if n == 0 then "" else [c] + Repeat(c, n - 1)
  }

  function Repad(s: string): string {
    var padding := 4 - |s| % 4;
    if padding != 4 then s + Repeat('=', padding) else s
  }

  /** What the four positions of a quad leave over for the next digit. */
  predicate CarryFits(quad: nat, carry: nat) {
    quad < 4 && carry < if quad == 1 then 64 else if quad == 2 then 16 else if quad == 3 then 4 else 1
  }

  /** The loop of the lenient decoder; `None` is its padding error. */
  function Scan(s: string, quad: nat, carry: nat, pads: nat): Option<seq<byte>>
    requires CarryFits(quad, carry)
  {
    if s == "" then (if quad == 0 then Some([]) else None)
    else if s[0] == '=' then
      if quad >= 2 && quad + pads + 1 >= 4 then Some([])
      else Scan(s[1..], quad, carry, if quad >= 2 then pads + 1 else pads)
    else match DigitValue(s[0])
      case None => Scan(s[1..], quad, carry, pads)
      case Some(v) =>
        if quad == 0 then Scan(s[1..], 1, v, 0)
        else if quad == 1 then Prepend(carry * 4 + v / 16, Scan(s[1..], 2, v % 16, 0))
        else if quad == 2 then Prepend(carry * 16 + v / 4, Scan(s[1..], 3, v % 4, 0))
        else Prepend(carry * 64 + v, Scan(s[1..], 0, 0, 0))
  }

  function Prepend(b: byte, r: Option<seq<byte>>): Option<seq<byte>> {
    match r
    case None => None
    case Some(d) => Some([b] + d)
  }

  /** Text that is not ASCII is refused. */
  function Decode(s: string): Option<seq<byte>> {
    if exists i :: 0 <= i < |s| && s[i] >= 128 as char then None else Scan(Repad(s), 0, 0, 0)
  }

  // ---- The round trip -----------------------------------------------------------------------

  predicate IsDigit(c: char) {
    DigitValue(c).Some? && c != '+' && c != '/'
  }

  /** The encoding before its padding. */
  function Digits(d: seq<byte>): string {
    if d == [] then ""
    else if |d| == 1 then [Digit0(d[0]), Digit1(d[0], 0)]
    else if |d| == 2 then [Digit0(d[0]), Digit1(d[0], d[1]), Digit2(d[1], 0)]
    else [Digit0(d[0]), Digit1(d[0], d[1]), Digit2(d[1], d[2]), Digit3(d[2])] + Digits(d[3..])
  }

  lemma DigitIsDigit(v: nat)
    requires v < 64
    ensures IsDigit(Digit(v)) && Digit(v) != '='
  {
  }

  lemma QuadDigits(a: byte, b: byte, c: byte)
    ensures IsDigit(Digit0(a)) && IsDigit(Digit1(a, b)) && IsDigit(Digit2(b, c)) && IsDigit(Digit3(c))
  {
    DigitIsDigit(a / 4);
    DigitIsDigit(a % 4 * 16 + b / 16);
    DigitIsDigit(b % 16 * 4 + c / 64);
    DigitIsDigit(c % 64);
  }

  lemma {:induction false} DigitsAreDigits(d: seq<byte>)
    ensures forall i :: 0 <= i < |Digits(d)| ==> IsDigit(Digits(d)[i])
  {
    hide IsDigit, Digit0, Digit1, Digit2, Digit3;
    if |d| >= 3 {
      DigitsAreDigits(d[3..]);
      QuadDigits(d[0], d[1], d[2]);
    } else if |d| == 2 {
      QuadDigits(d[0], d[1], 0);
    } else if |d| == 1 {
      QuadDigits(d[0], 0, 0);
    }
  }

  /** How much padding `n` bytes need. */
  function PaddingFor(n: nat): nat {
    if n % 3 == 0 then 0 else 3 - n % 3
  }

  lemma {:induction false} DigitsLength(d: seq<byte>)
    ensures |Digits(d)| == (4 * |d| + 2) / 3
    ensures |Digits(d)| % 4 == if |d| % 3 == 0 then 0 else |d| % 3 + 1
  {
    DigitsStep(d);
    hide Digits;
    if |d| >= 3 {
      DigitsLength(d[3..]);
    }
  }

  lemma DigitsStep(d: seq<byte>)
    ensures |Digits(d)| == if |d| >= 3 then 4 + |Digits(d[3..])| else if d == [] then 0 else |d| + 1
  {
    hide Digit0, Digit1, Digit2, Digit3;
  }

  lemma {:induction false} DigitsPadded(d: seq<byte>)
    ensures Base64(d) == Digits(d) + Repeat('=', PaddingFor(|d|))
  {
    hide Digit0, Digit1, Digit2, Digit3;
    SmallPadding();
    hide Repeat;
    if |d| >= 3 {
      DigitsPadded(d[3..]);
    }
  }

  lemma SmallPadding()
    ensures Repeat('=', 0) == "" && Repeat('=', 1) == ['='] && Repeat('=', 2) == ['=', '=']
  {
    assert Repeat('=', 1) == ['='] + Repeat('=', 0);
  }

  lemma {:induction false} StripRepeated(s: string, n: nat)
    requires s == "" || s[|s| - 1] != '='
    ensures StripPadding(s + Repeat('=', n)) == s
  {
    if n > 0 {
      RepeatLast('=', n);
      var t := s + Repeat('=', n);
      assert t[|t| - 1] == '=' && t[..|t| - 1] == s + Repeat('=', n - 1);
      StripRepeated(s, n - 1);
    } else {
      assert s + "" == s;
    }
  }

  lemma {:induction false} RepeatLast(c: char, n: nat)
    requires n > 0
    ensures |Repeat(c, n)| == n && Repeat(c, n)[n - 1] == c && Repeat(c, n)[..n - 1] == Repeat(c, n - 1)
  {
    if n > 1 {
      RepeatLast(c, n - 1);
    }
  }

  /** Stripping leaves exactly the digits: of the URL-safe alphabet, so without `.` and `=`,
      `ceil(4n / 3)` of them and never one more than a multiple of four. */
  lemma EncodeExact(d: seq<byte>)
    ensures Encode(d) == Digits(d)
    ensures |Encode(d)| == (4 * |d| + 2) / 3 && |Encode(d)| % 4 != 1
    ensures forall i :: 0 <= i < |Encode(d)| ==> IsDigit(Encode(d)[i])
  {
    DigitsAreDigits(d);
    DigitsLength(d);
    DigitsPadded(d);
    var ds := Digits(d);
    if ds != "" {
      assert IsDigit(ds[|ds| - 1]);
    }
    hide Digits, Base64;
    StripRepeated(ds, PaddingFor(|d|));
  }

  /** The padding arithmetic puts back exactly what was stripped. */
  lemma RepadRestores(d: seq<byte>)
    ensures Repad(Encode(d)) == Base64(d)
  {
    hide Digits, Base64, Encode, IsDigit;
    EncodeExact(d);
    DigitsLength(d);
    DigitsPadded(d);
    SmallPadding();
    assert Digits(d) + "" == Digits(d);
  }

  lemma ScanDigit(s: string, v: nat, quad: nat, carry: nat, pads: nat)
    requires v < 64 && s != "" && s[0] == Digit(v) && CarryFits(quad, carry)
    ensures Scan(s, quad, carry, pads) ==
      (if quad == 0 then Scan(s[1..], 1, v, 0)
       else if quad == 1 then Prepend(carry * 4 + v / 16, Scan(s[1..], 2, v % 16, 0))
       else if quad == 2 then Prepend(carry * 16 + v / 4, Scan(s[1..], 3, v % 4, 0))
       else Prepend(carry * 64 + v, Scan(s[1..], 0, 0, 0)))
  {
    DigitRoundTrip(v);
  }

  /** The shifts of the decoder undo those of the encoder. */
  lemma Shifts(a: byte, b: byte, c: byte)
    ensures a / 4 * 4 + (a % 4 * 16 + b / 16) / 16 == a && (a % 4 * 16 + b / 16) % 16 == b / 16
    ensures b / 16 * 16 + (b % 16 * 4 + c / 64) / 4 == b && (b % 16 * 4 + c / 64) % 4 == c / 64
    ensures c / 64 * 64 + c % 64 == c
  {
  }

  lemma ScanFirstTwo(s: string, a: byte, b: byte)
    requires |s| >= 2 && s[0] == Digit0(a) && s[1] == Digit1(a, b)
    ensures Scan(s, 0, 0, 0) == Prepend(a, Scan(s[2..], 2, b / 16, 0))
  {
    Shifts(a, b, 0);
    ScanDigit(s, a / 4, 0, 0, 0);
    ScanDigit(s[1..], a % 4 * 16 + b / 16, 1, a / 4, 0);
    assert s[1..][1..] == s[2..];
  }

  lemma ScanOne(a: byte)
    ensures Scan(Base64([a]), 0, 0, 0) == Some([a])
  {
    var s := Base64([a]);
    assert s == [Digit0(a), Digit1(a, 0), '=', '='];
    ScanFirstTwo(s, a, 0);
    assert s[2..] == ['=', '='] && s[2..][1..] == ['='];
    assert Scan(['='], 2, 0, 1) == Some([]);
    assert Scan(['=', '='], 2, 0, 0) == Some([]);
    assert [a] + [] == [a];
  }

  lemma ScanTwo(a: byte, b: byte)
    ensures Scan(Base64([a, b]), 0, 0, 0) == Some([a, b])
  {
    var s := Base64([a, b]);
    assert s == [Digit0(a), Digit1(a, b), Digit2(b, 0), '='];
    ScanFirstTwo(s, a, b);
    Shifts(a, b, 0);
    ScanDigit(s[2..], b % 16 * 4, 2, b / 16, 0);
    assert s[2..][1..] == ['='];
    assert Scan(['='], 3, 0, 0) == Some([]);
    assert [a] + ([b] + []) == [a, b];
  }

  lemma ScanThree(a: byte, b: byte, c: byte, rest: string)
    ensures Scan([Digit0(a), Digit1(a, b), Digit2(b, c), Digit3(c)] + rest, 0, 0, 0)
         == Prepend(a, Prepend(b, Prepend(c, Scan(rest, 0, 0, 0))))
  {
    var s := [Digit0(a), Digit1(a, b), Digit2(b, c), Digit3(c)] + rest;
    ScanFirstTwo(s, a, b);
    Shifts(a, b, c);
    ScanDigit(s[2..], b % 16 * 4 + c / 64, 2, b / 16, 0);
    ScanDigit(s[3..], c % 64, 3, c / 64, 0);
    hide Scan, Digit;
    assert s[2..][1..] == s[3..] && s[3..][1..] == rest;
  }

  lemma {:induction false} ScanBase64(d: seq<byte>)
    ensures Scan(Base64(d), 0, 0, 0) == Some(d)
  {
    if |d| == 1 {
      ScanOne(d[0]);
      assert d == [d[0]];
    } else if |d| == 2 {
      ScanTwo(d[0], d[1]);
      assert d == [d[0], d[1]];
    } else if |d| >= 3 {
      ScanBase64(d[3..]);
      ScanThree(d[0], d[1], d[2], Base64(d[3..]));
      hide Scan, Base64;
      SplitThree(d);
    }
  }

  lemma SplitThree<T>(d: seq<T>)
    requires |d| >= 3
    ensures d == [d[0]] + ([d[1]] + ([d[2]] + d[3..]))
  {
  }

  /** Decoding an encoding gives the bytes back, for all bytes. */
  lemma RoundTrip(d: seq<byte>)
    ensures Decode(Encode(d)) == Some(d)
  {
    EncodeExact(d);
    forall i | 0 <= i < |Encode(d)| ensures Encode(d)[i] < 128 as char {
      assert IsDigit(Encode(d)[i]);
    }
    RepadRestores(d);
    ScanBase64(d);
  }

  // ---- What the decoder makes of any text ---------------------------------------------------

  /** The URL-safe alphabet, and the two standard digits it replaces. */
  lemma DigitValueExact(c: char, v: nat)
    ensures DigitValue(c) == Some(v) <==>
              v < 64 && (c == Digit(v) || (c == '+' && v == 62) || (c == '/' && v == 63))
  {
  }

  /** The digits of a text, everything else left out. */
  function Values(s: string): seq<nat> {
    if s == "" then []
    else
      var front, v := Values(s[..|s| - 1]), DigitValue(s[|s| - 1]);
      if v.Some? then front + [v.value] else front
  }

  /** How many padding characters come after the last digit. */
  function Pads(s: string): nat {
    if s == "" || DigitValue(s[|s| - 1]).Some? then 0
    else Pads(s[..|s| - 1]) + if s[|s| - 1] == '=' then 1 else 0
  }

  /** The three bytes of four six-bit digits. */
  function Byte0(a: nat, b: nat): int { a * 4 + b / 16 }

  function Byte1(b: nat, c: nat): int { b % 16 * 16 + c / 4 }

  function Byte2(c: nat, d: nat): int { c % 4 * 64 + d }

  /** Section 4 of RFC 4648: four digits make three bytes; two or three digits left over make
      one or two, and the bits that do not fill a byte are dropped. */
  function Bytes(vs: seq<nat>): seq<int> {
    if |vs| < 2 then []
    else if |vs| == 2 then [Byte0(vs[0], vs[1])]
    else if |vs| == 3 then [Byte0(vs[0], vs[1]), Byte1(vs[1], vs[2])]
    else [Byte0(vs[0], vs[1]), Byte1(vs[1], vs[2]), Byte2(vs[2], vs[3])] + Bytes(vs[4..])
  }

  /** The text ends here: with this padding character the digits before it fill a quad. */
  ghost predicate Stops(s: string, i: int) {
    && 0 <= i < |s| && s[i] == '='
    && |Values(s[..i])| % 4 >= 2 && |Values(s[..i])| % 4 + Pads(s[..i]) + 1 >= 4
  }

  ghost predicate FirstStop(s: string, i: int) {
    Stops(s, i) && forall j :: 0 <= j < i ==> !Stops(s, j)
  }

  /** Only digits up to the first sufficient padding count. Without such padding the number of
      digits must be a multiple of four. */
  ghost predicate ReadsAs(s: string, r: Option<seq<int>>) {
    && (forall i :: FirstStop(s, i) ==> r == Some(Bytes(Values(s[..i]))))
    && ((forall i :: !Stops(s, i)) ==> r == if |Values(s)| % 4 == 0 then Some(Bytes(Values(s))) else None)
  }

  /** The bits that the last of the digits leaves for the next byte. */
  function Carry(vs: seq<nat>): nat {
    if |vs| % 4 == 0 then 0
    else if |vs| % 4 == 1 then vs[|vs| - 1]
    else if |vs| % 4 == 2 then vs[|vs| - 1] % 16
    else vs[|vs| - 1] % 4
  }

  /** What digit `v` adds to the bytes of the digits `vs`. */
  function Added(vs: seq<nat>, v: nat): seq<int> {
    if |vs| % 4 == 0 then []
    else if |vs| % 4 == 1 then [Byte0(vs[|vs| - 1], v)]
    else if |vs| % 4 == 2 then [Byte1(vs[|vs| - 1], v)]
    else [Byte2(vs[|vs| - 1], v)]
  }

  lemma {:induction false} BytesMore(vs: seq<nat>, v: nat)
    ensures Bytes(vs + [v]) == Bytes(vs) + Added(vs, v)
  {
    hide Byte0, Byte1, Byte2;
    var ws := vs + [v];
    if |vs| >= 4 {
      BytesMore(vs[4..], v);
      assert ws[4..] == vs[4..] + [v];
      assert Added(vs, v) == Added(vs[4..], v);
    } else if |vs| == 3 {
      assert ws[4..] == [] && Bytes([]) == [];
    }
  }

  lemma {:induction false} ValuesSmall(s: string)
    ensures forall i :: 0 <= i < |Values(s)| ==> Values(s)[i] < 64
  {
    if s != "" {
      ValuesSmall(s[..|s| - 1]);
    }
  }

  /** The state of the loop after the first `k` characters. */
  ghost predicate After(s: string, k: nat, quad: nat, carry: nat, pads: nat)
    requires k <= |s|
  {
    var vs := Values(s[..k]);
    && quad == |vs| % 4 && carry == Carry(vs) && CarryFits(quad, carry)
    && (quad >= 2 ==> pads == Pads(s[..k]))
    && forall j :: 0 <= j < k ==> !Stops(s, j)
  }

  function Appended(d: seq<int>, r: Option<seq<int>>): Option<seq<int>> {
    match r
    case None => None
    case Some(e) => Some(d + e)
  }

  lemma NextCharacter(s: string, k: nat)
    requires k < |s|
    ensures s[..k + 1][..k] == s[..k]
    ensures Values(s[..k + 1]) == if DigitValue(s[k]).Some? then Values(s[..k]) + [DigitValue(s[k]).value]
                                  else Values(s[..k])
    ensures Pads(s[..k + 1]) == if DigitValue(s[k]).Some? then 0 else Pads(s[..k]) + if s[k] == '=' then 1 else 0
  {
    assert s[..k + 1][..k] == s[..k];
  }

  /** One digit of the text. */
  lemma DigitStep(s: string, k: nat, quad: nat, carry: nat, pads: nat)
    requires k < |s| && After(s, k, quad, carry, pads) && DigitValue(s[k]).Some?
    ensures After(s, k + 1, (quad + 1) % 4, Carry(Values(s[..k + 1])), 0)
    ensures quad == |Values(s[..k])| % 4 && carry == Carry(Values(s[..k]))
    ensures var v, vs := DigitValue(s[k]).value, Values(s[..k]);
            && v < 64 && vs + [v] == Values(s[..k + 1])
            && Carry(vs + [v]) == if quad == 0 then v else if quad == 1 then v % 16 else if quad == 2 then v % 4 else 0
  {
    NextCharacter(s, k);
    ValuesSmall(s[..k + 1]);
    assert s[k] != '=';
  }

  lemma {:induction false} ScanReads(s: string, k: nat, quad: nat, carry: nat, pads: nat)
    requires k <= |s| && CarryFits(quad, carry) && After(s, k, quad, carry, pads)
    ensures ReadsAs(s, Appended(Bytes(Values(s[..k])), Scan(s[k..], quad, carry, pads)))
    decreases |s| - k
  {
    hide Bytes, Values, Carry, Pads, DigitValue, ReadsAs;
    if k == |s| {
      ReadToEnd(s, quad, carry, pads);
    } else {
      assert s[k..][1..] == s[k + 1..];
      NextCharacter(s, k);
      if s[k] == '=' {
        PaddingIsNoDigit();
        if quad >= 2 && quad + pads + 1 >= 4 {
          ReadToStop(s, k, quad, carry, pads);
        } else {
          ScanReads(s, k + 1, quad, carry, if quad >= 2 then pads + 1 else pads);
        }
      } else if DigitValue(s[k]).None? {
        ScanReads(s, k + 1, quad, carry, pads);
      } else {
        ReadDigit(s, k, quad, carry, pads);
        ScanReads(s, k + 1, (quad + 1) % 4, Carry(Values(s[..k + 1])), 0);
      }
    }
  }

  lemma PaddingIsNoDigit()
    ensures DigitValue('=').None?
  {
  }

  lemma ReadToEnd(s: string, quad: nat, carry: nat, pads: nat)
    requires After(s, |s|, quad, carry, pads)
    ensures ReadsAs(s, Appended(Bytes(Values(s[..|s|])), Scan(s[|s|..], quad, carry, pads)))
  {
    hide Bytes, Values, Carry, Pads;
    assert s[..|s|] == s && s[|s|..] == "";
    assert Bytes(Values(s)) + [] == Bytes(Values(s));
    assert forall i :: !Stops(s, i);
  }

  lemma ReadToStop(s: string, k: nat, quad: nat, carry: nat, pads: nat)
    requires k < |s| && After(s, k, quad, carry, pads) && s[k] == '=' && quad >= 2 && quad + pads + 1 >= 4
    ensures ReadsAs(s, Appended(Bytes(Values(s[..k])), Scan(s[k..], quad, carry, pads)))
  {
    hide Bytes, Values, Carry, Pads;
    var vs := Values(s[..k]);
    assert Stops(s, k) && FirstStop(s, k);
    assert forall i :: FirstStop(s, i) ==> i == k;
    assert Scan(s[k..], quad, carry, pads) == Some([]);
    assert Bytes(vs) + [] == Bytes(vs);
  }

  /** One digit of the text. */
  lemma ReadDigit(s: string, k: nat, quad: nat, carry: nat, pads: nat)
    requires k < |s| && After(s, k, quad, carry, pads) && DigitValue(s[k]).Some?
    ensures var c := Carry(Values(s[..k + 1]));
            && After(s, k + 1, (quad + 1) % 4, c, 0)
            && Appended(Bytes(Values(s[..k])), Scan(s[k..], quad, carry, pads))
                 == Appended(Bytes(Values(s[..k + 1])), Scan(s[k + 1..], (quad + 1) % 4, c, 0))
  {
    var v, vs := DigitValue(s[k]).value, Values(s[..k]);
    DigitStep(s, k, quad, carry, pads);
    BytesMore(vs, v);
    assert s[k..][1..] == s[k + 1..];
    ScanOfDigit(s[k..], v, vs, pads);
    hide *;
    AppendTwice(Bytes(vs), Added(vs, v), Scan(s[k + 1..], (quad + 1) % 4, Carry(vs + [v]), 0));
  }

  lemma AppendTwice(a: seq<int>, b: seq<int>, r: Option<seq<int>>)
    ensures Appended(a, Appended(b, r)) == Appended(a + b, r)
  {
    if r.Some? {
      assert a + (b + r.value) == a + b + r.value;
    }
  }

  lemma ScanOfDigit(s: string, v: nat, vs: seq<nat>, pads: nat)
    requires s != "" && DigitValue(s[0]) == Some(v) && v < 64 && CarryFits(|vs| % 4, Carry(vs))
    ensures CarryFits((|vs| + 1) % 4, Carry(vs + [v]))
    ensures Scan(s, |vs| % 4, Carry(vs), pads)
         == Appended(Added(vs, v), Scan(s[1..], (|vs| + 1) % 4, Carry(vs + [v]), 0))
  {
    assert s[0] != '=';
    if |vs| % 4 == 0 {
      match Scan(s[1..], 1, v, 0)
      case None =>
      case Some(d) => assert [] + d == d;
    }
  }

  /** Exactly what any text decodes to: it must be ASCII; then, padded to a multiple of four
      characters, it is read up to the first sufficient padding. */
  lemma DecodeExact(s: string)
    ensures if exists i :: 0 <= i < |s| && s[i] >= 128 as char then Decode(s) == None else ReadsAs(Repad(s), Decode(s))
  {
    var t := Repad(s);
    assert t[0..] == t && t[..0] == "";
    ScanReads(t, 0, 0, 0, 0);
    assert Bytes([]) == [];
    match Scan(t, 0, 0, 0)
    case None =>
    case Some(d) => assert [] + d == d;
  }

  /** The padding makes the length a multiple of four. */
  lemma RepadExact(s: string)
    ensures |Repad(s)| % 4 == 0 && |s| <= |Repad(s)| < |s| + 4 && Repad(s)[..|s|] == s
    ensures forall i :: |s| <= i < |Repad(s)| ==> Repad(s)[i] == '='
  {
    RepeatExact('=', 4 - |s| % 4);
  }

  lemma {:induction false} RepeatExact(c: char, n: nat)
    ensures |Repeat(c, n)| == n && forall i :: 0 <= i < n ==> Repeat(c, n)[i] == c
  {
    if n > 0 {
      RepeatExact(c, n - 1);
    }
  }
}
