/** The decimal-length-prefixed frames of `app/plugins/plugin_protocol.py`, and the one-shot
    reader `_parse_response` of `app/plugins/registry.py`. Payloads are the encoded JSON. */
module PluginFrames {
  import opened Collections
  import opened Wrappers

  const NEWLINE: byte := 10
  const UNDERSCORE: byte := 95
  const FRAME_LIMIT := 10 * 1024 * 1024

  // ---- Decimal numbers --------------------------------------------------------------------

  /** `str(n)` */
  function Decimal(n: nat): seq<byte> {
    if n < 10 then [48 + n] else Decimal(n / 10) + [48 + n % 10]
  }

  predicate IsDigit(b: byte) {
    48 <= b < 58
  }

  predicate IsSpace(b: byte) {
    b == 32 || 9 <= b <= 13
  }

  function Strip(s: seq<byte>): seq<byte> {
    if s != [] && IsSpace(s[0]) then Strip(s[1..])
    else if s != [] && IsSpace(s[|s| - 1]) then Strip(s[..|s| - 1])
    else s
  }

  /** Digits, with single underscores allowed between them. */
  function ParseDigits(s: seq<byte>): Option<int> {
    if s == [] || !IsDigit(s[|s| - 1]) then None
    else
      var v := s[|s| - 1] - 48;
      if |s| == 1 then Some(v)
      else
        var front := if s[|s| - 2] == UNDERSCORE then s[..|s| - 2] else s[..|s| - 1];
        match ParseDigits(front)
        case None => None
        case Some(n) => Some(n * 10 + v)
  }

  /** `int(s.strip())`; `None` is the `ValueError`. */
  function ParseInt(s: seq<byte>): Option<int> {
    var t := Strip(s);
    if t != [] && (t[0] == 43 || t[0] == 45) then
      match ParseDigits(t[1..])
      case None => None
      case Some(n) => Some(if t[0] == 45 then -n else n)
    else
      match ParseDigits(t)
      case None => None
      case Some(n) => Some(n)
  }

  predicate AllDigits(s: seq<byte>) {
    forall i :: 0 <= i < |s| ==> IsDigit(s[i])
  }

  lemma {:induction false} DecimalExact(n: nat)
    ensures Decimal(n) != [] && AllDigits(Decimal(n)) && ParseDigits(Decimal(n)) == Some(n)
    ensures n > 0 ==> Decimal(n)[0] != 48
  {
    if n >= 10 {
      DecimalExact(n / 10);
      var s, front := Decimal(n), Decimal(n / 10);
      assert s[..|s| - 1] == front && s[|s| - 2] == front[|front| - 1];
    }
  }

  lemma StripDigits(s: seq<byte>)
    requires s != [] && AllDigits(s)
    ensures Strip(s) == s && Strip(s + [NEWLINE]) == s
  {
    var t := s + [NEWLINE];
    assert t[|t| - 1] == NEWLINE && t[..|t| - 1] == s && t[0] == s[0];
  }

  lemma {:induction false} ParsePrefix(s: seq<byte>, k: nat)
    requires s != [] && AllDigits(s) && s[0] != 48 && 1 <= k <= |s|
    ensures ParseDigits(s[..k]).Some? && ParseDigits(s[..k]).value >= 1
  {
    var t := s[..k];
    if k > 1 {
      ParsePrefix(s, k - 1);
      assert t[..k - 1] == s[..k - 1] && IsDigit(s[k - 2]);
    }
  }

  // ---- Which headers are numbers ------------------------------------------------------------

  /** White space: the blank and the bytes 9 to 13. */
  ghost predicate Blank(s: seq<byte>) {
    forall i :: 0 <= i < |s| ==> s[i] == 32 || (9 <= s[i] && s[i] <= 13)
  }

  /** Decimal digits, in which single underscores may stand between two digits. */
  ghost predicate Numeral(s: seq<byte>) {
    && s != [] && s[0] != 95 && s[|s| - 1] != 95
    && (forall i :: 0 <= i < |s| ==> s[i] == 95 || (48 <= s[i] && s[i] <= 57))
    && (forall i :: 0 <= i < |s| - 1 ==> s[i] != 95 || s[i + 1] != 95)
  }

  /** The number they stand for. */
  function Magnitude(s: seq<byte>): int {
    if s == [] then 0
    else
      var front, last := s[..|s| - 1], s[|s| - 1];
      if last == 95 then Magnitude(front) else 10 * Magnitude(front) + last - 48
  }

  lemma {:induction false} ParseDigitsExact(s: seq<byte>)
    ensures ParseDigits(s) == if Numeral(s) then Some(Magnitude(s)) else None
    decreases |s|
  {
    if s != [] && IsDigit(s[|s| - 1]) && |s| > 1 {
      var n := |s| - 1;
      var front := if s[n - 1] == UNDERSCORE then s[..n - 1] else s[..n];
      ParseDigitsExact(front);
      if s[n - 1] == UNDERSCORE {
        assert s[..n][..n - 1] == s[..n - 1];
      }
      assert s[..n][n - 1] == s[n - 1];
      NumeralFront(s);
    } else if |s| == 1 {
      assert Magnitude(s[..0]) == 0;
    }
  }

  /** A numeral without its last digit, and the underscore before it, is a numeral. */
  lemma NumeralFront(s: seq<byte>)
    requires |s| > 1 && IsDigit(s[|s| - 1])
    ensures Numeral(s) <==> Numeral(if s[|s| - 2] == UNDERSCORE then s[..|s| - 2] else s[..|s| - 1])
  {
    var n := |s| - 1;
    var front := if s[n - 1] == UNDERSCORE then s[..n - 1] else s[..n];
    if Numeral(front) {
      forall i | 0 <= i < |s| ensures s[i] == 95 || (48 <= s[i] && s[i] <= 57) {
        assert i < |front| ==> front[i] == s[i];
      }
      forall i | 0 <= i < |s| - 1 ensures s[i] != 95 || s[i + 1] != 95 {
        assert i < |front| ==> front[i] == s[i];
        assert i + 1 < |front| ==> front[i + 1] == s[i + 1];
      }
      assert front[0] == s[0];
    }
    if Numeral(s) && s[n - 1] == UNDERSCORE {
      assert s[0] != 95 && s[n - 1 - 1] != 95;
    }
  }

  lemma {:induction false} StripExact(s: seq<byte>) returns (a: seq<byte>, b: seq<byte>)
    ensures s == a + Strip(s) + b && Blank(a) && Blank(b)
    ensures var t := Strip(s); t != [] ==> !IsSpace(t[0]) && !IsSpace(t[|t| - 1])
    decreases |s|
  {
    a, b := [], [];
    if s != [] && IsSpace(s[0]) {
      a, b := StripExact(s[1..]);
      StripFirst(s);
      hide Strip;
      assert s == [s[0]] + a + Strip(s) + b;
      a := [s[0]] + a;
    } else if s != [] && IsSpace(s[|s| - 1]) {
      a, b := StripExact(s[..|s| - 1]);
      StripLast(s);
      hide Strip;
      assert s == a + Strip(s) + (b + [s[|s| - 1]]);
      b := b + [s[|s| - 1]];
    }
  }

  lemma StripFirst(s: seq<byte>)
    requires s != [] && IsSpace(s[0])
    ensures Strip(s) == Strip(s[1..])
  {
  }

  lemma StripLast(s: seq<byte>)
    requires s != [] && !IsSpace(s[0]) && IsSpace(s[|s| - 1])
    ensures Strip(s) == Strip(s[..|s| - 1])
  {
  }

  lemma {:induction false} StripPadded(a: seq<byte>, t: seq<byte>, b: seq<byte>)
    requires Blank(a) && Blank(b) && t != [] && !IsSpace(t[0]) && !IsSpace(t[|t| - 1])
    ensures Strip(a + t + b) == t
    decreases |a| + |b|
  {
    var s := a + t + b;
    if a != [] {
      StripPadded(a[1..], t, b);
      assert s[1..] == a[1..] + t + b && IsSpace(s[0]);
      hide Strip;
      StripFirst(s);
    } else if b != [] {
      var front := b[..|b| - 1];
      assert Blank(front) && s == t + b && a + t + front == t + front;
      StripPadded(a, t, front);
      assert s[..|s| - 1] == t + front && !IsSpace(s[0]) && IsSpace(s[|s| - 1]);
      hide Strip;
      StripLast(s);
    } else {
      assert s == t;
    }
  }

  ghost predicate Signed(s: seq<byte>, n: int) {
    || (Numeral(s) && n == Magnitude(s))
    || (s != [] && s[0] == 43 && Numeral(s[1..]) && n == Magnitude(s[1..]))
    || (s != [] && s[0] == 45 && Numeral(s[1..]) && n == -Magnitude(s[1..]))
  }

  ghost predicate PaddedNumber(s: seq<byte>, n: int, a: seq<byte>, t: seq<byte>, b: seq<byte>) {
    s == a + t + b && Blank(a) && Blank(b) && Signed(t, n)
  }

  /** A header reads as the number `n` if and only if it is, between white space, a numeral of
      that value, with a plus or minus sign before it or none. */
  lemma ParseIntExact(s: seq<byte>, n: int)
    ensures ParseInt(s) == Some(n) <==> exists a, t, b :: PaddedNumber(s, n, a, t, b)
  {
    hide Strip, ParseDigits, Numeral, Magnitude, Blank, IsSpace;
    if ParseInt(s) == Some(n) {
      var a, b := StripExact(s);
      SignedParses(s, Strip(s), n);
      assert PaddedNumber(s, n, a, Strip(s), b);
    }
    if exists a, t, b :: PaddedNumber(s, n, a, t, b) {
      var a, t, b :| PaddedNumber(s, n, a, t, b);
      SignedEnds(t, n);
      StripPadded(a, t, b);
      SignedParses(s, t, n);
    }
  }

  lemma SignedParses(s: seq<byte>, t: seq<byte>, n: int)
    requires Strip(s) == t
    ensures ParseInt(s) == Some(n) <==> Signed(t, n)
  {
    hide Strip, ParseDigits;
    ParseDigitsExact(t);
    if t != [] {
      ParseDigitsExact(t[1..]);
    }
  }

  lemma SignedEnds(t: seq<byte>, n: int)
    requires Signed(t, n)
    ensures t != [] && !IsSpace(t[0]) && !IsSpace(t[|t| - 1])
  {
    hide Magnitude;
    if !Numeral(t) {
      assert t[|t| - 1] == t[1..][|t| - 2];
    }
  }

  // ---- Frames -----------------------------------------------------------------------------

  function Frame(payload: seq<byte>): seq<byte> {
    Decimal(|payload|) + [NEWLINE] + payload
  }

  /** The length of the first line, its newline included. */
  function LineLength(s: seq<byte>): (n: nat)
    ensures n <= |s|
  {
    if s == [] then 0 else if s[0] == NEWLINE then 1 else 1 + LineLength(s[1..])
  }

  /** `read_message` up to the JSON decoding: the payload, if any, and what is left unread. */
  function ReadFrame(s: seq<byte>): (Option<seq<byte>>, seq<byte>) {
    var n := LineLength(s);
    var rest := s[n..];
    if n == 0 then (None, rest)
    else match ParseInt(s[..n])
      case None => (None, rest)
      case Some(length) =>
        if length <= 0 || length > FRAME_LIMIT then (None, rest)
        else if |rest| < length then (None, [])
        else (Some(rest[..length]), rest[length..])
  }

  lemma {:induction false} LineOfDigits(ds: seq<byte>, rest: seq<byte>)
    requires AllDigits(ds)
    ensures LineLength(ds + [NEWLINE] + rest) == |ds| + 1
    ensures LineLength(ds) == |ds|
  {
    var s := ds + [NEWLINE] + rest;
    if ds != [] {
      LineOfDigits(ds[1..], rest);
      assert s[1..] == ds[1..] + [NEWLINE] + rest;
    }
  }

  lemma ParseHeader(n: nat)
    ensures ParseInt(Decimal(n) + [NEWLINE]) == Some(n)
  {
    DecimalExact(n);
    StripDigits(Decimal(n));
  }

  /** A frame reads back, and leaves what follows it unread, if and only if its payload has
      1 to `FRAME_LIMIT` bytes; otherwise its payload is left to be read as the next header. */
  lemma FrameRoundTrip(payload: seq<byte>, rest: seq<byte>)
    ensures ReadFrame(Frame(payload) + rest) ==
              if 1 <= |payload| <= FRAME_LIMIT then (Some(payload), rest) else (None, payload + rest)
  {
    var ds := Decimal(|payload|);
    var s := Frame(payload) + rest;
    DecimalExact(|payload|);
    assert s == ds + [NEWLINE] + (payload + rest);
    LineOfDigits(ds, payload + rest);
    ParseHeader(|payload|);
    assert s[..|ds| + 1] == ds + [NEWLINE] && s[|ds| + 1..] == payload + rest;
    hide ParseInt, Decimal, LineLength;
    assert (payload + rest)[..|payload|] == payload && (payload + rest)[|payload|..] == rest;
  }

  /** Every strict prefix of a frame reads as nothing, wherever the stream was cut. */
  lemma PrefixReadsNone(payload: seq<byte>, k: nat)
    requires 1 <= |payload| && k < |Frame(payload)|
    ensures ReadFrame(Frame(payload)[..k]).0 == None
  {
    var ds := Decimal(|payload|);
    var s := Frame(payload)[..k];
    DecimalExact(|payload|);
    if k == 0 {
      assert s == [];
    } else if k <= |ds| {
      assert s == ds[..k];
      LineOfDigits(ds[..k], []);
      ParsePrefix(ds, k);
      StripDigits(ds[..k]);
      assert s[..k] == s;
    } else {
      var rest := payload[..k - |ds| - 1];
      assert s == ds + [NEWLINE] + rest;
      LineOfDigits(ds, rest);
      ParseHeader(|payload|);
      assert s[..|ds| + 1] == ds + [NEWLINE] && s[|ds| + 1..] == rest;
    }
  }

  function Concat(payloads: seq<seq<byte>>): seq<byte> {
    if payloads == [] then [] else Frame(payloads[0]) + Concat(payloads[1..])
  }

  /** The results of `n` reads in a row. */
  function ReadMany(s: seq<byte>, n: nat): seq<Option<seq<byte>>>
    decreases n
  {
    if n == 0 then [] else var (r, rest) := ReadFrame(s); [r] + ReadMany(rest, n - 1)
  }

  function Somes(payloads: seq<seq<byte>>): seq<Option<seq<byte>>> {
    if payloads == [] then [] else [Some(payloads[0])] + Somes(payloads[1..])
  }

  /** A stream of frames reads as their payloads, in order, and then as nothing. */
  lemma {:induction false} StreamRoundTrip(payloads: seq<seq<byte>>)
    requires forall i :: 0 <= i < |payloads| ==> 1 <= |payloads[i]| <= FRAME_LIMIT
    ensures ReadMany(Concat(payloads), |payloads| + 1) == Somes(payloads) + [None]
  {
    if payloads == [] {
      assert ReadMany([], 1) == [None] + ReadMany([], 0);
    } else {
      FrameRoundTrip(payloads[0], Concat(payloads[1..]));
      StreamRoundTrip(payloads[1..]);
    }
  }

  // ---- The one-shot reader ------------------------------------------------------------------

  /** Python's `s[from:to]` for a nonnegative `from`. */
  function Slice(s: seq<byte>, from: nat, to: int): seq<byte> {
    var end := if to >= |s| then |s| else if to >= 0 then to else if to + |s| >= 0 then to + |s| else 0;
    if from <= end then s[from..end] else []
  }

  /** The bytes `_parse_response` hands to the JSON decoder; `None` where it gives up before. */
  function ParseResponse(s: seq<byte>): Option<seq<byte>> {
    var n := LineLength(s);
    if n == 0 || s[n - 1] != NEWLINE then None
    else match ParseInt(s[..n - 1])
      case None => None
      case Some(length) => Some(Slice(s, n, n + length))
  }

  lemma SliceToEnd(s: seq<byte>, head: seq<byte>, tail: seq<byte>, length: nat)
    requires s == head + tail
    ensures Slice(s, |head|, |head| + length) == tail[..if length <= |tail| then length else |tail|]
  {
    var k := if length <= |tail| then length else |tail|;
    assert s[|head|..|head| + k] == tail[..k];
  }

  /** The bytes the one-shot reader passes on after a header announcing `n` bytes. */
  lemma ResponseOf(n: nat, tail: seq<byte>)
    ensures ParseResponse(Decimal(n) + [NEWLINE] + tail) == Some(tail[..if n <= |tail| then n else |tail|])
  {
    hide ParseInt, Decimal, LineLength, Slice, AllDigits, ParseDigits;
    var ds := Decimal(n);
    var s := ds + [NEWLINE] + tail;
    DecimalExact(n);
    LineOfDigits(ds, tail);
    ParseBare(n);
    SliceToEnd(s, ds + [NEWLINE], tail, n);
    assert s[..|ds|] == ds && s[|ds|] == NEWLINE;
  }

  lemma ParseBare(n: nat)
    ensures ParseInt(Decimal(n)) == Some(n)
  {
    DecimalExact(n);
    StripDigits(Decimal(n));
  }

  /** On a whole frame of legal size the two readers agree. */
  lemma ReadersAgree(payload: seq<byte>, rest: seq<byte>)
    requires 1 <= |payload| <= FRAME_LIMIT
    ensures ParseResponse(Frame(payload) + rest) == ReadFrame(Frame(payload) + rest).0 == Some(payload)
  {
    hide ParseInt, Decimal, LineLength, ReadFrame, ParseResponse;
    FrameRoundTrip(payload, rest);
    ResponseOf(|payload|, payload + rest);
    assert (payload + rest)[..|payload|] == payload;
    assert Frame(payload) + rest == Decimal(|payload|) + [NEWLINE] + (payload + rest);
  }

  /** Cut inside the payload, the one-shot reader passes on the part it has, where
      `read_message` reports nothing. */
  lemma ReadersDisagree(payload: seq<byte>, k: nat)
    requires k < |payload|
    ensures var cut := Frame(payload)[..|Decimal(|payload|)| + 1 + k];
            ParseResponse(cut) == Some(payload[..k]) && ReadFrame(cut).0 == None
  {
    hide ParseInt, Decimal, LineLength, ReadFrame, ParseResponse;
    var h := |Decimal(|payload|)| + 1;
    PrefixReadsNone(payload, h + k);
    assert Frame(payload)[..h + k] == Decimal(|payload|) + [NEWLINE] + payload[..k];
    ResponseOf(|payload|, payload[..k]);
    assert payload[..k][..k] == payload[..k];
  }

  /** A newline at the end of a header makes no difference to its number. */
  lemma {:induction false} StripNewline(s: seq<byte>)
    ensures Strip(s + [NEWLINE]) == Strip(s)
  {
    var t := s + [NEWLINE];
    if s == [] {
      assert t[1..] == [];
    } else if IsSpace(s[0]) {
      StripNewline(s[1..]);
      assert t[1..] == s[1..] + [NEWLINE];
    } else {
      assert t[0] == s[0] && t[|t| - 1] == NEWLINE && t[..|t| - 1] == s;
    }
  }

  /** The header in front of the first newline, if there is one. */
  function Header(s: seq<byte>): Option<seq<byte>> {
    var n := LineLength(s);
    if n == 0 || s[n - 1] != NEWLINE then None else Some(s[..n - 1])
  }

  /** Both readers take the same header apart. */
  lemma HeaderParses(s: seq<byte>)
    requires Header(s).Some?
    ensures LineLength(s) > 0 && ParseInt(s[..LineLength(s)]) == ParseInt(Header(s).value)
  {
    var n := LineLength(s);
    StripNewline(s[..n - 1]);
    assert s[..n] == s[..n - 1] + [NEWLINE];
    hide ParseDigits, LineLength, Strip;
  }

  /** Without a newline the header is all there is. */
  lemma {:induction false} NoNewline(s: seq<byte>)
    ensures Header(s).None? ==> LineLength(s) == |s|
  {
    if s != [] && s[0] != NEWLINE {
      NoNewline(s[1..]);
    }
  }

  /** Where the header announces a length, with what is left after it. */
  predicate Announces(s: seq<byte>) {
    Header(s).Some? && ParseInt(Header(s).value).Some?
  }

  function Announced(s: seq<byte>): int
    requires Announces(s)
  {
    ParseInt(Header(s).value).value
  }

  /** What the two readers make of a string whose header announces nothing. */
  lemma NothingAnnounced(s: seq<byte>)
    requires !Announces(s)
    ensures ParseResponse(s) == None && ReadFrame(s).0 == None
  {
    hide ParseInt, LineLength;
    NoNewline(s);
    if Header(s).Some? {
      HeaderParses(s);
    } else if s != [] {
      HeaderlessNumber(s);
    }
  }

  /** Without a newline nothing follows the header, so not even one byte of a payload. */
  lemma HeaderlessNumber(s: seq<byte>)
    requires Header(s).None? && s != [] && LineLength(s) == |s|
    ensures ReadFrame(s).0 == None
  {
    hide ParseInt, LineLength;
    assert s[|s|..] == [];
  }

  /** And what they make of one that announces a length. */
  lemma LengthAnnounced(s: seq<byte>)
    requires Announces(s)
    ensures LineLength(s) <= |s|
    ensures var n, length := LineLength(s), Announced(s);
            && ParseResponse(s) == Some(Slice(s, n, n + length))
            && ReadFrame(s).0 == if 1 <= length <= FRAME_LIMIT && length <= |s| - n then Some(s[n..][..length])
                                 else None
  {
    hide ParseInt, LineLength, Slice;
    HeaderParses(s);
  }

  /** The two readers agree on a byte string if and only if its header announces nothing, or
      announces a legal length and that many bytes follow. */
  lemma ReadersAgreeIff(s: seq<byte>)
    ensures ParseResponse(s) == ReadFrame(s).0 <==>
              || !Announces(s)
              || (1 <= Announced(s) <= FRAME_LIMIT && Announced(s) <= |s| - LineLength(s))
  {
    hide ParseResponse, ReadFrame, LineLength, Announces, Announced, Slice;
    if Announces(s) {
      LengthAnnounced(s);
      var n := LineLength(s);
      if 1 <= Announced(s) <= |s| - n {
        assert s == s[..n] + s[n..];
        SliceToEnd(s, s[..n], s[n..], Announced(s));
      }
    } else {
      NothingAnnounced(s);
    }
  }

  // ---- The stream -----------------------------------------------------------------------------

  class ByteStream {
    var unread: seq<byte>

    constructor ()
      ensures unread == []
    {
      unread := [];
    }

    method Write(data: seq<byte>)
      modifies this
      ensures unread == old(unread) + data
    {
      unread := unread + data;
    }

    method ReadLine() returns (line: seq<byte>)
      modifies this
      ensures line == old(unread)[..LineLength(old(unread))] && unread == old(unread)[|line|..]
    {
      var n := LineLength(unread);
      line, unread := unread[..n], unread[n..];
    }

    method Read(n: nat) returns (data: seq<byte>)
      modifies this
      ensures data == old(unread)[..if n <= |old(unread)| then n else |old(unread)|]
      ensures unread == old(unread)[|data|..]
    {
      var k := if n <= |unread| then n else |unread|;
      data, unread := unread[..k], unread[k..];
    }
  }

  method WriteMessage(stream: ByteStream, payload: seq<byte>)
    modifies stream
    ensures stream.unread == old(stream.unread) + Frame(payload)
  {
    stream.Write(Decimal(|payload|) + [NEWLINE]);
    stream.Write(payload);
  }

  method ReadMessage(stream: ByteStream) returns (message: Option<seq<byte>>)
    modifies stream
    ensures (message, stream.unread) == ReadFrame(old(stream.unread))
  {
    hide ParseInt;
    var header := stream.ReadLine();
    if header == [] {
      return None;
    }
    var length := ParseInt(header);
    if length == None || length.value <= 0 || length.value > FRAME_LIMIT {
      return None;
    }
    var payload := stream.Read(length.value);
    if |payload| != length.value {
      return None;
    }
    return Some(payload);
  }
}
