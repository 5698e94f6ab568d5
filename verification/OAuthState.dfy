/**
 The stateless CSRF state of the OAuth login (section 10.12 of RFC 6749): "<expiry>:<nonce>.<signature>",
 printed by one replica and parsed by any other with the same client secret.
 */
module OAuthState {
  import opened Prelude

  const SECOND := 1_000_000_000
  const STATE_TTL_SECONDS := 600
  const MIN_INT64 := -0x8000_0000_0000_0000
  const MAX_INT64 := 0x7FFF_FFFF_FFFF_FFFF

  datatype StateError = NoDot | BadSignature | NoColon | BadExpiry | StateExpired

  // ---- Strings -------------------------------------------------------------

  /** What is before and after the first separator. */
  function Cut(s: string, separator: char): Option<(string, string)> {
    if s == "" then None
    else if s[0] == separator then Some(("", s[1..]))
    else match Cut(s[1..], separator)
      case None => None
      case Some((before, after)) => Some(([s[0]] + before, after))
  }

  lemma {:induction false} CutSound(s: string, separator: char)
    ensures match Cut(s, separator)
      case None => separator !in s
      case Some((before, after)) => s == before + [separator] + after && separator !in before
  {
    if s != "" {
      CutSound(s[1..], separator);
      assert s == [s[0]] + s[1..];
    }
  }

  lemma {:induction false} CutComplete(before: string, separator: char, after: string)
    requires separator !in before
    ensures Cut(before + [separator] + after, separator) == Some((before, after))
  {
    var s := before + [separator] + after;
    if before == "" {
      assert s[1..] == after;
    } else {
      CutComplete(before[1..], separator, after);
      assert s[1..] == before[1..] + [separator] + after;
      assert before == [before[0]] + before[1..];
    }
  }

  predicate IsDigit(c: char) {
    '0' <= c <= '9'
  }

  function Decimal(n: nat): string {
    var last := [('0' as int + n % 10) as char];
    if n < 10 then last else Decimal(n / 10) + last
  }

  function FormatInt(n: int): string {
    if n < 0 then "-" + Decimal(-n) else Decimal(n)
  }

  function ParseDigits(s: string): Option<nat> {
    if s == "" || !IsDigit(s[|s| - 1]) then None
    else
      var digit := s[|s| - 1] as int - '0' as int;
      if |s| == 1 then Some(digit)
      else match ParseDigits(s[..|s| - 1])
        case None => None
        case Some(front) => Some(front * 10 + digit)
  }

  /** An optional sign and decimal digits within 64 bits. */
  function ParseInt64(s: string): Option<int> {
    var signed := s != "" && (s[0] == '+' || s[0] == '-');
    match ParseDigits(if signed then s[1..] else s)
    case None => None
    case Some(n) =>
      var value: int := if signed && s[0] == '-' then 0 - (n as int) else n;
      if MIN_INT64 <= value <= MAX_INT64 then Some(value) else None
  }

  lemma {:induction false} DecimalParses(n: nat)
    ensures ParseDigits(Decimal(n)) == Some(n)
    ensures forall c | c in Decimal(n) :: IsDigit(c)
  {
    if n >= 10 {
      DecimalParses(n / 10);
      var s := Decimal(n);
      assert s[..|s| - 1] == Decimal(n / 10);
    }
  }

  lemma FormatParses(n: int)
    requires MIN_INT64 <= n <= MAX_INT64
    ensures ParseInt64(FormatInt(n)) == Some(n)
    ensures forall c | c in FormatInt(n) :: c == '-' || IsDigit(c)
  {
    if n < 0 {
      NegativeParses(-n);
    } else {
      PositiveParses(n);
    }
  }

  predicate Zeros(s: string) {
    forall i | 0 <= i < |s| :: s[i] == '0'
  }

  lemma DecimalNext(front: nat, digit: nat)
    requires digit < 10
    ensures Decimal(digit) == [('0' as int + digit) as char]
    ensures front > 0 ==> Decimal(front * 10 + digit) == Decimal(front) + [('0' as int + digit) as char]
  {
    assert (front * 10 + digit) / 10 == front && (front * 10 + digit) % 10 == digit;
  }

  lemma ParseAppend(front: string, digit: nat)
    requires digit < 10
    ensures var s := front + [('0' as int + digit) as char];
      ParseDigits(s) == if front == "" then Some(digit)
                        else if ParseDigits(front).None? then None else Some(ParseDigits(front).value * 10 + digit)
  {
    var s := front + [('0' as int + digit) as char];
    assert s[..|s| - 1] == front;
  }

  lemma {:induction false} PaddedParses(zeros: string, m: nat)
    requires Zeros(zeros)
    ensures ParseDigits(zeros + Decimal(m)) == Some(m)
  {
    hide Decimal, ParseDigits;
    DecimalNext(m / 10, m % 10);
    var last := ('0' as int + m % 10) as char;
    if m >= 10 {
      PaddedParses(zeros, m / 10);
      assert zeros + Decimal(m) == zeros + Decimal(m / 10) + [last];
      ParseAppend(zeros + Decimal(m / 10), m % 10);
      NotEmptyDecimal(m / 10);
    } else {
      ParseAppend(zeros, m);
      if zeros != "" {
        PaddedParses(zeros[..|zeros| - 1], 0);
        DecimalNext(0, 0);
        assert zeros == zeros[..|zeros| - 1] + "0";
      }
    }
  }

  lemma NotEmptyDecimal(m: nat)
    ensures Decimal(m) != ""
  {
  }

  lemma ParseNext(s: string)
    requires ParseDigits(s).Some?
    ensures var digit := s[|s| - 1] as int - '0' as int;
      && s != "" && 0 <= digit < 10 && s[|s| - 1] == ('0' as int + digit) as char
      && (|s| == 1 ==> ParseDigits(s) == Some(digit))
      && (|s| > 1 ==> ParseDigits(s[..|s| - 1]).Some? && ParseDigits(s).value == ParseDigits(s[..|s| - 1]).value * 10 + digit)
  {
  }

  /** What parses as a number of digits is its decimal form, padded with zeros. */
  lemma {:induction false} DigitsExactly(s: string) returns (zeros: string)
    requires ParseDigits(s).Some?
    ensures Zeros(zeros) && s == zeros + Decimal(ParseDigits(s).value)
  {
    hide Decimal, ParseDigits;
    ParseNext(s);
    var front, last, digit := s[..|s| - 1], s[|s| - 1], s[|s| - 1] as int - '0' as int;
    assert s == front + [last];
    zeros := "";
    if |s| == 1 {
      DecimalNext(0, digit);
    } else {
      zeros := DigitsExactly(front);
      DecimalNext(ParseDigits(front).value, digit);
      if ParseDigits(front).value == 0 {
        DecimalNext(0, 0);
        zeros := front;
      }
    }
  }

  /** The decimal form of the value, padded with zeros, after a sign: a number below zero, and only such or zero, after '-'. */
  ghost predicate Spells(s: string, n: int) {
    exists sign, zeros, m: nat :: IsSpelling(s, sign, zeros, m, n)
  }

  predicate IsSpelling(s: string, sign: string, zeros: string, m: nat, n: int) {
    s == sign + zeros + Decimal(m) && sign in {"", "+", "-"} && Zeros(zeros) && n == if sign == "-" then 0 - (m as int) else m
  }

  lemma SpellingParses(sign: string, zeros: string, m: nat, n: int)
    requires sign in {"", "+", "-"} && Zeros(zeros) && n == (if sign == "-" then 0 - (m as int) else m)
    ensures ParseInt64(sign + (zeros + Decimal(m))) == if MIN_INT64 <= n <= MAX_INT64 then Some(n) else None
  {
    hide Decimal, ParseDigits;
    var digits := zeros + Decimal(m);
    PaddedParses(zeros, m);
    FirstIsDigit(zeros, m);
    var s := sign + digits;
    if sign == "" {
      assert s == digits;
    } else {
      assert s[0] == sign[0] && s[1..] == digits;
    }
  }

  lemma Regroup(a: string, b: string, c: string)
    ensures a + (b + c) == a + b + c
  {
  }

  lemma ParsedSpells(s: string, n: int)
    requires ParseInt64(s) == Some(n)
    ensures Spells(s, n)
  {
    hide Decimal, ParseDigits, Zeros;
    var signed := s != "" && (s[0] == '+' || s[0] == '-');
    var digits := if signed then s[1..] else s;
    var zeros := DigitsExactly(digits);
    var sign := if signed then [s[0]] else "";
    var m := ParseDigits(digits).value;
    Regroup(sign, zeros, Decimal(m));
    assert s == sign + digits;
    assert IsSpelling(s, sign, zeros, m, n);
  }

  /** A text parses to a number exactly when it spells it and it fits 64 bits. */
  lemma ParseExactly(s: string, n: int)
    ensures ParseInt64(s) == Some(n) <==> MIN_INT64 <= n <= MAX_INT64 && Spells(s, n)
  {
    hide Decimal, ParseDigits;
    if ParseInt64(s) == Some(n) {
      ParsedSpells(s, n);
    }
    if Spells(s, n) {
      var sign, zeros, m: nat :| IsSpelling(s, sign, zeros, m, n);
      SpellingParses(sign, zeros, m, n);
      Regroup(sign, zeros, Decimal(m));
    }
  }

  lemma FirstIsDigit(zeros: string, m: nat)
    requires Zeros(zeros)
    ensures var s := zeros + Decimal(m); s != "" && IsDigit(s[0])
  {
    DecimalParses(m);
    if zeros == "" {
      assert Decimal(m)[0] in Decimal(m);
    }
  }

  lemma NegativeParses(n: nat)
    requires 0 < n <= -MIN_INT64
    ensures ParseInt64("-" + Decimal(n)) == Some(0 - n as int)
    ensures forall c | c in "-" + Decimal(n) :: c == '-' || IsDigit(c)
  {
    DecimalParses(n);
    assert ("-" + Decimal(n))[1..] == Decimal(n);
  }

  lemma PositiveParses(n: nat)
    requires n <= MAX_INT64
    ensures ParseInt64(Decimal(n)) == Some(n)
    ensures forall c | c in Decimal(n) :: IsDigit(c)
  {
    DecimalParses(n);
    assert Decimal(n)[0] in Decimal(n);
  }

  newtype byte = x: int | 0 <= x < 256

  function HexDigit(n: int): char
    requires 0 <= n < 16
  {
    if n < 10 then ('0' as int + n) as char else ('a' as int + n - 10) as char
  }

  function Hex(nonce: seq<byte>): string {
    seq(|nonce| * 2, i requires 0 <= i < |nonce| * 2 =>
      HexDigit(if i % 2 == 0 then nonce[i / 2] as int / 16 else nonce[i / 2] as int % 16))
  }

  // ---- Printing and parsing states -----------------------------------------

  /** mac is the keyed signature of the payload, the same function on every replica with the same secret. */
  function SignState(mac: string -> string, nonce: seq<byte>, now: int): string {
    var expiry := FormatInt((now + STATE_TTL_SECONDS * SECOND) / SECOND);
    var payload := expiry + ":" + Hex(nonce);
    payload + "." + mac(payload)
  }

  function ValidateState(mac: string -> string, state: string, now: int): Option<StateError> {
    match Cut(state, '.')
    case None => Some(NoDot)
    case Some((payload, signature)) =>
      if signature != mac(payload) then Some(BadSignature)
      else match Cut(payload, ':')
        case None => Some(NoColon)
        case Some((expiry, _)) =>
          match ParseInt64(expiry)
          case None => Some(BadExpiry)
          case Some(exp) => if now > exp * SECOND then Some(StateExpired) else None
  }

  /** The state is a signed payload that begins with an expiry that has not passed. */
  ghost predicate WellSigned(mac: string -> string, state: string, payload: string, expiry: string, rest: string, exp: int) {
    && state == payload + "." + mac(payload) && '.' !in payload
    && payload == expiry + ":" + rest && ':' !in expiry
    && ParseInt64(expiry) == Some(exp)
  }

  /** A state is accepted iff it is such a state; there is no other. */
  lemma ValidStatesExact(mac: string -> string, state: string, now: int)
    ensures ValidateState(mac, state, now) == None
      <==> exists payload, expiry, rest, exp :: WellSigned(mac, state, payload, expiry, rest, exp) && now <= exp * SECOND
  {
    if ValidateState(mac, state, now) == None {
      var (payload, signature) := Cut(state, '.').value;
      CutSound(state, '.');
      var (expiry, rest) := Cut(payload, ':').value;
      CutSound(payload, ':');
      assert WellSigned(mac, state, payload, expiry, rest, ParseInt64(expiry).value);
    }
    forall payload, expiry, rest, exp | WellSigned(mac, state, payload, expiry, rest, exp)
      ensures ValidateState(mac, state, now) == if now <= exp * SECOND then None else Some(StateExpired)
    {
      WellSignedVerdict(mac, state, now, payload, expiry, rest, exp);
    }
  }

  lemma WellSignedVerdict(mac: string -> string, state: string, now: int, payload: string, expiry: string, rest: string, exp: int)
    requires WellSigned(mac, state, payload, expiry, rest, exp)
    ensures ValidateState(mac, state, now) == if now <= exp * SECOND then None else Some(StateExpired)
  {
    CutComplete(payload, '.', mac(payload));
    CutComplete(expiry, ':', rest);
  }

  lemma HexIsPlain(nonce: seq<byte>)
    ensures '.' !in Hex(nonce)
  {
  }

  /** A fresh state parses back to its own expiry and is accepted exactly up to it, between 599 and 600 seconds. */
  lemma FreshStateLives(mac: string -> string, nonce: seq<byte>, now: int, later: int)
    requires MIN_INT64 <= (now + STATE_TTL_SECONDS * SECOND) / SECOND <= MAX_INT64
    ensures var exp := (now + STATE_TTL_SECONDS * SECOND) / SECOND;
      && 599 * SECOND < exp * SECOND - now <= 600 * SECOND
      && ValidateState(mac, SignState(mac, nonce, now), later) == if later <= exp * SECOND then None else Some(StateExpired)
  {
    var exp := (now + STATE_TTL_SECONDS * SECOND) / SECOND;
    FormatParses(exp);
    HexIsPlain(nonce);
    var expiry := FormatInt(exp);
    assert '.' !in expiry && ':' !in expiry;
    var payload := expiry + ":" + Hex(nonce);
    WellSignedVerdict(mac, SignState(mac, nonce, now), later, payload, expiry, Hex(nonce), exp);
  }

  lemma HexDigitsDiffer(a: int, b: int)
    requires 0 <= a < 16 && 0 <= b < 16
    ensures HexDigit(a) == HexDigit(b) <==> a == b
  {
  }

  /** Two bytes per character pair: the text gives the nonce back. */
  lemma HexIsInjective(a: seq<byte>, b: seq<byte>)
    ensures Hex(a) == Hex(b) <==> a == b
  {
    if Hex(a) == Hex(b) {
      assert |Hex(a)| == |a| * 2 && |Hex(b)| == |b| * 2;
      forall i | 0 <= i < |a|
        ensures a[i] == b[i]
      {
        assert Hex(a)[2 * i] == Hex(b)[2 * i] && Hex(a)[2 * i + 1] == Hex(b)[2 * i + 1];
        HexDigitsDiffer(a[i] as int / 16, b[i] as int / 16);
        HexDigitsDiffer(a[i] as int % 16, b[i] as int % 16);
      }
      assert a == b;
    }
  }

  /** Whenever they are signed, states of different nonces differ. */
  lemma NoncesTellApart(mac: string -> string, a: seq<byte>, b: seq<byte>, now: int, later: int)
    requires MIN_INT64 <= (now + STATE_TTL_SECONDS * SECOND) / SECOND <= MAX_INT64
    requires MIN_INT64 <= (later + STATE_TTL_SECONDS * SECOND) / SECOND <= MAX_INT64
    requires SignState(mac, a, now) == SignState(mac, b, later)
    ensures a == b && (now + STATE_TTL_SECONDS * SECOND) / SECOND == (later + STATE_TTL_SECONDS * SECOND) / SECOND
  {
    StateParts(mac, a, now);
    StateParts(mac, b, later);
    HexIsInjective(a, b);
  }

  /** What a state is cut into. */
  lemma StateParts(mac: string -> string, nonce: seq<byte>, now: int)
    requires MIN_INT64 <= (now + STATE_TTL_SECONDS * SECOND) / SECOND <= MAX_INT64
    ensures var exp := (now + STATE_TTL_SECONDS * SECOND) / SECOND;
      var payload := FormatInt(exp) + ":" + Hex(nonce);
      && Cut(SignState(mac, nonce, now), '.') == Some((payload, mac(payload)))
      && Cut(payload, ':') == Some((FormatInt(exp), Hex(nonce)))
      && ParseInt64(FormatInt(exp)) == Some(exp)
  {
    var exp := (now + STATE_TTL_SECONDS * SECOND) / SECOND;
    FormatParses(exp);
    HexIsPlain(nonce);
    var expiry := FormatInt(exp);
    assert '.' !in expiry && ':' !in expiry;
    var payload := expiry + ":" + Hex(nonce);
    CutComplete(payload, '.', mac(payload));
    CutComplete(expiry, ':', Hex(nonce));
  }
}
