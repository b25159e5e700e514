/**
 Survey session IDs: "survey_", the magic key with '-' written as '_', the time of issue and a UUID,
 joined by '_'. The ID is the only record of the session, so validating it means decoding it.
 */
module SurveyId {
  import opened Bytes

  const PREFIX := "survey"

  datatype MagicKeyConfig = MagicKeyConfig(enabled: bool, magicKeys: seq<string>, surveyTimeoutSeconds: nat)

  /** The parts between separators; there is always at least one. */
  function Split(s: string, sep: char): (parts: seq<string>)
    ensures parts != []
  {
    if s == "" then [""] else Prepend(s[0], Split(s[1..], sep), sep)
  }

  /** One more character in front: a separator opens a new part, any other joins the first. */
  function Prepend(c: char, parts: seq<string>, sep: char): (r: seq<string>)
    requires parts != []
    ensures r != []
  {
    if c == sep then [""] + parts else [[c] + parts[0]] + parts[1..]
  }

  function Join(parts: seq<string>, sep: char): string {
    if parts == [] then "" else if |parts| == 1 then parts[0] else parts[0] + [sep] + Join(parts[1..], sep)
  }

  function Replace(s: string, from: char, to: char): string {
    seq(|s|, i requires 0 <= i < |s| => if s[i] == from then to else s[i])
  }

  predicate IsDigit(c: char) {
    '0' <= c <= '9'
  }

  function Digit(n: nat): char
    requires n < 10
  {
    "0123456789"[n]
  }

  function Value(c: char): nat
    requires IsDigit(c)
  {
    c as int - '0' as int
  }

  function Decimal(n: nat): (s: string)
    ensures s != "" && forall i | 0 <= i < |s| :: IsDigit(s[i])
  {
    if n < 10 then [Digit(n)] else Decimal(n / 10) + [Digit(n % 10)]
  }

  function Number(s: string): nat
    requires forall i | 0 <= i < |s| :: IsDigit(s[i])
  {
    if s == "" then 0 else 10 * Number(s[..|s| - 1]) + Value(s[|s| - 1])
  }

  /** Parsing of an unsigned 64-bit integer: an optional plus sign, then digits. */
  function ParseU64(s: string): Option<nat> {
    var digits := if s != "" && s[0] == '+' then s[1..] else s;
    if digits == "" || exists i | 0 <= i < |digits| :: !IsDigit(digits[i]) then None
    else if Number(digits) < U64_RANGE then Some(Number(digits)) else None
  }

  // ---------------------------------------------------------------------------------------
  // Issuing, validating, decoding
  // ---------------------------------------------------------------------------------------

  function Encode(key: string, timestamp: nat, uuid: string): string {
    PREFIX + "_" + Replace(key, '-', '_') + "_" + Decimal(timestamp) + "_" + uuid
  }

  /** A session is issued for a configured key only. */
  function Issue(config: MagicKeyConfig, key: string, timestamp: nat, uuid: string): Option<string> {
    if !config.enabled || config.magicKeys == [] || key !in config.magicKeys then None
    else Some(Encode(key, timestamp, uuid))
  }

  predicate StartsWithSurvey(id: string) {
    |id| >= 7 && id[..7] == PREFIX + "_"
  }

  /** Both copies of the validator. */
  predicate Validate(id: string, config: MagicKeyConfig, now: nat) {
    StartsWithSurvey(id) &&
    var parts := Split(id, '_');
    |parts| >= 4 &&
    var timestamp := ParseU64(parts[|parts| - 2]);
    timestamp.Some? &&
    (if now < timestamp.value then 0 else now - timestamp.value) <= config.surveyTimeoutSeconds &&
    Join(parts[1..|parts| - 2], '-') in config.magicKeys
  }

  /** The decoder in the authentication handlers, which does not look at the timestamp. */
  function ExtractLenient(id: string): Option<string> {
    if !StartsWithSurvey(id) then None else
    var parts := Split(id, '_');
    if |parts| < 4 then None else
    var keyParts := parts[1..|parts| - 2];
    if keyParts == [] then None else Some(Join(keyParts, '-'))
  }

  /** The decoder behind the control channel, which wants a numeric timestamp. */
  function ExtractStrict(id: string): Option<string> {
    if !StartsWithSurvey(id) then None else
    var parts := Split(id, '_');
    if |parts| < 4 then None
    else if ParseU64(parts[|parts| - 2]).None? then None
    else
      var keyParts := parts[1..|parts| - 2];
      if keyParts == [] then None else Some(Join(keyParts, '-'))
  }

  // ---------------------------------------------------------------------------------------
  // Splitting and joining
  // ---------------------------------------------------------------------------------------

  lemma PrependConcat(c: char, a: seq<string>, b: seq<string>, sep: char)
    requires a != []
    ensures Prepend(c, a + b, sep) == Prepend(c, a, sep) + b
  {
    assert (a + b)[1..] == a[1..] + b;
  }

  lemma SplitStep(c: char, s: string, sep: char)
    ensures Split([c] + s, sep) == Prepend(c, Split(s, sep), sep)
  {
    assert ([c] + s)[1..] == s;
  }

  lemma {:induction false} SplitConcat(a: string, b: string, sep: char)
    ensures Split(a + [sep] + b, sep) == Split(a, sep) + Split(b, sep)
  {
    if a == "" {
      assert a + [sep] + b == [sep] + b;
      SplitStep(sep, b, sep);
    } else {
      var c, rest := a[0], a[1..];
      calc {
        Split(a + [sep] + b, sep);
        { assert a + [sep] + b == [c] + (rest + [sep] + b); }
        Split([c] + (rest + [sep] + b), sep);
        { SplitStep(c, rest + [sep] + b, sep); }
        Prepend(c, Split(rest + [sep] + b, sep), sep);
        { SplitConcat(rest, b, sep); }
        Prepend(c, Split(rest, sep) + Split(b, sep), sep);
        { PrependConcat(c, Split(rest, sep), Split(b, sep), sep); }
        Prepend(c, Split(rest, sep), sep) + Split(b, sep);
      }
    }
  }

  lemma {:induction false} SplitWhole(s: string, sep: char)
    requires sep !in s
    ensures Split(s, sep) == [s]
  {
    if s != "" {
      SplitWhole(s[1..], sep);
      assert [s[0]] + s[1..] == s;
    }
  }

  /** Splitting at one separator and joining with another replaces it. */
  lemma {:induction false} JoinSplitReplaces(s: string, sep: char, other: char)
    ensures Join(Split(s, sep), other) == Replace(s, sep, other)
  {
    if s != "" {
      var rest := Split(s[1..], sep);
      JoinSplitReplaces(s[1..], sep, other);
      assert Replace(s, sep, other) == [if s[0] == sep then other else s[0]] + Replace(s[1..], sep, other);
      JoinPrepended(s[0], rest, sep, other);
    }
  }

  lemma JoinPrepended(c: char, parts: seq<string>, sep: char, other: char)
    requires parts != []
    ensures Join(Prepend(c, parts, sep), other) == [if c == sep then other else c] + Join(parts, other)
  {
    var grown := Prepend(c, parts, sep);
    if c == sep {
      assert grown[1..] == parts;
      assert "" + [other] + Join(parts, other) == [other] + Join(parts, other);
    } else {
      assert grown[1..] == parts[1..];
    }
  }

  // ---------------------------------------------------------------------------------------
  // Numbers
  // ---------------------------------------------------------------------------------------

  lemma {:induction false} NumberOfDecimal(n: nat)
    ensures Number(Decimal(n)) == n
  {
    var s := Decimal(n);
    if n < 10 {
      assert s[..|s| - 1] == "";
      assert Value(Digit(n)) == n;
    } else {
      NumberOfDecimal(n / 10);
      assert s[..|s| - 1] == Decimal(n / 10);
      assert Value(Digit(n % 10)) == n % 10;
    }
  }

  /** A printed number is parsed back, with or without a plus sign, exactly if it fits 64 bits. */
  lemma ParsesDecimal(n: nat)
    ensures ParseU64(Decimal(n)) == ParseU64("+" + Decimal(n)) == if n < 0x1_0000_0000_0000_0000 then Some(n) else None
  {
    NumberOfDecimal(n);
    assert IsDigit(Decimal(n)[0]);
    assert ("+" + Decimal(n))[1..] == Decimal(n);
  }

  // ---------------------------------------------------------------------------------------
  // The codec
  // ---------------------------------------------------------------------------------------

  /** An issued ID falls into the prefix, the parts of the key, the timestamp and the UUID. */
  lemma IssuedParts(key: string, timestamp: nat, uuid: string)
    requires '_' !in uuid
    ensures StartsWithSurvey(Encode(key, timestamp, uuid))
    ensures Split(Encode(key, timestamp, uuid), '_')
         == [PREFIX] + Split(Replace(key, '-', '_'), '_') + [Decimal(timestamp)] + [uuid]
  {
    var k, t := Replace(key, '-', '_'), Decimal(timestamp);
    var id := Encode(key, timestamp, uuid);
    assert id == (PREFIX + ['_'] + k + ['_'] + t) + ['_'] + uuid;
    SplitConcat(PREFIX + ['_'] + k + ['_'] + t, uuid, '_');
    SplitConcat(PREFIX + ['_'] + k, t, '_');
    SplitConcat(PREFIX, k, '_');
    SplitWhole(PREFIX, '_');
    SplitWhole(uuid, '_');
    assert '_' !in t by {
      assert forall i | 0 <= i < |t| :: IsDigit(t[i]);
    }
    SplitWhole(t, '_');
    assert id[..7] == PREFIX + "_";
  }

  lemma IssuedKeyParts(key: string, timestamp: nat, uuid: string)
    requires '_' !in uuid
    ensures var parts := Split(Encode(key, timestamp, uuid), '_');
            && |parts| >= 4
            && parts[|parts| - 2] == Decimal(timestamp)
            && Join(parts[1..|parts| - 2], '-') == Replace(key, '_', '-')
  {
    IssuedParts(key, timestamp, uuid);
    var inner := Split(Replace(key, '-', '_'), '_');
    var parts := Split(Encode(key, timestamp, uuid), '_');
    assert parts[1..|parts| - 2] == inner;
    JoinSplitReplaces(Replace(key, '-', '_'), '_', '-');
    assert Replace(Replace(key, '-', '_'), '_', '-') == Replace(key, '_', '-');
  }

  /** Both decoders turn an issued ID into the key with '_' read as '-': the key itself exactly if it has no '_'. */
  lemma DecodesIssued(key: string, timestamp: nat, uuid: string)
    requires '_' !in uuid && timestamp < U64_RANGE
    ensures var id := Encode(key, timestamp, uuid);
            && ExtractLenient(id) == ExtractStrict(id) == Some(Replace(key, '_', '-'))
            && (ExtractStrict(id) == Some(key) <==> '_' !in key)
  {
    IssuedParts(key, timestamp, uuid);
    IssuedKeyParts(key, timestamp, uuid);
    ParsesDecimal(timestamp);
    if '_' in key {
      var i :| 0 <= i < |key| && key[i] == '_';
      assert Replace(key, '_', '-')[i] == '-';
    } else {
      assert Replace(key, '_', '-') == key;
    }
  }

  /** An issued ID is valid until it times out, exactly if its decoded key is configured. */
  lemma ValidatesIssued(config: MagicKeyConfig, key: string, timestamp: nat, uuid: string, now: nat)
    requires '_' !in uuid && timestamp < U64_RANGE
    ensures Validate(Encode(key, timestamp, uuid), config, now)
       <==> now <= timestamp + config.surveyTimeoutSeconds && Replace(key, '_', '-') in config.magicKeys
  {
    IssuedParts(key, timestamp, uuid);
    IssuedKeyParts(key, timestamp, uuid);
    ParsesDecimal(timestamp);
  }

  /** A session is issued exactly for a configured key, as long as magic keys are enabled. */
  lemma IssuedExactly(config: MagicKeyConfig, key: string, timestamp: nat, uuid: string)
    ensures Issue(config, key, timestamp, uuid).Some? <==> config.enabled && key in config.magicKeys
    ensures var id := Issue(config, key, timestamp, uuid);
            id.Some? ==> id.value == "survey_" + Replace(key, '-', '_') + "_" + Decimal(timestamp) + "_" + uuid
  {
  }

  /**
   A login is not always good for a session: a session is issued for any configured key, but it is
   only ever valid if the key read with '-' for '_' is configured too.
   */
  lemma IssuedSessionUsable(config: MagicKeyConfig, key: string, timestamp: nat, uuid: string)
    requires '_' !in uuid && timestamp < U64_RANGE && Issue(config, key, timestamp, uuid).Some?
    ensures var id := Issue(config, key, timestamp, uuid).value;
            (exists now :: Validate(id, config, now)) <==> '_' !in key || Replace(key, '_', '-') in config.magicKeys
  {
    var id := Issue(config, key, timestamp, uuid).value;
    forall now: nat
      ensures Validate(id, config, now)
         <==> now <= timestamp + config.surveyTimeoutSeconds && Replace(key, '_', '-') in config.magicKeys
    {
      ValidatesIssued(config, key, timestamp, uuid, now);
    }
    ValidatesIssued(config, key, timestamp, uuid, timestamp);
    DecodesIssued(key, timestamp, uuid);
  }

  /** With "a_b" as the only key, a session is issued for it and is never valid. */
  lemma SessionNeverValid(config: MagicKeyConfig, timestamp: nat, uuid: string, now: nat)
    requires config.enabled && config.magicKeys == ["a_b"] && '_' !in uuid && timestamp < U64_RANGE
    ensures Issue(config, "a_b", timestamp, uuid).Some?
    ensures !Validate(Issue(config, "a_b", timestamp, uuid).value, config, now)
  {
    ValidatesIssued(config, "a_b", timestamp, uuid, now);
    assert "a_b"[1] == '_';
  }

  /** On whatever the validator accepts, both decoders agree, and on a configured key. */
  lemma DecodersAgreeOnValid(id: string, config: MagicKeyConfig, now: nat)
    requires Validate(id, config, now)
    ensures ExtractLenient(id) == ExtractStrict(id)
    ensures ExtractStrict(id).Some? && ExtractStrict(id).value in config.magicKeys
  {
    var parts := Split(id, '_');
    assert |parts[1..|parts| - 2]| >= 1;
  }
}
