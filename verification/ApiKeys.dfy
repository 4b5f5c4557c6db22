/** The text form of API keys: `generate_api_key`, `parse_api_key` and `mask_api_key`. */
module ApiKeys {
  import opened Prelude

  datatype ApiKeyParts = ApiKeyParts(calleeId: string, keyId: string, secret: string)

  datatype ApiKeyError = EmptySegment | BadSegment | BadFormat | BadPrefix

  const API_KEY_PREFIX := "rpcp"
  const API_KEY_KIND := "ck"
  const INVALID_MASK := "<invalid-api-key>"

  predicate SegmentChar(c: char) {
    'A' <= c <= 'Z' || 'a' <= c <= 'z' || '0' <= c <= '9' || c == '.' || c == '-'
  }

  predicate Segment(s: string) {
    s != "" && forall i | 0 <= i < |s| :: SegmentChar(s[i])
  }

  /** `_validate_segment` */
  function ValidateSegment(value: string): Result<(), ApiKeyError> {
    if value == "" then Failure(EmptySegment) else if !Segment(value) then Failure(BadSegment) else Success(())
  }

  function Validate(p: ApiKeyParts): Result<ApiKeyParts, ApiKeyError> {
    match ValidateSegment(p.calleeId)
    case Failure(e) => Failure(e)
    case Success(_) =>
      match ValidateSegment(p.keyId)
      case Failure(e) => Failure(e)
      case Success(_) =>
        match ValidateSegment(p.secret)
        case Failure(e) => Failure(e)
        case Success(_) => Success(p)
  }

  /** The f-string of `generate_api_key` */
  function Format(calleeId: string, keyId: string, secret: string): string {
    API_KEY_PREFIX + "_" + API_KEY_KIND + "_" + calleeId + "_" + keyId + "_" + secret
  }

  /** `key_id or token_hex(8)` and `secret or token_hex(32)` */
  function ChosenParts(calleeId: string, keyId: string, secret: string, tokens: (string, string)): ApiKeyParts {
    ApiKeyParts(calleeId, if keyId == "" then tokens.0 else keyId, if secret == "" then tokens.1 else secret)
  }

  /** `generate_api_key`; an id or secret that is missing or empty is replaced by a random token. */
  function Generate(calleeId: string, keyId: string, secret: string, tokens: (string, string))
    : Result<string, ApiKeyError>
  {
    match Validate(ChosenParts(calleeId, keyId, secret, tokens))
    case Failure(e) => Failure(e)
    case Success(p) => Success(Format(p.calleeId, p.keyId, p.secret))
  }

  /** `s.split(sep, max)` for one separator character. */
  function Split(s: string, sep: char, max: nat): (r: seq<string>)
    ensures 1 <= |r| <= max + 1
  {
    SplitFrom("", s, sep, max)
  }

  /** `Split`, with the part of the first piece that was already read. */
  function SplitFrom(piece: string, s: string, sep: char, max: nat): (r: seq<string>)
    ensures 1 <= |r| <= max + 1
    decreases |s|
  {
    if max == 0 then [piece + s]
    else if s == "" then [piece]
    else if s[0] == sep then [piece] + SplitFrom("", s[1..], sep, max - 1)
    else SplitFrom(piece + [s[0]], s[1..], sep, max)
  }

  /** `parse_api_key` */
  function Parse(apiKey: string): Result<ApiKeyParts, ApiKeyError> {
    var parts := Split(apiKey, '_', 4);
    if |parts| != 5 then Failure(BadFormat)
    else if parts[0] != API_KEY_PREFIX || parts[1] != API_KEY_KIND then Failure(BadPrefix)
    else Validate(ApiKeyParts(parts[2], parts[3], parts[4]))
  }

  /** `mask_api_key` */
  function Mask(apiKey: string): string {
    match Parse(apiKey)
    case Failure(_) => INVALID_MASK
    case Success(p) => Format(p.calleeId, p.keyId, "...")
  }

  // ---- printing and parsing undo each other ----

  /** `sep.join(parts)` */
  function Join(parts: seq<string>, sep: char): string {
    if parts == [] then "" else if |parts| == 1 then parts[0] else parts[0] + [sep] + Join(parts[1..], sep)
  }

  /** Joining what was split gives the text back, and no piece but the last contains the separator. */
  lemma {:induction false} SplitJoins(piece: string, s: string, sep: char, max: nat)
    requires sep !in piece
    ensures Join(SplitFrom(piece, s, sep, max), sep) == piece + s
    ensures forall i | 0 <= i < |SplitFrom(piece, s, sep, max)| - 1 :: sep !in SplitFrom(piece, s, sep, max)[i]
    decreases |s|
  {
    if max == 0 || s == "" {
      assert piece + "" == piece;
    } else if s[0] == sep {
      SplitJoins("", s[1..], sep, max - 1);
      var rest := SplitFrom("", s[1..], sep, max - 1);
      assert ([piece] + rest)[1..] == rest;
      assert "" + s[1..] == s[1..];
      assert [sep] + s[1..] == s;
      assert piece + [sep] + s[1..] == piece + ([sep] + s[1..]);
    } else {
      SplitJoins(piece + [s[0]], s[1..], sep, max);
      assert piece + [s[0]] + s[1..] == piece + s;
    }
  }

  /** A piece without the separator is split off whole. */
  lemma {:induction false} SplitsOff(piece: string, first: string, rest: string, sep: char, max: nat)
    requires sep !in first && max > 0
    ensures SplitFrom(piece, first + [sep] + rest, sep, max) == [piece + first] + SplitFrom("", rest, sep, max - 1)
    decreases |first|
  {
    var s := first + [sep] + rest;
    if first == "" {
      assert s == [sep] + rest;
      assert s[1..] == rest;
      assert piece + "" == piece;
    } else {
      assert s[1..] == first[1..] + [sep] + rest;
      SplitsOff(piece + [first[0]], first[1..], rest, sep, max);
      assert piece + [first[0]] + first[1..] == piece + first;
    }
  }

  lemma SplitOfFormat(calleeId: string, keyId: string, secret: string)
    requires '_' !in calleeId && '_' !in keyId
    ensures Split(Format(calleeId, keyId, secret), '_', 4) == [API_KEY_PREFIX, API_KEY_KIND, calleeId, keyId, secret]
  {
    var s3 := keyId + "_" + secret;
    var s2 := calleeId + "_" + s3;
    var s1 := API_KEY_KIND + "_" + s2;
    var s0 := API_KEY_PREFIX + "_" + s1;
    FormatNested(calleeId, keyId, secret);
    SplitsOff("", API_KEY_PREFIX, s1, '_', 4);
    SplitsOff("", API_KEY_KIND, s2, '_', 3);
    SplitsOff("", calleeId, s3, '_', 2);
    SplitsOff("", keyId, secret, '_', 1);
    assert "" + API_KEY_PREFIX == API_KEY_PREFIX && "" + API_KEY_KIND == API_KEY_KIND;
    assert "" + calleeId == calleeId && "" + keyId == keyId && "" + secret == secret;
  }

  lemma FormatNested(calleeId: string, keyId: string, secret: string)
    ensures Format(calleeId, keyId, secret)
         == API_KEY_PREFIX + "_" + (API_KEY_KIND + "_" + (calleeId + "_" + (keyId + "_" + secret)))
  {
  }

  predicate ValidParts(p: ApiKeyParts) {
    Segment(p.calleeId) && Segment(p.keyId) && Segment(p.secret)
  }

  /**
   * Parsing undoes printing, and printing undoes parsing: a text parses to given parts exactly when the parts are
   * valid and the text is their print.
   */
  lemma ParseInvertsFormat(apiKey: string, p: ApiKeyParts)
    ensures Parse(apiKey) == Success(p) <==> ValidParts(p) && apiKey == Format(p.calleeId, p.keyId, p.secret)
  {
    if ValidParts(p) && apiKey == Format(p.calleeId, p.keyId, p.secret) {
      SplitOfFormat(p.calleeId, p.keyId, p.secret);
    }
    if Parse(apiKey) == Success(p) {
      var parts := Split(apiKey, '_', 4);
      SplitJoins("", apiKey, '_', 4);
      assert "" + apiKey == apiKey;
      JoinFive(parts);
      FormatNested(p.calleeId, p.keyId, p.secret);
    }
  }

  lemma JoinFive(parts: seq<string>)
    requires |parts| == 5
    ensures Join(parts, '_') == parts[0] + "_" + (parts[1] + "_" + (parts[2] + "_" + (parts[3] + "_" + parts[4])))
  {
    assert parts[1..][1..] == parts[2..] && parts[2..][1..] == parts[3..] && parts[3..][1..] == parts[4..];
    var j3 := Join(parts[3..], '_');
    assert parts[3..] != [] && parts[3..][0] == parts[3] && |parts[3..]| == 2;
    assert Join(parts[4..], '_') == parts[4];
    assert j3 == parts[3] + "_" + parts[4];
    var j2 := Join(parts[2..], '_');
    assert j2 == parts[2] + "_" + j3;
    var j1 := Join(parts[1..], '_');
    assert j1 == parts[1] + "_" + j2;
    assert Join(parts, '_') == parts[0] + "_" + j1;
  }

  /** What is wrong with the first of the segments that is not valid. */
  function FirstFault(p: ApiKeyParts): ApiKeyError {
    var first := if !Segment(p.calleeId) then p.calleeId else if !Segment(p.keyId) then p.keyId else p.secret;
    if first == "" then EmptySegment else BadSegment
  }

  function CountIn(s: string, c: char): nat {
    if s == "" then 0 else (if s[0] == c then 1 else 0) + CountIn(s[1..], c)
  }

  lemma {:induction false} SplitCounts(piece: string, s: string, sep: char, max: nat)
    ensures |SplitFrom(piece, s, sep, max)| == 1 + if CountIn(s, sep) < max then CountIn(s, sep) else max
    decreases |s|
  {
    if max > 0 && s != "" {
      if s[0] == sep {
        SplitCounts("", s[1..], sep, max - 1);
      } else {
        SplitCounts(piece + [s[0]], s[1..], sep, max);
      }
    }
  }

  /** Why a text is not a key: fewer than four separators, another beginning, or else the first segment not valid. */
  lemma ParseFaults(apiKey: string, p: ApiKeyParts)
    ensures Parse(apiKey) == Failure(BadFormat) <==> CountIn(apiKey, '_') < 4
    ensures Parse(apiKey) == Failure(BadPrefix) <==> CountIn(apiKey, '_') >= 4 && !("rpcp_ck_" <= apiKey)
    ensures apiKey == Format(p.calleeId, p.keyId, p.secret) && '_' !in p.calleeId + p.keyId && !ValidParts(p) ==>
              Parse(apiKey) == Failure(FirstFault(p))
  {
    SplitCounts("", apiKey, '_', 4);
    if CountIn(apiKey, '_') >= 4 {
      PrefixIsSplitOff(apiKey);
    }
    if apiKey == Format(p.calleeId, p.keyId, p.secret) && '_' !in p.calleeId + p.keyId {
      SplitOfFormat(p.calleeId, p.keyId, p.secret);
    }
  }

  lemma PrefixIsSplitOff(apiKey: string)
    requires |Split(apiKey, '_', 4)| == 5
    ensures "rpcp_ck_" <= apiKey <==> Split(apiKey, '_', 4)[0] == "rpcp" && Split(apiKey, '_', 4)[1] == "ck"
  {
    if "rpcp_ck_" <= apiKey {
      var rest := apiKey[8..];
      assert apiKey == "rpcp" + "_" + ("ck" + "_" + rest);
      SplitsOff("", "rpcp", "ck" + "_" + rest, '_', 4);
      SplitsOff("", "ck", rest, '_', 3);
      assert "" + "rpcp" == "rpcp" && "" + "ck" == "ck";
    }
    SplitPrefix(apiKey, Split(apiKey, '_', 4));
  }

  lemma SplitPrefix(apiKey: string, parts: seq<string>)
    requires |parts| == 5 && parts == Split(apiKey, '_', 4)
    ensures parts[0] == "rpcp" && parts[1] == "ck" ==> "rpcp_ck_" <= apiKey
  {
    SplitJoins("", apiKey, '_', 4);
    assert "" + apiKey == apiKey;
    JoinFive(parts);
    if parts[0] == "rpcp" && parts[1] == "ck" {
      assert apiKey == "rpcp_ck_" + (parts[2] + "_" + (parts[3] + "_" + parts[4]));
    }
  }

  /** A generated key parses to the callee's id and the key id and secret given, or the tokens where none is given. */
  lemma GeneratedKeyParses(calleeId: string, keyId: string, secret: string, tokens: (string, string))
    ensures var parts := ApiKeyParts(calleeId, if keyId == "" then tokens.0 else keyId,
                                     if secret == "" then tokens.1 else secret);
            var key := Generate(calleeId, keyId, secret, tokens);
            && (key.Success? <==> ValidParts(parts))
            && (key.Failure? ==> key.error == FirstFault(parts))
            && (key.Success? ==> Parse(key.value) == Success(parts))
  {
    var parts := ChosenParts(calleeId, keyId, secret, tokens);
    ParseInvertsFormat(Format(parts.calleeId, parts.keyId, parts.secret), parts);
  }

  /** Every text that parses is generated again from its parts, exactly. */
  lemma ParsedKeyIsRegenerated(apiKey: string, tokens: (string, string))
    requires Parse(apiKey).Success?
    ensures var p := Parse(apiKey).value;
            Generate(p.calleeId, p.keyId, p.secret, tokens) == Success(apiKey)
  {
    ParseInvertsFormat(apiKey, Parse(apiKey).value);
  }

  /**
   * Two valid keys have the same mask exactly when they differ at most in the secret, and no valid key is masked like
   * an invalid one. A mask is itself a valid key, whose secret is three dots.
   */
  lemma MaskHidesOnlyTheSecret(a: string, b: string)
    requires Parse(a).Success? && Parse(b).Success?
    ensures var p, q := Parse(a).value, Parse(b).value;
            && (Mask(a) == Mask(b) <==> p.calleeId == q.calleeId && p.keyId == q.keyId)
            && Parse(Mask(a)) == Success(p.(secret := "...")) && Mask(Mask(a)) == Mask(a)
            && Mask(a) != INVALID_MASK
  {
    var p, q := Parse(a).value, Parse(b).value;
    ParseInvertsFormat(Mask(a), p.(secret := "..."));
    ParseInvertsFormat(Mask(b), q.(secret := "..."));
    FormatIsNotInvalidMask(p.calleeId, p.keyId, "...");
  }

  /** Every text that is not a valid key has the one mask that says so. */
  lemma InvalidKeysLookAlike(apiKey: string)
    ensures Mask(apiKey) == "<invalid-api-key>"
       <==> forall p :: !(ValidParts(p) && apiKey == Format(p.calleeId, p.keyId, p.secret))
  {
    forall p ensures Parse(apiKey) == Success(p) <==> ValidParts(p) && apiKey == Format(p.calleeId, p.keyId, p.secret) {
      ParseInvertsFormat(apiKey, p);
    }
    if Parse(apiKey).Success? {
      var p := Parse(apiKey).value;
      FormatIsNotInvalidMask(p.calleeId, p.keyId, "...");
    }
  }

  /** The prefix and the shape of a key, and the ASCII codes of the characters of its segments. */
  lemma KeysLookLikeThis(calleeId: string, keyId: string, secret: string, c: char)
    ensures Format(calleeId, keyId, secret) == "rpcp_ck_" + calleeId + "_" + keyId + "_" + secret
    ensures var code := c as int;
            SegmentChar(c) <==> 0x41 <= code <= 0x5a || 0x61 <= code <= 0x7a || 0x30 <= code <= 0x39
                                || code == 0x2d || code == 0x2e
  {
  }

  lemma FormatIsNotInvalidMask(calleeId: string, keyId: string, secret: string)
    ensures Format(calleeId, keyId, secret) != INVALID_MASK
  {
    assert Format(calleeId, keyId, secret)[0] == 'r';
  }
}
