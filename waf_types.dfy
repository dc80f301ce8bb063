/** The configuration enumerations of the firewall engine (types/waf.go): their integer
    codes, the case-lowering parsers that turn configuration strings into them, the
    printer of the rule engine status, the audit-log part letters and the interruption
    record. */
module WafTypes {

  datatype Option<+T> = None | Some(value: T)

  /** What a Go `(T, error)` pair carries: the integer code and, when parsing failed,
      the error message. */
  datatype Parsed = Parsed(value: int, err: Option<string>)

  // ----- case lowering (strings.ToLower) -----

  /** Lowers one ASCII upper-case letter and leaves every other character alone. */
  function LowerChar(c: char): char
  {
    if 'A' <= c <= 'Z' then (c as int + 32) as char else c
  }

  predicate IsUpper(c: char)
  {
    'A' <= c <= 'Z'
  }

  function Lower(s: string): (r: string)
    ensures |r| == |s|
    ensures forall i :: 0 <= i < |s| ==> r[i] == LowerChar(s[i])
    ensures forall i :: 0 <= i < |r| ==> !IsUpper(r[i])
  {
    seq(|s|, i requires 0 <= i < |s| => LowerChar(s[i]))
  }

  /** Case-insensitive equality with a keyword written in lower case, character by
      character: the reference definition the parsers are checked against. */
  predicate EqualFold(s: string, keyword: string)
  {
    |s| == |keyword| && forall i :: 0 <= i < |s| ==> LowerChar(s[i]) == keyword[i]
  }

  /** A string that has an upper-case letter is never the result of lowering. */
  lemma LoweredHasNoUpper(s: string, t: string, k: nat)
    requires k < |t| && IsUpper(t[k])
    ensures Lower(s) != t
  {
    if k < |s| {
      assert Lower(s)[k] != t[k];
    }
  }

  lemma LowerIdempotent(s: string)
    ensures Lower(Lower(s)) == Lower(s)
  {
  }

  /** A string without upper-case letters is its own lowering. */
  lemma NoUpperLower(s: string)
    requires forall i :: 0 <= i < |s| ==> !IsUpper(s[i])
    ensures Lower(s) == s
  {
  }

  // ----- ConnectionEngine -----

  const ConnEngineOff: int := 0
  const ConnEngineOn: int := 1
  const ConnEngineDetectOnly: int := 2

  /** Parses a connection engine setting. The third case compares the lowered input with
      "DetectOnly", which holds upper-case letters, so it can never be taken. */
  function ParseConnectionEngine(ce: string): (r: Parsed)
    ensures r.err.None? ==> r.value in {ConnEngineOff, ConnEngineOn, ConnEngineDetectOnly}
    ensures r.err.Some? ==> r.value == -1 && r.err.value == "invalid connection engine: " + ce
  {
    var l := Lower(ce);
    if l == "off" then Parsed(ConnEngineOff, None)
    else if l == "on" then Parsed(ConnEngineOn, None)
    else if l == "DetectOnly" then Parsed(ConnEngineDetectOnly, None)
    else Parsed(-1, Some("invalid connection engine: " + ce))
  }

  /** Only "off" and "on", in any letter case, are accepted. */
  lemma ParseConnectionEngineAccepts(ce: string)
    ensures ParseConnectionEngine(ce).err.None? <==> EqualFold(ce, "off") || EqualFold(ce, "on")
    ensures EqualFold(ce, "off") ==> ParseConnectionEngine(ce) == Parsed(ConnEngineOff, None)
    ensures EqualFold(ce, "on") ==> ParseConnectionEngine(ce) == Parsed(ConnEngineOn, None)
  {
    LoweredHasNoUpper(ce, "DetectOnly", 0);
    assert EqualFold(ce, "off") <==> Lower(ce) == "off";
    assert EqualFold(ce, "on") <==> Lower(ce) == "on";
  }

  /** The DetectOnly code is unreachable: every spelling of "detectonly" is an error. */
  lemma ParseConnectionEngineNeverDetectOnly(ce: string)
    ensures ParseConnectionEngine(ce).value != ConnEngineDetectOnly
    ensures EqualFold(ce, "detectonly") ==> ParseConnectionEngine(ce) == Parsed(-1, Some("invalid connection engine: " + ce))
  {
    LoweredHasNoUpper(ce, "DetectOnly", 0);
    if EqualFold(ce, "detectonly") {
      assert Lower(ce) == "detectonly";
    }
  }

  /** The connection engine parser as evidently intended: the third keyword is
      compared in lower case, like the other two; every other input goes to the
      parser as written. */
  function ParseConnectionEngineCorrected(ce: string): (r: Parsed)
    ensures r.err.None? ==> r.value in {ConnEngineOff, ConnEngineOn, ConnEngineDetectOnly}
    ensures r.err.Some? ==> r.value == -1 && r.err.value == "invalid connection engine: " + ce
  {
    if Lower(ce) == "detectonly" then Parsed(ConnEngineDetectOnly, None)
    else ParseConnectionEngine(ce)
  }

  /** The corrected parser accepts exactly "off", "on" and "detectonly" in any letter
      case, and agrees with the one as written on every other input. */
  lemma ParseConnectionEngineCorrectedCases(ce: string)
    ensures EqualFold(ce, "off") <==> ParseConnectionEngineCorrected(ce) == Parsed(ConnEngineOff, None)
    ensures EqualFold(ce, "on") <==> ParseConnectionEngineCorrected(ce) == Parsed(ConnEngineOn, None)
    ensures EqualFold(ce, "detectonly") <==> ParseConnectionEngineCorrected(ce) == Parsed(ConnEngineDetectOnly, None)
    ensures !EqualFold(ce, "detectonly") ==> ParseConnectionEngineCorrected(ce) == ParseConnectionEngine(ce)
  {
    LoweredHasNoUpper(ce, "DetectOnly", 0);
    assert EqualFold(ce, "off") <==> Lower(ce) == "off";
    assert EqualFold(ce, "on") <==> Lower(ce) == "on";
    assert EqualFold(ce, "detectonly") <==> Lower(ce) == "detectonly";
  }

  // ----- AuditEngineStatus -----

  const AuditEngineOn: int := 0
  const AuditEngineOff: int := 1
  const AuditEngineRelevantOnly: int := 2

  function ParseAuditEngineStatus(status: string): (r: Parsed)
    ensures r.err.None? ==> r.value in {AuditEngineOn, AuditEngineOff, AuditEngineRelevantOnly}
    ensures r.err.Some? ==> r.value == -1 && r.err.value == "invalid audit engine status: " + status
  {
    var l := Lower(status);
    if l == "on" then Parsed(AuditEngineOn, None)
    else if l == "off" then Parsed(AuditEngineOff, None)
    else if l == "relevantonly" then Parsed(AuditEngineRelevantOnly, None)
    else Parsed(-1, Some("invalid audit engine status: " + status))
  }

  /** "on", "off" and "relevantonly" in any letter case map to 0, 1 and 2; everything
      else is -1 with an error. */
  lemma ParseAuditEngineStatusCases(status: string)
    ensures EqualFold(status, "on") <==> ParseAuditEngineStatus(status) == Parsed(AuditEngineOn, None)
    ensures EqualFold(status, "off") <==> ParseAuditEngineStatus(status) == Parsed(AuditEngineOff, None)
    ensures EqualFold(status, "relevantonly") <==> ParseAuditEngineStatus(status) == Parsed(AuditEngineRelevantOnly, None)
    ensures ParseAuditEngineStatus(status).err.Some? <==>
              !(EqualFold(status, "on") || EqualFold(status, "off") || EqualFold(status, "relevantonly"))
  {
    assert EqualFold(status, "on") <==> Lower(status) == "on";
    assert EqualFold(status, "off") <==> Lower(status) == "off";
    assert EqualFold(status, "relevantonly") <==> Lower(status) == "relevantonly";
  }

  // ----- RuleEngineStatus -----

  const RuleEngineOn: int := 0
  const RuleEngineDetectionOnly: int := 1
  const RuleEngineOff: int := 2

  function ParseRuleEngineStatus(re: string): (r: Parsed)
    ensures r.err.None? ==> r.value in {RuleEngineOn, RuleEngineDetectionOnly, RuleEngineOff}
    ensures r.err.Some? ==> r.value == -1 && r.err.value == "invalid rule engine status: " + re
  {
    var l := Lower(re);
    if l == "on" then Parsed(RuleEngineOn, None)
    else if l == "detectiononly" then Parsed(RuleEngineDetectionOnly, None)
    else if l == "off" then Parsed(RuleEngineOff, None)
    else Parsed(-1, Some("invalid rule engine status: " + re))
  }

  /** "on", "detectiononly" and "off" in any letter case map to 0, 1 and 2; everything
      else is -1 with an error. */
  lemma ParseRuleEngineStatusCases(re: string)
    ensures EqualFold(re, "on") <==> ParseRuleEngineStatus(re) == Parsed(RuleEngineOn, None)
    ensures EqualFold(re, "detectiononly") <==> ParseRuleEngineStatus(re) == Parsed(RuleEngineDetectionOnly, None)
    ensures EqualFold(re, "off") <==> ParseRuleEngineStatus(re) == Parsed(RuleEngineOff, None)
    ensures ParseRuleEngineStatus(re).err.Some? <==>
              !(EqualFold(re, "on") || EqualFold(re, "detectiononly") || EqualFold(re, "off"))
  {
    assert EqualFold(re, "on") <==> Lower(re) == "on";
    assert EqualFold(re, "detectiononly") <==> Lower(re) == "detectiononly";
    assert EqualFold(re, "off") <==> Lower(re) == "off";
  }

  /** RuleEngineStatus.String(): the three defined codes print as "on", "DetectionOnly"
      and "off"; any other code prints as "unknown". */
  function RuleEngineString(re: int): (s: string)
    ensures re !in {RuleEngineOn, RuleEngineDetectionOnly, RuleEngineOff} <==> s == "unknown"
  {
    if re == RuleEngineOn then "on"
    else if re == RuleEngineDetectionOnly then "DetectionOnly"
    else if re == RuleEngineOff then "off"
    else "unknown"
  }

  /** Printing a defined status and parsing it back gives the status, although the
      printer capitalises "DetectionOnly". */
  lemma RuleEngineRoundTrip(re: int)
    requires re in {RuleEngineOn, RuleEngineDetectionOnly, RuleEngineOff}
    ensures ParseRuleEngineStatus(RuleEngineString(re)) == Parsed(re, None)
  {
    if re == RuleEngineDetectionOnly {
      assert Lower("DetectionOnly") == "detectiononly";
    } else if re == RuleEngineOn {
      assert Lower("on") == "on";
    } else {
      assert Lower("off") == "off";
    }
  }

  /** "unknown" is not a status: printing an undefined code does not parse back. */
  lemma UnknownDoesNotParse(re: int)
    requires re !in {RuleEngineOn, RuleEngineDetectionOnly, RuleEngineOff}
    ensures ParseRuleEngineStatus(RuleEngineString(re)) == Parsed(-1, Some("invalid rule engine status: unknown"))
  {
    assert RuleEngineString(re) == "unknown";
    assert Lower("unknown") == "unknown";
    assert "invalid rule engine status: " + "unknown" == "invalid rule engine status: unknown";
  }

  // ----- RequestBodyLimitAction -----

  const RequestBodyLimitActionProcessPartial: int := 0
  const RequestBodyLimitActionReject: int := 1

  /** Parses a request body limit action. Both cases compare the lowered input with
      keywords that hold upper-case letters, so no input is ever accepted. */
  function ParseRequestBodyLimitAction(rbla: string): (r: Parsed)
    ensures r.err.None? ==> r.value in {RequestBodyLimitActionProcessPartial, RequestBodyLimitActionReject}
    ensures r.err.Some? ==> r.value == -1 && r.err.value == "invalid request body limit action: " + rbla
  {
    var l := Lower(rbla);
    if l == "ProcessPartial" then Parsed(RequestBodyLimitActionProcessPartial, None)
    else if l == "Reject" then Parsed(RequestBodyLimitActionReject, None)
    else Parsed(-1, Some("invalid request body limit action: " + rbla))
  }

  /** Every input, including "ProcessPartial" and "Reject" themselves, is rejected. */
  lemma ParseRequestBodyLimitActionAlwaysFails(rbla: string)
    ensures ParseRequestBodyLimitAction(rbla) == Parsed(-1, Some("invalid request body limit action: " + rbla))
  {
    LoweredHasNoUpper(rbla, "ProcessPartial", 0);
    LoweredHasNoUpper(rbla, "Reject", 0);
  }

  /** The request body limit action parser as evidently intended: the keywords are
      compared in lower case; every other input goes to the parser as written, which
      reports it. */
  function ParseRequestBodyLimitActionCorrected(rbla: string): (r: Parsed)
    ensures r.err.None? ==> r.value in {RequestBodyLimitActionProcessPartial, RequestBodyLimitActionReject}
    ensures r.err.Some? ==> r.value == -1 && r.err.value == "invalid request body limit action: " + rbla
  {
    var l := Lower(rbla);
    if l == "processpartial" then Parsed(RequestBodyLimitActionProcessPartial, None)
    else if l == "reject" then Parsed(RequestBodyLimitActionReject, None)
    else ParseRequestBodyLimitAction(rbla)
  }

  /** The corrected parser accepts exactly "processpartial" and "reject" in any letter
      case, and reports every other input as the one as written does. */
  lemma ParseRequestBodyLimitActionCorrectedCases(rbla: string)
    ensures EqualFold(rbla, "processpartial")
        <==> ParseRequestBodyLimitActionCorrected(rbla) == Parsed(RequestBodyLimitActionProcessPartial, None)
    ensures EqualFold(rbla, "reject")
        <==> ParseRequestBodyLimitActionCorrected(rbla) == Parsed(RequestBodyLimitActionReject, None)
    ensures !(EqualFold(rbla, "processpartial") || EqualFold(rbla, "reject")) ==>
              ParseRequestBodyLimitActionCorrected(rbla) == ParseRequestBodyLimitAction(rbla)
  {
    ParseRequestBodyLimitActionAlwaysFails(rbla);
    assert EqualFold(rbla, "processpartial") <==> Lower(rbla) == "processpartial";
    assert EqualFold(rbla, "reject") <==> Lower(rbla) == "reject";
  }

  // ----- AuditLogParts -----

  const AuditLogPartAuditLogHeader: char := 'A'
  const AuditLogPartRequestHeaders: char := 'B'
  const AuditLogPartRequestBody: char := 'C'
  const AuditLogPartIntermediaryResponseHeaders: char := 'D'
  const AuditLogPartIntermediaryResponseBody: char := 'E'
  const AuditLogPartResponseHeaders: char := 'F'
  const AuditLogPartResponseBody: char := 'G'
  const AuditLogPartAuditLogTrailer: char := 'H'
  const AuditLogPartRequestBodyAlternative: char := 'I'
  const AuditLogPartUploadedFiles: char := 'J'
  const AuditLogPartRulesMatched: char := 'K'
  const AuditLogPartFinalBoundary: char := 'Z'

  /** The audit log part letters, in declaration order. */
  const AuditLogPartLetters: seq<char> := [
    AuditLogPartAuditLogHeader, AuditLogPartRequestHeaders, AuditLogPartRequestBody,
    AuditLogPartIntermediaryResponseHeaders, AuditLogPartIntermediaryResponseBody,
    AuditLogPartResponseHeaders, AuditLogPartResponseBody, AuditLogPartAuditLogTrailer,
    AuditLogPartRequestBodyAlternative, AuditLogPartUploadedFiles, AuditLogPartRulesMatched,
    AuditLogPartFinalBoundary]

  /** AuditLogParts is a list of part letters. */
  type AuditLogParts = seq<char>

  predicate IsAuditLogPart(c: char)
  {
    c in AuditLogPartLetters
  }

  /** The alphabet is exactly the letters A to K and Z, each once. */
  lemma AuditLogPartAlphabet(c: char)
    ensures IsAuditLogPart(c) <==> ('A' <= c <= 'K' || c == 'Z')
    ensures |AuditLogPartLetters| == 12
    ensures forall i, j :: 0 <= i < j < 12 ==> AuditLogPartLetters[i] < AuditLogPartLetters[j]
  {
    if 'A' <= c <= 'K' {
      assert AuditLogPartLetters[c as int - 'A' as int] == c;
    }
  }

  /** The interruption record: the rule that caused it, the action (drop, deny,
      redirect), the status code to force and the data used by proxy and redirect. */
  datatype Interruption = Interruption(ruleId: int, action: string, status: int, data: string)
}
