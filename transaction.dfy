/** The transaction state machine of the WAF engine: phase sequencing around an external
    rule evaluator, sticky interruptions, the rule-engine-off bypass, size-limited request
    body buffering with its two overflow policies, response body truncation, capture
    slots, matched-variable bookkeeping, and the pool transactions return to on Close
    (internal/corazawaf/transaction_test.go).

    Every phase operation is specified by a pure step function over a snapshot of the
    transaction's mutable state (TxState); the methods of Transaction are proved to move
    the object from one snapshot to the next exactly as the step function says, and the
    properties the engine promises are proved about the step functions. */
module Transactions {
  import opened WafTypes
  import opened Collections
  import Decimal

  newtype byte = x: int | 0 <= x < 256

  /** A byte buffer read as a string, one character per byte. */
  function StringOf(b: seq<byte>): (s: string)
    ensures |s| == |b|
    ensures forall i :: 0 <= i < |b| ==> s[i] as int == b[i] as int
  {
    seq(|b|, i requires 0 <= i < |b| => (b[i] as int) as char)
  }

  predicate HasPrefix(s: string, p: string)
  {
    |p| <= |s| && s[..|p|] == p
  }

  function Max(a: nat, b: nat): nat
  {
    if a < b then b else a
  }

  // ----- phases -----

  /** The evaluation points, in processing order; a lastPhase of 0 means that no phase
      has been evaluated yet. */
  const PhaseRequestHeaders: nat := 1
  const PhaseRequestBody: nat := 2
  const PhaseResponseHeaders: nat := 3
  const PhaseResponseBody: nat := 4
  const PhaseLogging: nat := 5

  // ----- what the rule evaluator and the body parsers exchange with a transaction -----

  /** One matched (variable, key, value) triple. */
  datatype MatchData = MatchData(variableName: string, key: string, value: string)

  /** A rule that fired, with the triples it matched. */
  datatype MatchedRule = MatchedRule(ruleId: int, matchData: seq<MatchData>)

  /** What the rule evaluator reports for one phase: the rules that fired and the
      interruption their disruptive actions ask for, if any. */
  datatype Verdict = Verdict(matched: seq<MatchedRule>, interruption: Option<Interruption>)

  /** What a body parser (urlencoded or multipart) makes of a request body. */
  datatype Decoded = Decoded(args: seq<Entry>) | Malformed(message: string)

  /** The collaborators a transaction calls but does not implement: the compiled rule
      set, the request body parsers (by processor name) and the relevant-status matcher
      of the audit log. */
  datatype Hooks = Hooks(
    rules: (nat, Variables) -> Verdict,
    decode: (string, seq<byte>) -> Decoded,
    relevantStatus: string -> bool)

  /** The per-transaction settings the phase operations read but never change. */
  datatype Setup = Setup(
    ruleEngine: int,
    requestBodyAccess: bool, requestBodyLimit: nat, requestBodyLimitAction: int,
    forceRequestBodyVariable: bool,
    responseBodyAccess: bool, responseBodyLimit: nat,
    auditEngine: int)

  /** The mutable state of a transaction. */
  datatype TxState = TxState(
    interruption: Option<Interruption>,
    lastPhase: nat,
    matchedRules: seq<MatchedRule>,
    variables: Variables,
    requestBody: seq<byte>,
    responseBody: seq<byte>,
    audited: bool)

  /** The state of a transaction handed out by NewTransaction, and of one after Close. */
  function Initial(id: string): (s: TxState)
    ensures s.interruption.None? && s.lastPhase == 0 && s.matchedRules == []
    ensures s.variables.uniqueId == id && s.requestBody == [] && s.responseBody == []
  {
    TxState(None, 0, [], EmptyVariables(id), [], [], false)
  }

  /** What a phase operation leaves behind: the new state, the interruption and error it
      returns, and the entries it writes to the engine's error log. */
  datatype Step = Step(state: TxState, it: Option<Interruption>, err: Option<string>, logged: seq<string>)

  /** What a body write leaves behind, with the number of bytes it accepted. */
  datatype Write = Write(state: TxState, it: Option<Interruption>, n: nat, err: Option<string>)

  // ----- rule evaluation -----

  /** Runs the rules of one phase: the phase is recorded as reached, the fired rules are
      appended, and a requested interruption is attached only when none is attached yet
      and the engine is On (DetectionOnly records matches but never interrupts). */
  function Evaluated(s: TxState, phase: nat, cfg: Setup, hooks: Hooks): (r: TxState)
    ensures Progressed(s, r) && r.lastPhase >= phase
    ensures r.variables == s.variables && r.requestBody == s.requestBody && r.responseBody == s.responseBody
    ensures s.interruption.None? && cfg.ruleEngine != RuleEngineOn ==> r.interruption.None?
  {
    var v := hooks.rules(phase, s.variables);
    s.(lastPhase := Max(s.lastPhase, phase),
       matchedRules := s.matchedRules + v.matched,
       interruption :=
         if s.interruption.Some? then s.interruption
         else if cfg.ruleEngine == RuleEngineOn then v.interruption
         else None)
  }

  /** The diagnostic a phase operation logs when an interruption is already attached. */
  function Preexisting(operation: string): string
  {
    "[ERROR] Calling " + operation + " but there is a preexisting interruption\n"
  }

  /** The outcome of a phase operation called with an interruption already attached. */
  function Refused(s: TxState, operation: string): Step
    requires s.interruption.Some?
  {
    Step(s, s.interruption, None, [Preexisting(operation)])
  }

  /** The outcome of a phase operation with the rule engine off. */
  function Bypassed(s: TxState): Step
  {
    Step(s, None, None, [])
  }

  /** The outcome of a phase operation that ran its rules. */
  function Evaluation(s: TxState): Step
  {
    Step(s, s.interruption, None, [])
  }

  // ----- the phase operations -----

  /** What every phase operation promises before it runs its rules: called with an
      interruption attached, it changes nothing, returns that interruption and logs the
      preexisting-interruption diagnostic once; with the rule engine off it changes
      nothing, returns no interruption and logs nothing. */
  predicate Guarded(s: TxState, cfg: Setup, r: Step, operation: string)
  {
    && (s.interruption.Some? ==>
          r.state == s && r.it == s.interruption && r.err.None? && r.logged == [Preexisting(operation)])
    && (s.interruption.None? && cfg.ruleEngine == RuleEngineOff ==>
          r.state == s && r.it.None? && r.err.None? && r.logged == [])
  }

  /** ProcessRequestHeaders: the guards, then the rules of phase 1 on an unchanged store;
      what it returns is the interruption the transaction then holds. */
  function RequestHeadersStep(s: TxState, cfg: Setup, hooks: Hooks): (r: Step)
    ensures Guarded(s, cfg, r, "ProcessRequestHeaders") && Progressed(s, r.state)
    ensures r.state.variables == s.variables && r.state.requestBody == s.requestBody
    ensures s.interruption.None? && cfg.ruleEngine != RuleEngineOff ==>
      r.state.lastPhase >= PhaseRequestHeaders && r.it == r.state.interruption && r.logged == []
  {
    if s.interruption.Some? then Refused(s, "ProcessRequestHeaders")
    else if cfg.ruleEngine == RuleEngineOff then Bypassed(s)
    else Evaluation(Evaluated(s, PhaseRequestHeaders, cfg, hooks))
  }

  /** The processor a request body is handed to: by its content type, or URLENCODED
      when the request body variable is forced; "" when the body is not parsed. */
  function BodyProcessor(contentType: string, force: bool): string
  {
    var ct := Lower(contentType);
    if ct == "application/x-www-form-urlencoded" then "URLENCODED"
    else if HasPrefix(ct, "multipart/form-data") then "MULTIPART"
    else if force then "URLENCODED"
    else ""
  }

  /** The processor depends on the content type alone, in any letter case: urlencoded
      and multipart bodies go to their processors whether forced or not, and forcing
      hands every other body to URLENCODED. */
  lemma BodyProcessorCases(contentType: string, force: bool)
    ensures BodyProcessor(contentType, force) == BodyProcessor(Lower(contentType), force)
    ensures BodyProcessor(contentType, force) in {"URLENCODED", "MULTIPART", ""}
    ensures BodyProcessor(contentType, force) == "MULTIPART" <==> HasPrefix(Lower(contentType), "multipart/form-data")
    ensures BodyProcessor(contentType, force) == "" <==>
      !force && Lower(contentType) != "application/x-www-form-urlencoded"
      && !HasPrefix(Lower(contentType), "multipart/form-data")
  {
    LowerIdempotent(contentType);
    var ct := Lower(contentType);
    if ct == "application/x-www-form-urlencoded" {
      assert ct[..|"multipart/form-data"|] != "multipart/form-data" by {
        assert ct[0] != 'm';
      }
    }
  }

  /** The first content-type request header, or "" when there is none. */
  function RequestContentType(vars: Variables): string
  {
    var cts := Get(vars.requestHeaders, "content-type");
    if cts == [] then "" else cts[0]
  }

  datatype BodyOutcome = BodyOk(vars: Variables) | BodyError(message: string)

  /** The store after the request body has been handed to its processor: the decoded
      pairs are added to the POST arguments, and the URLENCODED processor also exposes
      the raw body as REQUEST_BODY. */
  function DecodedRequestBody(vars: Variables, body: seq<byte>, cfg: Setup, hooks: Hooks): BodyOutcome
  {
    if !cfg.requestBodyAccess then BodyOk(vars)
    else
      var p := BodyProcessor(RequestContentType(vars), cfg.forceRequestBodyVariable);
      if p == "" then BodyOk(vars)
      else
        match hooks.decode(p, body)
        case Malformed(m) => BodyError(m)
        case Decoded(args) =>
          BodyOk(vars.(argsPost := AddAll(vars.argsPost, args),
                       requestBody := if p == "URLENCODED" then StringOf(body) else vars.requestBody))
  }

  /** The request body phase proper, once the guards have passed. It runs at most once:
      a transaction whose request body phase was already reached is left as it is. */
  function RequestBodyPhase(s: TxState, cfg: Setup, hooks: Hooks): (r: Step)
    ensures r.state.requestBody == s.requestBody && r.state.responseBody == s.responseBody
    ensures Progressed(s, r.state) && r.logged == []
  {
    if s.lastPhase >= PhaseRequestBody then Step(s, s.interruption, None, [])
    else
      match DecodedRequestBody(s.variables, s.requestBody, cfg, hooks)
      case BodyError(m) => Step(s, None, Some(m), [])
      case BodyOk(vs) => Evaluation(Evaluated(s.(variables := vs), PhaseRequestBody, cfg, hooks))
  }

  /** ProcessRequestBody: the guards, then the request body phase, which keeps both
      buffers. */
  function RequestBodyStep(s: TxState, cfg: Setup, hooks: Hooks): (r: Step)
    ensures Guarded(s, cfg, r, "ProcessRequestBody") && Progressed(s, r.state)
    ensures r.state.requestBody == s.requestBody && r.state.responseBody == s.responseBody
  {
    if s.interruption.Some? then Refused(s, "ProcessRequestBody")
    else if cfg.ruleEngine == RuleEngineOff then Bypassed(s)
    else RequestBodyPhase(s, cfg, hooks)
  }

  /** ProcessResponseHeaders: the guards, then the status code is exposed as
      RESPONSE_STATUS and the rules of phase 3 run. */
  function ResponseHeadersStep(s: TxState, cfg: Setup, hooks: Hooks, code: int): (r: Step)
    ensures Guarded(s, cfg, r, "ProcessResponseHeaders") && Progressed(s, r.state)
    ensures r.state.requestBody == s.requestBody && r.state.responseBody == s.responseBody
    ensures s.interruption.None? && cfg.ruleEngine != RuleEngineOff ==>
      r.state.lastPhase >= PhaseResponseHeaders && r.it == r.state.interruption
      && r.state.variables.responseStatus == Decimal.IntToString(code)
  {
    if s.interruption.Some? then Refused(s, "ProcessResponseHeaders")
    else if cfg.ruleEngine == RuleEngineOff then Bypassed(s)
    else
      var vs := s.variables.(responseStatus := Decimal.IntToString(code));
      Evaluation(Evaluated(s.(variables := vs), PhaseResponseHeaders, cfg, hooks))
  }

  /** The store after the buffered response body has been exposed as RESPONSE_BODY: a
      body over the limit is cut to the limit and flagged in OUTBOUND_DATA_ERROR. */
  function ResponseBodyVariables(vars: Variables, body: seq<byte>, cfg: Setup): (r: Variables)
    ensures !cfg.responseBodyAccess ==> r == vars
    ensures cfg.responseBodyAccess ==> r.responseBody == StringOf(Capped(body, cfg.responseBodyLimit))
    ensures cfg.responseBodyAccess ==>
      r.outboundDataError == if |body| > cfg.responseBodyLimit then "1" else vars.outboundDataError
    ensures r.uniqueId == vars.uniqueId && r.argsPost == vars.argsPost && r.tx == vars.tx
  {
    if !cfg.responseBodyAccess then vars
    else if |body| > cfg.responseBodyLimit then
      vars.(outboundDataError := "1", responseBody := StringOf(body[..cfg.responseBodyLimit]))
    else vars.(responseBody := StringOf(body))
  }

  /** ProcessResponseBody: the guards, then the response body is exposed to the rules
      of phase 4; the buffer itself is kept whole. */
  function ResponseBodyStep(s: TxState, cfg: Setup, hooks: Hooks): (r: Step)
    ensures Guarded(s, cfg, r, "ProcessResponseBody") && Progressed(s, r.state)
    ensures r.state.requestBody == s.requestBody && r.state.responseBody == s.responseBody
    ensures s.interruption.None? && cfg.ruleEngine != RuleEngineOff ==>
      r.state.lastPhase >= PhaseResponseBody && r.it == r.state.interruption
  {
    if s.interruption.Some? then Refused(s, "ProcessResponseBody")
    else if cfg.ruleEngine == RuleEngineOff then Bypassed(s)
    else
      var vs := ResponseBodyVariables(s.variables, s.responseBody, cfg);
      Evaluation(Evaluated(s.(variables := vs), PhaseResponseBody, cfg, hooks))
  }

  /** Whether a transaction is written to the audit log: always when the audit engine is
      On, never when it is Off, and when it is RelevantOnly only if the response status
      matches the relevant-status pattern. */
  predicate ShouldAudit(auditEngine: int, relevantStatus: string -> bool, status: string)
  {
    auditEngine == AuditEngineOn || (auditEngine == AuditEngineRelevantOnly && relevantStatus(status))
  }

  /** ProcessLogging: the rules of phase 5 run unless the transaction is interrupted or
      the engine is off, and the audit decision is taken on the response status. */
  function LoggingStep(s: TxState, cfg: Setup, hooks: Hooks): (r: TxState)
    ensures Progressed(s, r) && r.variables == s.variables
    ensures r.audited <==> ShouldAudit(cfg.auditEngine, hooks.relevantStatus, s.variables.responseStatus)
    ensures s.interruption.Some? || cfg.ruleEngine == RuleEngineOff ==> Frozen(s, r)
    ensures s.interruption.None? && cfg.ruleEngine != RuleEngineOff ==> r.lastPhase >= PhaseLogging
  {
    var r := if s.interruption.None? && cfg.ruleEngine != RuleEngineOff
             then Evaluated(s, PhaseLogging, cfg, hooks) else s;
    r.(audited := ShouldAudit(cfg.auditEngine, hooks.relevantStatus, r.variables.responseStatus))
  }

  // ----- request body writes -----

  /** The interruption a Reject policy attaches when the request body exceeds its limit.
      The rule id 0, the action "deny" and the status 413 (payload too large) are choices
      of this model: the tests only compare the interruption a later write returns with
      the one the limit attached. */
  const BodyLimitInterruption := Interruption(0, "deny", 413, "")

  /** The bytes a buffer still accepts before reaching the limit. */
  function Room(buffered: nat, limit: nat): nat
  {
    if buffered <= limit then limit - buffered else 0
  }

  /** Appending a chunk to the request body buffer. A chunk that fits is taken whole.
      One that does not is refused under Reject, which interrupts the transaction; under
      ProcessPartial the part that fits is taken, INBOUND_DATA_ERROR is set and the
      request body phase runs on what was buffered; under any other policy the chunk is
      taken whole. */
  function WriteStep(s: TxState, cfg: Setup, hooks: Hooks, data: seq<byte>): (w: Write)
    ensures w.n <= |data| && w.state.requestBody == s.requestBody + data[..w.n]
    ensures w.state.responseBody == s.responseBody && Progressed(s, w.state)
    ensures s.interruption.Some? || cfg.ruleEngine == RuleEngineOff || !cfg.requestBodyAccess ==>
      w.state == s && w.n == 0 && w.err.None? && w.it == (if cfg.ruleEngine == RuleEngineOff || !cfg.requestBodyAccess then None else s.interruption)
  {
    if cfg.ruleEngine == RuleEngineOff || !cfg.requestBodyAccess then Write(s, None, 0, None)
    else if s.interruption.Some? then Write(s, s.interruption, 0, None)
    else
      var room := Room(|s.requestBody|, cfg.requestBodyLimit);
      assert data[..|data|] == data;
      if |data| <= room then Write(s.(requestBody := s.requestBody + data), None, |data|, None)
      else if cfg.requestBodyLimitAction == RequestBodyLimitActionReject then
        Write(s.(interruption := Some(BodyLimitInterruption)), Some(BodyLimitInterruption), 0, None)
      else if cfg.requestBodyLimitAction == RequestBodyLimitActionProcessPartial then
        var t := s.(requestBody := s.requestBody + data[..room],
                    variables := s.variables.(inboundDataError := "1"));
        var st := RequestBodyPhase(t, cfg, hooks);
        Write(st.state, st.it, room, st.err)
      else Write(s.(requestBody := s.requestBody + data), None, |data|, None)
  }

  // ----- sequences of operations -----

  /** The operations a caller drives a transaction through. */
  datatype Op =
    | OnRequestHeaders | OnRequestBody | OnResponseHeaders(code: int) | OnResponseBody | OnLogging
    | WriteBody(data: seq<byte>)

  function Apply(s: TxState, cfg: Setup, hooks: Hooks, op: Op): TxState
  {
    match op
    case OnRequestHeaders => RequestHeadersStep(s, cfg, hooks).state
    case OnRequestBody => RequestBodyStep(s, cfg, hooks).state
    case OnResponseHeaders(code) => ResponseHeadersStep(s, cfg, hooks, code).state
    case OnResponseBody => ResponseBodyStep(s, cfg, hooks).state
    case OnLogging => LoggingStep(s, cfg, hooks)
    case WriteBody(data) => WriteStep(s, cfg, hooks, data).state
  }

  function Run(s: TxState, cfg: Setup, hooks: Hooks, ops: seq<Op>): TxState
    decreases |ops|
  {
    if ops == [] then s else Run(Apply(s, cfg, hooks, ops[0]), cfg, hooks, ops[1..])
  }

  /** Everything but the audit decision is as it was. */
  predicate Frozen(s: TxState, r: TxState)
  {
    r.interruption == s.interruption && r.lastPhase == s.lastPhase
    && r.matchedRules == s.matchedRules && r.variables == s.variables
    && r.requestBody == s.requestBody && r.responseBody == s.responseBody
  }

  /** Rule evaluation only moves forward: the phase reached never goes back, fired rules
      are only appended, and an attached interruption stays. */
  predicate Progressed(s: TxState, r: TxState)
  {
    r.lastPhase >= s.lastPhase && s.matchedRules <= r.matchedRules
    && (s.interruption.Some? ==> r.interruption == s.interruption)
  }

  /** The rule set never asks for an interruption. */
  ghost predicate Quiet(hooks: Hooks)
  {
    forall phase, vars :: hooks.rules(phase, vars).interruption.None?
  }

  /** The request body phase leaves the buffers and the data-error flag alone, only
      moves evaluation forward, and interrupts only when the rules ask it to with the
      engine On. */
  lemma RequestBodyPhaseFacts(s: TxState, cfg: Setup, hooks: Hooks)
    ensures var r := RequestBodyPhase(s, cfg, hooks);
      r.state.requestBody == s.requestBody && r.state.responseBody == s.responseBody
      && r.state.variables.inboundDataError == s.variables.inboundDataError
      && r.state.variables.uniqueId == s.variables.uniqueId
      && Progressed(s, r.state)
      && (s.interruption.None? && (Quiet(hooks) || cfg.ruleEngine != RuleEngineOn) ==>
            r.state.interruption.None? && r.it.None?)
  {
  }

  /** A request body the URLENCODED processor accepts: with rules that never interrupt,
      the request body phase reports nothing, adds the decoded pairs to ARGS_POST and
      exposes the raw body as REQUEST_BODY. */
  lemma UrlencodedBodyPhase(s: TxState, cfg: Setup, hooks: Hooks)
    requires s.interruption.None? && cfg.ruleEngine != RuleEngineOff && cfg.requestBodyAccess
    requires s.lastPhase < PhaseRequestBody && Quiet(hooks)
    requires BodyProcessor(RequestContentType(s.variables), cfg.forceRequestBodyVariable) == "URLENCODED"
    requires hooks.decode("URLENCODED", s.requestBody).Decoded?
    ensures var st := RequestBodyStep(s, cfg, hooks);
      st.it.None? && st.err.None?
      && st.state.variables.argsPost
         == s.variables.argsPost + LowerKeys(hooks.decode("URLENCODED", s.requestBody).args)
      && st.state.variables.requestBody == StringOf(s.requestBody)
  {
  }

  /** A request body no processor takes is not parsed: the request body phase reports
      no error and leaves REQUEST_BODY as it was. */
  lemma UnparsedBodyPhase(s: TxState, cfg: Setup, hooks: Hooks)
    requires s.interruption.None? && cfg.ruleEngine != RuleEngineOff && s.lastPhase < PhaseRequestBody
    requires BodyProcessor(RequestContentType(s.variables), cfg.forceRequestBodyVariable) == ""
    ensures var st := RequestBodyStep(s, cfg, hooks);
      st.err.None? && st.state.variables.requestBody == s.variables.requestBody
      && st.state.variables.argsPost == s.variables.argsPost
  {
  }

  /** One operation only moves evaluation forward, leaves an interrupted transaction
      frozen, and with the rule engine off leaves it frozen too. */
  lemma ApplyFacts(s: TxState, cfg: Setup, hooks: Hooks, op: Op)
    ensures Progressed(s, Apply(s, cfg, hooks, op))
    ensures s.interruption.Some? ==> Frozen(s, Apply(s, cfg, hooks, op))
    ensures cfg.ruleEngine == RuleEngineOff ==> Frozen(s, Apply(s, cfg, hooks, op))
    ensures Apply(s, cfg, hooks, op).variables.uniqueId == s.variables.uniqueId
  {
    if op.WriteBody? {
      WriteFacts(s, cfg, hooks, op.data);
    } else if op.OnRequestBody? {
      RequestBodyPhaseFacts(s, cfg, hooks);
    }
  }

  /** Any sequence of operations only moves evaluation forward. */
  lemma {:induction false} RunProgresses(s: TxState, cfg: Setup, hooks: Hooks, ops: seq<Op>)
    ensures Progressed(s, Run(s, cfg, hooks, ops))
    ensures Run(s, cfg, hooks, ops).variables.uniqueId == s.variables.uniqueId
    decreases |ops|
  {
    if ops != [] {
      var t := Apply(s, cfg, hooks, ops[0]);
      ApplyFacts(s, cfg, hooks, ops[0]);
      RunProgresses(t, cfg, hooks, ops[1..]);
    }
  }

  /** Once an interruption is attached, no later operation evaluates rules, changes a
      collection or a buffer, or replaces the interruption. */
  lemma {:induction false} InterruptionIsSticky(s: TxState, cfg: Setup, hooks: Hooks, ops: seq<Op>)
    requires s.interruption.Some?
    ensures Frozen(s, Run(s, cfg, hooks, ops))
    decreases |ops|
  {
    if ops != [] {
      var t := Apply(s, cfg, hooks, ops[0]);
      ApplyFacts(s, cfg, hooks, ops[0]);
      InterruptionIsSticky(t, cfg, hooks, ops[1..]);
    }
  }

  /** With the rule engine off no rule ever runs: the phase reached, the fired rules and
      the interruption stay as they were (a new transaction's lastPhase stays 0), and
      the body writers do not buffer. */
  lemma {:induction false} EngineOffEvaluatesNothing(s: TxState, cfg: Setup, hooks: Hooks, ops: seq<Op>)
    requires cfg.ruleEngine == RuleEngineOff
    ensures Frozen(s, Run(s, cfg, hooks, ops))
    decreases |ops|
  {
    if ops != [] {
      var t := Apply(s, cfg, hooks, ops[0]);
      ApplyFacts(s, cfg, hooks, ops[0]);
      EngineOffEvaluatesNothing(t, cfg, hooks, ops[1..]);
    }
  }

  /** In DetectionOnly mode rules are recorded but never interrupt; only the Reject body
      limit policy, which does not consult the rules, can interrupt. */
  lemma {:induction false} DetectionOnlyNeverInterrupts(s: TxState, cfg: Setup, hooks: Hooks, ops: seq<Op>)
    requires cfg.ruleEngine == RuleEngineDetectionOnly
    requires cfg.requestBodyLimitAction != RequestBodyLimitActionReject
    requires s.interruption.None?
    ensures Run(s, cfg, hooks, ops).interruption.None?
    decreases |ops|
  {
    if ops != [] {
      var t := Apply(s, cfg, hooks, ops[0]);
      if ops[0].WriteBody? {
        WriteFacts(s, cfg, hooks, ops[0].data);
      } else if ops[0].OnRequestBody? {
        RequestBodyPhaseFacts(s, cfg, hooks);
      }
      assert t.interruption.None?;
      DetectionOnlyNeverInterrupts(t, cfg, hooks, ops[1..]);
    }
  }

  /** The request body phase runs once: after a request body step that succeeded, a
      second one changes nothing, so the body is never decoded twice. */
  lemma RequestBodyOnce(s: TxState, cfg: Setup, hooks: Hooks)
    requires RequestBodyStep(s, cfg, hooks).err.None?
    ensures var t := RequestBodyStep(s, cfg, hooks).state;
      RequestBodyStep(t, cfg, hooks).state == t
  {
    if s.interruption.None? && cfg.ruleEngine != RuleEngineOff {
      RequestBodyPhaseFacts(s, cfg, hooks);
    }
  }

  // ----- body writes -----

  /** The first limit bytes of a buffer, or all of it when it is shorter. */
  function Capped(b: seq<byte>, limit: nat): (r: seq<byte>)
    ensures |r| <= limit && r <= b
    ensures |b| <= limit ==> r == b
  {
    if |b| <= limit then b else b[..limit]
  }

  lemma CappedAppend(a: seq<byte>, c: seq<byte>, limit: nat)
    ensures Capped(Capped(a, limit) + c, limit) == Capped(a + c, limit)
  {
    if |a| > limit {
      assert (a[..limit] + c)[..limit] == a[..limit] == (a + c)[..limit];
    }
  }

  /** The bytes a write accepts are exactly the ones appended to the buffer, and no
      more than it was given; a write only moves evaluation forward, keeps the response
      buffer and a raised INBOUND_DATA_ERROR, and interrupts only under Reject or when
      the rules ask it to with the engine On. */
  lemma WriteFacts(s: TxState, cfg: Setup, hooks: Hooks, data: seq<byte>)
    ensures var w := WriteStep(s, cfg, hooks, data);
      w.n <= |data| && w.state.requestBody == s.requestBody + data[..w.n]
      && w.state.responseBody == s.responseBody
      && w.state.variables.uniqueId == s.variables.uniqueId
      && (s.variables.inboundDataError == "1" ==> w.state.variables.inboundDataError == "1")
      && Progressed(s, w.state)
      && (s.interruption.Some? || cfg.ruleEngine == RuleEngineOff || !cfg.requestBodyAccess ==>
            w.state == s && w.n == 0)
      && (s.interruption.None? && cfg.requestBodyLimitAction != RequestBodyLimitActionReject
          && (Quiet(hooks) || cfg.ruleEngine != RuleEngineOn) ==>
            w.state.interruption.None? && w.it.None?)
  {
    var room := Room(|s.requestBody|, cfg.requestBodyLimit);
    if |data| > room {
      var t := s.(requestBody := s.requestBody + data[..room],
                  variables := s.variables.(inboundDataError := "1"));
      RequestBodyPhaseFacts(t, cfg, hooks);
    }
    assert data[..|data|] == data;
    assert data[..0] == [];
  }

  /** Under either limit policy a buffer within the limit stays within it. */
  lemma WriteWithinLimit(s: TxState, cfg: Setup, hooks: Hooks, data: seq<byte>)
    requires cfg.requestBodyLimitAction == RequestBodyLimitActionReject
          || cfg.requestBodyLimitAction == RequestBodyLimitActionProcessPartial
    requires |s.requestBody| <= cfg.requestBodyLimit
    ensures |WriteStep(s, cfg, hooks, data).state.requestBody| <= cfg.requestBodyLimit
  {
    WriteFacts(s, cfg, hooks, data);
  }

  /** The request body of a sequence of chunks. */
  function Concat(chunks: seq<seq<byte>>): seq<byte>
    decreases |chunks|
  {
    if chunks == [] then [] else chunks[0] + Concat(chunks[1..])
  }

  /** Writing chunks one after the other; the outcome is that of the last write. */
  function WriteAll(s: TxState, cfg: Setup, hooks: Hooks, chunks: seq<seq<byte>>): Write
    decreases |chunks|
  {
    if chunks == [] then Write(s, None, 0, None)
    else
      var w := WriteStep(s, cfg, hooks, chunks[0]);
      if |chunks| == 1 then w else WriteAll(w.state, cfg, hooks, chunks[1..])
  }

  /** The conditions under which the body writers buffer at all. */
  predicate Buffering(s: TxState, cfg: Setup)
  {
    cfg.ruleEngine != RuleEngineOff && cfg.requestBodyAccess && s.interruption.None?
    && |s.requestBody| <= cfg.requestBodyLimit
  }

  /** Under Reject, a body written in chunks is either buffered whole, when it fits, or
      makes the last write report the body-limit interruption, however it is split. */
  lemma {:induction false} RejectChunks(s: TxState, cfg: Setup, hooks: Hooks, chunks: seq<seq<byte>>)
    requires cfg.requestBodyLimitAction == RequestBodyLimitActionReject && Buffering(s, cfg)
    requires chunks != []
    ensures var w := WriteAll(s, cfg, hooks, chunks);
      if |s.requestBody| + |Concat(chunks)| <= cfg.requestBodyLimit
      then w.it.None? && w.state.interruption.None? && w.state.requestBody == s.requestBody + Concat(chunks)
      else w.it == w.state.interruption == Some(BodyLimitInterruption)
    decreases |chunks|
  {
    var w := WriteStep(s, cfg, hooks, chunks[0]);
    if |chunks| > 1 {
      var rest := chunks[1..];
      if w.state.interruption.None? {
        assert w.state.requestBody == s.requestBody + chunks[0];
        RejectChunks(w.state, cfg, hooks, rest);
      } else {
        RejectedStaysRejected(w.state, cfg, hooks, rest);
      }
    }
  }

  lemma {:induction false} RejectedStaysRejected(s: TxState, cfg: Setup, hooks: Hooks, chunks: seq<seq<byte>>)
    requires cfg.ruleEngine != RuleEngineOff && cfg.requestBodyAccess
    requires s.interruption == Some(BodyLimitInterruption)
    requires chunks != []
    ensures var w := WriteAll(s, cfg, hooks, chunks);
      w.it == w.state.interruption == Some(BodyLimitInterruption)
    decreases |chunks|
  {
    if |chunks| > 1 {
      RejectedStaysRejected(s, cfg, hooks, chunks[1..]);
    }
  }

  /** Under ProcessPartial with rules that do not interrupt, a body written in chunks is
      buffered up to the limit, however it is split, no write interrupts, and a body
      that overflowed is flagged in INBOUND_DATA_ERROR. */
  lemma {:induction false} PartialChunks(s: TxState, cfg: Setup, hooks: Hooks, chunks: seq<seq<byte>>)
    requires cfg.requestBodyLimitAction == RequestBodyLimitActionProcessPartial && Buffering(s, cfg)
    requires Quiet(hooks)
    ensures var w := WriteAll(s, cfg, hooks, chunks);
      w.it.None? && w.state.interruption.None?
      && w.state.requestBody == Capped(s.requestBody + Concat(chunks), cfg.requestBodyLimit)
      && (|s.requestBody| + |Concat(chunks)| > cfg.requestBodyLimit ==> w.state.variables.inboundDataError == "1")
      && (s.variables.inboundDataError == "1" ==> w.state.variables.inboundDataError == "1")
    decreases |chunks|
  {
    if chunks != [] {
      var w := WriteStep(s, cfg, hooks, chunks[0]);
      PartialStep(s, cfg, hooks, chunks[0]);
      if |chunks| > 1 {
        var rest := chunks[1..];
        assert Buffering(w.state, cfg);
        PartialChunks(w.state, cfg, hooks, rest);
        assert WriteAll(s, cfg, hooks, chunks) == WriteAll(w.state, cfg, hooks, rest);
        CappedAppend(s.requestBody + chunks[0], Concat(rest), cfg.requestBodyLimit);
        assert Concat(chunks) == chunks[0] + Concat(rest);
        assert s.requestBody + chunks[0] + Concat(rest) == s.requestBody + Concat(chunks);
      } else {
        assert Concat(chunks) == chunks[0] + Concat([]);
      }
    }
  }

  /** One write under ProcessPartial with rules that do not interrupt. */
  lemma PartialStep(s: TxState, cfg: Setup, hooks: Hooks, data: seq<byte>)
    requires cfg.requestBodyLimitAction == RequestBodyLimitActionProcessPartial && Buffering(s, cfg)
    requires Quiet(hooks)
    ensures var w := WriteStep(s, cfg, hooks, data);
      w.it.None? && w.state.interruption.None?
      && w.state.requestBody == Capped(s.requestBody + data, cfg.requestBodyLimit)
      && (|s.requestBody| + |data| > cfg.requestBodyLimit ==> w.state.variables.inboundDataError == "1")
      && (s.variables.inboundDataError == "1" ==> w.state.variables.inboundDataError == "1")
  {
    var room := Room(|s.requestBody|, cfg.requestBodyLimit);
    WriteFacts(s, cfg, hooks, data);
    if |data| > room {
      assert (s.requestBody + data)[..cfg.requestBodyLimit] == s.requestBody + data[..room];
    }
  }

  /** Writing one more chunk is one more write on the state the earlier ones left. */
  lemma {:induction false} WriteAllSnoc(s: TxState, cfg: Setup, hooks: Hooks, chunks: seq<seq<byte>>, c: seq<byte>)
    ensures WriteAll(s, cfg, hooks, chunks + [c])
         == WriteStep(if chunks == [] then s else WriteAll(s, cfg, hooks, chunks).state, cfg, hooks, c)
    decreases |chunks|
  {
    if chunks == [] {
      assert chunks + [c] == [c];
    } else {
      var w := WriteStep(s, cfg, hooks, chunks[0]);
      assert (chunks + [c])[0] == chunks[0];
      assert (chunks + [c])[1..] == chunks[1..] + [c];
      WriteAllSnoc(w.state, cfg, hooks, chunks[1..], c);
    }
  }

  /** Chunks that fit under the limit together are buffered whole, whatever the policy,
      and nothing else changes. */
  lemma {:induction false} FitChunks(s: TxState, cfg: Setup, hooks: Hooks, chunks: seq<seq<byte>>)
    requires Buffering(s, cfg) && chunks != []
    requires |s.requestBody| + |Concat(chunks)| <= cfg.requestBodyLimit
    ensures var w := WriteAll(s, cfg, hooks, chunks);
      w.state == s.(requestBody := s.requestBody + Concat(chunks)) && w.it.None? && w.err.None?
    decreases |chunks|
  {
    var w := WriteStep(s, cfg, hooks, chunks[0]);
    if |chunks| > 1 {
      FitChunks(w.state, cfg, hooks, chunks[1..]);
      assert s.requestBody + chunks[0] + Concat(chunks[1..]) == s.requestBody + Concat(chunks);
    } else {
      assert Concat(chunks) == chunks[0] + Concat([]);
    }
  }

  /** Once the request body phase has run on a full buffer under ProcessPartial, further
      writes change nothing and report nothing. */
  lemma {:induction false} FullWritesKeepState(s: TxState, cfg: Setup, hooks: Hooks, chunks: seq<seq<byte>>)
    requires cfg.requestBodyLimitAction == RequestBodyLimitActionProcessPartial && Buffering(s, cfg)
    requires |s.requestBody| == cfg.requestBodyLimit && s.lastPhase >= PhaseRequestBody
    requires s.variables.inboundDataError == "1"
    requires chunks != []
    ensures var w := WriteAll(s, cfg, hooks, chunks);
      w.state == s && w.it.None? && w.err.None?
    decreases |chunks|
  {
    var c := chunks[0];
    assert c[..0] == [];
    assert s.requestBody + c[..0] == s.requestBody;
    assert s.variables.(inboundDataError := "1") == s.variables;
    if c == [] {
      assert s.requestBody + c == s.requestBody;
    }
    if |chunks| > 1 {
      FullWritesKeepState(s, cfg, hooks, chunks[1..]);
    }
  }

  /** Under ProcessPartial with rules that never interrupt, the write that overflows the
      limit runs the request body phase on exactly the first limit bytes of the body;
      what that phase makes of the store is what the writes leave, however the body is
      split, and no write after it changes anything. */
  lemma {:induction false} PartialChunksDecoded(s: TxState, cfg: Setup, hooks: Hooks, chunks: seq<seq<byte>>)
    requires cfg.requestBodyLimitAction == RequestBodyLimitActionProcessPartial && Buffering(s, cfg)
    requires Quiet(hooks) && s.lastPhase < PhaseRequestBody
    requires |s.requestBody| + |Concat(chunks)| > cfg.requestBodyLimit
    requires var cut := Capped(s.requestBody + Concat(chunks), cfg.requestBodyLimit);
      DecodedRequestBody(s.variables.(inboundDataError := "1"), cut, cfg, hooks).BodyOk?
    ensures var w := WriteAll(s, cfg, hooks, chunks);
      var cut := Capped(s.requestBody + Concat(chunks), cfg.requestBodyLimit);
      w.it.None? && w.err.None? && w.state.interruption.None? && w.state.requestBody == cut
      && w.state.variables == DecodedRequestBody(s.variables.(inboundDataError := "1"), cut, cfg, hooks).vars
      && w.state.lastPhase >= PhaseRequestBody
    decreases |chunks|
  {
    var c := chunks[0];
    var rest := chunks[1..];
    var room := Room(|s.requestBody|, cfg.requestBodyLimit);
    var w := WriteStep(s, cfg, hooks, c);
    assert Concat(chunks) == c + Concat(rest);
    assert s.requestBody + Concat(chunks) == (s.requestBody + c) + Concat(rest);
    if |c| <= room {
      assert |rest| > 0;
      PartialChunksDecoded(w.state, cfg, hooks, rest);
    } else {
      var cut := Capped(s.requestBody + Concat(chunks), cfg.requestBodyLimit);
      assert cut == s.requestBody + c[..room];
      var t := s.(requestBody := s.requestBody + c[..room],
                  variables := s.variables.(inboundDataError := "1"));
      RequestBodyPhaseFacts(t, cfg, hooks);
      if |chunks| > 1 {
        FullWritesKeepState(w.state, cfg, hooks, rest);
      }
    }
  }

  /** A write to a buffer already at its limit takes no byte. An interruption already
      attached comes back unchanged; under ProcessPartial, with none attached, rules
      that never interrupt and a body no processor parses, no interruption and no error
      come back. */
  lemma WriteAtLimit(s: TxState, cfg: Setup, hooks: Hooks, data: seq<byte>)
    requires cfg.ruleEngine != RuleEngineOff && cfg.requestBodyAccess
    requires |s.requestBody| == cfg.requestBodyLimit && data != []
    requires cfg.requestBodyLimitAction == RequestBodyLimitActionReject
          || cfg.requestBodyLimitAction == RequestBodyLimitActionProcessPartial
    ensures var w := WriteStep(s, cfg, hooks, data);
      w.n == 0
      && (s.interruption.Some? ==> w.it == s.interruption && w.err.None?)
      && (s.interruption.None? && cfg.requestBodyLimitAction == RequestBodyLimitActionProcessPartial
          && Quiet(hooks) && BodyProcessor(RequestContentType(s.variables), cfg.forceRequestBodyVariable) == "" ==>
            w.it.None? && w.err.None?)
  {
    if s.interruption.None? && cfg.requestBodyLimitAction == RequestBodyLimitActionProcessPartial {
      var t := s.(requestBody := s.requestBody + data[..0],
                  variables := s.variables.(inboundDataError := "1"));
      RequestBodyPhaseFacts(t, cfg, hooks);
      assert RequestContentType(t.variables) == RequestContentType(s.variables);
    }
  }

  // ----- response body -----

  /** The response body rules see is the buffered body cut to the limit, and a cut body
      is flagged in OUTBOUND_DATA_ERROR; the buffer itself is kept whole. */
  lemma ResponseBodyTruncation(s: TxState, cfg: Setup, hooks: Hooks)
    requires s.interruption.None? && cfg.ruleEngine != RuleEngineOff && cfg.responseBodyAccess
    ensures var r := ResponseBodyStep(s, cfg, hooks).state;
      r.variables.responseBody == StringOf(Capped(s.responseBody, cfg.responseBodyLimit))
      && (|s.responseBody| > cfg.responseBodyLimit ==> r.variables.outboundDataError == "1")
      && (|s.responseBody| <= cfg.responseBodyLimit ==>
            r.variables.outboundDataError == s.variables.outboundDataError)
      && r.responseBody == s.responseBody && r.lastPhase >= PhaseResponseBody
  {
  }

  /** The audit decision, case by case. */
  lemma AuditDecision(s: TxState, cfg: Setup, hooks: Hooks)
    ensures var r := LoggingStep(s, cfg, hooks);
      (cfg.auditEngine == AuditEngineOn ==> r.audited)
      && (cfg.auditEngine == AuditEngineOff ==> !r.audited)
      && (cfg.auditEngine == AuditEngineRelevantOnly ==>
            (r.audited <==> hooks.relevantStatus(s.variables.responseStatus)))
  {
  }
}
