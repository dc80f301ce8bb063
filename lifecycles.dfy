/** The transaction life cycles of internal/corazawaf/transaction_test.go, driven on
    fresh engine and transaction objects: each method sets up an engine the way a test
    does, calls the transaction's operations in the test's order and returns what the
    test inspects; its postcondition is the test's expectation. The rule set, the body
    parsers and the relevant-status matcher stay parameters (Hooks); where a test relies
    on there being no rules, the method requires that no rule ever interrupts. */
module Lifecycles {
  import opened WafTypes
  import opened Collections
  import opened Transactions
  import opened Engine
  import Decimal

  /** The bytes of a string whose characters all fit in a byte. */
  function Bytes(s: string): (b: seq<byte>)
    requires forall i :: 0 <= i < |s| ==> s[i] as int < 256
    ensures |b| == |s|
    ensures forall i :: 0 <= i < |s| ==> b[i] as int == s[i] as int
  {
    seq(|s|, i requires 0 <= i < |s| => s[i] as int as byte)
  }

  /** Reading the bytes of a string back as a string gives the string. */
  lemma StringOfBytes(s: string)
    requires forall i :: 0 <= i < |s| ==> s[i] as int < 256
    ensures StringOf(Bytes(s)) == s
  {
    var t := StringOf(Bytes(s));
    forall i | 0 <= i < |s| ensures t[i] == s[i] {
      assert t[i] as int == s[i] as int;
    }
  }

  /** The interruption the tests attach beforehand: rule 123, nothing else set. */
  const Rule123 := Interruption(123, "", 0, "")

  /** A transaction handed out fresh, with its rule engine switched off. */
  method EngineOffTransaction(hooks: Hooks) returns (waf: Waf, tx: Transaction)
    ensures fresh(waf) && fresh(tx) && tx.waf == waf && waf.hooks == hooks && tx.Valid()
    ensures tx.ruleEngine == RuleEngineOff && tx.interruption.None? && tx.lastPhase == 0
  {
    waf := new Waf(hooks);
    tx := waf.NewTransaction("1");
    tx.ruleEngine := RuleEngineOff;
  }

  /** TestProcess*DoesNoEvaluationOnEngineOff: with the rule engine switched off on the
      transaction, none of the five phase operations evaluates anything, so no phase is
      ever reached, and the two body phases report no error. */
  method EngineOffScenario(hooks: Hooks) returns (off: bool, phases: seq<nat>, errs: seq<Option<string>>)
    ensures off
    ensures phases == [0, 0, 0, 0, 0]
    ensures errs == [None, None]
  {
    var waf, tx := EngineOffTransaction(hooks);
    off := tx.IsRuleEngineOff();
    var it := tx.ProcessRequestHeaders();
    phases := [tx.lastPhase];
    var it2, e1 := tx.ProcessRequestBody();
    phases := phases + [tx.lastPhase];
    var it3 := tx.ProcessResponseHeaders(200, "OK");
    phases := phases + [tx.lastPhase];
    var it4, e2 := tx.ProcessResponseBody();
    phases := phases + [tx.lastPhase];
    tx.ProcessLogging();
    phases := phases + [tx.lastPhase];
    errs := [e1, e2];
  }

  /** The transaction of TestProcessorsIdempotency before its calls: the interruption of
      rule 123 attached, nothing logged yet. */
  method InterruptedTransaction(hooks: Hooks) returns (waf: Waf, tx: Transaction)
    ensures fresh(waf) && fresh(tx) && tx.waf == waf && waf.hooks == hooks && tx.Valid()
    ensures tx.interruption == Some(Rule123) && waf.log == []
  {
    waf := new Waf(hooks);
    tx := waf.NewTransaction("1");
    tx.interruption := Some(Rule123);
  }

  /** TestProcessorsIdempotency: on a transaction that already carries an interruption,
      each of the four phase operations returns that interruption, reports no error and
      writes exactly one entry to the error log, naming the operation. The log is
      emptied before each call, as the test's logger is. */
  method IdempotencyScenario(hooks: Hooks) returns (its: seq<Option<Interruption>>, errs: seq<Option<string>>, logs: seq<seq<string>>)
    ensures its == [Some(Rule123), Some(Rule123), Some(Rule123), Some(Rule123)]
    ensures errs == [None, None]
    ensures logs == [[Preexisting("ProcessRequestHeaders")], [Preexisting("ProcessRequestBody")],
                     [Preexisting("ProcessResponseHeaders")], [Preexisting("ProcessResponseBody")]]
  {
    var waf, tx := InterruptedTransaction(hooks);
    var it1 := tx.ProcessRequestHeaders();
    assert waf.log == [Preexisting("ProcessRequestHeaders")];
    assert tx.interruption == Some(Rule123);
    logs := [waf.log];
    waf.log := [];
    var it2, e1 := tx.ProcessRequestBody();
    assert waf.log == [Preexisting("ProcessRequestBody")];
    assert tx.interruption == Some(Rule123);
    logs := logs + [waf.log];
    waf.log := [];
    var it3 := tx.ProcessResponseHeaders(200, "HTTP/1");
    assert waf.log == [Preexisting("ProcessResponseHeaders")];
    assert tx.interruption == Some(Rule123);
    logs := logs + [waf.log];
    waf.log := [];
    var it4, e2 := tx.ProcessResponseBody();
    assert waf.log == [Preexisting("ProcessResponseBody")];
    logs := logs + [waf.log];
    its := [it1, it2, it3, it4];
    errs := [e1, e2];
  }

  /** TestTransactionSyncPool: a transaction that recorded a fired rule is closed and a
      transaction is taken from the engine again, round after round; every transaction
      handed out has no fired rules. */
  method SyncPoolScenario(hooks: Hooks, rounds: nat) returns (counts: seq<nat>)
    ensures |counts| == rounds
    ensures forall i :: 0 <= i < rounds ==> counts[i] == 0
  {
    var waf := new Waf(hooks);
    var tx := waf.NewTransaction("1");
    tx.MatchRule(1234, []);
    counts := [];
    var i := 0;
    while i < rounds
      invariant i <= rounds && |counts| == i
      invariant forall j :: 0 <= j < i ==> counts[j] == 0
      invariant waf.Valid() && tx.waf == waf && tx.Valid()
      invariant fresh(waf) && fresh(tx)
      invariant forall t :: t in waf.pool ==> fresh(t)
    {
      tx := Recycle(waf, tx);
      counts := counts + [|tx.matchedRules|];
      i := i + 1;
    }
  }

  /** One round of TestTransactionSyncPool: close the transaction and take one from
      the engine again. */
  method Recycle(waf: Waf, tx: Transaction) returns (next: Transaction)
    requires waf.Valid() && tx.waf == waf && tx.Valid()
    modifies tx, waf, set t | t in waf.pool
    ensures waf.Valid() && next.waf == waf && next.Valid() && next.matchedRules == []
    ensures next == tx || next in old(waf.pool) || fresh(next)
    ensures forall t :: t in waf.pool ==> t == tx || t in old(waf.pool)
  {
    tx.Close();
    next := waf.NewTransaction("1");
  }

  /** The prefix of the bytes of a string is the bytes of its prefix. */
  lemma BytesPrefix(s: string, k: nat)
    requires forall i :: 0 <= i < |s| ==> s[i] as int < 256
    requires k <= |s|
    ensures Bytes(s)[..k] == Bytes(s[..k])
  {
  }

  /** The ten bytes of "more bytes" cut to three read as "mor". */
  lemma MoreBytesCut(b: seq<byte>)
    requires b == Bytes("more bytes")
    ensures StringOf(Capped(b, 3)) == "mor"
  {
    BytesPrefix("more bytes", 3);
    assert "more bytes"[..3] == "mor";
    StringOfBytes("mor");
  }

  /** TestTxPhase4Magic: a response body of ten bytes against a limit of three is exposed
      as its first three bytes, and OUTBOUND_DATA_ERROR is set. */
  method Phase4MagicScenario(hooks: Hooks) returns (outbound: string, body: string, err: Option<string>)
    ensures err == None
    ensures outbound == "1"
    ensures body == "mor"
  {
    var waf := new Waf(hooks);
    var tx := waf.NewTransaction("1");
    tx.AddResponseHeader("content-type", "text/html");
    tx.responseBodyAccess := true;
    waf.responseBodyLimit := 3;
    tx.WriteResponseBodyBuffer(Bytes("more bytes"));
    ghost var s, cfg := tx.Snapshot(), tx.Settings();
    var it;
    it, err := tx.ProcessResponseBody();
    outbound := tx.variables.outboundDataError;
    body := tx.variables.responseBody;
    ResponseBodyTruncation(s, cfg, waf.hooks);
    MoreBytesCut(s.responseBody);
  }

  /** The transaction of TestWriteRequestBodyOnLimitReached before the write: engine
      On, request body access on, a limit of two bytes already filled, the limit action,
      and under Reject the interruption of rule 123 attached. */
  method LimitReachedTransaction(hooks: Hooks, reject: bool) returns (waf: Waf, tx: Transaction)
    ensures fresh(waf) && fresh(tx) && tx.waf == waf && waf.hooks == hooks && tx.Valid()
    ensures var s, cfg := tx.Snapshot(), tx.Settings();
      cfg.ruleEngine == RuleEngineOn && cfg.requestBodyAccess && !cfg.forceRequestBodyVariable
      && cfg.requestBodyLimit == 2 && |s.requestBody| == 2
      && cfg.requestBodyLimitAction
         == (if reject then RequestBodyLimitActionReject else RequestBodyLimitActionProcessPartial)
      && s.interruption == (if reject then Some(Rule123) else None)
      && s.variables.requestHeaders == []
  {
    waf := new Waf(hooks);
    waf.ruleEngine := RuleEngineOn;
    waf.requestBodyAccess := true;
    waf.requestBodyLimit := 2;
    waf.requestBodyLimitAction :=
      if reject then RequestBodyLimitActionReject else RequestBodyLimitActionProcessPartial;
    tx := waf.NewTransaction("1");
    tx.WriteRequestBodyBuffer(Bytes("ab"));
    tx.interruption := if reject then Some(Rule123) else None;
  }

  /** A request without headers has no content type, so an unforced body is not parsed. */
  lemma NoContentTypeUnparsed(vars: Variables)
    requires vars.requestHeaders == []
    ensures BodyProcessor(RequestContentType(vars), false) == ""
  {
  }

  /** TestWriteRequestBodyOnLimitReached: two bytes are buffered against a limit of two
      and one more is written, by either writer. Under Reject, with an interruption
      already attached, that interruption comes back; under ProcessPartial, with none
      attached and no rule interrupting, none comes back. Either way no byte is taken
      and no error is reported. */
  method OnLimitReachedScenario(hooks: Hooks, reject: bool, viaReader: bool)
    returns (it: Option<Interruption>, n: nat, err: Option<string>)
    requires Quiet(hooks)
    ensures it == (if reject then Some(Rule123) else None)
    ensures n == 0
    ensures err == None
  {
    var waf, tx := LimitReachedTransaction(hooks, reject);
    ghost var s, cfg := tx.Snapshot(), tx.Settings();
    NoContentTypeUnparsed(s.variables);
    var more := Bytes("c");
    WriteAtLimit(s, cfg, hooks, more);
    if viaReader {
      it, n, err := tx.ReadRequestBodyFrom(more);
    } else {
      it, n, err := tx.WriteRequestBody(more);
    }
  }

  // ----- request body writes in chunks -----

  /** The urlencoded body parser accepts every body. */
  ghost predicate UrlencodedTotal(hooks: Hooks)
  {
    forall b :: hooks.decode("URLENCODED", b).Decoded?
  }

  /** A request whose only header is an urlencoded content type is handed to the
      URLENCODED processor. The header name and value are parameters fixed by the
      requires, which keeps the solver from unfolding the lookup on literals early. */
  lemma UrlencodedRequest(vars: Variables, key: string, ct: string)
    requires key == "content-type" && ct == "application/x-www-form-urlencoded"
    requires vars.requestHeaders == Add([], key, ct)
    ensures BodyProcessor(RequestContentType(vars), false) == "URLENCODED"
  {
    NoUpperLower(key);
    NoUpperLower(ct);
    GetAdd([], key, ct, key);
  }

  /** The engine of TestWriteRequestBody: rule engine On, request body access on, the
      given limit and limit action. */
  method BodyWaf(hooks: Hooks, limit: nat, action: int) returns (waf: Waf)
    ensures fresh(waf) && waf.Valid() && waf.hooks == hooks && waf.pool == []
    ensures waf.ruleEngine == RuleEngineOn && waf.auditEngine == AuditEngineOff
    ensures waf.requestBodyAccess && !waf.responseBodyAccess && waf.responseBodyLimit == 524288
    ensures waf.requestBodyLimit == limit && waf.requestBodyLimitAction == action
  {
    waf := new Waf(hooks);
    waf.requestBodyAccess := true;
    waf.requestBodyLimit := limit;
    waf.requestBodyLimitAction := action;
  }

  /** The engine and transaction of TestWriteRequestBody, after the request headers
      phase: engine On, request body access on, the given limit and limit action, and a
      urlencoded content type. */
  method UrlencodedTransaction(hooks: Hooks, limit: nat, action: int) returns (waf: Waf, tx: Transaction)
    requires Quiet(hooks)
    ensures fresh(waf) && fresh(tx) && tx.waf == waf && waf.hooks == hooks && tx.Valid()
    ensures tx.Settings() == Setup(RuleEngineOn, true, limit, action, false, false, 524288, AuditEngineOff)
    ensures var s := tx.Snapshot();
      s.interruption.None? && s.lastPhase < PhaseRequestBody && s.requestBody == []
      && s.variables.argsPost == []
      && BodyProcessor(RequestContentType(s.variables), false) == "URLENCODED"
  {
    waf, tx := UrlencodedRequestTransaction(hooks, limit, action);
    var it := tx.ProcessRequestHeaders();
  }

  /** The same engine and transaction before the request headers phase. */
  method UrlencodedRequestTransaction(hooks: Hooks, limit: nat, action: int) returns (waf: Waf, tx: Transaction)
    ensures fresh(waf) && fresh(tx) && tx.waf == waf && waf.hooks == hooks && tx.Valid()
    ensures tx.Settings() == Setup(RuleEngineOn, true, limit, action, false, false, 524288, AuditEngineOff)
    ensures var s := tx.Snapshot();
      s.interruption.None? && s.lastPhase == 0 && s.requestBody == []
      && s.variables.argsPost == []
      && BodyProcessor(RequestContentType(s.variables), false) == "URLENCODED"
  {
    waf := BodyWaf(hooks, limit, action);
    tx := waf.NewTransaction("1");
    var key, ct := "content-type", "application/x-www-form-urlencoded";
    tx.AddRequestHeader(key, ct);
    UrlencodedRequest(tx.variables, key, ct);
  }

  /** TestWriteRequestBody: an urlencoded body is written in chunks, by either writer,
      after the request headers phase. When Reject applies and the body is over the
      limit, the writes end with the body-limit interruption. Otherwise the request body
      phase sees no interruption and no error, and ARGS_POST holds what the parser makes
      of the body cut to the limit: all of it when it fits, its first limit bytes under
      ProcessPartial. */
  method WriteRequestBodyScenario(hooks: Hooks, chunks: seq<seq<byte>>, limit: nat, action: int, viaReader: bool)
    returns (it: Option<Interruption>, err: Option<string>, args: MultiMap)
    requires Quiet(hooks) && UrlencodedTotal(hooks)
    requires chunks != []
    requires action == RequestBodyLimitActionReject || action == RequestBodyLimitActionProcessPartial
          || |Concat(chunks)| <= limit
    ensures var body := Concat(chunks);
      if action == RequestBodyLimitActionReject && |body| > limit then it == Some(BodyLimitInterruption)
      else it.None? && err.None? && args == LowerKeys(hooks.decode("URLENCODED", Capped(body, limit)).args)
  {
    var waf, tx := UrlencodedTransaction(hooks, limit, action);
    ghost var s0, cfg := tx.Snapshot(), tx.Settings();
    it, err := WriteChunks(tx, chunks, viaReader);
    ghost var s1 := tx.Snapshot();
    WriteBodyOutcome(s0, s1, cfg, hooks, chunks);
    if it.None? {
      it, err := tx.ProcessRequestBody();
    }
    args := tx.variables.argsPost;
  }

  /** Writes the chunks one after another, all by the same writer. */
  method WriteChunks(tx: Transaction, chunks: seq<seq<byte>>, viaReader: bool)
    returns (it: Option<Interruption>, err: Option<string>)
    requires tx.Valid() && chunks != []
    modifies tx, tx.waf`log
    ensures tx.Valid() && tx.Settings() == old(tx.Settings())
    ensures var w := WriteAll(old(tx.Snapshot()), old(tx.Settings()), tx.waf.hooks, chunks);
      tx.Snapshot() == w.state && it == w.it && err == w.err
  {
    ghost var s0, cfg := tx.Snapshot(), tx.Settings();
    it, err := None, None;
    var i := 0;
    while i < |chunks|
      invariant 0 <= i <= |chunks|
      invariant tx.Valid() && tx.Settings() == cfg
      invariant i == 0 ==> tx.Snapshot() == s0
      invariant i > 0 ==> var w := WriteAll(s0, cfg, tx.waf.hooks, chunks[..i]);
        tx.Snapshot() == w.state && it == w.it && err == w.err
    {
      var n;
      if viaReader {
        it, n, err := tx.ReadRequestBodyFrom(chunks[i]);
      } else {
        it, n, err := tx.WriteRequestBody(chunks[i]);
      }
      WriteAllSnoc(s0, cfg, tx.waf.hooks, chunks[..i], chunks[i]);
      assert chunks[..i + 1] == chunks[..i] + [chunks[i]];
      i := i + 1;
    }
    assert chunks[..|chunks|] == chunks;
  }

  /** The reasoning behind WriteRequestBodyScenario, on the step functions: s0 is the
      state after the request headers phase, s1 the one the writes leave. */
  lemma WriteBodyOutcome(s0: TxState, s1: TxState, cfg: Setup, hooks: Hooks, chunks: seq<seq<byte>>)
    requires Quiet(hooks) && UrlencodedTotal(hooks) && chunks != []
    requires cfg.ruleEngine == RuleEngineOn && cfg.requestBodyAccess && !cfg.forceRequestBodyVariable
    requires cfg.requestBodyLimitAction == RequestBodyLimitActionReject
          || cfg.requestBodyLimitAction == RequestBodyLimitActionProcessPartial
          || |Concat(chunks)| <= cfg.requestBodyLimit
    requires s0.interruption.None? && s0.lastPhase < PhaseRequestBody && s0.requestBody == []
    requires s0.variables.argsPost == []
    requires BodyProcessor(RequestContentType(s0.variables), false) == "URLENCODED"
    requires s1 == WriteAll(s0, cfg, hooks, chunks).state
    ensures var w := WriteAll(s0, cfg, hooks, chunks);
      var body := Concat(chunks);
      var cut := Capped(body, cfg.requestBodyLimit);
      if cfg.requestBodyLimitAction == RequestBodyLimitActionReject && |body| > cfg.requestBodyLimit
      then w.it == Some(BodyLimitInterruption)
      else (w.it.None? && w.err.None?
        && var st := RequestBodyStep(s1, cfg, hooks);
        st.it.None? && st.err.None?
        && st.state.variables.argsPost == LowerKeys(hooks.decode("URLENCODED", cut).args))
  {
    var body := Concat(chunks);
    var limit := cfg.requestBodyLimit;
    if cfg.requestBodyLimitAction == RequestBodyLimitActionReject && |body| > limit {
      RejectChunks(s0, cfg, hooks, chunks);
    } else if |body| <= limit {
      FitChunks(s0, cfg, hooks, chunks);
      assert [] + body == body;
      UrlencodedBodyPhase(s1, cfg, hooks);
    } else {
      PartialChunksDecoded(s0, cfg, hooks, chunks);
      assert [] + body == body;
    }
  }

  // ----- response headers and body -----

  /** TestResponseHeader: a content-type response header sets RESPONSE_CONTENT_TYPE, and
      with rules that never interrupt the response headers phase returns none. */
  method ResponseHeaderScenario(hooks: Hooks) returns (contentType: string, it: Option<Interruption>)
    requires Quiet(hooks)
    ensures contentType == "test"
    ensures it.None?
  {
    var waf := new Waf(hooks);
    var tx := waf.NewTransaction("1");
    tx.AddResponseHeader("content-type", "test");
    contentType := tx.variables.responseContentType;
    it := tx.ProcessResponseHeaders(200, "OK");
  }

  /** The transaction of TestResponseBody before its response body phase: engine On,
      response body access on, a text/plain response and the body "test123" buffered. */
  method ResponseBodyTransaction(hooks: Hooks) returns (waf: Waf, tx: Transaction)
    ensures fresh(waf) && fresh(tx) && tx.waf == waf && waf.hooks == hooks && tx.Valid()
    ensures var s, cfg := tx.Snapshot(), tx.Settings();
      s.interruption.None? && cfg.ruleEngine == RuleEngineOn && cfg.responseBodyAccess
      && |s.responseBody| <= cfg.responseBodyLimit && StringOf(s.responseBody) == "test123"
  {
    waf := new Waf(hooks);
    tx := waf.NewTransaction("1");
    tx.responseBodyAccess := true;
    tx.ruleEngine := RuleEngineOn;
    var key, ct := "content-type", "text/plain";
    tx.AddResponseHeader(key, ct);
    var written := "test123";
    tx.WriteResponseBodyBuffer(Bytes(written));
    StringOfBytes(written);
  }

  /** TestResponseBody: a response body under the limit is exposed whole. */
  method ResponseBodyScenario(hooks: Hooks) returns (body: string, err: Option<string>)
    ensures err.None?
    ensures body == "test123"
  {
    var waf, tx := ResponseBodyTransaction(hooks);
    ghost var s, cfg := tx.Snapshot(), tx.Settings();
    ResponseBodyTruncation(s, cfg, hooks);
    var it;
    it, err := tx.ProcessResponseBody();
    body := tx.variables.responseBody;
  }

  // ----- captures -----

  /** TestResetCapture: with capturing on, capture group 5 is stored under TX:5, and
      resetting the captures blanks it. */
  method ResetCaptureScenario(hooks: Hooks) returns (captured: seq<string>, reset: seq<string>)
    ensures captured == ["test"]
    ensures reset == [""]
  {
    var waf := new Waf(hooks);
    var tx := waf.NewTransaction("1");
    tx.capture := true;
    tx.CaptureField(5, "test");
    assert Decimal.IntToString(5) == Decimal.NatToString(5) == "5";
    GetSetFirst([], "5", "test", "5");
    captured := Get(tx.variables.tx, "5");
    tx.ResetCaptures();
    reset := Get(tx.variables.tx, Decimal.NatToString(5));
  }

  // ----- audit -----

  /** TestRelevantAuditLogging: with the audit engine RelevantOnly and a response status
      the relevant-status pattern matches, the transaction is audited. */
  method RelevantAuditScenario(hooks: Hooks) returns (audited: bool)
    requires hooks.relevantStatus("403")
    ensures audited
  {
    var waf := new Waf(hooks);
    var tx := waf.NewTransaction("1");
    tx.variables := tx.variables.(responseStatus := "403");
    tx.auditEngine := AuditEngineRelevantOnly;
    ghost var s, cfg := tx.Snapshot(), tx.Settings();
    tx.ProcessLogging();
    AuditDecision(s, cfg, waf.hooks);
    audited := tx.audited;
  }

  // ----- request body processing -----

  /** The transaction of TestTxReqBodyForce and TestRequestBodyProcessingAlgorithm
      before anything is written: engine On, request body access on, the request body
      variable forced, no header yet. */
  method ForcedTransaction(hooks: Hooks) returns (waf: Waf, tx: Transaction)
    ensures fresh(waf) && fresh(tx) && tx.waf == waf && waf.hooks == hooks && tx.Valid()
    ensures var s, cfg := tx.Snapshot(), tx.Settings();
      s.interruption.None? && s.lastPhase < PhaseRequestBody && s.requestBody == []
      && s.variables.requestHeaders == []
      && cfg.ruleEngine == RuleEngineOn && cfg.requestBodyAccess && cfg.forceRequestBodyVariable
  {
    waf := new Waf(hooks);
    tx := waf.NewTransaction("1");
    tx.ruleEngine := RuleEngineOn;
    tx.requestBodyAccess := true;
    tx.forceRequestBodyVariable := true;
  }

  /** A request without headers has no content type, so a forced body goes to
      URLENCODED. */
  lemma NoContentTypeForced(vars: Variables)
    requires vars.requestHeaders == []
    ensures BodyProcessor(RequestContentType(vars), true) == "URLENCODED"
  {
  }

  /** TestTxReqBodyForce: with the request body variable forced, a body without a
      content type is handed to URLENCODED and exposed as REQUEST_BODY. */
  method ReqBodyForceScenario(hooks: Hooks) returns (body: string, err: Option<string>)
    requires Quiet(hooks) && UrlencodedTotal(hooks)
    ensures err.None?
    ensures body == "test"
  {
    var waf, tx := ForcedTransaction(hooks);
    NoContentTypeForced(tx.variables);
    var written := "test";
    tx.WriteRequestBodyBuffer(Bytes(written));
    StringOfBytes(written);
    ghost var s, cfg := tx.Snapshot(), tx.Settings();
    UrlencodedBodyPhase(s, cfg, hooks);
    var it;
    it, err := tx.ProcessRequestBody();
    body := tx.variables.requestBody;
  }

  /** TestRequestBodyProcessingAlgorithm: with the request body variable forced, a
      text/plain body is handed to URLENCODED as well and exposed as REQUEST_BODY. */
  method BodyProcessingAlgorithmScenario(hooks: Hooks) returns (body: string, err: Option<string>)
    requires Quiet(hooks) && UrlencodedTotal(hooks)
    ensures err.None?
    ensures body == "test123"
  {
    var waf, tx := ForcedTransaction(hooks);
    var key, ct, len, n := "content-type", "text/plain", "content-length", "7";
    tx.AddRequestHeader(key, ct);
    tx.AddRequestHeader(len, n);
    PlainTextForced(tx.variables, key, ct, len, n);
    var written := "test123";
    tx.WriteRequestBodyBuffer(Bytes(written));
    StringOfBytes(written);
    ghost var s, cfg := tx.Snapshot(), tx.Settings();
    UrlencodedBodyPhase(s, cfg, hooks);
    var it;
    it, err := tx.ProcessRequestBody();
    body := tx.variables.requestBody;
  }

  /** A text/plain request is not routed to a parser by its content type, so a forced
      body goes to URLENCODED. */
  lemma PlainTextForced(vars: Variables, key: string, ct: string, len: string, n: string)
    requires key == "content-type" && ct == "text/plain" && len == "content-length" && n == "7"
    requires vars.requestHeaders == Add(Add([], key, ct), len, n)
    ensures BodyProcessor(RequestContentType(vars), true) == "URLENCODED"
  {
    NoUpperLower(key);
    NoUpperLower(ct);
    GetAdd([], key, ct, key);
    GetAdd(Add([], key, ct), len, n, key);
    assert Lower(len) != Lower(key) by {
      assert Lower(len)[8] == 'l' && Lower(key)[8] == 't';
    }
    assert !HasPrefix(ct, "multipart/form-data");
  }

  /** TestTxReqBodyForceNegative: without forcing, a body with no content type is not
      exposed as REQUEST_BODY. */
  method ReqBodyForceNegativeScenario(hooks: Hooks) returns (body: string, err: Option<string>)
    ensures err.None?
    ensures body == ""
  {
    var waf := new Waf(hooks);
    var tx := waf.NewTransaction("1");
    tx.requestBodyAccess := true;
    tx.forceRequestBodyVariable := false;
    tx.WriteRequestBodyBuffer(Bytes("test"));
    ghost var s, cfg := tx.Snapshot(), tx.Settings();
    NoContentTypeUnparsed(s.variables);
    UnparsedBodyPhase(s, cfg, hooks);
    var it;
    it, err := tx.ProcessRequestBody();
    body := tx.variables.requestBody;
  }

  // ----- matches, connection and arguments -----

  /** TestVariablesMatch: a match on ARGS_NAMES:sample sets MATCHED_VAR to its value and
      MATCHED_VAR_NAME to "ARGS_NAMES:sample", and MATCHED_VARS holds it. */
  method VariablesMatchScenario(hooks: Hooks) returns (value: string, name: string, matched: seq<string>)
    ensures value == "samplevalue"
    ensures name == "ARGS_NAMES:sample"
    ensures |matched| > 0
  {
    var waf := new Waf(hooks);
    var tx := waf.NewTransaction("1");
    tx.MatchVariable(MatchData("ARGS_NAMES", "sample", "samplevalue"));
    value := tx.variables.matchedVar;
    name := tx.variables.matchedVarName;
    assert name == "ARGS_NAMES" + ":" + "sample";
    GetAdd([], name, value, name);
    matched := Get(tx.variables.matchedVars, name);
  }

  /** TestTxProcessConnection: the client address and port are stored. */
  method ProcessConnectionScenario(hooks: Hooks) returns (addr: string, port: int)
    ensures addr == "127.0.0.1"
    ensures port == 80
  {
    var waf := new Waf(hooks);
    var tx := waf.NewTransaction("1");
    tx.ProcessConnection("127.0.0.1", 80, "127.0.0.2", 8080);
    addr := tx.variables.remoteAddr;
    port := tx.variables.remotePort;
  }

  /** TestTxAddArgument: a GET, a POST and a path argument each land in their own
      collection. */
  method AddArgumentScenario(hooks: Hooks) returns (get: seq<string>, post: seq<string>, path: seq<string>)
    ensures get == ["testvalue"]
    ensures post == ["ptestvalue"]
    ensures path == ["ptestvalue"]
  {
    var waf := new Waf(hooks);
    var tx := waf.NewTransaction("1");
    tx.ProcessConnection("127.0.0.1", 80, "127.0.0.2", 8080);
    tx.AddArgument(ArgumentGet, "test", "testvalue");
    tx.AddArgument(ArgumentPost, "ptest", "ptestvalue");
    tx.AddArgument(ArgumentPath, "ptest2", "ptestvalue");
    GetAdd([], "test", "testvalue", "test");
    GetAdd([], "ptest", "ptestvalue", "ptest");
    GetAdd([], "ptest2", "ptestvalue", "ptest2");
    get := Get(tx.variables.argsGet, "test");
    post := Get(tx.variables.argsPost, "ptest");
    path := Get(tx.variables.argsPath, "ptest2");
  }
}
