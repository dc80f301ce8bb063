/** The engine and its transactions as objects: the WAF holds the shared configuration,
    the error log and the pool of reusable transactions; a Transaction holds its own copy
    of the settings, its sticky interruption, the phase it reached, the rules that fired,
    its variable store and its two body buffers (internal/corazawaf/transaction_test.go).
    Each phase method is proved to move the transaction exactly as the step function of
    module Transactions says. */
module Engine {
  import opened WafTypes
  import opened Collections
  import opened Transactions
  import Decimal
  import Macros

  /** Where an argument came from. */
  datatype ArgumentType = ArgumentGet | ArgumentPost | ArgumentPath

  /** The name a match is recorded under: the variable, then ":" and the key if any. */
  function MatchedName(md: MatchData): string
  {
    if md.key == "" then md.variableName else md.variableName + ":" + md.key
  }

  /** The position of the first ':' of a string, or its length. */
  function ColonIndex(s: string): (n: nat)
    ensures n <= |s| && (n < |s| ==> s[n] == ':')
    ensures forall j :: 0 <= j < n ==> s[j] != ':'
  {
    if s == [] || s[0] == ':' then 0 else 1 + ColonIndex(s[1..])
  }

  /** A recorded name splits back into the variable and the key at its first ':', as
      long as variable names hold no ':' (none does): a name with no ':' is a whole
      variable, and distinct matches of a variable get distinct names. */
  lemma {:induction false} MatchedNameSplits(md: MatchData)
    requires forall j :: 0 <= j < |md.variableName| ==> md.variableName[j] != ':'
    ensures var name := MatchedName(md);
      var c := ColonIndex(name);
      name[..c] == md.variableName
      && (md.key == "" <==> c == |name|)
      && (md.key != "" ==> name[c + 1..] == md.key)
  {
    var name := MatchedName(md);
    var v := md.variableName;
    assert name[..|v|] == v;
    ColonIndexPrefix(v, name);
    if md.key != "" {
      assert name[|v|] == ':' && name[|v| + 1..] == md.key;
    }
  }

  lemma {:induction false} ColonIndexPrefix(v: string, s: string)
    requires v <= s && (|v| < |s| ==> s[|v|] == ':')
    requires forall j :: 0 <= j < |v| ==> v[j] != ':'
    ensures ColonIndex(s) == |v|
    decreases |v|
  {
    if v != [] {
      assert s[0] == v[0];
      ColonIndexPrefix(v[1..], s[1..]);
    }
  }

  /** A capture slot after resetCaptures: its first value is "", the rest are kept. */
  function Cleared(vs: seq<string>): seq<string>
  {
    [""] + (if vs == [] then [] else vs[1..])
  }

  /** The keys of the capture slots: a single decimal digit. */
  predicate IsCaptureSlot(k: string)
  {
    |k| == 1 && Decimal.IsDigit(k[0])
  }

  class Waf {
    const hooks: Hooks
    var ruleEngine: int
    var requestBodyAccess: bool
    var requestBodyLimit: nat
    var requestBodyLimitAction: int
    var responseBodyAccess: bool
    var responseBodyLimit: nat
    var auditEngine: int
    /** The entries written to the error logger, oldest first. */
    var log: seq<string>
    /** Closed transactions waiting to be handed out again. */
    var pool: seq<Transaction>

    /** Every pooled transaction belongs to this engine and is pooled at most once. */
    ghost predicate Valid()
      reads this
    {
      (forall t :: t in pool ==> t.waf == this)
      && (forall i, j :: 0 <= i < j < |pool| ==> pool[i] != pool[j])
    }

    constructor (hooks: Hooks)
      ensures Valid() && this.hooks == hooks && pool == [] && log == []
      ensures ruleEngine == RuleEngineOn && auditEngine == AuditEngineOff
      ensures !requestBodyAccess && !responseBodyAccess
      ensures requestBodyLimit == 134217728 && responseBodyLimit == 524288
      ensures requestBodyLimitAction == RequestBodyLimitActionProcessPartial
    {
      this.hooks := hooks;
      ruleEngine := RuleEngineOn;
      requestBodyAccess := false;
      requestBodyLimit := 134217728;
      requestBodyLimitAction := RequestBodyLimitActionProcessPartial;
      responseBodyAccess := false;
      responseBodyLimit := 524288;
      auditEngine := AuditEngineOff;
      log := [];
      pool := [];
    }

    /** A transaction in its initial state with this engine's settings: the most
        recently closed one when the pool has one, a new one otherwise. */
    method NewTransaction(id: string) returns (tx: Transaction)
      requires Valid()
      modifies this`pool, if pool == [] then {} else {pool[|pool| - 1]}
      ensures Valid() && tx.waf == this && tx.Valid() && tx.CheckedOut(id)
      ensures tx !in pool
      ensures old(pool) == [] ==> fresh(tx) && pool == []
      ensures old(pool) != [] ==>
        tx == old(pool)[|old(pool)| - 1] && pool == old(pool)[..|old(pool)| - 1]
    {
      if |pool| > 0 {
        tx := pool[|pool| - 1];
        pool := pool[..|pool| - 1];
        tx.Reset(id);
      } else {
        tx := new Transaction(this, id);
      }
    }
  }

  class Transaction {
    const waf: Waf
    var id: string
    var ruleEngine: int
    var requestBodyAccess: bool
    var requestBodyLimit: nat
    var requestBodyLimitAction: int
    var forceRequestBodyVariable: bool
    var responseBodyAccess: bool
    var auditEngine: int
    var capture: bool
    var interruption: Option<Interruption>
    var lastPhase: nat
    var matchedRules: seq<MatchedRule>
    var variables: Variables
    var requestBodyBuffer: seq<byte>
    var responseBodyBuffer: seq<byte>
    var audited: bool

    /** UNIQUE_ID is the transaction id. */
    ghost predicate Valid()
      reads this
    {
      variables.uniqueId == id
    }

    function Snapshot(): TxState
      reads this
    {
      TxState(interruption, lastPhase, matchedRules, variables,
              requestBodyBuffer, responseBodyBuffer, audited)
    }

    function Settings(): Setup
      reads this, waf
    {
      Setup(ruleEngine, requestBodyAccess, requestBodyLimit, requestBodyLimitAction,
            forceRequestBodyVariable, responseBodyAccess, waf.responseBodyLimit, auditEngine)
    }

    /** The settings, the id and the capture flag are as they were. */
    twostate predicate Kept()
      reads this, waf
    {
      Settings() == old(Settings()) && id == old(id) && capture == old(capture)
    }

    /** Freshly handed out: initial state, the engine's settings, capture and forced
        request body off. */
    ghost predicate CheckedOut(id: string)
      reads this, waf
    {
      this.id == id && Snapshot() == Initial(id)
      && ruleEngine == waf.ruleEngine && requestBodyAccess == waf.requestBodyAccess
      && requestBodyLimit == waf.requestBodyLimit
      && requestBodyLimitAction == waf.requestBodyLimitAction
      && responseBodyAccess == waf.responseBodyAccess && auditEngine == waf.auditEngine
      && !capture && !forceRequestBodyVariable
    }

    constructor (waf: Waf, id: string)
      ensures this.waf == waf && Valid() && CheckedOut(id)
    {
      this.waf := waf;
      this.id := id;
      ruleEngine := waf.ruleEngine;
      requestBodyAccess := waf.requestBodyAccess;
      requestBodyLimit := waf.requestBodyLimit;
      requestBodyLimitAction := waf.requestBodyLimitAction;
      forceRequestBodyVariable := false;
      responseBodyAccess := waf.responseBodyAccess;
      auditEngine := waf.auditEngine;
      capture := false;
      interruption := None;
      lastPhase := 0;
      matchedRules := [];
      variables := EmptyVariables(id);
      requestBodyBuffer := [];
      responseBodyBuffer := [];
      audited := false;
    }

    /** Prepares a pooled transaction for reuse. */
    method Reset(id: string)
      modifies this
      ensures CheckedOut(id)
      ensures Valid()
    {
      this.id := id;
      ruleEngine := waf.ruleEngine;
      requestBodyAccess := waf.requestBodyAccess;
      requestBodyLimit := waf.requestBodyLimit;
      requestBodyLimitAction := waf.requestBodyLimitAction;
      responseBodyAccess := waf.responseBodyAccess;
      auditEngine := waf.auditEngine;
      forceRequestBodyVariable := false;
      capture := false;
      Scrub();
    }

    /** Empties the mutable state: no interruption, no phase reached, no fired rules,
        an empty store keeping only the id, empty buffers. */
    method Scrub()
      modifies this
      ensures Kept() && Snapshot() == Initial(id) && Valid()
    {
      interruption := None;
      lastPhase := 0;
      matchedRules := [];
      variables := EmptyVariables(id);
      requestBodyBuffer := [];
      responseBodyBuffer := [];
      audited := false;
    }

    predicate IsRuleEngineOff()
      reads this
    {
      ruleEngine == RuleEngineOff
    }

    /** The fields a rule variable selects from this transaction's store. */
    function GetField(rv: RuleVariableParams): seq<Field>
      reads this
    {
      Collections.GetField(variables, rv)
    }

    /** A macro expanded against this transaction's store. */
    function Expand(m: Macros.Macro): string
      reads this
    {
      Macros.Expand(m, variables)
    }

    // ----- rule evaluation -----

    method Evaluate(phase: nat)
      modifies this
      ensures Snapshot() == Evaluated(old(Snapshot()), phase, Settings(), waf.hooks)
      ensures Kept()
    {
      var v := waf.hooks.rules(phase, variables);
      lastPhase := Max(lastPhase, phase);
      matchedRules := matchedRules + v.matched;
      if interruption.None? && ruleEngine == RuleEngineOn {
        interruption := v.interruption;
      }
    }

    /** Logs the diagnostic of a phase operation refused for a preexisting interruption. */
    method Refuse(operation: string)
      modifies waf`log
      ensures waf.log == old(waf.log) + [Preexisting(operation)]
    {
      waf.log := waf.log + [Preexisting(operation)];
    }

    // ----- phase operations -----

    method ProcessRequestHeaders() returns (it: Option<Interruption>)
      requires Valid()
      modifies this, waf`log
      ensures Valid() && Kept()
      ensures var st := RequestHeadersStep(old(Snapshot()), old(Settings()), waf.hooks);
        Snapshot() == st.state && it == st.it && waf.log == old(waf.log) + st.logged
    {
      if interruption.Some? {
        Refuse("ProcessRequestHeaders");
        return interruption;
      }
      if ruleEngine == RuleEngineOff {
        return None;
      }
      Evaluate(PhaseRequestHeaders);
      it := interruption;
    }

    method ProcessRequestBody() returns (it: Option<Interruption>, err: Option<string>)
      requires Valid()
      modifies this, waf`log
      ensures Valid() && Kept()
      ensures var st := RequestBodyStep(old(Snapshot()), old(Settings()), waf.hooks);
        Snapshot() == st.state && it == st.it && err == st.err
        && waf.log == old(waf.log) + st.logged
    {
      if interruption.Some? {
        Refuse("ProcessRequestBody");
        return interruption, None;
      }
      if ruleEngine == RuleEngineOff {
        return None, None;
      }
      if lastPhase >= PhaseRequestBody {
        return interruption, None;
      }
      if requestBodyAccess {
        var processor := BodyProcessor(RequestContentType(variables), forceRequestBodyVariable);
        if processor != "" {
          var decoded := waf.hooks.decode(processor, requestBodyBuffer);
          if decoded.Malformed? {
            return None, Some(decoded.message);
          }
          variables := variables.(argsPost := AddAll(variables.argsPost, decoded.args));
          if processor == "URLENCODED" {
            variables := variables.(requestBody := StringOf(requestBodyBuffer));
          }
        }
      }
      Evaluate(PhaseRequestBody);
      it, err := interruption, None;
    }

    method ProcessResponseHeaders(code: int, proto: string) returns (it: Option<Interruption>)
      requires Valid()
      modifies this, waf`log
      ensures Valid() && Kept()
      ensures var st := ResponseHeadersStep(old(Snapshot()), old(Settings()), waf.hooks, code);
        Snapshot() == st.state && it == st.it && waf.log == old(waf.log) + st.logged
    {
      if interruption.Some? {
        Refuse("ProcessResponseHeaders");
        return interruption;
      }
      if ruleEngine == RuleEngineOff {
        return None;
      }
      variables := variables.(responseStatus := Decimal.IntToString(code));
      Evaluate(PhaseResponseHeaders);
      it := interruption;
    }

    method ProcessResponseBody() returns (it: Option<Interruption>, err: Option<string>)
      requires Valid()
      modifies this, waf`log
      ensures Valid() && Kept()
      ensures var st := ResponseBodyStep(old(Snapshot()), old(Settings()), waf.hooks);
        Snapshot() == st.state && it == st.it && err == st.err
        && waf.log == old(waf.log) + st.logged
    {
      if interruption.Some? {
        Refuse("ProcessResponseBody");
        return interruption, None;
      }
      if ruleEngine == RuleEngineOff {
        return None, None;
      }
      if responseBodyAccess {
        var limit := waf.responseBodyLimit;
        if |responseBodyBuffer| > limit {
          variables := variables.(outboundDataError := "1",
                                  responseBody := StringOf(responseBodyBuffer[..limit]));
        } else {
          variables := variables.(responseBody := StringOf(responseBodyBuffer));
        }
      }
      Evaluate(PhaseResponseBody);
      it, err := interruption, None;
    }

    method ProcessLogging()
      requires Valid()
      modifies this
      ensures Valid() && Kept()
      ensures Snapshot() == LoggingStep(old(Snapshot()), old(Settings()), waf.hooks)
    {
      if interruption.None? && ruleEngine != RuleEngineOff {
        Evaluate(PhaseLogging);
      }
      audited := ShouldAudit(auditEngine, waf.hooks.relevantStatus, variables.responseStatus);
    }

    // ----- request body ingestion -----

    method WriteRequestBody(data: seq<byte>) returns (it: Option<Interruption>, n: nat, err: Option<string>)
      requires Valid()
      modifies this, waf`log
      ensures Valid() && Kept() && waf.log == old(waf.log)
      ensures var w := WriteStep(old(Snapshot()), old(Settings()), waf.hooks, data);
        Snapshot() == w.state && it == w.it && n == w.n && err == w.err
    {
      if ruleEngine == RuleEngineOff || !requestBodyAccess {
        return None, 0, None;
      }
      if interruption.Some? {
        return interruption, 0, None;
      }
      var room := Room(|requestBodyBuffer|, requestBodyLimit);
      if |data| <= room {
        requestBodyBuffer := requestBodyBuffer + data;
        return None, |data|, None;
      }
      if requestBodyLimitAction == RequestBodyLimitActionReject {
        interruption := Some(BodyLimitInterruption);
        return interruption, 0, None;
      }
      if requestBodyLimitAction == RequestBodyLimitActionProcessPartial {
        requestBodyBuffer := requestBodyBuffer + data[..room];
        variables := variables.(inboundDataError := "1");
        it, err := ProcessRequestBody();
        n := room;
        return;
      }
      requestBodyBuffer := requestBodyBuffer + data;
      return None, |data|, None;
    }

    /** Reading the body from a stream has the outcome of writing all of its bytes. */
    method ReadRequestBodyFrom(reader: seq<byte>) returns (it: Option<Interruption>, n: nat, err: Option<string>)
      requires Valid()
      modifies this, waf`log
      ensures Valid() && Kept() && waf.log == old(waf.log)
      ensures var w := WriteStep(old(Snapshot()), old(Settings()), waf.hooks, reader);
        Snapshot() == w.state && it == w.it && n == w.n && err == w.err
    {
      it, n, err := WriteRequestBody(reader);
    }

    /** Appends straight to the request body buffer, bypassing the limit policy. */
    method WriteRequestBodyBuffer(data: seq<byte>)
      modifies this
      ensures Kept() && Snapshot() == old(Snapshot()).(requestBody := old(requestBodyBuffer) + data)
    {
      requestBodyBuffer := requestBodyBuffer + data;
    }

    /** Appends to the response body buffer. */
    method WriteResponseBodyBuffer(data: seq<byte>)
      modifies this
      ensures Kept() && Snapshot() == old(Snapshot()).(responseBody := old(responseBodyBuffer) + data)
    {
      responseBodyBuffer := responseBodyBuffer + data;
    }

    // ----- collection setters -----

    method ProcessConnection(client: string, cport: int, server: string, sport: int)
      requires Valid()
      modifies this
      ensures Valid() && Kept()
      ensures Snapshot() == old(Snapshot()).(variables := old(variables).(
        remoteAddr := client, remotePort := cport, serverAddr := server, serverPort := sport))
    {
      variables := variables.(remoteAddr := client, remotePort := cport,
                              serverAddr := server, serverPort := sport);
    }

    method AddRequestHeader(key: string, value: string)
      requires Valid()
      modifies this
      ensures Valid() && Kept()
      ensures Snapshot() == old(Snapshot()).(variables := old(variables).(
        requestHeaders := Add(old(variables.requestHeaders), key, value)))
    {
      variables := variables.(requestHeaders := Add(variables.requestHeaders, key, value));
    }

    /** Adds a response header; a content-type header also sets RESPONSE_CONTENT_TYPE. */
    method AddResponseHeader(key: string, value: string)
      requires Valid()
      modifies this
      ensures Valid() && Kept()
      ensures Snapshot() == old(Snapshot()).(variables := old(variables).(
        responseHeaders := Add(old(variables.responseHeaders), key, value),
        responseContentType := if Lower(key) == "content-type" then value
                              else old(variables.responseContentType)))
    {
      variables := variables.(responseHeaders := Add(variables.responseHeaders, key, value));
      if Lower(key) == "content-type" {
        variables := variables.(responseContentType := value);
      }
    }

    method AddArgument(kind: ArgumentType, key: string, value: string)
      requires Valid()
      modifies this
      ensures Valid() && Kept()
      ensures Snapshot() == old(Snapshot()).(variables :=
        match kind
        case ArgumentGet => old(variables).(argsGet := Add(old(variables.argsGet), key, value))
        case ArgumentPost => old(variables).(argsPost := Add(old(variables.argsPost), key, value))
        case ArgumentPath => old(variables).(argsPath := Add(old(variables.argsPath), key, value)))
    {
      match kind
      case ArgumentGet => variables := variables.(argsGet := Add(variables.argsGet, key, value));
      case ArgumentPost => variables := variables.(argsPost := Add(variables.argsPost, key, value));
      case ArgumentPath => variables := variables.(argsPath := Add(variables.argsPath, key, value));
    }

    // ----- captures and matches -----

    /** Stores a capture group in TX slot index, when capturing is on. */
    method CaptureField(index: int, value: string)
      requires Valid()
      modifies this
      ensures Valid() && Kept()
      ensures Snapshot() == old(Snapshot()).(variables := old(variables).(tx :=
        if capture then SetFirst(old(variables.tx), Decimal.IntToString(index), value)
        else old(variables.tx)))
    {
      if capture {
        variables := variables.(tx := SetFirst(variables.tx, Decimal.IntToString(index), value));
      }
    }

    /** Blanks the first value of each of the ten capture slots "0" to "9"; every other
        TX key is left alone. */
    method ResetCaptures()
      requires Valid()
      modifies this
      ensures Valid() && Kept()
      ensures Snapshot() == old(Snapshot()).(variables := old(variables).(tx := variables.tx))
      ensures forall j :: 0 <= j < 10 ==>
        Get(variables.tx, Decimal.NatToString(j)) == Cleared(Get(old(variables.tx), Decimal.NatToString(j)))
      ensures forall k :: !IsCaptureSlot(k) ==> Get(variables.tx, k) == Get(old(variables.tx), k)
    {
      for i := 0 to 10
        invariant Valid() && Kept()
        invariant Snapshot() == old(Snapshot()).(variables := old(variables).(tx := variables.tx))
        invariant forall j :: 0 <= j < i ==>
          Get(variables.tx, Decimal.NatToString(j)) == Cleared(Get(old(variables.tx), Decimal.NatToString(j)))
        invariant forall j :: i <= j < 10 ==>
          Get(variables.tx, Decimal.NatToString(j)) == Get(old(variables.tx), Decimal.NatToString(j))
        invariant forall k :: !IsCaptureSlot(k) ==> Get(variables.tx, k) == Get(old(variables.tx), k)
      {
        var before := variables.tx;
        var slot := Decimal.NatToString(i);
        variables := variables.(tx := SetFirst(variables.tx, slot, ""));
        SlotReset(before, i);
      }
    }

    /** Records a rule that fired. */
    method MatchRule(ruleId: int, mds: seq<MatchData>)
      requires Valid()
      modifies this
      ensures Valid() && Kept()
      ensures Snapshot() == old(Snapshot()).(matchedRules := old(matchedRules) + [MatchedRule(ruleId, mds)])
    {
      matchedRules := matchedRules + [MatchedRule(ruleId, mds)];
    }

    /** Records a matched variable in MATCHED_VAR, MATCHED_VAR_NAME and MATCHED_VARS. */
    method MatchVariable(md: MatchData)
      requires Valid()
      modifies this
      ensures Valid() && Kept()
      ensures Snapshot() == old(Snapshot()).(variables := old(variables).(
        matchedVar := md.value, matchedVarName := MatchedName(md),
        matchedVars := Add(old(variables.matchedVars), MatchedName(md), md.value)))
    {
      var name := MatchedName(md);
      variables := variables.(matchedVars := Add(variables.matchedVars, name, md.value));
      variables := variables.(matchedVar := md.value, matchedVarName := name);
    }

    // ----- end of life -----

    /** Scrubs the transaction and returns it to its engine's pool; closing a pooled
        transaction again changes nothing. */
    method Close()
      requires Valid() && waf.Valid()
      modifies this, waf`pool
      ensures Valid() && waf.Valid() && Kept()
      ensures Snapshot() == Initial(id)
      ensures waf.pool == if this in old(waf.pool) then old(waf.pool) else old(waf.pool) + [this]
    {
      Scrub();
      if this !in waf.pool {
        waf.pool := waf.pool + [this];
      }
    }
  }

  /** Blanking slot i leaves the slots after it, the slots before it and every
      non-slot key as they were, and clears slot i. */
  lemma SlotReset(m: MultiMap, i: nat)
    requires i < 10
    ensures Get(SetFirst(m, Decimal.NatToString(i), ""), Decimal.NatToString(i))
         == Cleared(Get(m, Decimal.NatToString(i)))
    ensures forall j :: 0 <= j < 10 && j != i ==>
      Get(SetFirst(m, Decimal.NatToString(i), ""), Decimal.NatToString(j)) == Get(m, Decimal.NatToString(j))
    ensures forall k :: !IsCaptureSlot(k) ==> Get(SetFirst(m, Decimal.NatToString(i), ""), k) == Get(m, k)
  {
    var slot := Decimal.NatToString(i);
    GetSetFirst(m, slot, "", slot);
    forall j | 0 <= j < 10 && j != i
      ensures Get(SetFirst(m, slot, ""), Decimal.NatToString(j)) == Get(m, Decimal.NatToString(j))
    {
      var other := Decimal.NatToString(j);
      SlotKey(i);
      SlotKey(j);
      GetSetFirst(m, slot, "", other);
    }
    forall k | !IsCaptureSlot(k)
      ensures Get(SetFirst(m, slot, ""), k) == Get(m, k)
    {
      SlotKey(i);
      NotSlotKey(k, slot);
      GetSetFirst(m, slot, "", k);
    }
  }

  /** The key of slot i is one digit, already lower case. */
  lemma SlotKey(i: nat)
    requires i < 10
    ensures Lower(Decimal.NatToString(i)) == Decimal.NatToString(i)
    ensures IsCaptureSlot(Decimal.NatToString(i))
  {
    NoUpperLower(Decimal.NatToString(i));
  }

  /** A key that is not a slot key does not lower to one. */
  lemma NotSlotKey(k: string, slot: string)
    requires !IsCaptureSlot(k) && IsCaptureSlot(slot)
    ensures Lower(k) != slot
  {
  }
}
