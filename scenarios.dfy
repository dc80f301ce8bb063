/** The scenarios of internal/corazawaf/transaction_test.go, stated over the model: the
    variable store a test request leaves behind and what GetField selects from it, the
    macros the tests expand, and the transaction life cycles the tests drive. */
module Scenarios {
  import opened WafTypes
  import opened Collections
  import opened Macros
  import opened Transactions
  import opened Engine
  import Decimal

  // ----- the store of the test request -----

  /** The request headers of the test request, as the header setter stores them. */
  const TestHeaders: MultiMap := [
    Entry("host", "www.test.com:80"),
    Entry("cookie", "test=123"),
    Entry("content-type", "application/x-www-form-urlencoded"),
    Entry("x-test-header", "test456"),
    Entry("content-length", "13")]

  /** The store of the test request: its five headers, the query arguments id and b,
      and the urlencoded body field testfield. */
  function TestStore(id: string): Variables
  {
    EmptyVariables(id).(
      requestHeaders := TestHeaders,
      argsGet := [Entry("id", "123"), Entry("b", "456")],
      argsPost := [Entry("testfield", "456")])
  }

  /** A key pattern that, among the test headers, matches host only (the tests' "ho.*"). */
  predicate HostOnly(rx: string -> bool)
  {
    rx("host") && !rx("cookie") && !rx("content-type") && !rx("x-test-header") && !rx("content-length")
  }

  function HeaderQuery(keyStr: string, keyRx: Option<string -> bool>, exceptions: seq<Exception>, count: bool): RuleVariableParams
  {
    RuleVariableParams(RequestHeaders, keyStr, keyRx, exceptions, count)
  }

  /** What a key pattern keeps of the test headers when nothing is excepted. */
  lemma HeadersMatching(vars: Variables, rx: string -> bool)
    requires vars.requestHeaders == TestHeaders && HostOnly(rx)
    ensures Select(vars, HeaderQuery("ho.*", Some(rx), [], false))
         == [Field(RequestHeaders, "host", "www.test.com:80")]
  {
    var rv := HeaderQuery("ho.*", Some(rx), [], false);
    assert forall k :: !IsException(rv.exceptions, k);
    SelectSingle(vars, rv, 0);
  }

  /** Counting every test header gives "5". */
  lemma HeadersCounted(vars: Variables)
    requires vars.requestHeaders == TestHeaders
    ensures |Select(vars, HeaderQuery("", None, [], true))| == 5
  {
    var all := HeaderQuery("", None, [], true);
    assert forall k :: !IsException(all.exceptions, k);
    SelectEvery(vars, all);
  }

  /** TestTxVariables: the pattern selects the host header alone. */
  lemma TxVariables(vars: Variables, rx: string -> bool)
    requires vars.requestHeaders == TestHeaders && HostOnly(rx)
    ensures GetField(vars, HeaderQuery("ho.*", Some(rx), [], false))
         == [Field(RequestHeaders, "host", "www.test.com:80")]
  {
    HeadersMatching(vars, rx);
  }

  /** TestTxVariables, counting: the pattern's one match is reported as "1", and
      dropping the pattern still reports a count. */
  lemma TxVariablesCount(vars: Variables, rx: string -> bool)
    requires vars.requestHeaders == TestHeaders && HostOnly(rx)
    ensures GetField(vars, HeaderQuery("ho.*", Some(rx), [], true))[0].value == "1"
    ensures |GetField(vars, HeaderQuery("ho.*", None, [], true))| == 1
  {
    var rv := HeaderQuery("ho.*", Some(rx), [], true);
    assert forall k :: !IsException(rv.exceptions, k);
    SelectSingle(vars, rv, 0);
    assert Decimal.NatToString(1) == "1";
  }

  /** TestTxVariables, counting the whole collection: the count reads back as 5. */
  lemma TxVariablesTotal(vars: Variables)
    requires vars.requestHeaders == TestHeaders
    ensures Decimal.DigitsValue(GetField(vars, HeaderQuery("", None, [], true))[0].value) == 5
  {
    HeadersCounted(vars);
    GetFieldCount(vars, HeaderQuery("", None, [], true));
  }

  /** TestTxVariablesExceptions: excepting host by its literal name leaves nothing. */
  lemma TxVariablesExceptKey(vars: Variables, rx: string -> bool)
    requires vars.requestHeaders == TestHeaders && HostOnly(rx)
    ensures GetField(vars, HeaderQuery("ho.*", Some(rx), [ExceptKey("host")], false)) == []
  {
    var rv := HeaderQuery("ho.*", Some(rx), [ExceptKey("host")], false);
    assert Excepts(rv.exceptions[0], "host");
    assert forall j :: 0 <= j < 5 ==> !KeySelected(rv, TestHeaders[j].key) || IsException(rv.exceptions, TestHeaders[j].key);
    SelectNone(vars, rv);
  }

  /** TestTxVariablesExceptions: excepting the same pattern that selects leaves nothing. */
  lemma TxVariablesExceptPattern(vars: Variables, rx: string -> bool)
    requires vars.requestHeaders == TestHeaders
    ensures GetField(vars, HeaderQuery("ho.*", Some(rx), [ExceptPattern(rx)], false)) == []
  {
    var rv := HeaderQuery("ho.*", Some(rx), [ExceptPattern(rx)], false);
    forall k | KeySelected(rv, k) ensures IsException(rv.exceptions, k) {
      assert Excepts(rv.exceptions[0], k);
    }
    SelectNone(vars, rv);
  }

  /** TestTxGetField: ARGS selects the two query arguments and the body field. */
  lemma TxGetField(vars: Variables)
    requires vars.argsGet == [Entry("id", "123"), Entry("b", "456")]
    requires vars.argsPost == [Entry("testfield", "456")] && vars.argsPath == []
    ensures |GetField(vars, KeyQuery(Args, ""))| == 3
  {
    var rv := KeyQuery(Args, "");
    assert forall k :: !IsException(rv.exceptions, k);
    SelectEvery(vars, rv);
  }

  /** The test request's headers name an urlencoded body. */
  lemma TestHeadersUrlencoded(vars: Variables, key: string, ct: string)
    requires vars.requestHeaders == TestHeaders
    requires key == "content-type" && ct == "application/x-www-form-urlencoded"
    ensures RequestContentType(vars) == ct
    ensures BodyProcessor(RequestContentType(vars), false) == "URLENCODED"
  {
    NoUpperLower(key);
    var m := TestHeaders;
    assert m[0].key != key && m[1].key != key && m[2] == Entry(key, ct)
        && m[3].key != key && m[4].key != key;
    assert Lookup(m[4..], key) == [];
    assert Lookup(m[3..], key) == [];
    assert Lookup(m[2..], key) == [ct];
    assert Lookup(m[1..], key) == [ct];
    UrlencodedProcessor(ct);
  }

  lemma UrlencodedProcessor(ct: string)
    requires ct == "application/x-www-form-urlencoded"
    ensures BodyProcessor(ct, false) == "URLENCODED"
  {
    NoUpperLower(ct);
  }

  /** The body of the test request, "testfield=456", goes through the request body
      phase: its content type hands it to the URLENCODED processor, and the pair the
      processor decodes from it is found in ARGS_POST under testfield, in any case. */
  lemma BodyFieldResolves(s: TxState, cfg: Setup, hooks: Hooks, field: string)
    requires s.interruption.None? && s.lastPhase < PhaseRequestBody && Quiet(hooks)
    requires cfg.ruleEngine != RuleEngineOff && cfg.requestBodyAccess
    requires s.variables.requestHeaders == TestHeaders && s.variables.argsPost == []
    requires field == "testfield"
    requires hooks.decode("URLENCODED", s.requestBody) == Decoded([Entry(field, "456")])
    ensures var r := RequestBodyStep(s, cfg, hooks);
      r.it.None? && r.err.None? && Get(r.state.variables.argsPost, field) == ["456"]
  {
    TestHeadersUrlencoded(s.variables, "content-type", "application/x-www-form-urlencoded");
    UrlencodedBodyPhase(s, cfg, hooks);
    var pairs := [Entry(field, "456")];
    assert [] + LowerKeys(pairs) == LowerKeys(pairs);
    GetLowerKeys(pairs, field);
    assert pairs[1..] == [];
  }

  // ----- macros -----

  lemma UniqueIdSpelling()
    ensures GoodName("unique_id") && ParseVariable("unique_id") == Some(UniqueId)
  {
    assert Upper("unique_id") == Name(UniqueId);
    ParseVariableIgnoresCase(UniqueId, "unique_id");
  }

  lemma TxSpelling()
    ensures GoodName("tx") && ParseVariable("tx") == Some(Tx)
  {
    assert Upper("tx") == Name(Tx);
    ParseVariableIgnoresCase(Tx, "tx");
  }

  /** TestMacro: %{unique_id} parses to one reference to UNIQUE_ID. The template is a
      parameter fixed by the requires, rather than a literal in the ensures, so that the
      solver does not unfold Parse on the literal before the proof splits it. */
  lemma UniqueIdMacro(template: string)
    requires template == "%{" + "unique_id" + "}"
    ensures Parse(template) == Success([Ref(UniqueId, "")])
  {
    UniqueIdSpelling();
    ParseRefThen("unique_id", UniqueId, "", "");
    assert "%{" + Body("unique_id", "") + "}" + "" == template;
    assert [Ref(UniqueId, "")] + [] == [Ref(UniqueId, "")];
  }

  /** TestMacro: the reference to UNIQUE_ID expands to the transaction id. */
  lemma UniqueIdExpands(vars: Variables)
    ensures Expand([Ref(UniqueId, "")], vars) == vars.uniqueId
  {
    assert Expand([Ref(UniqueId, "")], vars) == ExpandToken(Ref(UniqueId, ""), vars) + Expand([], vars);
  }

  /** The literal runs of the complex template hold no placeholder opening. */
  lemma ComplexTexts(head: string, tail: string)
    requires head == "some complex text " && tail == " wrapped in m"
    ensures GoodText(head) && GoodText(tail)
  {
  }

  lemma ComplexSpelling(template: string, head: string, tail: string)
    requires head == "some complex text " && tail == " wrapped in m"
    requires template == head + "%{tx.some}" + tail
    ensures template == head + ("%{" + Body("tx", "some") + "}" + tail)
  {
    assert Body("tx", "some") == "tx.some";
  }

  /** TestMacro: the text around %{tx.some} is kept as two literal runs. As in
      UniqueIdMacro, the strings are parameters fixed by the requires. */
  lemma ComplexMacro(template: string, head: string, tail: string)
    requires head == "some complex text " && tail == " wrapped in m"
    requires template == head + "%{tx.some}" + tail
    ensures Parse(template) == Success([Text(head), Ref(Tx, "some"), Text(tail)])
  {
    ComplexTexts(head, tail);
    TxSpelling();
    assert GoodKey("some");
    TextRefText(head, "tx", Tx, "some", tail);
    ComplexSpelling(template, head, tail);
  }

  /** TestMacro: with TX:some set to "secretly", the placeholder is replaced and the text
      around it ("some complex text " and " wrapped in m" in the test) is kept. */
  lemma ComplexMacroExpands(vars: Variables, tx: MultiMap, head: string, tail: string)
    requires vars.tx == SetValues(tx, "some", ["secretly"])
    ensures Expand([Text(head), Ref(Tx, "some"), Text(tail)], vars) == head + "secretly" + tail
  {
    GetSetValues(tx, "some", ["secretly"], "some");
    assert CollectionOf(vars, Tx) == Keyed(vars.tx);
    SelectKeyIsGet(vars, Tx, "some");
    assert Values(Select(vars, KeyQuery(Tx, "some"))) == ["secretly"];
    ExpandThree(head, Ref(Tx, "some"), tail, vars);
  }
}
