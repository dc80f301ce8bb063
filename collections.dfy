/** The variable store of a transaction: the variables rules and macros address, the
    keyed (multi-value) and simple collections behind them, and the variable selection
    query GetField (internal/corazawaf/transaction_test.go: TestTxVariables,
    TestTxVariablesExceptions, TestTxGetField, TestResetCapture). */
module Collections {
  import opened WafTypes
  import Decimal

  // ----- keyed collections -----

  /** One (key, value) pair of a keyed collection. */
  datatype Entry = Entry(key: string, value: string)

  /** A keyed collection: its pairs in insertion order. Keys are stored lower-cased and
      looked up lower-cased, so lookups are case-insensitive; a key may have several
      values. */
  type MultiMap = seq<Entry>

  /** The values stored under exactly this (already lowered) key, in insertion order. */
  function Lookup(m: MultiMap, k: string): (vs: seq<string>)
    ensures |vs| <= |m|
    ensures forall v :: v in vs <==> Entry(k, v) in m
  {
    if m == [] then []
    else (if m[0].key == k then [m[0].value] else []) + Lookup(m[1..], k)
  }

  /** The values stored under a key, in insertion order, whatever its letter case. */
  function Get(m: MultiMap, key: string): (vs: seq<string>)
    ensures forall v :: v in vs <==> Entry(Lower(key), v) in m
  {
    Lookup(m, Lower(key))
  }

  /** Appends a value under a key, keeping the values already there: the pairs stored
      before stay first, in their order, and the one new pair holds the lowered key. */
  function Add(m: MultiMap, key: string, value: string): (r: MultiMap)
    ensures |r| == |m| + 1 && m <= r
    ensures forall e :: e in r <==> e in m || e == Entry(Lower(key), value)
  {
    m + [Entry(Lower(key), value)]
  }

  /** Replaces the first value stored under a key, or adds the key when it has none
      (the source's SetIndex with index 0). */
  function SetFirst(m: MultiMap, key: string, value: string): (r: MultiMap)
    ensures |r| == |m| || |r| == |m| + 1
  {
    if m == [] then [Entry(Lower(key), value)]
    else if m[0].key == Lower(key) then [Entry(Lower(key), value)] + m[1..]
    else [m[0]] + SetFirst(m[1..], key, value)
  }

  /** Removes every value of a key. */
  function RemoveKey(m: MultiMap, key: string): (r: MultiMap)
    ensures forall e :: e in r <==> e in m && e.key != Lower(key)
  {
    if m == [] then []
    else (if m[0].key == Lower(key) then [] else [m[0]]) + RemoveKey(m[1..], key)
  }

  /** The pairs that store the given values under one key, in order. */
  function Uniform(key: string, values: seq<string>): (r: MultiMap)
    ensures |r| == |values|
    ensures forall i :: 0 <= i < |r| ==> r[i] == Entry(Lower(key), values[i])
  {
    seq(|values|, i requires 0 <= i < |values| => Entry(Lower(key), values[i]))
  }

  /** Replaces all values of a key by the given ones: the pairs of other keys stay, and
      the key's pairs are exactly the given values. */
  function SetValues(m: MultiMap, key: string, values: seq<string>): (r: MultiMap)
    ensures forall e :: e in r <==>
      (e in m && e.key != Lower(key)) || (e.key == Lower(key) && e.value in values)
  {
    RemoveKey(m, key) + Uniform(key, values)
  }

  lemma {:induction false} LookupConcat(a: MultiMap, b: MultiMap, k: string)
    ensures Lookup(a + b, k) == Lookup(a, k) + Lookup(b, k)
    decreases |a|
  {
    if a == [] {
      assert a + b == b;
    } else {
      assert (a + b)[1..] == a[1..] + b;
      LookupConcat(a[1..], b, k);
    }
  }

  /** The values of a key in two collections laid end to end are the values in the
      first followed by those in the second. */
  lemma GetConcat(a: MultiMap, b: MultiMap, key: string)
    ensures Get(a + b, key) == Get(a, key) + Get(b, key)
  {
    LookupConcat(a, b, Lower(key));
  }

  /** Adding a value appends it to the values of its key and leaves every other key
      alone. */
  lemma GetAdd(m: MultiMap, key: string, value: string, other: string)
    ensures Get(Add(m, key, value), other)
         == Get(m, other) + (if Lower(key) == Lower(other) then [value] else [])
  {
    LookupConcat(m, [Entry(Lower(key), value)], Lower(other));
    assert [Entry(Lower(key), value)][1..] == [];
  }

  lemma {:induction false} LookupSetFirst(m: MultiMap, key: string, value: string, k: string)
    ensures Lower(key) == k ==>
      Lookup(SetFirst(m, key, value), k) == [value] + (if Lookup(m, k) == [] then [] else Lookup(m, k)[1..])
    ensures Lower(key) != k ==> Lookup(SetFirst(m, key, value), k) == Lookup(m, k)
    decreases |m|
  {
    var l := Lower(key);
    if m == [] {
    } else if m[0].key == l {
      var r := [Entry(l, value)] + m[1..];
      assert r[0] == Entry(l, value) && r[1..] == m[1..];
      assert Lookup(r, k) == (if l == k then [value] else []) + Lookup(m[1..], k);
    } else {
      var rest := SetFirst(m[1..], key, value);
      var r := [m[0]] + rest;
      assert r[0] == m[0] && r[1..] == rest;
      LookupSetFirst(m[1..], key, value, k);
    }
  }

  /** SetFirst stores the new pair, keeps every pair of other keys, and adds no pair
      but the new one. */
  lemma {:induction false} SetFirstEntries(m: MultiMap, key: string, value: string)
    ensures Entry(Lower(key), value) in SetFirst(m, key, value)
    ensures forall e :: e in SetFirst(m, key, value) ==> e in m || e == Entry(Lower(key), value)
    ensures forall e :: e in m && e.key != Lower(key) ==> e in SetFirst(m, key, value)
    decreases |m|
  {
    if m != [] && m[0].key != Lower(key) {
      SetFirstEntries(m[1..], key, value);
      assert forall e :: e in m ==> e == m[0] || e in m[1..];
    }
  }

  /** SetFirst puts the value first under its key, drops the value it replaces, and
      leaves every other key alone. */
  lemma GetSetFirst(m: MultiMap, key: string, value: string, other: string)
    ensures Lower(key) == Lower(other) ==>
      Get(SetFirst(m, key, value), other) == [value] + (if Get(m, key) == [] then [] else Get(m, key)[1..])
    ensures Lower(key) != Lower(other) ==> Get(SetFirst(m, key, value), other) == Get(m, other)
  {
    LookupSetFirst(m, key, value, Lower(other));
  }

  lemma {:induction false} LookupRemoveKey(m: MultiMap, key: string, k: string)
    ensures Lookup(RemoveKey(m, key), k) == if Lower(key) == k then [] else Lookup(m, k)
    decreases |m|
  {
    if m == [] {
    } else {
      var head := if m[0].key == Lower(key) then [] else [m[0]];
      LookupConcat(head, RemoveKey(m[1..], key), k);
      LookupRemoveKey(m[1..], key, k);
      if head != [] {
        assert head[1..] == [];
      }
    }
  }

  /** The pairs built for a key read back as exactly the given values under that key,
      and as nothing under any other key. */
  lemma {:induction false} LookupUniform(key: string, values: seq<string>, k: string)
    ensures Lookup(Uniform(key, values), k) == if k == Lower(key) then values else []
    decreases |values|
  {
    var s := Uniform(key, values);
    if values != [] {
      assert s[1..] == Uniform(key, values[1..]);
      LookupUniform(key, values[1..], k);
      assert s[0].key == Lower(key);
      if k == Lower(key) {
        assert Lookup(s, k) == [values[0]] + values[1..];
      } else {
        assert Lookup(s, k) == [] + [];
      }
    }
  }

  lemma {:induction false} LookupAbsent(m: MultiMap, k: string)
    requires forall e :: e in m ==> e.key != k
    ensures Lookup(m, k) == []
    decreases |m|
  {
    if m != [] {
      assert m[0] in m;
      LookupAbsent(m[1..], k);
    }
  }

  /** After SetValues the key holds exactly the given values; other keys keep theirs. */
  lemma GetSetValues(m: MultiMap, key: string, values: seq<string>, other: string)
    ensures Lower(key) == Lower(other) ==> Get(SetValues(m, key, values), other) == values
    ensures Lower(key) != Lower(other) ==> Get(SetValues(m, key, values), other) == Get(m, other)
  {
    var added := Uniform(key, values);
    LookupConcat(RemoveKey(m, key), added, Lower(other));
    LookupRemoveKey(m, key, Lower(other));
    LookupUniform(key, values, Lower(other));
  }

  // ----- variables -----

  /** The variables of the store that this model covers. */
  datatype Variable =
    | RequestHeaders | ResponseHeaders | ArgsGet | ArgsPost | ArgsPath | Args
    | Tx | MatchedVar | MatchedVarName | MatchedVars
    | RequestBody | ResponseBody | ResponseContentType | ResponseStatus
    | InboundDataError | OutboundDataError
    | RemoteAddr | RemotePort | ServerAddr | ServerPort | UniqueId

  /** The name of a variable as rules write it. */
  function Name(v: Variable): string
  {
    match v
    case RequestHeaders => "REQUEST_HEADERS"
    case ResponseHeaders => "RESPONSE_HEADERS"
    case ArgsGet => "ARGS_GET"
    case ArgsPost => "ARGS_POST"
    case ArgsPath => "ARGS_PATH"
    case Args => "ARGS"
    case Tx => "TX"
    case MatchedVar => "MATCHED_VAR"
    case MatchedVarName => "MATCHED_VAR_NAME"
    case MatchedVars => "MATCHED_VARS"
    case RequestBody => "REQUEST_BODY"
    case ResponseBody => "RESPONSE_BODY"
    case ResponseContentType => "RESPONSE_CONTENT_TYPE"
    case ResponseStatus => "RESPONSE_STATUS"
    case InboundDataError => "INBOUND_DATA_ERROR"
    case OutboundDataError => "OUTBOUND_DATA_ERROR"
    case RemoteAddr => "REMOTE_ADDR"
    case RemotePort => "REMOTE_PORT"
    case ServerAddr => "SERVER_ADDR"
    case ServerPort => "SERVER_PORT"
    case UniqueId => "UNIQUE_ID"
  }

  function UpperChar(c: char): char
  {
    if 'a' <= c <= 'z' then (c as int - 32) as char else c
  }

  function Upper(s: string): (r: string)
    ensures |r| == |s|
    ensures forall i :: 0 <= i < |s| ==> r[i] == UpperChar(s[i])
  {
    seq(|s|, i requires 0 <= i < |s| => UpperChar(s[i]))
  }

  /** Raising the case leaves no lower-case letter and changes nothing lowering would
      undo: a string and its upper-case form lower alike, so the name lookup and the key
      lookups agree on what "ignoring case" means. */
  lemma UpperLower(s: string)
    ensures forall i :: 0 <= i < |Upper(s)| ==> !('a' <= Upper(s)[i] <= 'z')
    ensures Lower(Upper(s)) == Lower(s)
    ensures Upper(Upper(s)) == Upper(s)
  {
    assert forall i :: 0 <= i < |s| ==> LowerChar(UpperChar(s[i])) == LowerChar(s[i]);
  }

  /** Resolves a variable name, ignoring letter case. */
  function ParseVariable(name: string): Option<Variable>
  {
    match Upper(name)
    case "REQUEST_HEADERS" => Some(RequestHeaders)
    case "RESPONSE_HEADERS" => Some(ResponseHeaders)
    case "ARGS_GET" => Some(ArgsGet)
    case "ARGS_POST" => Some(ArgsPost)
    case "ARGS_PATH" => Some(ArgsPath)
    case "ARGS" => Some(Args)
    case "TX" => Some(Tx)
    case "MATCHED_VAR" => Some(MatchedVar)
    case "MATCHED_VAR_NAME" => Some(MatchedVarName)
    case "MATCHED_VARS" => Some(MatchedVars)
    case "REQUEST_BODY" => Some(RequestBody)
    case "RESPONSE_BODY" => Some(ResponseBody)
    case "RESPONSE_CONTENT_TYPE" => Some(ResponseContentType)
    case "RESPONSE_STATUS" => Some(ResponseStatus)
    case "INBOUND_DATA_ERROR" => Some(InboundDataError)
    case "OUTBOUND_DATA_ERROR" => Some(OutboundDataError)
    case "REMOTE_ADDR" => Some(RemoteAddr)
    case "REMOTE_PORT" => Some(RemotePort)
    case "SERVER_ADDR" => Some(ServerAddr)
    case "SERVER_PORT" => Some(ServerPort)
    case "UNIQUE_ID" => Some(UniqueId)
    case _ => None
  }

  /** Variable names are written in upper-case letters and underscores. */
  predicate IsUpperName(s: string)
  {
    forall j :: 0 <= j < |s| ==> 'A' <= s[j] <= 'Z' || s[j] == '_'
  }

  lemma UpperOfUpperName(s: string)
    requires IsUpperName(s)
    ensures Upper(s) == s
  {
  }

  // NameParses is split over four lemmas of five or six variables each, because one
  // case split over all twenty-one names is too costly for the solver.
  lemma NamesParse1(v: Variable)
    requires v in {RequestHeaders, ResponseHeaders, ArgsGet, ArgsPost, ArgsPath}
    ensures IsUpperName(Name(v)) && ParseVariable(Name(v)) == Some(v)
  {
    assert IsUpperName(Name(v));
    UpperOfUpperName(Name(v));
  }

  lemma NamesParse2(v: Variable)
    requires v in {Args, Tx, MatchedVar, MatchedVarName, MatchedVars}
    ensures IsUpperName(Name(v)) && ParseVariable(Name(v)) == Some(v)
  {
    assert IsUpperName(Name(v));
    UpperOfUpperName(Name(v));
  }

  lemma NamesParse3(v: Variable)
    requires v in {RequestBody, ResponseBody, ResponseContentType, ResponseStatus, InboundDataError}
    ensures IsUpperName(Name(v)) && ParseVariable(Name(v)) == Some(v)
  {
    assert IsUpperName(Name(v));
    UpperOfUpperName(Name(v));
  }

  lemma NamesParse4(v: Variable)
    requires v in {OutboundDataError, RemoteAddr, RemotePort, ServerAddr, ServerPort, UniqueId}
    ensures IsUpperName(Name(v)) && ParseVariable(Name(v)) == Some(v)
  {
    assert IsUpperName(Name(v));
    UpperOfUpperName(Name(v));
  }

  /** Every variable's name is written in upper case and resolves to that variable. */
  lemma NameParses(v: Variable)
    ensures IsUpperName(Name(v)) && ParseVariable(Name(v)) == Some(v)
  {
    if v in {RequestHeaders, ResponseHeaders, ArgsGet, ArgsPost, ArgsPath} {
      NamesParse1(v);
    } else if v in {Args, Tx, MatchedVar, MatchedVarName, MatchedVars} {
      NamesParse2(v);
    } else if v in {RequestBody, ResponseBody, ResponseContentType, ResponseStatus, InboundDataError} {
      NamesParse3(v);
    } else {
      NamesParse4(v);
    }
  }

  /** A name resolves only to the variable whose name is its upper-case form. */
  lemma ParseVariableSound(name: string)
    ensures ParseVariable(name).Some? ==> Upper(name) == Name(ParseVariable(name).value)
  {
  }

  /** Resolution ignores letter case: any spelling whose upper-case form is the name
      resolves the same way. */
  lemma ParseVariableIgnoresCase(v: Variable, name: string)
    requires Upper(name) == Name(v)
    ensures ParseVariable(name) == Some(v)
  {
    NameParses(v);
  }

  // ----- the store -----

  /** The collections of one transaction. Keyed collections are MultiMaps; the others
      hold one value. */
  datatype Variables = Variables(
    requestHeaders: MultiMap, responseHeaders: MultiMap,
    argsGet: MultiMap, argsPost: MultiMap, argsPath: MultiMap,
    tx: MultiMap, matchedVars: MultiMap,
    matchedVar: string, matchedVarName: string,
    requestBody: string, responseBody: string,
    responseContentType: string, responseStatus: string,
    inboundDataError: string, outboundDataError: string,
    remoteAddr: string, remotePort: int, serverAddr: string, serverPort: int,
    uniqueId: string)

  /** The store of a new transaction: every collection empty, the id recorded. */
  function EmptyVariables(id: string): (vs: Variables)
    ensures vs.uniqueId == id && vs.tx == [] && vs.matchedVars == []
  {
    Variables([], [], [], [], [], [], [], "", "", "", "", "", "", "", "", "", 0, "", 0, id)
  }

  /** What a variable addresses: a keyed collection or a single value. */
  datatype Collection = Simple(value: string) | Keyed(entries: MultiMap)

  /** Resolves a variable in the store. ARGS is computed on demand as the union of the
      GET, POST and path arguments. */
  function CollectionOf(vars: Variables, v: Variable): (c: Collection)
    ensures c.Keyed? <==> v in {RequestHeaders, ResponseHeaders, ArgsGet, ArgsPost, ArgsPath, Args, Tx, MatchedVars}
  {
    match v
    case RequestHeaders => Keyed(vars.requestHeaders)
    case ResponseHeaders => Keyed(vars.responseHeaders)
    case ArgsGet => Keyed(vars.argsGet)
    case ArgsPost => Keyed(vars.argsPost)
    case ArgsPath => Keyed(vars.argsPath)
    case Args => Keyed(vars.argsGet + vars.argsPost + vars.argsPath)
    case Tx => Keyed(vars.tx)
    case MatchedVars => Keyed(vars.matchedVars)
    case MatchedVar => Simple(vars.matchedVar)
    case MatchedVarName => Simple(vars.matchedVarName)
    case RequestBody => Simple(vars.requestBody)
    case ResponseBody => Simple(vars.responseBody)
    case ResponseContentType => Simple(vars.responseContentType)
    case ResponseStatus => Simple(vars.responseStatus)
    case InboundDataError => Simple(vars.inboundDataError)
    case OutboundDataError => Simple(vars.outboundDataError)
    case RemoteAddr => Simple(vars.remoteAddr)
    case RemotePort => Simple(Decimal.IntToString(vars.remotePort))
    case ServerAddr => Simple(vars.serverAddr)
    case ServerPort => Simple(Decimal.IntToString(vars.serverPort))
    case UniqueId => Simple(vars.uniqueId)
  }

  /** ARGS holds, under each key, the GET values, then the POST values, then the path
      values. */
  lemma ArgsIsUnion(vars: Variables, key: string)
    ensures CollectionOf(vars, Args).Keyed?
    ensures Get(CollectionOf(vars, Args).entries, key)
         == Get(vars.argsGet, key) + Get(vars.argsPost, key) + Get(vars.argsPath, key)
  {
    GetConcat(vars.argsGet + vars.argsPost, vars.argsPath, key);
    GetConcat(vars.argsGet, vars.argsPost, key);
  }

  // ----- GetField -----

  /** One selected value with the variable and key it came from. */
  datatype Field = Field(variable: Variable, key: string, value: string)

  /** An exception of a rule variable: a literal key or a key pattern (the source's
      compiled regular expression, kept abstract). */
  datatype Exception = ExceptKey(key: string) | ExceptPattern(matches: string -> bool)

  /** A rule variable: the variable, a literal key and an optional key pattern, the
      exceptions and whether only the number of matches is wanted. */
  datatype RuleVariableParams = RuleVariableParams(
    variable: Variable, keyStr: string, keyRx: Option<string -> bool>,
    exceptions: seq<Exception>, count: bool)

  /** Key selection: a pattern, when present, wins; otherwise a non-empty literal key
      must match exactly (ignoring case); otherwise every key is selected. */
  predicate KeySelected(rv: RuleVariableParams, key: string)
  {
    if rv.keyRx.Some? then rv.keyRx.value(key)
    else if rv.keyStr != "" then key == Lower(rv.keyStr)
    else true
  }

  predicate Excepts(ex: Exception, key: string)
  {
    match ex
    case ExceptKey(k) => key == Lower(k)
    case ExceptPattern(p) => p(key)
  }

  predicate IsException(exceptions: seq<Exception>, key: string)
  {
    exists i :: 0 <= i < |exceptions| && Excepts(exceptions[i], key)
  }

  /** The fields whose key passes the test, in their original order. */
  function FilterKeys(fs: seq<Field>, keep: string -> bool): (r: seq<Field>)
    ensures |r| <= |fs|
    ensures forall f :: f in r <==> f in fs && keep(f.key)
  {
    if fs == [] then []
    else (if keep(fs[0].key) then [fs[0]] else []) + FilterKeys(fs[1..], keep)
  }

  /** The pairs of a keyed collection as fields of a variable. */
  function AsFields(v: Variable, m: MultiMap): (fs: seq<Field>)
    ensures |fs| == |m|
    ensures forall i :: 0 <= i < |m| ==> fs[i] == Field(v, m[i].key, m[i].value)
    ensures forall f :: f in fs <==> f.variable == v && Entry(f.key, f.value) in m
  {
    if m == [] then [] else [Field(v, m[0].key, m[0].value)] + AsFields(v, m[1..])
  }

  /** The fields a rule variable selects, before counting: a simple collection gives its
      one value under the empty key; a keyed one gives every pair whose key is selected;
      in both, keys covered by an exception are dropped. */
  function Select(vars: Variables, rv: RuleVariableParams): (fs: seq<Field>)
    ensures forall f :: f in fs ==> f.variable == rv.variable && !IsException(rv.exceptions, f.key)
    ensures CollectionOf(vars, rv.variable).Keyed? ==> |fs| <= |CollectionOf(vars, rv.variable).entries|
    ensures CollectionOf(vars, rv.variable).Keyed? ==>
      forall f :: f in fs <==>
        (f.variable == rv.variable && Entry(f.key, f.value) in CollectionOf(vars, rv.variable).entries
         && KeySelected(rv, f.key) && !IsException(rv.exceptions, f.key))
    ensures CollectionOf(vars, rv.variable).Simple? ==>
      fs == if IsException(rv.exceptions, "") then []
            else [Field(rv.variable, "", CollectionOf(vars, rv.variable).value)]
  {
    match CollectionOf(vars, rv.variable)
    case Simple(v) =>
      FilterKeys([Field(rv.variable, "", v)], k => !IsException(rv.exceptions, k))
    case Keyed(m) =>
      FilterKeys(AsFields(rv.variable, m), k => KeySelected(rv, k) && !IsException(rv.exceptions, k))
  }

  /** GetField: the selected fields or, in count mode, one field (under the literal key)
      whose value is the decimal number of selected fields. */
  function GetField(vars: Variables, rv: RuleVariableParams): (fs: seq<Field>)
    ensures rv.count ==> |fs| == 1 && fs[0].variable == rv.variable && fs[0].key == rv.keyStr
    ensures !rv.count ==> fs == Select(vars, rv)
  {
    if rv.count then [Field(rv.variable, rv.keyStr, Decimal.NatToString(|Select(vars, rv)|))]
    else Select(vars, rv)
  }

  lemma AsFieldsAdd(v: Variable, m: MultiMap, key: string, value: string)
    ensures AsFields(v, Add(m, key, value)) == AsFields(v, m) + [Field(v, Lower(key), value)]
  {
    var a := AsFields(v, Add(m, key, value));
    var b := AsFields(v, m) + [Field(v, Lower(key), value)];
    assert |a| == |b|;
    forall i | 0 <= i < |a| ensures a[i] == b[i] {
      if i < |m| {
        assert Add(m, key, value)[i] == m[i];
      }
    }
  }

  /** Adding a pair to the collection a rule variable addresses adds at most one field
      to the selection, at its end: the new pair's field when its key is selected and
      not excepted, nothing otherwise. With SelectNone for the empty collection this
      fixes the selection of any collection built pair by pair: one field per pair that
      passes, in insertion order. */
  lemma SelectAdd(vars: Variables, vars': Variables, rv: RuleVariableParams, key: string, value: string)
    requires CollectionOf(vars, rv.variable).Keyed?
    requires CollectionOf(vars', rv.variable) == Keyed(Add(CollectionOf(vars, rv.variable).entries, key, value))
    ensures Select(vars', rv) == Select(vars, rv)
         + (if KeySelected(rv, Lower(key)) && !IsException(rv.exceptions, Lower(key))
            then [Field(rv.variable, Lower(key), value)] else [])
  {
    var m := CollectionOf(vars, rv.variable).entries;
    var added := [Field(rv.variable, Lower(key), value)];
    AsFieldsAdd(rv.variable, m, key, value);
    FilterKeysConcat(AsFields(rv.variable, m), added, k => KeySelected(rv, k) && !IsException(rv.exceptions, k));
  }

  /** In count mode the one field's value reads back as the number of matches. */
  lemma GetFieldCount(vars: Variables, rv: RuleVariableParams)
    requires rv.count
    ensures forall i :: 0 <= i < |GetField(vars, rv)[0].value| ==> Decimal.IsDigit(GetField(vars, rv)[0].value[i])
    ensures Decimal.DigitsValue(GetField(vars, rv)[0].value) == |Select(vars, rv)|
  {
    Decimal.NatToStringValue(|Select(vars, rv)|);
  }

  // ----- exceptions -----

  lemma {:induction false} FilterKeysTwice(fs: seq<Field>, p: string -> bool, q: string -> bool, both: string -> bool)
    requires forall k :: both(k) == (p(k) && q(k))
    ensures FilterKeys(fs, both) == FilterKeys(FilterKeys(fs, p), q)
    decreases |fs|
  {
    if fs != [] {
      FilterKeysTwice(fs[1..], p, q, both);
      var head := if p(fs[0].key) then [fs[0]] else [];
      assert FilterKeys(fs, p) == head + FilterKeys(fs[1..], p);
      FilterKeysConcat(head, FilterKeys(fs[1..], p), q);
      if head != [] {
        assert head[1..] == [];
      }
    }
  }

  lemma {:induction false} FilterKeysConcat(a: seq<Field>, b: seq<Field>, keep: string -> bool)
    ensures FilterKeys(a + b, keep) == FilterKeys(a, keep) + FilterKeys(b, keep)
    decreases |a|
  {
    if a == [] {
      assert a + b == b;
    } else {
      assert (a + b)[1..] == a[1..] + b;
      FilterKeysConcat(a[1..], b, keep);
    }
  }

  lemma ExceptionAppended(exceptions: seq<Exception>, ex: Exception, key: string)
    ensures IsException(exceptions + [ex], key) <==> IsException(exceptions, key) || Excepts(ex, key)
  {
    var all := exceptions + [ex];
    if Excepts(ex, key) {
      assert all[|exceptions|] == ex;
    }
    if IsException(exceptions, key) {
      var i :| 0 <= i < |exceptions| && Excepts(exceptions[i], key);
      assert all[i] == exceptions[i];
    }
    if IsException(all, key) {
      var i :| 0 <= i < |all| && Excepts(all[i], key);
      if i < |exceptions| {
        assert all[i] == exceptions[i];
      }
    }
  }

  /** Adding a literal exception removes exactly the fields of that key and keeps the
      others, in their order. */
  lemma SelectWithExceptKey(vars: Variables, rv: RuleVariableParams, k: string)
    ensures Select(vars, rv.(exceptions := rv.exceptions + [ExceptKey(k)]))
         == FilterKeys(Select(vars, rv), key => key != Lower(k))
  {
    var rv' := rv.(exceptions := rv.exceptions + [ExceptKey(k)]);
    forall key: string ensures IsException(rv'.exceptions, key) <==> IsException(rv.exceptions, key) || key == Lower(k) {
      ExceptionAppended(rv.exceptions, ExceptKey(k), key);
    }
    var notK := (key: string) => key != Lower(k);
    match CollectionOf(vars, rv.variable)
    case Simple(v) =>
      FilterKeysTwice([Field(rv.variable, "", v)], key => !IsException(rv.exceptions, key), notK,
                      key => !IsException(rv'.exceptions, key));
    case Keyed(m) =>
      assert KeySelected(rv, "") == KeySelected(rv', "");
      FilterKeysTwice(AsFields(rv.variable, m), key => KeySelected(rv, key) && !IsException(rv.exceptions, key), notK,
                      key => KeySelected(rv', key) && !IsException(rv'.exceptions, key));
  }

  /** An exception pattern that matches every key of a keyed collection leaves nothing. */
  lemma SelectExceptAll(vars: Variables, rv: RuleVariableParams, p: string -> bool)
    requires CollectionOf(vars, rv.variable).Keyed?
    requires ExceptPattern(p) in rv.exceptions
    requires forall e :: e in CollectionOf(vars, rv.variable).entries ==> p(e.key)
    ensures Select(vars, rv) == []
  {
    var i :| 0 <= i < |rv.exceptions| && rv.exceptions[i] == ExceptPattern(p);
    var m := CollectionOf(vars, rv.variable).entries;
    var keep := (k: string) => KeySelected(rv, k) && !IsException(rv.exceptions, k);
    forall f | f in AsFields(rv.variable, m) ensures !keep(f.key) {
      assert Excepts(rv.exceptions[i], f.key);
    }
    FilterKeysNone(AsFields(rv.variable, m), keep);
  }

  lemma {:induction false} FilterKeysNone(fs: seq<Field>, keep: string -> bool)
    requires forall f :: f in fs ==> !keep(f.key)
    ensures FilterKeys(fs, keep) == []
    decreases |fs|
  {
    if fs != [] {
      assert fs[0] in fs;
      FilterKeysNone(fs[1..], keep);
    }
  }

  lemma {:induction false} FilterKeysAll(fs: seq<Field>, keep: string -> bool)
    requires forall f :: f in fs ==> keep(f.key)
    ensures FilterKeys(fs, keep) == fs
    decreases |fs|
  {
    if fs != [] {
      assert fs[0] in fs;
      FilterKeysAll(fs[1..], keep);
    }
  }

  lemma {:induction false} FilterKeysSingle(fs: seq<Field>, keep: string -> bool, i: nat)
    requires i < |fs| && keep(fs[i].key)
    requires forall j :: 0 <= j < |fs| && j != i ==> !keep(fs[j].key)
    ensures FilterKeys(fs, keep) == [fs[i]]
    decreases |fs|
  {
    if i == 0 {
      FilterKeysNone(fs[1..], keep);
    } else {
      FilterKeysSingle(fs[1..], keep, i - 1);
    }
  }

  /** When exactly one pair of a keyed collection passes the key test and escapes the
      exceptions, the selection is that pair alone. */
  lemma SelectSingle(vars: Variables, rv: RuleVariableParams, i: nat)
    requires CollectionOf(vars, rv.variable).Keyed?
    requires i < |CollectionOf(vars, rv.variable).entries|
    requires var k := CollectionOf(vars, rv.variable).entries[i].key;
      KeySelected(rv, k) && !IsException(rv.exceptions, k)
    requires forall j :: 0 <= j < |CollectionOf(vars, rv.variable).entries| && j != i ==>
      var k := CollectionOf(vars, rv.variable).entries[j].key;
      !KeySelected(rv, k) || IsException(rv.exceptions, k)
    ensures var e := CollectionOf(vars, rv.variable).entries[i];
      Select(vars, rv) == [Field(rv.variable, e.key, e.value)]
  {
    var m := CollectionOf(vars, rv.variable).entries;
    FilterKeysSingle(AsFields(rv.variable, m), k => KeySelected(rv, k) && !IsException(rv.exceptions, k), i);
  }

  /** When no pair passes the key test and escapes the exceptions, nothing is selected. */
  lemma SelectNone(vars: Variables, rv: RuleVariableParams)
    requires CollectionOf(vars, rv.variable).Keyed?
    requires forall j :: 0 <= j < |CollectionOf(vars, rv.variable).entries| ==>
      var k := CollectionOf(vars, rv.variable).entries[j].key;
      !KeySelected(rv, k) || IsException(rv.exceptions, k)
    ensures Select(vars, rv) == []
  {
    var m := CollectionOf(vars, rv.variable).entries;
    var fs := AsFields(rv.variable, m);
    forall f | f in fs ensures !KeySelected(rv, f.key) || IsException(rv.exceptions, f.key) {
      var j :| 0 <= j < |fs| && fs[j] == f;
    }
    FilterKeysNone(fs, k => KeySelected(rv, k) && !IsException(rv.exceptions, k));
  }

  /** When every pair passes, the selection is the whole collection, in order. */
  lemma SelectEvery(vars: Variables, rv: RuleVariableParams)
    requires CollectionOf(vars, rv.variable).Keyed?
    requires forall j :: 0 <= j < |CollectionOf(vars, rv.variable).entries| ==>
      var k := CollectionOf(vars, rv.variable).entries[j].key;
      KeySelected(rv, k) && !IsException(rv.exceptions, k)
    ensures Select(vars, rv) == AsFields(rv.variable, CollectionOf(vars, rv.variable).entries)
  {
    var m := CollectionOf(vars, rv.variable).entries;
    var fs := AsFields(rv.variable, m);
    forall f | f in fs ensures KeySelected(rv, f.key) && !IsException(rv.exceptions, f.key) {
      var j :| 0 <= j < |fs| && fs[j] == f;
    }
    FilterKeysAll(fs, k => KeySelected(rv, k) && !IsException(rv.exceptions, k));
  }

  // ----- literal lookups -----

  function Values(fs: seq<Field>): (vs: seq<string>)
    ensures |vs| == |fs|
  {
    if fs == [] then [] else [fs[0].value] + Values(fs[1..])
  }

  /** The rule variable that addresses one key of a variable, with no exception and no
      counting; the empty key addresses the whole collection. */
  function KeyQuery(v: Variable, key: string): RuleVariableParams
  {
    RuleVariableParams(v, key, None, [], false)
  }

  lemma {:induction false} FilterKeyIsLookup(v: Variable, m: MultiMap, k: string, keep: string -> bool)
    requires forall key :: keep(key) == (key == k)
    ensures Values(FilterKeys(AsFields(v, m), keep)) == Lookup(m, k)
    decreases |m|
  {
    if m != [] {
      var fs := AsFields(v, m);
      assert fs[0] == Field(v, m[0].key, m[0].value) && fs[1..] == AsFields(v, m[1..]);
      FilterKeyIsLookup(v, m[1..], k, keep);
      var rest := FilterKeys(AsFields(v, m[1..]), keep);
      if m[0].key == k {
        assert FilterKeys(fs, keep) == [fs[0]] + rest;
        assert ([fs[0]] + rest)[1..] == rest;
      } else {
        assert FilterKeys(fs, keep) == rest;
      }
    }
  }

  /** Selecting a non-empty literal key of a keyed collection gives the values stored
      under that key, in order. */
  lemma SelectKeyIsGet(vars: Variables, v: Variable, key: string)
    requires CollectionOf(vars, v).Keyed? && key != ""
    ensures Values(Select(vars, KeyQuery(v, key))) == Get(CollectionOf(vars, v).entries, key)
  {
    var rv := KeyQuery(v, key);
    assert forall k :: !IsException(rv.exceptions, k);
    FilterKeyIsLookup(v, CollectionOf(vars, v).entries, Lower(key),
                      k => KeySelected(rv, k) && !IsException(rv.exceptions, k));
  }

  // ----- bulk insertion -----

  /** The pairs with their keys lowered, as a keyed collection stores them. */
  function LowerKeys(ps: seq<Entry>): (r: MultiMap)
    ensures |r| == |ps|
    ensures forall i :: 0 <= i < |ps| ==> r[i] == Entry(Lower(ps[i].key), ps[i].value)
  {
    seq(|ps|, i requires 0 <= i < |ps| => Entry(Lower(ps[i].key), ps[i].value))
  }

  /** The values of the pairs whose key lowers to the lowered key, in the pairs' order:
      what a case-insensitive lookup of the given pairs is meant to give. */
  function PairValues(ps: seq<Entry>, key: string): (vs: seq<string>)
    ensures forall v :: v in vs <==> exists i :: 0 <= i < |ps| && Lower(ps[i].key) == Lower(key) && ps[i].value == v
    decreases |ps|
  {
    if ps == [] then []
    else
      var rest := PairValues(ps[1..], key);
      assert forall i :: 1 <= i < |ps| ==> ps[i] == ps[1..][i - 1];
      (if Lower(ps[0].key) == Lower(key) then [ps[0].value] else []) + rest
  }

  /** Stored with their keys lowered, the pairs are found under any spelling of a key:
      the values are those of the pairs whose key lowers alike, in order. */
  lemma {:induction false} GetLowerKeys(ps: seq<Entry>, key: string)
    ensures Get(LowerKeys(ps), key) == PairValues(ps, key)
    decreases |ps|
  {
    if ps != [] {
      var r := LowerKeys(ps);
      assert r[0] == Entry(Lower(ps[0].key), ps[0].value) && r[1..] == LowerKeys(ps[1..]);
      GetLowerKeys(ps[1..], key);
    }
  }

  /** Adds every pair, in order, after the pairs already stored. */
  function AddAll(m: MultiMap, ps: seq<Entry>): MultiMap
  {
    m + LowerKeys(ps)
  }

  /** Adding pairs in bulk appends, under each key, the values the pairs give it. */
  lemma GetAddAll(m: MultiMap, ps: seq<Entry>, key: string)
    ensures Get(AddAll(m, ps), key) == Get(m, key) + Get(LowerKeys(ps), key)
  {
    GetConcat(m, LowerKeys(ps), key);
  }
}
