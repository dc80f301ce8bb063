# A verified model of the Coraza transaction core

This project models two parts of the Coraza web application firewall (a Go fork).

The first part is its configuration types (`types/waf.go`):
- the connection engine, audit engine, rule engine and request-body-limit enumerations, with their integer codes;
- the case-lowering parsers that turn configuration strings into those codes;
- the printer of the rule engine status;
- the audit-log part letters;
- the interruption record.

The second part is the behaviour of a firewall transaction, as its test file (`internal/corazawaf/transaction_test.go`) exercises it:
- an engine (`Waf`) that hands out transactions and takes them back into a pool on `Close`;
- five processing phases with a sticky interruption;
- the rule-engine-off bypass;
- request body buffering under a size limit, with the Reject and ProcessPartial overflow policies;
- response body truncation and OUTBOUND_DATA_ERROR;
- body processor selection, including the forced request body variable;
- capture slots, matched-variable bookkeeping and the collection setters;
- the relevant-only audit decision;
- variable selection with keys, key patterns, exceptions and counts (`GetField`);
- macro templates (`%{variable.key}`) parsed into tokens and expanded against the variable store.

Modules:
- `WafTypes` (waf_types.dfy) holds the enumerations and parsers.
- `Decimal` (decimal.dfy) prints integers in decimal and reads them back.
- `Collections` (collections.dfy) holds the case-insensitive multi-maps, the variable store and variable selection.
- `Macros` (macros.dfy) parses and expands macro templates.
- `Transactions` (transaction.dfy) holds the pure step function of each phase and body write, over a snapshot of a transaction's state, and the properties proved about them.
- `Engine` (engine.dfy) holds the `Waf` and `Transaction` classes. Every phase method is proved to move the object exactly as its step function says.
- `Scenarios` (scenarios.dfy) states the tests' expectations about the test request's store and the test macros as lemmas.
- `Lifecycles` (lifecycles.dfy) drives fresh engine and transaction objects through the tests' call sequences, with each test's expectation as a postcondition.

The rule evaluator, the body parsers (urlencoded, multipart) and the relevant-status pattern are not reimplemented. They are function-valued parameters (`Hooks`). Where a test relies on having no rules, the scenario requires that no rule interrupts (`Quiet`). Where it relies on the urlencoded parser accepting the body, it requires that the parser accepts every body (`UrlencodedTotal`).

Phases are numbered 1 (request headers) to 5 (logging); a transaction that has reached no phase has `lastPhase` 0.

## Model

| member | source | states |
|---|---|---|
| WafTypes.LowerIdempotent | types/waf.go:30-40 | lowering, which each parser applies to its input first, is idempotent |
| WafTypes.LoweredHasNoUpper | types/waf.go:30-40 | a lowered string never holds an upper-case letter, so it never equals a keyword that does |
| WafTypes.ParseConnectionEngine | types/waf.go:22-40 | success yields one of the three codes; failure yields -1 and "invalid connection engine: " followed by the input |
| WafTypes.ParseConnectionEngineAccepts | types/waf.go:22-40 | exactly "off" and "on" in any letter case are accepted, as codes 0 and 1 |
| WafTypes.ParseConnectionEngineNeverDetectOnly | types/waf.go:30-40 | the DetectOnly code is never produced, and every spelling of "detectonly" is an error |
| WafTypes.ParseConnectionEngineCorrected | types/waf.go:30-40 | the intended parser also yields only the three codes, or -1 with the error message |
| WafTypes.ParseConnectionEngineCorrectedCases | types/waf.go:22-40 | the intended parser maps exactly off, on and detectonly (any case) to 0, 1 and 2, and agrees with the as-written parser on every other input |
| WafTypes.ParseAuditEngineStatus | types/waf.go:42-60 | success yields one of the three codes; failure yields -1 and the audit engine error message |
| WafTypes.ParseAuditEngineStatusCases | types/waf.go:42-60 | "on", "off" and "relevantonly" in any case map to 0, 1 and 2, each iff; anything else is an error |
| WafTypes.ParseRuleEngineStatus | types/waf.go:62-80 | success yields one of the three codes; failure yields -1 and the rule engine error message |
| WafTypes.ParseRuleEngineStatusCases | types/waf.go:62-80 | "on", "detectiononly" and "off" in any case map to 0, 1 and 2, each iff; anything else is an error |
| WafTypes.RuleEngineString | types/waf.go:82-92 | a code outside the three defined ones, and only such a code, prints as "unknown" |
| WafTypes.RuleEngineRoundTrip | types/waf.go:70-92 | printing a defined status and parsing the result gives back the status without error |
| WafTypes.UnknownDoesNotParse | types/waf.go:70-92 | every code outside the three defined ones prints as "unknown", which parses to -1 with the error "invalid rule engine status: unknown" |
| WafTypes.ParseRequestBodyLimitAction | types/waf.go:94-109 | success would yield ProcessPartial (0) or Reject (1); failure yields -1 and the limit action error message |
| WafTypes.ParseRequestBodyLimitActionAlwaysFails | types/waf.go:101-109 | every input, including "ProcessPartial" and "Reject", is rejected |
| WafTypes.ParseRequestBodyLimitActionCorrected | types/waf.go:101-109 | the intended parser yields 0 or 1, or -1 with the error message |
| WafTypes.ParseRequestBodyLimitActionCorrectedCases | types/waf.go:94-109 | the intended parser maps exactly processpartial and reject (any case) to 0 and 1, and reports every other input as the as-written parser does |
| WafTypes.AuditLogPartAlphabet | types/waf.go:111-127 | the part letters are A to K and Z, twelve of them, strictly ascending |
| Decimal.NatToString | internal/corazawaf/transaction_test.go:578-613 | the decimal form of a count is digits only, non-empty, with no leading zero |
| Decimal.NatToStringValue | internal/corazawaf/transaction_test.go:578-613 | reading the printed digits gives the number back |
| Decimal.NatToStringInjective | internal/corazawaf/transaction_test.go:482-496 | distinct slot numbers have distinct keys |
| Decimal.IntToStringValue | internal/corazawaf/transaction_test.go:352-363 | the printed form of a non-negative number reads back as that number; that of a negative one is "-" followed by digits that read back as its magnitude |
| Decimal.IntToStringInjective | internal/corazawaf/transaction_test.go:482-496 | distinct numbers print differently, so a printed status or slot number identifies the number |
| Collections.Lookup | internal/corazawaf/transaction_test.go:533-555 | the values under a key are exactly the values of the entries with that key |
| Collections.Get | internal/corazawaf/transaction_test.go:533-555 | a lookup is case-insensitive: the values are those stored under the lowered key |
| Collections.GetAdd | internal/corazawaf/transaction_test.go:758-774 | adding a value appends it to the values of its key, in any letter case, and of no other key |
| Collections.Add | internal/corazawaf/transaction_test.go:533-555 | adding grows the store by one entry, the lowered key with the value, and keeps every old entry |
| Collections.SetFirstEntries | internal/corazawaf/transaction_test.go:482-496 | after setting the first value of a key, the lowered key holds the value, every entry is an old one or the new one, and every entry under another key is kept |
| Collections.GetConcat | internal/corazawaf/transaction_test.go:533-555 | looking up in two stores joined gives the values of the first, then of the second |
| Collections.GetSetFirst | internal/corazawaf/transaction_test.go:482-496 | setting the first value of a key replaces that value, or creates it, and leaves other keys alone |
| Collections.RemoveKey | internal/corazawaf/transaction_test.go:894-921 | removing a key drops exactly the entries under its lowered form |
| Collections.LookupRemoveKey | internal/corazawaf/transaction_test.go:894-921 | after removal the key has no value and every other key keeps its values |
| Collections.SetValues | internal/corazawaf/transaction_test.go:894-921 | the entries after replacing are exactly the old ones under other keys and the given values under the lowered key |
| Collections.LookupUniform | internal/corazawaf/transaction_test.go:894-921 | the entries built for a key read back as exactly the given values under its lowered form, and as nothing under any other key |
| Collections.GetSetValues | internal/corazawaf/transaction_test.go:894-921 | replacing the values of a key makes them read back exactly, and leaves other keys alone |
| Collections.UpperLower | internal/corazawaf/transaction_test.go:24-64 | an upper-cased string holds no lower-case letter, lowers to what the original lowers to, and is unchanged by upper-casing again |
| Collections.NameParses | internal/corazawaf/transaction_test.go:24-64 | every variable's name is upper case and parses back to the variable |
| Collections.ParseVariableSound | internal/corazawaf/transaction_test.go:24-64 | a name that parses is, upper-cased, the name of the variable it parses to |
| Collections.ParseVariableIgnoresCase | internal/corazawaf/transaction_test.go:24-64 | a name in any letter case parses to the variable it names |
| Collections.EmptyVariables | internal/corazawaf/transaction_test.go:649-667 | a new store holds the transaction id as UNIQUE_ID and has no TX values and no matched variables |
| Collections.CollectionOf | internal/corazawaf/transaction_test.go:24-64 | exactly the request and response headers, the GET, POST, path and combined arguments, TX and MATCHED_VARS are keyed collections; every other variable holds one value |
| Collections.ArgsIsUnion | internal/corazawaf/transaction_test.go:776-785 | ARGS holds, under each key, the GET, then POST, then path arguments |
| Collections.FilterKeys | internal/corazawaf/transaction_test.go:578-647 | filtering keeps exactly the fields whose key passes |
| Collections.AsFields | internal/corazawaf/transaction_test.go:578-613 | a collection's entries become fields of that variable, one for one |
| Collections.Select | internal/corazawaf/transaction_test.go:578-647 | the selected fields are exactly the entries whose key is selected by key or pattern and not excepted; a simple variable gives its one value unless excepted |
| Collections.SelectAdd | internal/corazawaf/transaction_test.go:758-774 | adding an entry to a keyed collection appends its field to a selection exactly when the query selects the lowered key and does not except it; otherwise the selection is unchanged |
| Collections.GetField | internal/corazawaf/transaction_test.go:578-613 | a counting query gives one field named by the key; any other query gives the selection |
| Collections.GetFieldCount | internal/corazawaf/transaction_test.go:578-613 | the value of a counting query is digits that read as the number of selected fields |
| Collections.ExceptionAppended | internal/corazawaf/transaction_test.go:615-647 | appending an exception excepts exactly what it matches, in addition to the earlier ones |
| Collections.SelectWithExceptKey | internal/corazawaf/transaction_test.go:615-647 | excepting a key removes exactly the fields under its lowered form from the selection |
| Collections.SelectExceptAll | internal/corazawaf/transaction_test.go:615-647 | excepting a pattern that matches every key selects nothing |
| Collections.SelectSingle | internal/corazawaf/transaction_test.go:578-613 | when exactly one entry is selected and not excepted, the selection is that entry |
| Collections.SelectNone | internal/corazawaf/transaction_test.go:615-647 | when every entry is unselected or excepted, the selection is empty |
| Collections.SelectEvery | internal/corazawaf/transaction_test.go:578-613 | when every entry is selected and none excepted, the selection is the whole collection |
| Collections.SelectKeyIsGet | internal/corazawaf/transaction_test.go:24-64 | selecting a collection by a literal key gives the values a case-insensitive lookup gives |
| Collections.PairValues | internal/corazawaf/transaction_test.go:155-249 | the values of the parsed pairs whose key equals a given one in any letter case, and no others |
| Collections.GetLowerKeys | internal/corazawaf/transaction_test.go:155-249 | after parsed pairs are stored under their lowered keys, a lookup in any case gives exactly the values of the pairs with that key, in their order |
| Collections.GetAddAll | internal/corazawaf/transaction_test.go:155-249 | after adding parsed arguments a key reads as its old values, then the new ones |
| Macros.LiteralEnd | internal/corazawaf/transaction_test.go:877-921 | a literal run ends at the first placeholder opening or at the end of the template |
| Macros.ParseReference | internal/corazawaf/transaction_test.go:24-64 | a parsed placeholder is a reference whose key is made of name characters and holds no upper-case letter |
| Macros.ParseReferenceBody | internal/corazawaf/transaction_test.go:24-64 | name.key, where the name parses and the key is made of name characters in any case, is a reference to that variable with the key lowered |
| Macros.ParseReferenceMalformed | internal/corazawaf/transaction_test.go:877-921 | a placeholder body with a character outside the name characters fails as a malformed variable, quoting the body |
| Macros.ParseReferenceUnknown | internal/corazawaf/transaction_test.go:877-921 | a well-formed placeholder body whose name is no variable fails as an unknown variable, naming it, whatever the key |
| Macros.ExpandToken | internal/corazawaf/transaction_test.go:894-921 | a literal token gives its text; a reference without key to a single-valued variable gives that value |
| Macros.ExpandConcat | internal/corazawaf/transaction_test.go:877-921 | expanding two token lists joined is expanding each and joining the results |
| Macros.ParseTextThen | internal/corazawaf/transaction_test.go:894-921 | text without a placeholder opening, before the rest of a template, parses as one literal token before the rest |
| Macros.ParseRefThen | internal/corazawaf/transaction_test.go:894-921 | a well-formed placeholder before the rest of a template parses as one reference, with its key lowered, before the parse of the rest |
| Macros.ParseRender | internal/corazawaf/transaction_test.go:877-921 | printing a well-formed token list and parsing it gives the list back |
| Macros.ParseWellFormed | internal/corazawaf/transaction_test.go:877-921 | every successful parse is well formed (good literals and keys, no two literals in a row), and a template that starts with a placeholder parses to a reference first |
| Macros.ParseUnterminated | internal/corazawaf/transaction_test.go:877-921 | a template with a placeholder opening not followed by any closing brace fails to parse |
| Macros.LiteralTemplate | internal/corazawaf/transaction_test.go:877-921 | a template without placeholders parses and expands to itself |
| Macros.KeyPlaceholderParses | internal/corazawaf/transaction_test.go:24-64 | %{name.key} parses to one reference to the named variable, with the key lowered, whatever the letter case of the name and of the key |
| Macros.KeyTemplate | internal/corazawaf/transaction_test.go:24-64 | %{name.key} with a key in any case expands to the first value stored under the key, or "" when it has none |
| Macros.TextRefText | internal/corazawaf/transaction_test.go:894-921 | text, placeholder, text parses as three tokens |
| Macros.ExpandThree | internal/corazawaf/transaction_test.go:894-921 | three tokens expand to the first text, the placeholder's value and the last text |
| Scenarios.HeadersMatching | internal/corazawaf/transaction_test.go:578-613 | a key pattern matching only host selects the host header alone |
| Scenarios.HeadersCounted | internal/corazawaf/transaction_test.go:578-613 | the test request has five request headers |
| Scenarios.TxVariables | internal/corazawaf/transaction_test.go:578-595 | REQUEST_HEADERS with the pattern ho.* gives exactly the host header |
| Scenarios.TxVariablesCount | internal/corazawaf/transaction_test.go:578-613 | counting the pattern's matches gives "1", and a count without pattern gives one field |
| Scenarios.TxVariablesTotal | internal/corazawaf/transaction_test.go:578-613 | counting all request headers reads back as 5 |
| Scenarios.TxVariablesExceptKey | internal/corazawaf/transaction_test.go:615-647 | excepting host by name from ho.* leaves nothing |
| Scenarios.TxVariablesExceptPattern | internal/corazawaf/transaction_test.go:615-647 | excepting the selecting pattern itself leaves nothing |
| Scenarios.TxGetField | internal/corazawaf/transaction_test.go:776-785 | ARGS of the test request has three fields |
| Scenarios.BodyFieldResolves | internal/corazawaf/transaction_test.go:815-835 | the test request's urlencoded body goes through the request body phase, without interruption or error, and its field testfield then reads as 456 in ARGS_POST |
| Scenarios.TestHeadersUrlencoded | internal/corazawaf/transaction_test.go:815-835 | the test request's content type is the urlencoded one, so its body goes to the URLENCODED processor |
| Scenarios.UniqueIdMacro | internal/corazawaf/transaction_test.go:894-921 | %{unique_id} parses to one reference to UNIQUE_ID |
| Scenarios.UniqueIdExpands | internal/corazawaf/transaction_test.go:894-921 | the UNIQUE_ID reference expands to the transaction id |
| Scenarios.ComplexMacro | internal/corazawaf/transaction_test.go:894-921 | the complex template parses as text, a reference to TX:some and text |
| Scenarios.ComplexMacroExpands | internal/corazawaf/transaction_test.go:894-921 | with TX:some set to "secretly" the complex template expands with the placeholder replaced and the text kept |
| Transactions.Initial | internal/corazawaf/transaction_test.go:649-667 | a handed-out transaction has no interruption, no phase reached, no fired rules, empty buffers and its id as UNIQUE_ID |
| Transactions.Evaluated | internal/corazawaf/transaction_test.go:961-1022 | running the rules of a phase only moves evaluation forward, reaches at least that phase, keeps the store and both buffers, and cannot interrupt unless the rule engine is On |
| Transactions.RequestHeadersStep | internal/corazawaf/transaction_test.go:365-378 | an interrupted transaction is unchanged, returns its interruption and logs one diagnostic; with the engine off nothing changes and nothing is returned or logged; otherwise phase 1 is reached with the store kept, and what it returns is the interruption then held |
| Transactions.BodyProcessorCases | internal/corazawaf/transaction_test.go:714-744 | the processor depends on the content type in any letter case; a multipart type goes to MULTIPART, and the body is left unparsed exactly when it is not forced and neither urlencoded nor multipart |
| Transactions.RequestBodyStep | internal/corazawaf/transaction_test.go:379-389 | the same guards as the request headers step; otherwise the request body phase runs, keeping both buffers |
| Transactions.ResponseHeadersStep | internal/corazawaf/transaction_test.go:390-398 | the same guards; otherwise phase 3 is reached, RESPONSE_STATUS is the printed status code, what it returns is the interruption then held, and both buffers are kept |
| Transactions.ResponseBodyVariables | internal/corazawaf/transaction_test.go:669-687 | with response body access off the store is unchanged; with it on RESPONSE_BODY is the body cut to the limit and OUTBOUND_DATA_ERROR is set exactly when the body is over the limit |
| Transactions.ResponseBodyStep | internal/corazawaf/transaction_test.go:399-409 | the same guards; otherwise phase 4 is reached, what it returns is the interruption then held, and both buffers are kept |
| Transactions.LoggingStep | internal/corazawaf/transaction_test.go:410-417 | the store is kept; the transaction is audited exactly when the audit decision says so; an interrupted transaction or one with the engine off is otherwise frozen, and any other reaches phase 5 |
| Transactions.WriteStep | internal/corazawaf/transaction_test.go:139-153 | a write appends exactly the first bytes it reports taking, at most all of them, and keeps the response body; with an interruption attached, the engine off or body access off it takes nothing and changes nothing, returning the interruption only when the engine is on with body access |
| Transactions.RequestBodyPhaseFacts | internal/corazawaf/transaction_test.go:155-249 | the request body phase leaves the buffers and the data-error flag alone, only moves evaluation forward, and interrupts only when the rules ask it to with the engine On |
| Transactions.UrlencodedBodyPhase | internal/corazawaf/transaction_test.go:714-729 | a body handed to URLENCODED that parses adds its arguments to ARGS_POST, sets REQUEST_BODY and reports no interruption and no error |
| Transactions.UnparsedBodyPhase | internal/corazawaf/transaction_test.go:731-744 | a body no processor takes is not parsed: no error, and REQUEST_BODY and ARGS_POST stay as they were |
| Transactions.ApplyFacts | internal/corazawaf/transaction_test.go:961-1022 | one operation only moves evaluation forward and keeps the id; it leaves an interrupted transaction, or one with the engine off, frozen |
| Transactions.RunProgresses | internal/corazawaf/transaction_test.go:961-1022 | any sequence of operations only moves evaluation forward and keeps the id |
| Transactions.InterruptionIsSticky | internal/corazawaf/transaction_test.go:961-1022 | after an interruption no operation evaluates rules, changes a collection or buffer, or replaces it |
| Transactions.EngineOffEvaluatesNothing | internal/corazawaf/transaction_test.go:365-417 | with the rule engine off no sequence of operations reaches a phase, fires a rule, interrupts or buffers |
| Transactions.DetectionOnlyNeverInterrupts | internal/corazawaf/transaction_test.go:365-417 | in DetectionOnly mode, without the Reject policy, no sequence of operations interrupts |
| Transactions.RequestBodyOnce | internal/corazawaf/transaction_test.go:155-249 | after a successful request body phase, a second one changes nothing |
| Transactions.Capped | internal/corazawaf/transaction_test.go:669-687 | the cut body is a prefix of at most limit bytes, and the whole body when it fits |
| Transactions.CappedAppend | internal/corazawaf/transaction_test.go:155-249 | cutting, appending and cutting again is appending and cutting once |
| Transactions.WriteFacts | internal/corazawaf/transaction_test.go:305-350 | a write appends exactly the bytes it reports taking; with body access off, the engine off or an interruption attached it takes nothing and changes nothing; without Reject it interrupts only through the rules |
| Transactions.WriteWithinLimit | internal/corazawaf/transaction_test.go:155-303 | under either limit policy a buffer within the limit stays within it |
| Transactions.RejectChunks | internal/corazawaf/transaction_test.go:155-249 | under Reject a chunked body is buffered whole when it fits, and otherwise the writes end with the body-limit interruption, however the body is split |
| Transactions.RejectedStaysRejected | internal/corazawaf/transaction_test.go:155-249 | once rejected, every later write reports the body-limit interruption |
| Transactions.PartialChunks | internal/corazawaf/transaction_test.go:155-249 | under ProcessPartial with quiet rules a chunked body is buffered up to the limit, no write interrupts, and an overflow sets INBOUND_DATA_ERROR |
| Transactions.PartialStep | internal/corazawaf/transaction_test.go:155-249 | one write under ProcessPartial with quiet rules buffers up to the limit, does not interrupt, and flags an overflow |
| Transactions.FitChunks | internal/corazawaf/transaction_test.go:155-249 | chunks that fit together are buffered whole under any policy, and nothing else changes |
| Transactions.FullWritesKeepState | internal/corazawaf/transaction_test.go:251-303 | after the request body phase ran on a full buffer under ProcessPartial, further writes change nothing |
| Transactions.PartialChunksDecoded | internal/corazawaf/transaction_test.go:155-249 | under ProcessPartial the overflowing write runs the request body phase on exactly the first limit bytes, however the body is split |
| Transactions.WriteAtLimit | internal/corazawaf/transaction_test.go:251-303 | a write to a full buffer takes no byte; an attached interruption comes back; under ProcessPartial with quiet rules and no parser none comes back and no error |
| Transactions.ResponseBodyTruncation | internal/corazawaf/transaction_test.go:669-687 | RESPONSE_BODY is the buffered body cut to the limit, a cut sets OUTBOUND_DATA_ERROR, and the buffer is kept whole |
| Transactions.AuditDecision | internal/corazawaf/transaction_test.go:498-509 | On audits, Off never does, and RelevantOnly audits exactly when the status pattern matches |
| Engine.MatchedNameSplits | internal/corazawaf/transaction_test.go:689-712 | a match is named by its variable, then ":" and the key when the key is not empty; the key is empty exactly when the name holds no ":" |
| Engine.Waf.constructor | internal/corazawaf/transaction_test.go:815-835 | a new engine has rule engine On, audit engine Off, body access off, limits of 134217728 and 524288 bytes, ProcessPartial, an empty log and an empty pool |
| Engine.Waf.NewTransaction | internal/corazawaf/transaction_test.go:649-667 | a handed-out transaction is in its initial state with the engine's settings; it is the last pooled one, removed from the pool, or a fresh one when the pool is empty; only that pooled transaction may change |
| Engine.Transaction.constructor | internal/corazawaf/transaction_test.go:649-667 | a new transaction is in its initial state with its engine's settings |
| Engine.Transaction.Reset | internal/corazawaf/transaction_test.go:649-667 | a reused transaction is in its initial state with its engine's settings |
| Engine.Transaction.Scrub | internal/corazawaf/transaction_test.go:649-667 | the mutable state becomes the initial one, and the settings and id are kept |
| Engine.Transaction.Evaluate | internal/corazawaf/transaction_test.go:961-1022 | rule evaluation moves the state as the evaluation step says |
| Engine.Transaction.Refuse | internal/corazawaf/transaction_test.go:961-1022 | a refused operation writes exactly one log entry naming it |
| Engine.Transaction.ProcessRequestHeaders | internal/corazawaf/transaction_test.go:365-378 | the new state, the interruption returned and the log entries are those of the request headers step |
| Engine.Transaction.ProcessRequestBody | internal/corazawaf/transaction_test.go:379-389 | the new state, interruption, error and log entries are those of the request body step |
| Engine.Transaction.ProcessResponseHeaders | internal/corazawaf/transaction_test.go:390-398 | the new state, interruption and log entries are those of the response headers step |
| Engine.Transaction.ProcessResponseBody | internal/corazawaf/transaction_test.go:399-409 | the new state, interruption, error and log entries are those of the response body step |
| Engine.Transaction.ProcessLogging | internal/corazawaf/transaction_test.go:410-417 | the new state is that of the logging step |
| Engine.Transaction.WriteRequestBody | internal/corazawaf/transaction_test.go:139-153 | the new state, interruption, byte count and error are those of the write step; the log is unchanged |
| Engine.Transaction.ReadRequestBodyFrom | internal/corazawaf/transaction_test.go:139-153 | reading a body from a stream has the outcome of writing all of its bytes |
| Engine.Transaction.WriteRequestBodyBuffer | internal/corazawaf/transaction_test.go:556-576 | the bytes are appended to the request body buffer, bypassing the limit, and nothing else changes |
| Engine.Transaction.WriteResponseBodyBuffer | internal/corazawaf/transaction_test.go:432-449 | the response body bytes are appended and nothing else changes |
| Engine.Transaction.ProcessConnection | internal/corazawaf/transaction_test.go:746-756 | the client and server addresses and ports are stored and nothing else changes |
| Engine.Transaction.AddRequestHeader | internal/corazawaf/transaction_test.go:533-555 | the header is added to REQUEST_HEADERS and nothing else changes |
| Engine.Transaction.AddResponseHeader | internal/corazawaf/transaction_test.go:352-363 | the header is added to RESPONSE_HEADERS, and a content-type header in any case also sets RESPONSE_CONTENT_TYPE |
| Engine.Transaction.AddArgument | internal/corazawaf/transaction_test.go:758-774 | the argument is added to the GET, POST or path collection of its kind only |
| Engine.Transaction.CaptureField | internal/corazawaf/transaction_test.go:482-496 | with capturing on, the value becomes the first one of the slot's TX key; otherwise nothing changes |
| Engine.Transaction.ResetCaptures | internal/corazawaf/transaction_test.go:482-496 | each slot 0 to 9 gets "" as its first value, and every other TX key keeps its values |
| Engine.SlotReset | internal/corazawaf/transaction_test.go:482-496 | blanking one slot leaves every other slot and TX key alone |
| Engine.Transaction.MatchRule | internal/corazawaf/transaction_test.go:649-667 | the fired rule is appended and nothing else changes |
| Engine.Transaction.MatchVariable | internal/corazawaf/transaction_test.go:689-712 | MATCHED_VAR, MATCHED_VAR_NAME and MATCHED_VARS record the match and nothing else changes |
| Engine.Transaction.Close | internal/corazawaf/transaction_test.go:649-667 | the transaction is scrubbed and pooled once; closing it again leaves the pool unchanged |
| Lifecycles.EngineOffScenario | internal/corazawaf/transaction_test.go:365-417 | with the engine off on the transaction, none of the five phases is reached and the body phases report no error |
| Lifecycles.IdempotencyScenario | internal/corazawaf/transaction_test.go:961-1022 | on an interrupted transaction, each of the four phase operations returns that interruption and logs one entry naming itself |
| Lifecycles.SyncPoolScenario | internal/corazawaf/transaction_test.go:649-667 | every transaction handed out after a close has no fired rules, round after round |
| Lifecycles.Recycle | internal/corazawaf/transaction_test.go:657-665 | one round of close and take: the transaction handed out belongs to the engine and has no fired rules |
| Lifecycles.Phase4MagicScenario | internal/corazawaf/transaction_test.go:669-687 | "more bytes" against a limit of three gives RESPONSE_BODY "mor" and OUTBOUND_DATA_ERROR "1" |
| Lifecycles.OnLimitReachedScenario | internal/corazawaf/transaction_test.go:251-303 | writing to a full buffer by either writer takes no byte and reports no error; the attached interruption comes back under Reject and none under ProcessPartial |
| Lifecycles.WriteRequestBodyScenario | internal/corazawaf/transaction_test.go:155-249 | for any chunking and either writer: an over-limit body under Reject interrupts; otherwise ARGS_POST holds the parse of the body cut to the limit, with no interruption and no error |
| Lifecycles.WriteChunks | internal/corazawaf/transaction_test.go:155-249 | writing the chunks one after another, by either writer, has the outcome of the write steps applied in order |
| Lifecycles.WriteBodyOutcome | internal/corazawaf/transaction_test.go:155-249 | the same outcome, stated on the step functions |
| Lifecycles.ResponseHeaderScenario | internal/corazawaf/transaction_test.go:352-363 | a content-type response header sets RESPONSE_CONTENT_TYPE to "test" and the phase returns no interruption |
| Lifecycles.ResponseBodyScenario | internal/corazawaf/transaction_test.go:432-449 | a response body under the limit is exposed whole as "test123" with no error |
| Lifecycles.ResetCaptureScenario | internal/corazawaf/transaction_test.go:482-496 | capture 5 is stored as ["test"] under TX:5 and reads [""] after the reset |
| Lifecycles.RelevantAuditScenario | internal/corazawaf/transaction_test.go:498-509 | with RelevantOnly and a status the pattern matches, the transaction is audited |
| Lifecycles.ReqBodyForceScenario | internal/corazawaf/transaction_test.go:714-729 | forced, a body without content type is exposed as REQUEST_BODY "test" with no error |
| Lifecycles.BodyProcessingAlgorithmScenario | internal/corazawaf/transaction_test.go:556-576 | forced, a text/plain body is exposed as REQUEST_BODY "test123" with no error |
| Lifecycles.ReqBodyForceNegativeScenario | internal/corazawaf/transaction_test.go:731-744 | not forced, a body without content type leaves REQUEST_BODY empty, with no error |
| Lifecycles.VariablesMatchScenario | internal/corazawaf/transaction_test.go:689-712 | a match on ARGS_NAMES:sample sets MATCHED_VAR to its value, MATCHED_VAR_NAME to "ARGS_NAMES:sample", and MATCHED_VARS is not empty |
| Lifecycles.ProcessConnectionScenario | internal/corazawaf/transaction_test.go:746-756 | the client address 127.0.0.1 and port 80 are stored |
| Lifecycles.AddArgumentScenario | internal/corazawaf/transaction_test.go:758-774 | a GET, a POST and a path argument each land in their own collection |

## Left out

- The rule evaluator, the SecLang rules, the urlencoded and multipart body parsers, key regular expressions and the relevant-status pattern are not implemented. They are parameters (`Hooks`, and `string -> bool` patterns).
- Scenarios that need a rule set with no interrupting rule require `Quiet(hooks)`. Scenarios that need the urlencoded body to parse require `UrlencodedTotal(hooks)`. The tests get both from an engine without rules and a real parser.
- makeTransaction parses a raw HTTP request (ParseRequestReader), and ProcessURI splits a URI. Neither is modelled. The store it leaves is written out as `Scenarios.TestStore` (its headers, its query and its body arguments). The request-line and URI variables of TestTxSetters, and TestTxProcessURI, are not covered.
- Multipart bodies and the files variables are not modelled (TestTxMultipart, TestTxSettersMultipart). That includes file names, sizes and temporary files.
- The spill of large bodies to temporary files, and the in-memory body limit, are not modelled. Buffers are byte sequences held in memory.
- Cookies, the header-name and cookie-name collections, and the cookie parsing of TestHeaderSetters are not modelled. Headers are stored under their lowered names only.
- Building the audit log record (TestAuditLog, TestAuditLogFields) is not modelled, and neither is which AuditLogParts letters it includes. Only the audit decision is.
- The error callback of TestLogCallback is not modelled.
- sync.Pool is modelled as a sequential last-in-first-out pool. Concurrent use is not modelled.
- The response-body MIME type filter and the response body limit action are not modelled. The protocol argument of ProcessResponseHeaders (the response protocol) is dropped. A response body always goes through truncation when response body access is on.
- Lowering and upper-casing are ASCII only; Go's Unicode case mapping is not modelled. Go's strings.ToLower maps U+0130 (İ) to 'i', so the source accepts spellings such as "DetectİonOnly" and "processpartİal" that the model's parsers reject.
- The variables enum of MatchData is reduced to the variable's name string. ARGS_NAMES appears only as that name.
- Rules' own audit and log flags, and the engine's other defaults, are not modelled.
- The tests' trailing Close calls are modelled only in SyncPoolScenario.
- Interruptions are compared by value. In Go an interruption is a pointer, and the tests compare pointers.
- The rest of the model uses the limit-action and connection-engine constants directly, not the parsers of types/waf.go.
- Phases follow the ModSecurity numbering the code and tests use: 1 = request headers to 5 = logging. There is no connection phase.
- The interruption check comes before the engine-off check. ProcessRequestBody does nothing once the request body phase was reached, so a ProcessPartial overflow followed by ProcessRequestBody parses the body once. TestWriteRequestBody expects a single "result" under "some".
- Macros.ExpandToken: a reference gives only the first value it selects. When a key selects several values the source joins them; that joining is not modelled.
- Engine.Waf.NewTransaction: the transaction id is a parameter. The source's NewTransaction takes no argument and generates the id itself, and the generator is not modelled.
- Collections.SetFirst: its own contract states only the size of the result; what it stores is stated by Collections.SetFirstEntries and Collections.GetSetFirst.
- Collections.ParseVariable, Macros.Parse and Macros.Expand carry no contract of their own. What they do is stated by the lemmas about them: ParseVariableSound, ParseVariableIgnoresCase and NameParses; ParseWellFormed, ParseUnterminated and ParseRender; ExpandConcat and ExpandThree.

## Findings

| source | as written | input that shows it | evidently intended | confidence | as-written member | corrected member |
|---|---|---|---|---|---|---|
| types/waf.go:30-40 | the lowered input is compared with "DetectOnly", which holds upper-case letters | "DetectOnly" (any spelling of detectonly) is rejected as an invalid connection engine | compare with "detectonly", so that DetectOnly parses to 2 | not executed | WafTypes.ParseConnectionEngineNeverDetectOnly | WafTypes.ParseConnectionEngineCorrectedCases |
| types/waf.go:101-109 | the lowered input is compared with "ProcessPartial" and "Reject" | "Reject" and "ProcessPartial" themselves are rejected; every input fails | compare with "processpartial" and "reject" | not executed | WafTypes.ParseRequestBodyLimitActionAlwaysFails | WafTypes.ParseRequestBodyLimitActionCorrectedCases |
