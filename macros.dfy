/** Macros: templates that mix literal text with %{variable.key} placeholders, parsed
    once into tokens and expanded against the variable store of a transaction
    (internal/corazawaf/transaction_test.go: TestMacro, validateMacroExpansion). */
module Macros {
  import opened WafTypes
  import opened Collections

  /** A literal run of text, or a reference to a variable with an optional key (the
      empty key when none is written). */
  datatype Token = Text(text: string) | Ref(variable: Variable, key: string)

  type Macro = seq<Token>

  datatype Result<T> = Success(value: T) | Failure(error: string)

  /** A placeholder opens at position i. */
  predicate OpensAt(s: string, i: int)
  {
    0 <= i && i + 1 < |s| && s[i] == '%' && s[i + 1] == '{'
  }

  /** The end of the literal run that starts at i: the first opening at or after i, or
      the end of the string. */
  function LiteralEnd(s: string, i: nat): (n: nat)
    requires i <= |s|
    ensures i <= n <= |s|
    ensures n < |s| ==> OpensAt(s, n)
    ensures forall j :: i <= j < n ==> !OpensAt(s, j)
    decreases |s| - i
  {
    if i == |s| || OpensAt(s, i) then i else LiteralEnd(s, i + 1)
  }

  /** The first '}' at or after i, or the end of the string. */
  function CloseIndex(s: string, i: nat): (n: nat)
    requires i <= |s|
    ensures i <= n <= |s|
    ensures n < |s| ==> s[n] == '}'
    ensures forall j :: i <= j < n ==> s[j] != '}'
    decreases |s| - i
  {
    if i == |s| || s[i] == '}' then i else CloseIndex(s, i + 1)
  }

  /** The first '.' of a string, or its length. */
  function DotIndex(s: string): (n: nat)
    ensures n <= |s|
    ensures n < |s| ==> s[n] == '.'
    ensures forall j :: 0 <= j < n ==> s[j] != '.'
  {
    if s == [] || s[0] == '.' then 0 else 1 + DotIndex(s[1..])
  }

  /** The characters a placeholder may hold. */
  predicate IsNameChar(c: char)
  {
    'a' <= c <= 'z' || 'A' <= c <= 'Z' || '0' <= c <= '9' || c == '_' || c == '.' || c == '-'
  }

  /** Characters a placeholder may hold, all of them. */
  predicate NameChars(x: string)
  {
    forall j :: 0 <= j < |x| ==> IsNameChar(x[j])
  }

  /** Parses the inside of a placeholder: a variable name, then optionally a dot and a
      key. The name is resolved ignoring case and the key is lowered. ParseReferenceBody
      states what a success holds; ParseReferenceMalformed and ParseReferenceUnknown
      state the two errors. */
  function ParseReference(body: string): (r: Result<Token>)
    ensures r.Success? ==> r.value.Ref? && GoodKey(r.value.key)
  {
    if exists j :: 0 <= j < |body| && !IsNameChar(body[j]) then
      Failure("malformed variable starting with %{" + body)
    else
      var dot := DotIndex(body);
      var name := body[..dot];
      var key := if dot < |body| then body[dot + 1..] else "";
      match ParseVariable(name)
      case None => Failure("unknown variable " + name)
      case Some(v) =>
        assert forall j :: 0 <= j < |key| ==> IsNameChar(Lower(key)[j]);
        Success(Ref(v, Lower(key)))
  }

  /** A token before the rest of a parse; a failure stays a failure. */
  function Cons(t: Token, r: Result<Macro>): Result<Macro>
  {
    match r
    case Failure(e) => Failure(e)
    case Success(rest) => Success([t] + rest)
  }

  /** Parses a template into tokens, or fails without building any part of a macro. */
  function Parse(s: string): (r: Result<Macro>)
    decreases |s|
  {
    if s == [] then Success([])
    else if OpensAt(s, 0) then
      var close := CloseIndex(s, 2);
      if close == |s| then Failure("malformed variable: no closing braces")
      else
        match ParseReference(s[2..close])
        case Failure(e) => Failure(e)
        case Success(t) =>
          Cons(t, Parse(s[close + 1..]))
    else
      var n := LiteralEnd(s, 0);
      Cons(Text(s[..n]), Parse(s[n..]))
  }

  /** The value a token stands for: literal text verbatim; a reference gives the first
      value the key selects (the whole collection for the empty key), or the empty
      string when nothing is selected. A reference to a single-valued variable such as
      UNIQUE_ID gives that value; KeyTemplate states what a key of a keyed variable
      gives. */
  function ExpandToken(t: Token, vars: Variables): (r: string)
    ensures t.Text? ==> r == t.text
    ensures t.Ref? && t.key == "" && CollectionOf(vars, t.variable).Simple? ==> r == CollectionOf(vars, t.variable).value
  {
    match t
    case Text(x) => x
    case Ref(v, key) =>
      var vs := Values(Select(vars, KeyQuery(v, key)));
      if vs == [] then "" else vs[0]
  }

  /** Expands a macro against a store; the macro itself is not changed. */
  function Expand(m: Macro, vars: Variables): string
  {
    if m == [] then "" else ExpandToken(m[0], vars) + Expand(m[1..], vars)
  }

  /** Expansion distributes over concatenation of token lists. */
  lemma {:induction false} ExpandConcat(a: Macro, b: Macro, vars: Variables)
    ensures Expand(a + b, vars) == Expand(a, vars) + Expand(b, vars)
    decreases |a|
  {
    if a == [] {
      assert a + b == b;
    } else {
      assert (a + b)[1..] == a[1..] + b;
      ExpandConcat(a[1..], b, vars);
    }
  }

  // ----- the inverse: rendering tokens back into a template -----

  /** The inside of a placeholder as written for a spelling of the variable's name. */
  function Body(name: string, key: string): string
  {
    if key == "" then name else name + "." + key
  }

  function Render(m: Macro): string
  {
    if m == [] then ""
    else
      (match m[0]
       case Text(x) => x
       case Ref(v, key) => "%{" + Body(Name(v), key) + "}")
      + Render(m[1..])
  }

  /** A spelling of a variable's name that a placeholder can hold. */
  predicate GoodName(name: string)
  {
    name != [] && forall j :: 0 <= j < |name| ==> IsNameChar(name[j]) && name[j] != '.'
  }

  /** A key that parses back to itself: name characters only, none upper case. */
  predicate GoodKey(key: string)
  {
    forall j :: 0 <= j < |key| ==> IsNameChar(key[j]) && !IsUpper(key[j])
  }

  predicate GoodText(x: string)
  {
    x != [] && forall j :: 0 <= j < |x| ==> !OpensAt(x, j)
  }

  /** The token lists Parse produces: non-empty literal runs with no opening in them,
      never two runs side by side, keys in lower case. */
  predicate WellFormed(m: Macro)
  {
    && (forall i :: 0 <= i < |m| ==> (m[i].Text? ==> GoodText(m[i].text)) && (m[i].Ref? ==> GoodKey(m[i].key)))
    && (forall i :: 0 <= i < |m| - 1 ==> !(m[i].Text? && m[i + 1].Text?))
  }

  lemma {:induction false} LiteralEndOfText(x: string, rest: string, i: nat)
    requires GoodText(x) && i <= |x|
    requires rest == [] || OpensAt(rest, 0)
    ensures LiteralEnd(x + rest, i) == |x|
    decreases |x| - i
  {
    var s := x + rest;
    if i < |x| {
      if i + 1 < |x| {
        assert !OpensAt(x, i);
      } else if rest != [] {
        assert s[i + 1] == rest[0];
      }
      LiteralEndOfText(x, rest, i + 1);
    } else if rest != [] {
      assert s[i] == rest[0] && s[i + 1] == rest[1];
    }
  }

  /** A literal run followed by a template that is empty or starts with a placeholder
      parses as that run followed by the parse of the rest. */
  lemma ParseTextThen(x: string, rest: string)
    requires GoodText(x)
    requires rest == [] || OpensAt(rest, 0)
    ensures Parse(x + rest) == Cons(Text(x), Parse(rest))
  {
    var s := x + rest;
    LiteralEndOfText(x, rest, 0);
    assert !OpensAt(s, 0);
    assert s[..|x|] == x && s[|x|..] == rest;
  }

  lemma {:induction false} CloseIndexAfter(s: string, body: string, i: nat)
    requires forall j :: 0 <= j < |body| ==> body[j] != '}'
    requires i <= |body|
    ensures CloseIndex("%{" + body + "}" + s, 2 + i) == 2 + |body|
    decreases |body| - i
  {
    var t := "%{" + body + "}" + s;
    if i < |body| {
      assert t[2 + i] == body[i];
      CloseIndexAfter(s, body, i + 1);
    } else {
      assert t[2 + |body|] == '}';
    }
  }

  lemma DotIndexOfBody(name: string, key: string)
    requires GoodName(name)
    ensures DotIndex(Body(name, key)) == |name|
    ensures Body(name, key)[..|name|] == name
    ensures |name| < |Body(name, key)| ==> Body(name, key)[|name| + 1..] == key
    ensures |name| == |Body(name, key)| ==> key == ""
  {
    DotIndexPrefix(name, if key == "" then "" else "." + key);
  }

  lemma {:induction false} DotIndexPrefix(name: string, tail: string)
    requires forall j :: 0 <= j < |name| ==> name[j] != '.'
    requires tail == [] || tail[0] == '.'
    ensures DotIndex(name + tail) == |name|
    decreases |name|
  {
    if name == [] {
      assert name + tail == tail;
    } else {
      assert (name + tail)[1..] == name[1..] + tail;
      DotIndexPrefix(name[1..], tail);
    }
  }

  /** A placeholder for a known spelling of a variable and a key written in any case
      parses to a reference to that variable under the lowered key. */
  lemma ParseReferenceBody(name: string, v: Variable, key: string)
    requires GoodName(name) && ParseVariable(name) == Some(v) && NameChars(key)
    ensures NameChars(Body(name, key))
    ensures ParseReference(Body(name, key)) == Success(Ref(v, Lower(key)))
  {
    DotIndexOfBody(name, key);
    NameCharsOfBody(name, key);
  }

  lemma NameCharsOfBody(name: string, key: string)
    requires GoodName(name) && NameChars(key)
    ensures NameChars(Body(name, key))
  {
    var body := Body(name, key);
    forall j | 0 <= j < |body| ensures IsNameChar(body[j]) {
      if j < |name| {
        assert body[j] == name[j];
      } else if j > |name| {
        assert body[j] == key[j - |name| - 1];
      }
    }
  }

  /** A placeholder holding a character no placeholder may hold is an error. */
  lemma ParseReferenceMalformed(body: string)
    requires !NameChars(body)
    ensures ParseReference(body) == Failure("malformed variable starting with %{" + body)
  {
  }

  /** A placeholder whose name, the text before its first dot, names no variable is an
      error, whatever key follows. */
  lemma ParseReferenceUnknown(name: string, key: string)
    requires GoodName(name) && ParseVariable(name).None? && NameChars(key)
    ensures ParseReference(Body(name, key)) == Failure("unknown variable " + name)
  {
    var body := Body(name, key);
    DotIndexOfBody(name, key);
    NameCharsOfBody(name, key);
  }

  /** A placeholder followed by the rest of a template parses as its reference followed
      by the parse of the rest. */
  lemma ParseRefThen(name: string, v: Variable, key: string, rest: string)
    requires GoodName(name) && ParseVariable(name) == Some(v) && NameChars(key)
    ensures Parse("%{" + Body(name, key) + "}" + rest)
         == Cons(Ref(v, Lower(key)), Parse(rest))
  {
    var body := Body(name, key);
    ParseReferenceBody(name, v, key);
    assert forall j :: 0 <= j < |body| ==> body[j] != '}';
    PlaceholderSplit(body, rest);
    var s, close := "%{" + body + "}" + rest, 2 + |body|;
    assert ParseReference(s[2..close]) == Success(Ref(v, Lower(key)));
    ParseOpening(s, close, Ref(v, Lower(key)));
    assert s[close + 1..] == rest;
  }

  /** Where a placeholder whose body holds no closing brace ends, and what lies on
      either side of its closing brace. */
  lemma PlaceholderSplit(body: string, rest: string)
    requires forall j :: 0 <= j < |body| ==> body[j] != '}'
    ensures var s := "%{" + body + "}" + rest;
      OpensAt(s, 0) && CloseIndex(s, 2) == 2 + |body|
      && s[2..2 + |body|] == body && s[2 + |body| + 1..] == rest
  {
    var s := "%{" + body + "}" + rest;
    CloseIndexAfter(rest, body, 0);
    assert s[2..2 + |body|] == body;
    assert s[2 + |body| + 1..] == rest;
  }

  /** Parse, one step, at a placeholder that closes and holds a good reference. */
  lemma ParseOpening(s: string, close: nat, t: Token)
    requires OpensAt(s, 0) && 2 <= close < |s| && CloseIndex(s, 2) == close
    requires ParseReference(s[2..close]) == Success(t)
    ensures Parse(s) == Cons(t, Parse(s[close + 1..]))
  {
    assert s != [] && OpensAt(s, 0);
  }

  /** Parse, one step, at a literal run. */
  lemma ParseLiteral(s: string, n: nat)
    requires s != [] && !OpensAt(s, 0) && n == LiteralEnd(s, 0)
    ensures Parse(s) == Cons(Text(s[..n]), Parse(s[n..]))
  {
    assert s != [] && !OpensAt(s, 0);
  }

  /** Every variable's own name is a spelling that parses back to it. */
  lemma NameParsesBack(v: Variable)
    ensures GoodName(Name(v)) && ParseVariable(Name(v)) == Some(v)
  {
    NameParses(v);
    assert Name(v) != [];
  }

  /** A rendered reference with a good key parses back to the same reference. */
  lemma RenderedRefThen(v: Variable, key: string, rest: string)
    requires GoodKey(key)
    ensures Parse("%{" + Body(Name(v), key) + "}" + rest)
         == Cons(Ref(v, key), Parse(rest))
  {
    NameParsesBack(v);
    NoUpperLower(key);
    ParseRefThen(Name(v), v, key, rest);
  }

  /** Rendering a well-formed macro and parsing the text gives the macro back. */
  lemma {:induction false} ParseRender(m: Macro)
    requires WellFormed(m)
    ensures Parse(Render(m)) == Success(m)
    decreases |m|
  {
    if m != [] {
      assert WellFormed(m[1..]);
      ParseRender(m[1..]);
      var rest := Render(m[1..]);
      match m[0]
      case Text(x) =>
        if m[1..] != [] {
          assert m[1].Ref?;
          assert Render(m[1..]) == "%{" + Body(Name(m[1].variable), m[1].key) + "}" + Render(m[2..]);
        }
        ParseTextThen(x, rest);
        assert [Text(x)] + m[1..] == m;
      case Ref(v, key) =>
        RenderedRefThen(v, key, rest);
        assert [Ref(v, key)] + m[1..] == m;
    }
  }

  /** A token in front of a well-formed list keeps it well-formed when it is a good
      reference, or a good literal run not followed by another run. */
  lemma WellFormedCons(t: Token, rest: Macro)
    requires WellFormed(rest)
    requires t.Text? ==> GoodText(t.text) && (rest != [] ==> rest[0].Ref?)
    requires t.Ref? ==> GoodKey(t.key)
    ensures WellFormed([t] + rest)
  {
    var m := [t] + rest;
    assert forall i :: 1 <= i < |m| ==> m[i] == rest[i - 1];
  }

  /** Whatever Parse builds has the shape of WellFormed: non-empty literal runs with no
      opening, never two runs side by side, keys in lower case; and a template that
      starts with a placeholder starts with a reference. */
  lemma {:induction false} ParseWellFormed(s: string)
    ensures Parse(s).Success? ==> WellFormed(Parse(s).value)
    ensures Parse(s).Success? && OpensAt(s, 0) ==> Parse(s).value != [] && Parse(s).value[0].Ref?
    decreases |s|
  {
    if s != [] && Parse(s).Success? {
      if OpensAt(s, 0) {
        var close := CloseIndex(s, 2);
        ParseWellFormed(s[close + 1..]);
        WellFormedRefStep(s, close);
      } else {
        var n := LiteralEnd(s, 0);
        ParseWellFormed(s[n..]);
        WellFormedTextStep(s, n);
      }
    }
  }

  lemma WellFormedRefStep(s: string, close: nat)
    requires OpensAt(s, 0) && close == CloseIndex(s, 2) && Parse(s).Success?
    requires Parse(s[close + 1..]).Success? ==> WellFormed(Parse(s[close + 1..]).value)
    ensures WellFormed(Parse(s).value) && Parse(s).value != [] && Parse(s).value[0].Ref?
  {
    assert close < |s|;
    var t := ParseReference(s[2..close]).value;
    ParseOpening(s, close, t);
    WellFormedCons(t, Parse(s[close + 1..]).value);
  }

  lemma WellFormedTextStep(s: string, n: nat)
    requires s != [] && !OpensAt(s, 0) && n == LiteralEnd(s, 0) && Parse(s).Success?
    requires Parse(s[n..]).Success? ==> WellFormed(Parse(s[n..]).value)
    requires Parse(s[n..]).Success? && OpensAt(s[n..], 0) ==> Parse(s[n..]).value != [] && Parse(s[n..]).value[0].Ref?
    ensures WellFormed(Parse(s).value)
  {
    var rest := s[n..];
    ParseLiteral(s, n);
    assert n >= 1;
    if rest != [] {
      assert OpensAt(s, n);
      assert rest[0] == s[n] && rest[1] == s[n + 1];
    }
    forall j | 0 <= j < n ensures !OpensAt(s[..n], j) {
      assert !OpensAt(s, j);
    }
    WellFormedCons(Text(s[..n]), Parse(rest).value);
  }

  /** A placeholder opening with no closing brace after it makes the whole template an
      error, whatever comes before it: no macro is built from part of a template. */
  lemma {:induction false} ParseUnterminated(s: string, i: nat)
    requires OpensAt(s, i)
    requires forall j :: i + 2 <= j < |s| ==> s[j] != '}'
    ensures Parse(s).Failure?
    decreases |s|
  {
    if OpensAt(s, 0) {
      var close := CloseIndex(s, 2);
      if close < |s| && ParseReference(s[2..close]).Success? {
        CloseBeforeOpening(s, i);
        UnterminatedShift(s, i, close + 1);
        ParseUnterminated(s[close + 1..], i - close - 1);
        ParseOpening(s, close, ParseReference(s[2..close]).value);
      }
    } else {
      var n := LiteralEnd(s, 0);
      LiteralEndBefore(s, i);
      UnterminatedShift(s, i, n);
      ParseUnterminated(s[n..], i - n);
      ParseLiteral(s, n);
    }
  }

  lemma CloseBeforeOpening(s: string, i: nat)
    requires OpensAt(s, 0) && OpensAt(s, i) && CloseIndex(s, 2) < |s|
    requires forall j :: i + 2 <= j < |s| ==> s[j] != '}'
    ensures CloseIndex(s, 2) + 1 <= i
  {
    var close := CloseIndex(s, 2);
    assert s[close] == '}';
  }

  lemma LiteralEndBefore(s: string, i: nat)
    requires !OpensAt(s, 0) && OpensAt(s, i)
    ensures 1 <= LiteralEnd(s, 0) <= i
  {
  }

  /** The unterminated opening is still there, with no brace after it, once a prefix of
      the template is consumed. */
  lemma UnterminatedShift(s: string, i: nat, k: nat)
    requires OpensAt(s, i) && 1 <= k <= i
    requires forall j :: i + 2 <= j < |s| ==> s[j] != '}'
    ensures OpensAt(s[k..], i - k)
    ensures forall j :: i - k + 2 <= j < |s[k..]| ==> s[k..][j] != '}'
  {
    var t := s[k..];
    assert t[i - k] == s[i] && t[i - k + 1] == s[i + 1];
    assert forall j :: i - k + 2 <= j < |t| ==> t[j] == s[j + k];
  }

  /** A template with no placeholder opening parses to its text and expands to it. */
  lemma LiteralTemplate(s: string, vars: Variables)
    requires forall j :: 0 <= j < |s| ==> !OpensAt(s, j)
    ensures Parse(s).Success? && Expand(Parse(s).value, vars) == s
  {
    if s != [] {
      ParseTextThen(s, "");
      assert s + "" == s;
    }
  }

  /** `%{name.key}` parses to a reference to the named variable under the key in lower
      case, however the name and the key are written (`%{TX.Some}` refers to TX:some). */
  lemma KeyPlaceholderParses(name: string, v: Variable, key: string)
    requires GoodName(name) && ParseVariable(name) == Some(v) && NameChars(key) && key != ""
    ensures Parse("%{" + name + "." + key + "}") == Success([Ref(v, Lower(key))])
  {
    var body := Body(name, key);
    assert "%{" + body + "}" + "" == "%{" + name + "." + key + "}";
    ParseRefThen(name, v, key, "");
    assert [Ref(v, Lower(key))] + [] == [Ref(v, Lower(key))];
  }

  /** A lone placeholder for key k of a keyed variable expands to the first value stored
      under k in any letter case, or to the empty string. */
  lemma KeyTemplate(name: string, v: Variable, key: string, vars: Variables)
    requires GoodName(name) && ParseVariable(name) == Some(v) && NameChars(key) && key != ""
    requires CollectionOf(vars, v).Keyed?
    ensures Parse("%{" + name + "." + key + "}").Success?
    ensures var vs := Get(CollectionOf(vars, v).entries, key);
            Expand(Parse("%{" + name + "." + key + "}").value, vars) == if vs == [] then "" else vs[0]
  {
    var k := Lower(key);
    KeyPlaceholderParses(name, v, key);
    assert Expand([Ref(v, k)], vars) == ExpandToken(Ref(v, k), vars) + Expand([], vars);
    SelectKeyIsGet(vars, v, k);
    LowerIdempotent(key);
  }

  /** A template with no opening is one literal run. */
  lemma TextOnly(tail: string)
    requires GoodText(tail)
    ensures Parse(tail) == Success([Text(tail)])
  {
    ParseTextThen(tail, "");
    assert tail + "" == tail;
    assert Parse("") == Success([]);
    assert [Text(tail)] + [] == [Text(tail)];
  }
  /** A placeholder followed by a literal run. */
  lemma RefText(name: string, v: Variable, key: string, tail: string)
    requires GoodText(tail)
    requires GoodName(name) && ParseVariable(name) == Some(v) && GoodKey(key)
    ensures Parse("%{" + Body(name, key) + "}" + tail) == Success([Ref(v, key), Text(tail)])
  {
    TextOnly(tail);
    NoUpperLower(key);
    ParseRefThen(name, v, key, tail);
    assert [Ref(v, key)] + [Text(tail)] == [Ref(v, key), Text(tail)];
  }
  /** A placeholder with literal text on both sides: the text is kept around the
      reference. */
  lemma TextRefText(head: string, name: string, v: Variable, key: string, tail: string)
    requires GoodText(head) && GoodText(tail)
    requires GoodName(name) && ParseVariable(name) == Some(v) && GoodKey(key)
    ensures Parse(head + ("%{" + Body(name, key) + "}" + tail)) == Success([Text(head), Ref(v, key), Text(tail)])
  {
    var ref := "%{" + Body(name, key) + "}" + tail;
    RefText(name, v, key, tail);
    assert ref[0] == '%' && ref[1] == '{';
    ParseTextThen(head, ref);
    assert [Text(head)] + [Ref(v, key), Text(tail)] == [Text(head), Ref(v, key), Text(tail)];
  }
  /** Expanding text, a token and text keeps the text around the token's value. */
  lemma ExpandThree(head: string, t: Token, tail: string, vars: Variables)
    ensures Expand([Text(head), t, Text(tail)], vars) == head + ExpandToken(t, vars) + tail
  {
    var m := [Text(head), t, Text(tail)];
    assert m[1..] == [t, Text(tail)] && m[1..][1..] == [Text(tail)] && [Text(tail)][1..] == [];
    assert Expand([Text(tail)], vars) == tail + "";
    assert tail + "" == tail;
  }
}
