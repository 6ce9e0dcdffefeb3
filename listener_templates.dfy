/**
 * Template generation of the session listener: the user-defined `{{- define }}`
 * blocks copied in front of a resource, the `{{- if .Values.<p> }}` wrapping
 * chosen by the add-if statements, the user expressions written into a
 * resource, the restoration of the sentinel words the expression adapter
 * introduced, and the tarball's file name.
 */
module ListenerTemplates {
  import opened Wrappers
  import opened JavaStrings
  import opened Values
  import opened HelmConfig
  import opened YamlExpressionParserUtils
  import DeploymentHelmConfigUtils

  const IF_STATEMENT_START: string := "{{- if .Values."
  const IF_STATEMENT_CLOSE: string := " }}"
  const TEMPLATE_FUNCTION_START_TAG: string := "{{- define"
  const TEMPLATE_FUNCTION_END_TAG: string := "{{- end }}"
  const YAML: string := ".yaml"
  const METADATA: string := "metadata"
  const NAME: string := "name"

  // ---------------------------------------------------------------------------
  // Restoring the adapted expressions in the serialized text
  // ---------------------------------------------------------------------------

  const QUOTED_START_TAG: string := "\"" + START_TAG
  const QUOTED_END_TAG: string := END_TAG + "\""
  const QUOTED_START_TOKEN: string := "\"" + START_EXPRESSION_TOKEN
  const QUOTED_END_TOKEN: string := END_EXPRESSION_TOKEN + "\""

  /** The six literal replacements, in order, applied to the serialized resource. */
  function Restore(s: string): string
  {
    var s1 := Replace(s, QUOTED_START_TAG, START_TAG);
    var s2 := Replace(s1, QUOTED_END_TAG, END_TAG);
    var s3 := Replace(s2, QUOTED_START_TOKEN, "");
    var s4 := Replace(s3, QUOTED_END_TOKEN, "");
    var s5 := Replace(s4, SEPARATOR_QUOTES, "\"");
    Replace(s5, SEPARATOR_TOKEN, LINE_SEPARATOR)
  }

  /** The text after the double quotes are restored: only line separators are still in sentinel form. */
  function LineEscaped(e: string): string
  {
    if e == [] then [] else (if e[0] == '\n' then SEPARATOR_TOKEN else [e[0]]) + LineEscaped(e[1..])
  }

  /** No line separator is directly followed by the word `DOUBLE_QUOTES`. */
  predicate NoQuoteWordAfterNewline(e: string)
  {
    forall i :: 0 <= i < |e| && e[i] == '\n' ==> !StartsWith(e[i + 1..], "DOUBLE_QUOTES")
  }

  lemma QuotedForm(e: string)
    ensures "\"" + AdaptExpression(e) + "\""
         == "\"" + START_EXPRESSION_TOKEN + Escaped(e) + END_EXPRESSION_TOKEN + "\""
    ensures '"' !in Escaped(e)
  {
    AdaptExpressionIsClean(e);
    EscapedHasNoQuoteOrNewline(e);
  }

  /** Nothing in a quoted text whose body has no quote and starts with `:` begins with `"{{`. */
  lemma NoQuotedStartTag(y: string)
    requires '"' !in y && |y| > 0 && y[0] == ':'
    ensures Replace("\"" + y + "\"", QUOTED_START_TAG, START_TAG) == "\"" + y + "\""
  {
    var q := "\"" + y + "\"";
    forall i | 0 <= i < |q| ensures !OccursAt(q, QUOTED_START_TAG, i) {
      if i + 3 <= |q| {
        if i == 0 {
          assert q[1] == ':';
          assert q[i..i + 3][1] == ':';
        } else {
          assert q[i] == y[i - 1];
          assert q[i..i + 3][0] == q[i];
        }
      }
    }
    ReplaceWithoutOccurrence(q, QUOTED_START_TAG, START_TAG);
  }

  /** Nothing in a quoted text whose body has no quote and ends with `:` begins with `}}"`. */
  lemma NoQuotedEndTag(y: string)
    requires '"' !in y && |y| > 0 && y[|y| - 1] == ':'
    ensures Replace("\"" + y + "\"", QUOTED_END_TAG, END_TAG) == "\"" + y + "\""
  {
    var q := "\"" + y + "\"";
    forall i | 0 <= i < |q| ensures !OccursAt(q, QUOTED_END_TAG, i) {
      if i + 3 <= |q| {
        if i + 3 == |q| {
          assert q[i + 1] == ':';
          assert q[i..i + 3][1] == ':';
        } else {
          assert q[i + 2] == y[i + 1];
          assert q[i..i + 3][2] == q[i + 2];
        }
      }
    }
    ReplaceWithoutOccurrence(q, QUOTED_END_TAG, END_TAG);
  }

  /** A text whose only quote may be its last character holds no `":START:`. */
  lemma NoQuotedStartToken(rest: string)
    requires |rest| > 0 && '"' !in rest[..|rest| - 1]
    ensures forall i :: 0 <= i < |rest| ==> !OccursAt(rest, QUOTED_START_TOKEN, i)
  {
    forall i | 0 <= i < |rest| ensures !OccursAt(rest, QUOTED_START_TOKEN, i) {
      if i + 8 <= |rest| {
        assert rest[i] == rest[..|rest| - 1][i];
        assert rest[i..i + 8][0] == rest[i];
      }
    }
  }

  /** `":START:` at the front is removed, and a rest whose only quote is its last character is kept. */
  lemma StripStartToken(rest: string)
    requires |rest| > 0 && '"' !in rest[..|rest| - 1]
    ensures Replace(QUOTED_START_TOKEN + rest, QUOTED_START_TOKEN, "") == rest
  {
    ReplaceAtStart(QUOTED_START_TOKEN, rest, "");
    NoQuotedStartToken(rest);
    ReplaceWithoutOccurrence(rest, QUOTED_START_TOKEN, "");
    assert "" + rest == rest;
  }

  /** `:END:"` at the end of a text without other quotes is removed. */
  lemma StripEndToken(x: string)
    requires '"' !in x
    ensures Replace(x + QUOTED_END_TOKEN, QUOTED_END_TOKEN, "") == x
  {
    var s := x + QUOTED_END_TOKEN;
    assert s == x + (QUOTED_END_TOKEN + []);
    forall i | 0 <= i < |x| ensures !OccursAt(s, QUOTED_END_TOKEN, i) {
      if i + 5 < |x| {
        assert s[i + 5] == x[i + 5];
      } else {
        assert s[i + 5] == END_EXPRESSION_TOKEN[i + 5 - |x|];
      }
      assert s[i..i + 6][5] == s[i + 5];
    }
    ReplacePassOver(x, QUOTED_END_TOKEN + [], QUOTED_END_TOKEN, "");
    ReplaceAtStart(QUOTED_END_TOKEN, [], "");
    assert x + "" == x;
  }

  /**
   * The four replacements that deal with double quotes strip the quotes the
   * serializer put around an adapted expression and the start and end tokens,
   * and nothing else, whatever the expression.
   */
  lemma UnwrapQuotedExpression(x: string)
    requires '"' !in x
    ensures var q := "\"" + START_EXPRESSION_TOKEN + x + END_EXPRESSION_TOKEN + "\"";
      Replace(Replace(Replace(Replace(q, QUOTED_START_TAG, START_TAG), QUOTED_END_TAG, END_TAG),
        QUOTED_START_TOKEN, ""), QUOTED_END_TOKEN, "") == x
  {
    var y := START_EXPRESSION_TOKEN + x + END_EXPRESSION_TOKEN;
    var rest := x + QUOTED_END_TOKEN;
    QuotedExpressionShape(x, y, rest);
    NoQuotedStartTag(y);
    NoQuotedEndTag(y);
    StripStartToken(rest);
    StripEndToken(x);
  }

  /** How a quoted adapted expression looks to each of the four replacements. */
  lemma QuotedExpressionShape(x: string, y: string, rest: string)
    requires '"' !in x
    requires y == START_EXPRESSION_TOKEN + x + END_EXPRESSION_TOKEN && rest == x + QUOTED_END_TOKEN
    ensures "\"" + START_EXPRESSION_TOKEN + x + END_EXPRESSION_TOKEN + "\"" == "\"" + y + "\""
    ensures '"' !in y && |y| > 0 && y[0] == ':' && y[|y| - 1] == ':'
    ensures "\"" + y + "\"" == QUOTED_START_TOKEN + rest
    ensures |rest| > 0 && '"' !in rest[..|rest| - 1]
  {
    assert '"' !in y by {
      assert '"' !in START_EXPRESSION_TOKEN && '"' !in END_EXPRESSION_TOKEN;
    }
    assert y[0] == START_EXPRESSION_TOKEN[0];
    assert y[|y| - 1] == END_EXPRESSION_TOKEN[4];
    assert rest[..|rest| - 1] == x + END_EXPRESSION_TOKEN;
  }

  /** The escaped text cannot start with a word without `:` unless the raw text does. */
  lemma {:induction false} EscapedPrefix(r: string, w: string)
    requires ':' !in w
    ensures StartsWith(Escaped(r), w) ==> StartsWith(r, w)
    decreases |w|
  {
    if w != [] && r != [] && StartsWith(Escaped(r), w) {
      var head := EscapeChar(r[0]);
      assert Escaped(r) == head + Escaped(r[1..]);
      assert Escaped(r)[0] == w[0];
      assert w[0] != ':';
      assert r[0] != '\n' && r[0] != '"';
      assert head == [r[0]];
      assert ':' !in w[1..];
      assert StartsWith(Escaped(r[1..]), w[1..]) by {
        assert Escaped(r)[1..] == Escaped(r[1..]);
        assert Escaped(r)[1..|w|] == w[1..];
      }
      EscapedPrefix(r[1..], w[1..]);
      assert r[..|w|] == [r[0]] + r[1..][..|w| - 1];
    }
  }

  /** No `:DOUBLE_QUOTES` starts inside an escaped line separator unless the word `DOUBLE_QUOTES` follows it. */
  lemma SeparatorTokenHidesNoQuotes(tail: string)
    requires !StartsWith(tail, "DOUBLE_QUOTES")
    ensures forall i :: 0 <= i < |SEPARATOR_TOKEN| ==> !OccursAt(SEPARATOR_TOKEN + tail, SEPARATOR_QUOTES, i)
  {
    var t := SEPARATOR_TOKEN;
    var s := t + tail;
    forall i | 0 <= i < |t| ensures !OccursAt(s, SEPARATOR_QUOTES, i) {
      if i + 14 <= |s| {
        var w := s[i..i + 14];
        if i == 0 {
          assert w[1] == s[1] == t[1] == 'L';
          assert SEPARATOR_QUOTES[1] == 'D';
        } else if i < 15 {
          assert w[0] == s[i] == t[i];
          assert t[i] == t[1..15][i - 1];
          assert t[1..15] == "LINE_SEPARATOR";
          assert SEPARATOR_QUOTES[0] == ':';
        } else {
          assert s[16..29] == tail[..13];
          assert tail[..13] != "DOUBLE_QUOTES";
          assert w[1..] == s[16..29];
        }
      }
    }
  }

  lemma {:induction false} RestoreQuotes(e: string)
    requires ':' !in e && NoQuoteWordAfterNewline(e)
    ensures Replace(Escaped(e), SEPARATOR_QUOTES, "\"") == LineEscaped(e)
    decreases |e|
  {
    if e != [] {
      var rest := e[1..];
      assert ':' !in rest;
      assert NoQuoteWordAfterNewline(rest) by {
        forall i | 0 <= i < |rest| && rest[i] == '\n' ensures !StartsWith(rest[i + 1..], "DOUBLE_QUOTES") {
          assert e[i + 1] == '\n';
          assert e[i + 2..] == rest[i + 1..];
        }
      }
      RestoreQuotes(rest);
      var tail := Escaped(rest);
      assert Escaped(e) == EscapeChar(e[0]) + tail;
      if e[0] == '"' {
        ReplaceAtStart(SEPARATOR_QUOTES, tail, "\"");
      } else if e[0] == '\n' {
        var t := SEPARATOR_TOKEN;
        assert !StartsWith(rest, "DOUBLE_QUOTES") by {
          assert e[1..] == rest;
        }
        EscapedPrefix(rest, "DOUBLE_QUOTES");
        SeparatorTokenHidesNoQuotes(tail);
        ReplacePassOver(t, tail, SEPARATOR_QUOTES, "\"");
      } else {
        assert e[0] in e;
        assert !OccursAt([e[0]] + tail, SEPARATOR_QUOTES, 0) by {
          assert ([e[0]] + tail)[0] != ':';
        }
        ReplacePassOver([e[0]], tail, SEPARATOR_QUOTES, "\"");
      }
    }
  }

  /** Restoring the line separators gives the raw text back. */
  lemma {:induction false} RestoreLineSeparators(e: string)
    requires ':' !in e
    ensures Replace(LineEscaped(e), SEPARATOR_TOKEN, LINE_SEPARATOR) == e
    decreases |e|
  {
    if e != [] {
      var rest := e[1..];
      assert ':' !in rest;
      RestoreLineSeparators(rest);
      var tail := LineEscaped(rest);
      if e[0] == '\n' {
        ReplaceAtStart(SEPARATOR_TOKEN, tail, LINE_SEPARATOR);
      } else {
        assert e[0] in e;
        assert !OccursAt([e[0]] + tail, SEPARATOR_TOKEN, 0) by {
          assert ([e[0]] + tail)[0] != ':';
        }
        ReplacePassOver([e[0]], tail, SEPARATOR_TOKEN, LINE_SEPARATOR);
      }
      assert [e[0]] + rest == e;
    }
  }

  /**
   * The restoration undoes the adaptation of an expression that the
   * serializer wrote between double quotes, provided the expression holds no
   * `:` and no line separator directly followed by `DOUBLE_QUOTES`.
   */
  lemma RestoreUndoesAdaptExpression(e: string)
    requires ':' !in e && NoQuoteWordAfterNewline(e)
    ensures Restore("\"" + AdaptExpression(e) + "\"") == e
  {
    QuotedForm(e);
    UnwrapQuotedExpression(Escaped(e));
    RestoreQuotes(e);
    RestoreLineSeparators(e);
  }

  /** The quotes and the start and end tokens are stripped from every adapted expression. */
  lemma RestoreStripsTokens(e: string)
    ensures Restore("\"" + AdaptExpression(e) + "\"")
         == Replace(Replace(Escaped(e), SEPARATOR_QUOTES, "\""), SEPARATOR_TOKEN, LINE_SEPARATOR)
  {
    QuotedForm(e);
    UnwrapQuotedExpression(Escaped(e));
  }

  lemma {:induction false} EscapedPlain(s: string)
    requires '\n' !in s && '"' !in s
    ensures Escaped(s) == s
    decreases |s|
  {
    if s != [] {
      assert s[0] in s;
      assert s == [s[0]] + s[1..];
      EscapedPlain(s[1..]);
      assert [s[0]] + s[1..] == s;
    }
  }

  lemma NewlineWordFacts(e: string, w: string, head: string)
    requires e == "\nDOUBLE_QUOTES" && w == "DOUBLE_QUOTES" && head == ":LINE_SEPARATOR"
    ensures e == ['\n'] + w && '\n' !in w && '"' !in w
    ensures SEPARATOR_TOKEN + w == head + SEPARATOR_QUOTES
    ensures head + "\"" == ":LINE_SEPARATOR\""
    ensures |head + "\""| == |SEPARATOR_TOKEN| && (head + "\"")[|head|] != SEPARATOR_TOKEN[|head|]
    ensures (head + "\"")[0] != e[0]
  {
  }

  lemma SentinelWordFacts(e: string)
    requires e == ":DOUBLE_QUOTES"
    ensures '\n' !in e && '"' !in e && e == SEPARATOR_QUOTES + [] && "\"" != e
    ensures |"\""| < |SEPARATOR_TOKEN|
  {
  }

  /** A line separator followed by the word `DOUBLE_QUOTES` does not survive the round trip. */
  lemma QuoteWordAfterNewlineIsLost(e: string)
    requires e == "\nDOUBLE_QUOTES"
    ensures Restore("\"" + AdaptExpression(e) + "\"") == ":LINE_SEPARATOR\"" != e
  {
    var w := "DOUBLE_QUOTES";
    var head := ":LINE_SEPARATOR";
    NewlineWordFacts(e, w, head);
    var x := Escaped(e);
    assert x == head + SEPARATOR_QUOTES by {
      assert e[0] == '\n' && e[1..] == w;
      EscapedPlain(w);
    }
    assert Restore("\"" + AdaptExpression(e) + "\"")
        == Replace(Replace(x, SEPARATOR_QUOTES, "\""), SEPARATOR_TOKEN, LINE_SEPARATOR) by {
      RestoreStripsTokens(e);
    }
    var r := head + "\"";
    assert Replace(x, SEPARATOR_QUOTES, "\"") == r by {
      QuoteAfterSeparatorWord(head);
    }
    assert Replace(r, SEPARATOR_TOKEN, LINE_SEPARATOR) == r by {
      assert r[..|SEPARATOR_TOKEN|] != SEPARATOR_TOKEN by {
        assert r[..|SEPARATOR_TOKEN|][|head|] == r[|head|];
      }
      assert |r[1..]| < |SEPARATOR_TOKEN|;
      assert [r[0]] + r[1..] == r;
    }
  }

  lemma QuoteAfterSeparatorWord(head: string)
    requires head == ":LINE_SEPARATOR"
    ensures Replace(head + SEPARATOR_QUOTES, SEPARATOR_QUOTES, "\"") == head + "\""
  {
    var s := head + (SEPARATOR_QUOTES + []);
    assert s == head + SEPARATOR_QUOTES;
    forall i | 0 <= i < |head| ensures !OccursAt(s, SEPARATOR_QUOTES, i) {
      if i + 14 <= |s| {
        if i == 0 {
          assert s[i..i + 14][1] == 'L';
        } else {
          assert s[i..i + 14][0] == head[i];
          assert head[i] != ':';
        }
      }
    }
    ReplacePassOver(head, SEPARATOR_QUOTES + [], SEPARATOR_QUOTES, "\"");
    ReplaceAtStart(SEPARATOR_QUOTES, [], "\"");
    assert "\"" + [] == "\"";
  }

  /** An expression holding a sentinel word, such as `:DOUBLE_QUOTES`, does not survive the round trip. */
  lemma SentinelWordIsLost(e: string)
    requires e == ":DOUBLE_QUOTES"
    ensures Restore("\"" + AdaptExpression(e) + "\"") == "\"" != e
  {
    SentinelWordFacts(e);
    var x := Escaped(e);
    assert x == e by {
      EscapedPlain(e);
    }
    assert Restore("\"" + AdaptExpression(e) + "\"")
        == Replace(Replace(x, SEPARATOR_QUOTES, "\""), SEPARATOR_TOKEN, LINE_SEPARATOR) by {
      RestoreStripsTokens(e);
    }
    assert Replace(x, SEPARATOR_QUOTES, "\"") == "\"" by {
      ReplaceAtStart(SEPARATOR_QUOTES, [], "\"");
      assert "\"" + [] == "\"";
    }
  }

  // ---------------------------------------------------------------------------
  // User templates: extraction of `{{- define }}` blocks
  // ---------------------------------------------------------------------------

  predicate StartsFunction(line: string) { Contains(line, TEMPLATE_FUNCTION_START_TAG) }
  predicate EndsFunction(line: string) { Contains(line, TEMPLATE_FUNCTION_END_TAG) }

  /** The extractor's `isFunction` flag after the first `n` lines. */
  function InFunctionAfter(lines: seq<string>, n: nat): bool
    requires n <= |lines|
    decreases n, 0
  {
    n > 0 && KeptLine(lines, n - 1) && !EndsFunction(lines[n - 1])
  }

  /** Line `i` is copied: it opens a block, or a block is open when it is reached. */
  predicate KeptLine(lines: seq<string>, i: nat)
    requires i < |lines|
    decreases i, 1
  {
    StartsFunction(lines[i]) || InFunctionAfter(lines, i)
  }

  /** The text kept from the first `n` lines, each followed by the line separator. */
  function FunctionsPrefix(lines: seq<string>, n: nat): string
    requires n <= |lines|
  {
    if n == 0 then ""
    else FunctionsPrefix(lines, n - 1) + (if KeptLine(lines, n - 1) then lines[n - 1] + LINE_SEPARATOR else "")
  }

  /** No line from `j` up to, but not including, `i` closes a block. */
  predicate NoEndBetween(lines: seq<string>, j: nat, i: nat)
    requires i <= |lines|
  {
    forall m :: j <= m < i ==> !EndsFunction(lines[m])
  }

  /**
   * A line is kept exactly when some line at or before it opens a block and no
   * line from that one up to, but not including, it closes one.
   */
  lemma {:induction false} KeptLineIffInsideBlock(lines: seq<string>, i: nat)
    requires i < |lines|
    ensures KeptLine(lines, i)
        <==> exists j :: 0 <= j <= i && StartsFunction(lines[j]) && NoEndBetween(lines, j, i)
    decreases i
  {
    if StartsFunction(lines[i]) {
      assert NoEndBetween(lines, i, i);
    } else if i == 0 {
      assert !KeptLine(lines, 0);
    } else {
      KeptLineIffInsideBlock(lines, i - 1);
      assert KeptLine(lines, i) == (KeptLine(lines, i - 1) && !EndsFunction(lines[i - 1]));
      if KeptLine(lines, i) {
        var j :| 0 <= j <= i - 1 && StartsFunction(lines[j]) && NoEndBetween(lines, j, i - 1);
        assert NoEndBetween(lines, j, i);
      }
      if exists j :: 0 <= j <= i && StartsFunction(lines[j]) && NoEndBetween(lines, j, i) {
        var j :| 0 <= j <= i && StartsFunction(lines[j]) && NoEndBetween(lines, j, i);
        assert j != i;
        assert !EndsFunction(lines[i - 1]);
        assert NoEndBetween(lines, j, i - 1);
        assert KeptLine(lines, i - 1);
      }
    }
  }

  /** A file with no line that opens a block contributes nothing. */
  lemma {:induction false} NoDefineKeepsNothing(lines: seq<string>, n: nat)
    requires n <= |lines|
    requires forall i :: 0 <= i < |lines| ==> !StartsFunction(lines[i])
    ensures FunctionsPrefix(lines, n) == ""
    decreases n
  {
    if n > 0 {
      NoDefineKeepsNothing(lines, n - 1);
      KeptLineIffInsideBlock(lines, n - 1);
    }
  }

  /** The block handling of a user template that is not a helper: the `{{- define }}` blocks, line by line. */
  method ExtractFunctions(content: string) returns (functions: string)
    ensures var lines := Split(content, '\n');
      functions == FunctionsPrefix(lines, |lines|)
  {
    var lines := Split(content, '\n');
    var sb := "";
    var isFunction := false;
    var i := 0;
    while i < |lines|
      invariant 0 <= i <= |lines|
      invariant sb == FunctionsPrefix(lines, i)
      invariant isFunction == InFunctionAfter(lines, i)
    {
      var line := lines[i];
      if Contains(line, TEMPLATE_FUNCTION_START_TAG) || isFunction {
        isFunction := !Contains(line, TEMPLATE_FUNCTION_END_TAG);
        sb := sb + line + LINE_SEPARATOR;
      } else {
        isFunction := false;
      }
      i := i + 1;
    }
    functions := sb;
  }

  // ---------------------------------------------------------------------------
  // Resource-level if statements
  // ---------------------------------------------------------------------------

  /** A resource as the parser sees it: its top-level fields. */
  type Resource = map<string, Value>

  /**
   * `getNameFromResource`: the `toString()` text of `metadata.name`, when the
   * metadata is a map and the name is set; `mapText` is the text of a name
   * that is a map (or a list holding one).
   */
  function GetNameFromResource(resource: Resource, mapText: string): (name: Option<string>)
    ensures name.Some? <==> (METADATA in resource && resource[METADATA].VMap?
      && NAME in resource[METADATA].entries && resource[METADATA].entries[NAME] != VNull)
    ensures name.Some? ==> name.value == Formatted(resource[METADATA].entries[NAME], mapText)
    ensures name.Some? && Render(resource[METADATA].entries[NAME]).Some? ==> name == Render(resource[METADATA].entries[NAME])
  {
    if METADATA in resource && resource[METADATA].VMap? then
      var m := resource[METADATA].entries;
      if NAME in m && m[NAME] != VNull then Some(Formatted(m[NAME], mapText)) else None
    else None
  }

  /** An add-if statement applies to a resource: its kind is empty or equal, and its name is empty or equal. */
  predicate Matches(statement: AddIfStatement, kind: string, name: Option<string>)
  {
    (statement.onResourceKind == "" || statement.onResourceKind == kind)
    && (statement.onResourceName == "" || name == Some(statement.onResourceName))
  }

  function IfStatementStart(property: string): string
  {
    IF_STATEMENT_START + property + IF_STATEMENT_CLOSE
  }

  /** One statement's effect on the text. */
  function WrapOnce(config: ChartConfig, text: string, statement: AddIfStatement, kind: string, name: Option<string>): string
  {
    if Matches(statement, kind, name) then
      IfStatementStart(DeploymentHelmConfigUtils.DeductProperty(config, statement.property))
        + LINE_SEPARATOR + text + LINE_SEPARATOR + TEMPLATE_FUNCTION_END_TAG + LINE_SEPARATOR
    else text
  }

  /** The text after the statements are applied in order. */
  function Wrapped(config: ChartConfig, text: string, statements: seq<AddIfStatement>, kind: string, name: Option<string>): string
  {
    if statements == [] then text
    else WrapOnce(config, Wrapped(config, text, statements[..|statements| - 1], kind, name), statements[|statements| - 1], kind, name)
  }

  /** The add-if loop of the template step. */
  method WrapWithIfStatements(config: ChartConfig, text: string, statements: seq<AddIfStatement>, kind: string, name: Option<string>)
    returns (adapted: string)
    ensures adapted == Wrapped(config, text, statements, kind, name)
  {
    adapted := text;
    var i := 0;
    while i < |statements|
      invariant 0 <= i <= |statements|
      invariant adapted == Wrapped(config, text, statements[..i], kind, name)
    {
      assert statements[..i + 1][..i] == statements[..i];
      var statement := statements[i];
      if (statement.onResourceKind == "" || statement.onResourceKind == kind)
         && (statement.onResourceName == "" || name == Some(statement.onResourceName))
      {
        var property := DeploymentHelmConfigUtils.DeductProperty(config, statement.property);
        adapted := IfStatementStart(property) + LINE_SEPARATOR + adapted + LINE_SEPARATOR
          + TEMPLATE_FUNCTION_END_TAG + LINE_SEPARATOR;
      }
      i := i + 1;
    }
    assert statements[..|statements|] == statements;
  }

  /** The number of matching statements. */
  function MatchCount(statements: seq<AddIfStatement>, kind: string, name: Option<string>): nat
  {
    if statements == [] then 0
    else MatchCount(statements[..|statements| - 1], kind, name) + (if Matches(statements[|statements| - 1], kind, name) then 1 else 0)
  }

  /**
   * Each matching statement adds exactly one `{{- if }}` line and one
   * `{{- end }}` line, and a statement that does not match adds nothing.
   */
  lemma {:induction false} WrappedLength(config: ChartConfig, text: string, statements: seq<AddIfStatement>, kind: string, name: Option<string>)
    ensures MatchCount(statements, kind, name) == 0 ==> Wrapped(config, text, statements, kind, name) == text
    ensures |Wrapped(config, text, statements, kind, name)| >= |text| + 3 * MatchCount(statements, kind, name)
    decreases |statements|
  {
    if statements != [] {
      WrappedLength(config, text, statements[..|statements| - 1], kind, name);
    }
  }

  /**
   * The later matching statement is the outermost: after a matching last
   * statement, the text is its `{{- if }}` line, the text wrapped by the
   * earlier statements, and the closing `{{- end }}`.
   */
  lemma LaterStatementIsOutermost(config: ChartConfig, text: string, earlier: seq<AddIfStatement>, last: AddIfStatement, kind: string, name: Option<string>)
    requires Matches(last, kind, name)
    ensures var r := Wrapped(config, text, earlier + [last], kind, name);
      var open := IfStatementStart(DeploymentHelmConfigUtils.DeductProperty(config, last.property)) + LINE_SEPARATOR;
      && r == open + Wrapped(config, text, earlier, kind, name) + LINE_SEPARATOR + TEMPLATE_FUNCTION_END_TAG + LINE_SEPARATOR
      && StartsWith(r, open)
      && EndsWith(r, TEMPLATE_FUNCTION_END_TAG + LINE_SEPARATOR)
  {
    var all := earlier + [last];
    assert all[..|all| - 1] == earlier;
    var r := Wrapped(config, text, all, kind, name);
    var open := IfStatementStart(DeploymentHelmConfigUtils.DeductProperty(config, last.property)) + LINE_SEPARATOR;
    var inner := Wrapped(config, text, earlier, kind, name);
    var close := TEMPLATE_FUNCTION_END_TAG + LINE_SEPARATOR;
    assert r == open + (inner + LINE_SEPARATOR + close);
    assert r[..|open|] == open;
    assert r == (open + inner + LINE_SEPARATOR) + close;
    assert r[|r| - |close|..] == close;
  }

  /** A statement that does not match leaves the text as the earlier statements made it. */
  lemma UnmatchedStatementIsIgnored(config: ChartConfig, text: string, earlier: seq<AddIfStatement>, last: AddIfStatement, kind: string, name: Option<string>)
    requires !Matches(last, kind, name)
    ensures Wrapped(config, text, earlier + [last], kind, name) == Wrapped(config, text, earlier, kind, name)
  {
    assert (earlier + [last])[..|earlier|] == earlier;
  }

  /** A statement with a name filter never matches a resource without a name. */
  lemma NamedStatementNeedsName(statement: AddIfStatement, kind: string)
    requires statement.onResourceName != ""
    ensures !Matches(statement, kind, None)
  {
  }

  // ---------------------------------------------------------------------------
  // One resource's template
  // ---------------------------------------------------------------------------

  /** The template file a resource of this kind is written to, and under which its user functions are found. */
  function TemplateFileName(kind: string): (file: string)
    ensures EndsWith(file, YAML)
  {
    var file := ToLowerAscii(kind) + YAML;
    assert file[|file| - |YAML|..] == YAML;
    file
  }

  /** The user expressions with both a path and an expression, applied to a resource in order. */
  function ApplyExpressions(doc: Document, expressions: seq<HelmExpression>): Document
  {
    if expressions == [] then doc
    else
      var d := ApplyExpressions(doc, expressions[..|expressions| - 1]);
      var x := expressions[|expressions| - 1];
      if x.path.Some? && x.expression.Some? then ReadAndSet(d, x.path.value, x.expression.value).0 else d
  }

  /** The expression loop of the template step. */
  method ApplyUserExpressions(doc: Document, expressions: seq<HelmExpression>) returns (d: Document)
    ensures d == ApplyExpressions(doc, expressions)
  {
    d := doc;
    var i := 0;
    while i < |expressions|
      invariant 0 <= i <= |expressions|
      invariant d == ApplyExpressions(doc, expressions[..i])
    {
      assert expressions[..i + 1][..i] == expressions[..i];
      var x := expressions[i];
      if x.path.Some? && x.expression.Some? {
        var r := ReadAndSet(d, x.path.value, x.expression.value);
        d := r.0;
      }
      i := i + 1;
    }
    assert expressions[..|expressions|] == expressions;
  }

  /** The expression sets `path`. */
  predicate Names(x: HelmExpression, path: string)
  {
    x.path == Some(path) && x.expression.Some?
  }

  /** Expression `i` is the last one that sets `path`. */
  predicate LastNaming(expressions: seq<HelmExpression>, i: int, path: string)
  {
    0 <= i < |expressions| && Names(expressions[i], path)
    && forall j :: i < j < |expressions| ==> !Names(expressions[j], path)
  }

  /** A path that no complete expression names keeps its value. */
  lemma {:induction false} ApplyExpressionsKeepsUnnamed(doc: Document, expressions: seq<HelmExpression>, path: string)
    requires forall i :: 0 <= i < |expressions| ==> !Names(expressions[i], path)
    ensures Read(ApplyExpressions(doc, expressions), path) == Read(doc, path)
    decreases |expressions|
  {
    if expressions != [] {
      var n := |expressions| - 1;
      var pre := expressions[..n];
      assert forall i :: 0 <= i < n ==> pre[i] == expressions[i];
      ApplyExpressionsKeepsUnnamed(doc, pre, path);
      assert !Names(expressions[n], path);
    }
  }

  /** A named path holds the adapted form of the last expression that names it. */
  lemma {:induction false} ApplyExpressionsLastWins(doc: Document, expressions: seq<HelmExpression>, path: string, i: int)
    requires LastNaming(expressions, i, path)
    ensures Read(ApplyExpressions(doc, expressions), path) == VStr(AdaptExpression(expressions[i].expression.value))
    decreases |expressions|
  {
    var n := |expressions| - 1;
    var pre := expressions[..n];
    if i < n {
      assert forall k :: 0 <= k < n ==> pre[k] == expressions[k];
      assert LastNaming(pre, i, path);
      ApplyExpressionsLastWins(doc, pre, path, i);
      assert !Names(expressions[n], path);
    }
  }

  /** The template text of one resource: user functions first, then the add-if wrapping, then the restoration. */
  method AdaptTemplate(config: ChartConfig, serialized: string, functions: Option<string>, kind: string, name: Option<string>)
    returns (adapted: string)
    ensures var withFunctions := if functions.Some? then functions.value + LINE_SEPARATOR + serialized else serialized;
      adapted == Restore(Wrapped(config, withFunctions, config.addIfStatements, kind, name))
  {
    adapted := serialized;
    if functions.Some? {
      adapted := functions.value + LINE_SEPARATOR + adapted;
    }
    adapted := WrapWithIfStatements(config, adapted, config.addIfStatements, kind, name);
    adapted := Replace(adapted, QUOTED_START_TAG, START_TAG);
    adapted := Replace(adapted, QUOTED_END_TAG, END_TAG);
    adapted := Replace(adapted, QUOTED_START_TOKEN, "");
    adapted := Replace(adapted, QUOTED_END_TOKEN, "");
    adapted := Replace(adapted, SEPARATOR_QUOTES, "\"");
    adapted := Replace(adapted, SEPARATOR_TOKEN, LINE_SEPARATOR);
  }

  // ---------------------------------------------------------------------------
  // Packaging
  // ---------------------------------------------------------------------------

  /** `getVersion`: the configured version, or the project's when none is configured. */
  function GetVersion(config: ChartConfig, projectVersion: string): (version: string)
    ensures config.version != "" ==> version == config.version
    ensures config.version == "" ==> version == projectVersion
  {
    if config.version == "" then projectVersion else config.version
  }

  /** The tarball's file name: `<name>-<version>[-<classifier>].<extension>`. */
  function TarballName(config: ChartConfig, projectVersion: string): string
  {
    config.name + "-" + GetVersion(config, projectVersion)
      + (if config.tarFileClassifier == "" then "" else "-" + config.tarFileClassifier)
      + "." + config.extension
  }

  /** The name is made of the chart name, the version, the classifier only when it is set, and the extension. */
  lemma TarballNameParts(config: ChartConfig, projectVersion: string)
    ensures var r := TarballName(config, projectVersion);
      && StartsWith(r, config.name + "-" + GetVersion(config, projectVersion))
      && EndsWith(r, "." + config.extension)
      && (config.tarFileClassifier == "" ==> r == config.name + "-" + GetVersion(config, projectVersion) + "." + config.extension)
      && (config.tarFileClassifier != "" ==>
            r == config.name + "-" + GetVersion(config, projectVersion) + "-" + config.tarFileClassifier + "." + config.extension)
  {
    var head := config.name + "-" + GetVersion(config, projectVersion);
    var mid := if config.tarFileClassifier == "" then "" else "-" + config.tarFileClassifier;
    var tail := "." + config.extension;
    var r := TarballName(config, projectVersion);
    assert r == head + (mid + tail);
    assert r[..|head|] == head;
    assert r == (head + mid) + tail;
    assert r[|r| - |tail|..] == tail;
  }

  /** Every entry of the tarball sits under a folder named after the chart. */
  function ArchiveEntryName(config: ChartConfig, entry: string): (r: string)
    ensures StartsWith(r, config.name + "/")
    ensures r[|config.name| + 1..] == entry
  {
    var r := config.name + "/" + entry;
    assert r[..|config.name| + 1] == config.name + "/";
    r
  }
}
