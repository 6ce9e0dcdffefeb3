/**
 * Building Helm expressions and hiding them from the YAML serializer. A
 * document is modelled as a finite map from path strings to values: reading a
 * path is a lookup (null when the path matches nothing) and writing it is an
 * update. An expression is written in "adapted" form: wrapped in `:START:` and
 * `:END:`, with line separators and double quotes replaced by sentinel words,
 * so that the serializer neither quotes nor breaks it.
 */
module YamlExpressionParserUtils {
  import opened JavaStrings
  import opened Values

  const SEPARATOR_TOKEN: string := ":LINE_SEPARATOR:"
  const SEPARATOR_QUOTES: string := ":DOUBLE_QUOTES"
  const START_EXPRESSION_TOKEN: string := ":START:"
  const END_EXPRESSION_TOKEN: string := ":END:"
  const START_TAG: string := "{{"
  const END_TAG: string := "}}"
  const VALUES_START_TAG: string := START_TAG + " .Values."
  const VALUES_END_TAG: string := " " + END_TAG
  const QUOTE_CONVERSION: string := " | quote"

  /** `System.lineSeparator()`, fixed to the Unix separator. */
  const LINE_SEPARATOR: string := "\n"

  type Document = map<string, Value>

  /** `read`: the value at the path, or null when nothing is there. */
  function Read(doc: Document, path: string): (v: Value)
    ensures path !in doc ==> v == VNull
    ensures path in doc ==> v == doc[path]
  {
    if path in doc then doc[path] else VNull
  }

  /** `set`: the path receives the adapted expression, not the raw one. */
  function Set(doc: Document, path: string, expression: string): (d: Document)
    ensures d.Keys == doc.Keys + {path}
    ensures d[path] == VStr(AdaptExpression(expression))
    ensures forall p :: p in doc && p != path ==> d[p] == doc[p]
  {
    doc[path := VStr(AdaptExpression(expression))]
  }

  /** `readAndSet`: writes the adapted expression and returns what was there before. */
  function ReadAndSet(doc: Document, path: string, expression: string): (r: (Document, Value))
    ensures r.0 == Set(doc, path, expression) && r.1 == Read(doc, path)
  {
    (Set(doc, path, expression), Read(doc, path))
  }

  /** A non-null provided value that is not a string replaces a string found in the manifest. */
  predicate NeedsQuote(provided: Value, found: Value)
  {
    provided != VNull && !provided.VStr? && found.VStr?
  }

  /** `toExpression`: the reference's own expression when it has one, else a reference to the value. */
  function ToExpression(property: string, provided: Value, found: Value, reference: ConfigReference): string
  {
    if reference.expression != "" then reference.expression
    else VALUES_START_TAG + property + (if NeedsQuote(provided, found) then QUOTE_CONVERSION else "") + VALUES_END_TAG
  }

  /** `adaptExpression`. */
  function AdaptExpression(expression: string): string
  {
    START_EXPRESSION_TOKEN
      + Replace(Replace(expression, LINE_SEPARATOR, SEPARATOR_TOKEN), "\"", SEPARATOR_QUOTES)
      + END_EXPRESSION_TOKEN
  }

  /** The sentinel form of one character. */
  function EscapeChar(c: char): string
  {
    if c == '\n' then SEPARATOR_TOKEN else if c == '"' then SEPARATOR_QUOTES else [c]
  }

  /** Every character in its sentinel form. */
  function Escaped(e: string): string
  {
    if e == [] then [] else EscapeChar(e[0]) + Escaped(e[1..])
  }

  /** The explicit expression wins; otherwise the expression names the property, quoted exactly when needed. */
  lemma ToExpressionCases(property: string, provided: Value, found: Value, reference: ConfigReference)
    ensures var r := ToExpression(property, provided, found, reference);
      && (reference.expression != "" ==> r == reference.expression)
      && (reference.expression == "" && NeedsQuote(provided, found) ==> r == "{{ .Values." + property + " | quote }}")
      && (reference.expression == "" && !NeedsQuote(provided, found) ==> r == "{{ .Values." + property + " }}")
  {
  }

  /** A null provided value never leads to quoting, whatever was found. */
  lemma NullProvidedIsNeverQuoted(property: string, found: Value, reference: ConfigReference)
    requires reference.expression == ""
    ensures ToExpression(property, VNull, found, reference) == "{{ .Values." + property + " }}"
  {
  }

  lemma {:induction false} ReplaceSingleCharSplits(c: char, rest: string, target: char, replacement: string)
    ensures Replace([c] + rest, [target], replacement)
         == (if c == target then replacement else [c]) + Replace(rest, [target], replacement)
  {
    assert ([c] + rest)[..1] == [c];
    assert ([c] + rest)[1..] == rest;
  }

  /** Replacing the line separator and then the double quote escapes each character on its own. */
  lemma {:induction false} EscapingIsPerCharacter(e: string)
    ensures Replace(Replace(e, LINE_SEPARATOR, SEPARATOR_TOKEN), "\"", SEPARATOR_QUOTES) == Escaped(e)
    decreases |e|
  {
    if e != [] {
      var rest := e[1..];
      assert e == [e[0]] + rest;
      ReplaceSingleCharSplits(e[0], rest, '\n', SEPARATOR_TOKEN);
      var once := Replace(rest, LINE_SEPARATOR, SEPARATOR_TOKEN);
      var head := if e[0] == '\n' then SEPARATOR_TOKEN else [e[0]];
      assert Replace(e, LINE_SEPARATOR, SEPARATOR_TOKEN) == head + once;
      if e[0] == '\n' {
        forall i | 0 <= i < |head| ensures !OccursAt(head + once, "\"", i) {
          assert (head + once)[i] == head[i];
          assert (head + once)[i..i + 1] == [head[i]];
        }
        ReplacePassOver(head, once, "\"", SEPARATOR_QUOTES);
      } else {
        ReplaceSingleCharSplits(e[0], once, '"', SEPARATOR_QUOTES);
      }
      EscapingIsPerCharacter(rest);
    }
  }

  lemma {:induction false} EscapedHasNoQuoteOrNewline(e: string)
    ensures '"' !in Escaped(e) && '\n' !in Escaped(e)
    decreases |e|
  {
    if e != [] {
      EscapedHasNoQuoteOrNewline(e[1..]);
      var head := EscapeChar(e[0]);
      assert Escaped(e) == head + Escaped(e[1..]);
      assert '"' !in head && '\n' !in head by {
        if e[0] == '\n' {
          assert head == ":LINE_SEPARATOR:";
        } else if e[0] == '"' {
          assert head == ":DOUBLE_QUOTES";
        } else {
          assert head == [e[0]];
        }
      }
    }
  }

  /** The adapted expression is wrapped in the start and end tokens and holds no double quote and no line separator. */
  lemma AdaptExpressionIsClean(e: string)
    ensures var r := AdaptExpression(e);
      && r == START_EXPRESSION_TOKEN + Escaped(e) + END_EXPRESSION_TOKEN
      && StartsWith(r, START_EXPRESSION_TOKEN) && EndsWith(r, END_EXPRESSION_TOKEN)
      && '"' !in r && '\n' !in r
  {
    EscapingIsPerCharacter(e);
    EscapedHasNoQuoteOrNewline(e);
    var r := AdaptExpression(e);
    assert r[..|START_EXPRESSION_TOKEN|] == START_EXPRESSION_TOKEN;
    assert r[|r| - |END_EXPRESSION_TOKEN|..] == END_EXPRESSION_TOKEN;
  }
}
