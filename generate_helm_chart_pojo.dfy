/**
 * The Maven goal's own decisions before it hands over to the listener: the
 * validation of the `<chart>` configuration, the typed value of a
 * `<value>` entry, the effective chart name and version, and the default
 * value references. Maven leaves an unset parameter null, modelled as `None`.
 */
module GenerateHelmChartPojo {
  import opened Wrappers
  import opened JavaStrings
  import opened Values

  // ---------------------------------------------------------------------
  // Configuration records
  // ---------------------------------------------------------------------

  /** A `<value>` entry: the fields `toValue` and the reference builder read. */
  datatype ValueReference = ValueReference(
    property: string,
    paths: Option<seq<string>>,
    profile: Option<string>,
    value: Option<string>,
    valueAsInt: Option<int>,
    valueAsBool: Option<bool>,
    valueAsMap: Option<map<string, string>>,
    valueAsList: Option<seq<string>>)

  /** An `<addIfStatement>` entry. */
  datatype AddIfStatement = AddIfStatement(property: string, onResourceKind: Option<string>, onResourceName: Option<string>)

  /** A `<dependency>` entry: its name and its condition. */
  datatype Dependency = Dependency(name: string, condition: Option<string>)

  /** The `<chart>` fields that validation and naming read. */
  datatype Chart = Chart(
    name: Option<string>,
    version: Option<string>,
    dependencies: Option<seq<Dependency>>,
    values: Option<seq<ValueReference>>,
    addIfStatement: Option<seq<AddIfStatement>>)

  /** Why `validate` stops the build; each carries the name the message shows. */
  datatype ValidationError =
    | WrongName(name: string)
    | MissingResourceFilter(property: string)
    | InvalidAddIfProperty(property: string)
    | InvalidDependencyCondition(dependency: string)
    | InvalidValueProperty(property: string)

  // ---------------------------------------------------------------------
  // The chart-name grammar
  // ---------------------------------------------------------------------

  predicate IsAlphanumeric(c: char)
  {
    'a' <= c <= 'z' || '0' <= c <= '9'
  }

  /** A character of `[-a-z0-9]`. */
  predicate IsLabelChar(c: char)
  {
    IsAlphanumeric(c) || c == '-'
  }

  /** `[a-z0-9]([-a-z0-9]*[a-z0-9])?`: one label of a chart name. */
  predicate IsLabel(l: string)
  {
    && |l| >= 1
    && (forall i :: 0 <= i < |l| ==> IsLabelChar(l[i]))
    && IsAlphanumeric(l[0])
    && IsAlphanumeric(l[|l| - 1])
  }

  /** The index of the first `.`, or the length when there is none. */
  function DotIndex(s: string): (i: nat)
    ensures i <= |s|
    ensures i < |s| ==> s[i] == '.'
  {
    if s == [] then 0
    else if s[0] == '.' then 0
    else 1 + DotIndex(s[1..])
  }

  /** No dot comes before the first one. */
  lemma {:induction false} DotIndexIsFirst(s: string)
    ensures forall j :: 0 <= j < DotIndex(s) ==> s[j] != '.'
  {
    if s != [] && s[0] != '.' {
      DotIndexIsFirst(s[1..]);
      forall j | 1 <= j < DotIndex(s) ensures s[j] != '.' {
        assert s[j] == s[1..][j - 1];
      }
    }
  }

  /** Without a dot, the first dot is past the end. */
  lemma {:induction false} DotIndexWithoutDot(s: string)
    requires '.' !in s
    ensures DotIndex(s) == |s|
  {
    if s != [] {
      assert '.' !in s[1..];
      DotIndexWithoutDot(s[1..]);
    }
  }

  /**
   * `name.matches(NAME_FORMAT_REG_EXP)`: a label followed by any number of
   * `.`-prefixed labels. A label holds no `.`, so the first `.` ends the first
   * label and the match is decided there.
   */
  predicate MatchesNameFormat(s: string)
    decreases |s|
  {
    var i := DotIndex(s);
    if i == |s| then IsLabel(s)
    else IsLabel(s[..i]) && MatchesNameFormat(s[i + 1..])
  }

  /**
   * The same language, stated character by character: a non-empty string of
   * `[-.a-z0-9]` that starts and ends alphanumeric, and whose every `.` sits
   * between two alphanumerics.
   */
  predicate WellFormedName(s: string)
  {
    && |s| >= 1
    && (forall i :: 0 <= i < |s| ==> IsLabelChar(s[i]) || s[i] == '.')
    && IsAlphanumeric(s[0])
    && IsAlphanumeric(s[|s| - 1])
    && (forall i :: 0 < i < |s| - 1 && s[i] == '.' ==> IsAlphanumeric(s[i - 1]) && IsAlphanumeric(s[i + 1]))
  }

  /** A dot-free string is well formed exactly when it is one label. */
  lemma WellFormedWithoutDot(s: string)
    requires DotIndex(s) == |s|
    ensures WellFormedName(s) <==> IsLabel(s)
  {
    DotIndexIsFirst(s);
    if WellFormedName(s) {
      forall j | 0 <= j < |s| ensures IsLabelChar(s[j]) {
        assert s[j] != '.';
      }
    }
  }

  /** Around its first dot, a well-formed name is a label followed by a well-formed name. */
  lemma WellFormedAtDot(s: string, head: string, rest: string)
    requires s == head + "." + rest && DotIndex(s) == |head|
    requires WellFormedName(s)
    ensures IsLabel(head) && WellFormedName(rest)
  {
    DotIndexIsFirst(s);
    var i := |head|;
    assert i > 0 by { assert s[0] != '.'; }
    assert i < |s| - 1 by { assert s[|s| - 1] != '.'; }
    assert IsAlphanumeric(head[|head| - 1]) by { assert s[i - 1] == head[|head| - 1]; }
    forall j | 0 <= j < |head| ensures IsLabelChar(head[j]) {
      assert head[j] == s[j];
    }
    forall j | 0 <= j < |rest| ensures IsLabelChar(rest[j]) || rest[j] == '.' {
      assert rest[j] == s[j + i + 1];
    }
    forall j | 0 < j < |rest| - 1 && rest[j] == '.'
      ensures IsAlphanumeric(rest[j - 1]) && IsAlphanumeric(rest[j + 1])
    {
      assert rest[j] == s[j + i + 1];
      assert rest[j - 1] == s[j + i];
      assert rest[j + 1] == s[j + i + 2];
    }
    assert rest[0] == s[i + 1];
    assert rest[|rest| - 1] == s[|s| - 1];
  }

  /** A label, a dot and a well-formed name make a well-formed name. */
  lemma WellFormedFromDot(s: string, head: string, rest: string)
    requires s == head + "." + rest
    requires IsLabel(head) && WellFormedName(rest)
    ensures WellFormedName(s)
  {
    var i := |head|;
    forall j | 0 <= j < |s| ensures IsLabelChar(s[j]) || s[j] == '.' {
      if j < i {
        assert s[j] == head[j];
      } else if j > i {
        assert s[j] == rest[j - i - 1];
      }
    }
    forall j | 0 < j < |s| - 1 && s[j] == '.'
      ensures IsAlphanumeric(s[j - 1]) && IsAlphanumeric(s[j + 1])
    {
      if j < i {
        assert false;
      } else if j == i {
        assert s[j - 1] == head[|head| - 1];
        assert s[j + 1] == rest[0];
      } else {
        assert s[j] == rest[j - i - 1];
        assert j - i - 1 > 0 by { assert rest[0] != '.'; }
        assert s[j - 1] == rest[j - i - 2];
        assert s[j + 1] == rest[j - i];
      }
    }
    assert s[0] == head[0];
    assert s[|s| - 1] == rest[|rest| - 1];
  }

  lemma {:induction false} NameFormatIsWellFormedName(s: string)
    ensures MatchesNameFormat(s) <==> WellFormedName(s)
    decreases |s|
  {
    var i := DotIndex(s);
    if i < |s| {
      var head, rest := s[..i], s[i + 1..];
      NameFormatIsWellFormedName(rest);
      assert s == head + "." + rest;
      if WellFormedName(s) {
        WellFormedAtDot(s, head, rest);
      }
      if MatchesNameFormat(s) {
        WellFormedFromDot(s, head, rest);
      }
    } else {
      WellFormedWithoutDot(s);
    }
  }

  /** Two well-formed names joined by a dot are well formed. */
  lemma WellFormedJoin(a: string, b: string)
    requires WellFormedName(a) && WellFormedName(b)
    ensures WellFormedName(a + "." + b)
  {
    var s := a + "." + b;
    var i := |a|;
    forall j | 0 <= j < |s| ensures IsLabelChar(s[j]) || s[j] == '.' {
      if j < i {
        assert s[j] == a[j];
      } else if j > i {
        assert s[j] == b[j - i - 1];
      }
    }
    forall j | 0 < j < |s| - 1 && s[j] == '.'
      ensures IsAlphanumeric(s[j - 1]) && IsAlphanumeric(s[j + 1])
    {
      if j < i - 1 {
        assert s[j] == a[j] && s[j - 1] == a[j - 1] && s[j + 1] == a[j + 1];
      } else if j == i - 1 {
        assert false;
      } else if j == i {
        assert s[j - 1] == a[i - 1];
        assert s[j + 1] == b[0];
      } else if j == i + 1 {
        assert false;
      } else {
        assert s[j] == b[j - i - 1] && s[j - 1] == b[j - i - 2] && s[j + 1] == b[j - i];
      }
    }
    assert s[0] == a[0];
    assert s[|s| - 1] == b[|b| - 1];
  }

  /** Two valid names joined by `.` are a valid name: the regex's repetition. */
  lemma JoinedNamesMatch(a: string, b: string)
    requires MatchesNameFormat(a) && MatchesNameFormat(b)
    ensures MatchesNameFormat(a + "." + b)
  {
    NameFormatIsWellFormedName(a);
    NameFormatIsWellFormedName(b);
    WellFormedJoin(a, b);
    NameFormatIsWellFormedName(a + "." + b);
  }

  /** A lower-case name with an inner dash matches. */
  lemma NameFormatAcceptsDash()
    ensures MatchesNameFormat("my-chart")
  {
    var n := "my-chart";
    DotIndexWithoutDot(n);
    assert forall i :: 0 <= i < |n| ==> IsLabelChar(n[i]);
    assert IsLabel(n);
  }

  /** Labels joined by a dot match. */
  lemma NameFormatAcceptsDot()
    ensures MatchesNameFormat("a.b")
  {
    var d := "a.b";
    assert DotIndex(d) == 1;
    assert d[..1] == "a" && d[2..] == "b";
  }

  /** Capitals, edge dashes, empty labels and a trailing dot do not match. */
  lemma NameFormatRejects()
    ensures !MatchesNameFormat("My")
    ensures !MatchesNameFormat("-a")
    ensures !MatchesNameFormat("a..b")
    ensures !MatchesNameFormat("a.")
  {
    var m := "My";
    assert !IsAlphanumeric(m[0]);
    var e := "a..b";
    assert DotIndex(e) == 1;
    assert e[2..] == ".b";
    assert DotIndex(e[2..]) == 0;
    var t := "a.";
    assert DotIndex(t) == 1;
    assert t[2..] == "";
  }

  // ---------------------------------------------------------------------
  // validate
  // ---------------------------------------------------------------------

  /** `HELM_INVALID_CHARACTERS`. */
  const HELM_INVALID_CHARACTERS: seq<string> := ["-"]

  /** `HELM_INVALID_CHARACTERS.stream().anyMatch(name::contains)`. */
  predicate HasInvalidCharacters(name: string)
  {
    exists k :: 0 <= k < |HELM_INVALID_CHARACTERS| && Contains(name, HELM_INVALID_CHARACTERS[k])
  }

  /** The only invalid character is `-`. */
  lemma InvalidCharactersAreDashes(name: string)
    ensures HasInvalidCharacters(name) <==> '-' in name
  {
    if '-' in name {
      var i :| 0 <= i < |name| && name[i] == '-';
      assert name[i..i + 1] == "-";
      ContainsAt(name, "-", i);
      assert Contains(name, HELM_INVALID_CHARACTERS[0]);
    }
    if HasInvalidCharacters(name) {
      IndexOfFinds(name, "-", 0);
      var i := IndexOf(name, "-", 0);
      assert name[i..i + 1] == "-";
      assert name[i] == '-';
    }
  }

  /** `StringUtils.isEmpty` on a nullable string. */
  predicate IsEmpty(s: Option<string>)
  {
    s.None? || s.value == ""
  }

  /** An add-if statement the loop accepts. */
  predicate AddIfAccepted(a: AddIfStatement, disableNamingValidation: bool)
  {
    && !(IsEmpty(a.onResourceKind) && IsEmpty(a.onResourceName))
    && (!disableNamingValidation ==> !HasInvalidCharacters(a.property))
  }

  /** The add-if loop: the first statement that fails, with the filter checked before the naming. */
  function AddIfError(statements: seq<AddIfStatement>, disableNamingValidation: bool): (r: Option<ValidationError>)
    ensures r.None? <==> forall i :: 0 <= i < |statements| ==> AddIfAccepted(statements[i], disableNamingValidation)
    ensures r.Some? ==> r.value.MissingResourceFilter? || (r.value.InvalidAddIfProperty? && !disableNamingValidation)
  {
    if statements == [] then None
    else
      var a := statements[0];
      if IsEmpty(a.onResourceKind) && IsEmpty(a.onResourceName) then Some(MissingResourceFilter(a.property))
      else if !disableNamingValidation && HasInvalidCharacters(a.property) then Some(InvalidAddIfProperty(a.property))
      else
        var rest := AddIfError(statements[1..], disableNamingValidation);
        assert forall i :: 1 <= i < |statements| ==> statements[i] == statements[1..][i - 1];
        rest
  }

  /** A dependency the naming check accepts. */
  predicate ConditionAccepted(d: Dependency)
  {
    IsEmpty(d.condition) || !HasInvalidCharacters(d.condition.value)
  }

  /** The dependency loop under naming validation. */
  function DependencyError(dependencies: seq<Dependency>): (r: Option<ValidationError>)
    ensures r.None? <==> forall i :: 0 <= i < |dependencies| ==> ConditionAccepted(dependencies[i])
    ensures r.Some? ==> r.value.InvalidDependencyCondition?
  {
    if dependencies == [] then None
    else if !ConditionAccepted(dependencies[0]) then Some(InvalidDependencyCondition(dependencies[0].name))
    else
      var rest := DependencyError(dependencies[1..]);
      assert forall i :: 1 <= i < |dependencies| ==> dependencies[i] == dependencies[1..][i - 1];
      rest
  }

  /** The value loop under naming validation. */
  function ValueError(values: seq<ValueReference>): (r: Option<ValidationError>)
    ensures r.None? <==> forall i :: 0 <= i < |values| ==> !HasInvalidCharacters(values[i].property)
    ensures r.Some? ==> r.value.InvalidValueProperty?
  {
    if values == [] then None
    else if HasInvalidCharacters(values[0].property) then Some(InvalidValueProperty(values[0].property))
    else
      var rest := ValueError(values[1..]);
      assert forall i :: 1 <= i < |values| ==> values[i] == values[1..][i - 1];
      rest
  }

  /** `validate()`: `None` when the build may go on, otherwise the first failing check. */
  function Validate(chart: Option<Chart>, disableNamingValidation: bool): (r: Option<ValidationError>)
    ensures chart.None? ==> r.None?
  {
    match chart
    case None => None
    case Some(c) =>
      if c.name.Some? && c.name.value != "" && !MatchesNameFormat(c.name.value) then Some(WrongName(c.name.value))
      else if c.addIfStatement.Some? && AddIfError(c.addIfStatement.value, disableNamingValidation).Some? then
        AddIfError(c.addIfStatement.value, disableNamingValidation)
      else if disableNamingValidation then None
      else if c.dependencies.Some? && DependencyError(c.dependencies.value).Some? then DependencyError(c.dependencies.value)
      else if c.values.Some? then ValueError(c.values.value)
      else None
  }

  /**
   * `validate()` as the source runs it: the name check, then the three loops,
   * each stopping at its first failing element.
   */
  method ValidateChart(chart: Option<Chart>, disableNamingValidation: bool) returns (r: Option<ValidationError>)
    ensures r == Validate(chart, disableNamingValidation)
  {
    if chart.None? {
      return None;
    }
    var c := chart.value;
    if c.name.Some? && c.name.value != "" && !MatchesNameFormat(c.name.value) {
      return Some(WrongName(c.name.value));
    }
    if c.addIfStatement.Some? {
      var statements := c.addIfStatement.value;
      for i := 0 to |statements|
        invariant AddIfError(statements[i..], disableNamingValidation) == AddIfError(statements, disableNamingValidation)
      {
        assert statements[i..][1..] == statements[i + 1..];
        var a := statements[i];
        if IsEmpty(a.onResourceKind) && IsEmpty(a.onResourceName) {
          return Some(MissingResourceFilter(a.property));
        }
        if !disableNamingValidation && HasInvalidCharacters(a.property) {
          return Some(InvalidAddIfProperty(a.property));
        }
      }
    }
    if disableNamingValidation {
      return None;
    }
    if c.dependencies.Some? {
      var dependencies := c.dependencies.value;
      for i := 0 to |dependencies|
        invariant DependencyError(dependencies[i..]) == DependencyError(dependencies)
      {
        assert dependencies[i..][1..] == dependencies[i + 1..];
        var d := dependencies[i];
        if d.condition.Some? && d.condition.value != "" && HasInvalidCharacters(d.condition.value) {
          return Some(InvalidDependencyCondition(d.name));
        }
      }
    }
    if c.values.Some? {
      var values := c.values.value;
      for i := 0 to |values|
        invariant ValueError(values[i..]) == ValueError(values)
      {
        assert values[i..][1..] == values[i + 1..];
        if HasInvalidCharacters(values[i].property) {
          return Some(InvalidValueProperty(values[i].property));
        }
      }
    }
    return None;
  }

  /** What `validate` accepts, stated over the whole configuration at once. */
  predicate Acceptable(c: Chart, disableNamingValidation: bool)
  {
    && (c.name.Some? && c.name.value != "" ==> MatchesNameFormat(c.name.value))
    && (c.addIfStatement.Some? ==>
          forall i :: 0 <= i < |c.addIfStatement.value| ==> AddIfAccepted(c.addIfStatement.value[i], disableNamingValidation))
    && (!disableNamingValidation && c.dependencies.Some? ==>
          forall i :: 0 <= i < |c.dependencies.value| ==> ConditionAccepted(c.dependencies.value[i]))
    && (!disableNamingValidation && c.values.Some? ==>
          forall i :: 0 <= i < |c.values.value| ==> !HasInvalidCharacters(c.values.value[i].property))
  }

  /** Validation passes exactly when the configuration is acceptable. */
  lemma ValidateAccepts(c: Chart, disableNamingValidation: bool)
    ensures Validate(Some(c), disableNamingValidation).None? <==> Acceptable(c, disableNamingValidation)
  {
  }

  /** A non-empty name outside the grammar fails first, whatever else is configured. */
  lemma WrongNameFailsFirst(c: Chart, disableNamingValidation: bool)
    requires c.name.Some? && c.name.value != "" && !MatchesNameFormat(c.name.value)
    ensures Validate(Some(c), disableNamingValidation) == Some(WrongName(c.name.value))
  {
  }

  /** An add-if statement with neither kind nor name fails, even with naming validation disabled. */
  lemma AddIfWithoutFilterFails(c: Chart, disableNamingValidation: bool, i: nat)
    requires c.addIfStatement.Some? && i < |c.addIfStatement.value|
    requires IsEmpty(c.addIfStatement.value[i].onResourceKind) && IsEmpty(c.addIfStatement.value[i].onResourceName)
    ensures Validate(Some(c), disableNamingValidation).Some?
  {
    ValidateAccepts(c, disableNamingValidation);
  }

  /** With naming validation on, a `-` in an add-if property fails. */
  lemma DashInAddIfFails(c: Chart, i: nat)
    requires c.addIfStatement.Some? && i < |c.addIfStatement.value| && '-' in c.addIfStatement.value[i].property
    ensures Validate(Some(c), false).Some?
  {
    ValidateAccepts(c, false);
    InvalidCharactersAreDashes(c.addIfStatement.value[i].property);
  }

  /** With naming validation on, a `-` in a dependency's condition fails. */
  lemma DashInConditionFails(c: Chart, i: nat)
    requires c.dependencies.Some? && i < |c.dependencies.value|
    requires c.dependencies.value[i].condition.Some? && '-' in c.dependencies.value[i].condition.value
    ensures Validate(Some(c), false).Some?
  {
    ValidateAccepts(c, false);
    InvalidCharactersAreDashes(c.dependencies.value[i].condition.value);
  }

  /** With naming validation on, a `-` in a value's property fails. */
  lemma DashInValueFails(c: Chart, i: nat)
    requires c.values.Some? && i < |c.values.value| && '-' in c.values.value[i].property
    ensures Validate(Some(c), false).Some?
  {
    ValidateAccepts(c, false);
    InvalidCharactersAreDashes(c.values.value[i].property);
  }

  /** With naming validation off, only the name grammar and the add-if filter can fail. */
  lemma NoNamingErrorsWhenDisabled(c: Chart)
    ensures var r := Validate(Some(c), true);
      r.None? || r.value.WrongName? || r.value.MissingResourceFilter?
  {
  }

  // ---------------------------------------------------------------------
  // Values, names and default references
  // ---------------------------------------------------------------------

  /** `toValue`: the first set typed value wins, an empty map or list counts as unset, and the string comes last. */
  function ToValue(v: ValueReference): (r: Value)
    ensures v.valueAsInt.Some? ==> r == VInt(v.valueAsInt.value)
    ensures v.valueAsInt.None? && v.valueAsBool.Some? ==> r == VBool(v.valueAsBool.value)
    ensures r.VMap? ==>
      v.valueAsInt.None? && v.valueAsBool.None? && v.valueAsMap.Some? && v.valueAsMap.value != map[]
    ensures r.VList? ==>
      v.valueAsInt.None? && v.valueAsBool.None? && v.valueAsList.Some? && |r.items| == |v.valueAsList.value| > 0
  {
    if v.valueAsInt.Some? then VInt(v.valueAsInt.value)
    else if v.valueAsBool.Some? then VBool(v.valueAsBool.value)
    else if v.valueAsMap.Some? && v.valueAsMap.value != map[] then
      VMap(map k | k in v.valueAsMap.value :: VStr(v.valueAsMap.value[k]))
    else if v.valueAsList.Some? && |v.valueAsList.value| > 0 then
      VList(seq(|v.valueAsList.value|, i requires 0 <= i < |v.valueAsList.value| => VStr(v.valueAsList.value[i])))
    else if v.value.Some? then VStr(v.value.value)
    else VNull
  }

  /** An empty map or list is the same as none at all. */
  lemma EmptyCollectionsAreUnset(v: ValueReference)
    ensures ToValue(v.(valueAsMap := Some(map[]))) == ToValue(v.(valueAsMap := None))
    ensures ToValue(v.(valueAsList := Some([]))) == ToValue(v.(valueAsList := None))
  {
  }

  /** With no typed value set, the plain string is the value, and a missing one is null. */
  lemma StringValueComesLast(v: ValueReference)
    requires v.valueAsInt.None? && v.valueAsBool.None?
    requires v.valueAsMap.None? || v.valueAsMap.value == map[]
    requires v.valueAsList.None? || v.valueAsList.value == []
    ensures ToValue(v) == (if v.value.Some? then VStr(v.value.value) else VNull)
  {
  }

  /** A non-empty map carries its entries as strings, ahead of a list and the string. */
  lemma MapEntriesKept(v: ValueReference, k: string)
    requires v.valueAsInt.None? && v.valueAsBool.None? && v.valueAsMap.Some? && k in v.valueAsMap.value
    ensures ToValue(v).VMap? && ToValue(v).entries[k] == VStr(v.valueAsMap.value[k])
  {
  }

  /** `StringUtils.defaultString(s, fallback)`: only null falls back; an empty string is kept. */
  function DefaultString(s: Option<string>, fallback: string): (r: string)
    ensures s.Some? ==> r == s.value
    ensures s.None? ==> r == fallback
  {
    OrElse(s, fallback)
  }

  /** `getEffectiveName()`. */
  function EffectiveName(chart: Option<Chart>, artifactId: string): string
  {
    if chart.None? then artifactId else DefaultString(chart.value.name, artifactId)
  }

  /** The chart version, following the same rule with the project version. */
  function EffectiveVersion(chart: Option<Chart>, projectVersion: string): string
  {
    if chart.None? then projectVersion else DefaultString(chart.value.version, projectVersion)
  }

  /**
   * After validation passes, the effective name is the artifact id, an empty
   * configured name, or a name in the chart grammar.
   */
  lemma ValidatedEffectiveName(chart: Option<Chart>, disableNamingValidation: bool, artifactId: string)
    requires Validate(chart, disableNamingValidation).None?
    ensures var n := EffectiveName(chart, artifactId);
      || (n == artifactId && (chart.None? || chart.value.name.None?))
      || (chart.Some? && chart.value.name == Some(n) && (n == "" || MatchesNameFormat(n)))
  {
    if chart.Some? {
      ValidateAccepts(chart.value, disableNamingValidation);
    }
  }

  /** The version falls back on the project version only when no chart or no chart version is set. */
  lemma EffectiveVersionFallback(chart: Option<Chart>, projectVersion: string)
    ensures EffectiveVersion(chart, projectVersion) == projectVersion || (chart.Some? && chart.value.version.Some?)
    ensures chart.Some? && chart.value.version.Some? ==> EffectiveVersion(chart, projectVersion) == chart.value.version.value
  {
  }

  /** `defaultArray`: no list gives no elements; a list gives its elements in order. */
  function DefaultArray(list: Option<seq<string>>): (r: seq<string>)
    ensures list.None? ==> r == []
    ensures list.Some? ==> |r| == |list.value| && forall i :: 0 <= i < |r| ==> r[i] == list.value[i]
  {
    if list.None? then [] else list.value
  }

  const HOST_DESCRIPTION := "The host under which the application is going to be exposed."

  /** `getConfigReferences()`: the references to the pre-configured properties, when mapping them is enabled. */
  function ConfigReferences(mapPreConfiguredPropertiesInValues: bool): (r: seq<ConfigReference>)
    ensures !mapPreConfiguredPropertiesInValues ==> r == []
    ensures mapPreConfiguredPropertiesInValues ==>
      && |r| == 4
      && r[0].property == "replicas" && r[1].property == "image"
      && r[2].property == "host" && r[3].property == "host"
  {
    if !mapPreConfiguredPropertiesInValues then []
    else
      [SimpleReference("replicas", ["spec.replicas"], VNull)
         .(description := "The number of desired pods.", minimum := Some(0)),
       SimpleReference("image", ["spec.template.spec.containers.image"], VNull)
         .(description := "The container image to use."),
       SimpleReference("host", ["(kind == Ingress).spec.rules.host"], VNull)
         .(description := HOST_DESCRIPTION),
       SimpleReference("host", ["(kind == Ingress).spec.rules.host", "(kind == Route).spec.host"], VNull)
         .(description := HOST_DESCRIPTION)]
  }

  /** The second `host` reference covers the first one's path and adds the route's. */
  lemma HostReferencesOverlap()
    ensures var r := ConfigReferences(true);
      && r[2].paths[0] == r[3].paths[0]
      && "(kind == Route).spec.host" in r[3].paths
      && forall i :: 0 <= i < 4 ==> r[i].value == VNull && r[i].profile == ""
  {
  }

  /** One entry of `toValueReferences`: typed value, default paths, and null strings as empty ones. */
  function ToConfigReference(v: ValueReference): (r: ConfigReference)
    ensures r.property == v.property && r.value == ToValue(v)
    ensures r.paths == DefaultArray(v.paths)
    ensures r.profile == DefaultString(v.profile, "")
  {
    SimpleReference(v.property, DefaultArray(v.paths), ToValue(v)).(profile := DefaultString(v.profile, ""))
  }

  /** `toValueReferences()`: one reference per configured value, in order; none without a chart or values. */
  function ValueReferences(chart: Option<Chart>): (r: seq<ConfigReference>)
    ensures chart.None? || chart.value.values.None? ==> r == []
    ensures chart.Some? && chart.value.values.Some? ==>
      |r| == |chart.value.values.value| &&
      forall i :: 0 <= i < |r| ==> r[i] == ToConfigReference(chart.value.values.value[i])
  {
    if chart.None? || chart.value.values.None? then []
    else
      var vs := chart.value.values.value;
      seq(|vs|, i requires 0 <= i < |vs| => ToConfigReference(vs[i]))
  }
}
