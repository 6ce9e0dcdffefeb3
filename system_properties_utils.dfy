/**
 * Extraction of `${…}` placeholders from a raw value. The scanner finds each
 * opener, takes the text up to the next closer, and widens it one character
 * at a time until it holds as many openers as closers, so nested
 * placeholders stay inside their outer one. A null string is modelled as "".
 */
module SystemPropertiesUtils {
  import opened Wrappers
  import opened JavaStrings

  const SYSTEM_PROPERTY_START := "${"
  const SYSTEM_PROPERTY_END := "}"

  /** `hasSystemProperties`: non-empty and containing an opener somewhere. */
  predicate HasSystemProperties(rawValue: string)
  {
    rawValue != "" && Contains(rawValue, SYSTEM_PROPERTY_START)
  }

  lemma HasSystemPropertiesIff(rawValue: string)
    ensures HasSystemProperties(rawValue) <==> exists i :: OccursAt(rawValue, SYSTEM_PROPERTY_START, i)
  {
    IndexOfFinds(rawValue, SYSTEM_PROPERTY_START, 0);
    if exists i :: OccursAt(rawValue, SYSTEM_PROPERTY_START, i) {
      var i :| OccursAt(rawValue, SYSTEM_PROPERTY_START, i);
      assert IndexOf(rawValue, SYSTEM_PROPERTY_START, 0) != -1;
    }
  }

  /** The non-overlapping occurrences of `sub` found by repeated `indexOf`, starting at `from`. */
  function Occurrences(s: string, sub: string, from: nat): nat
    requires |sub| > 0
    decreases |s| + 1 - from
  {
    var idx := IndexOf(s, sub, from);
    if idx == -1 then 0 else 1 + Occurrences(s, sub, idx + |sub|)
  }

  /** `countMatches`: zero when either argument is empty. */
  function CountOf(s: string, sub: string): nat
  {
    if s == "" || sub == "" then 0 else Occurrences(s, sub, 0)
  }

  /** The occurrences of one character, counted directly. */
  function CharCount(s: string, c: char): nat
  {
    if s == [] then 0 else (if s[0] == c then 1 else 0) + CharCount(s[1..], c)
  }

  lemma {:induction false} CharCountAppend(a: string, b: string, c: char)
    ensures CharCount(a + b, c) == CharCount(a, c) + CharCount(b, c)
    decreases |a|
  {
    if a == [] {
      assert a + b == b;
    } else {
      CharCountAppend(a[1..], b, c);
      assert (a + b)[1..] == a[1..] + b;
    }
  }

  lemma {:induction false} CharCountAbsent(s: string, c: char)
    requires c !in s
    ensures CharCount(s, c) == 0
    decreases |s|
  {
    if s != [] {
      assert s[0] in s;
      assert forall x :: x in s[1..] ==> x in s;
      CharCountAbsent(s[1..], c);
    }
  }

  /** A stretch with no occurrence of the one-character target does not hold the character. */
  lemma NoCharIn(s: string, c: char, from: nat, to: nat)
    requires from <= to <= |s|
    requires forall j :: from <= j < to ==> !OccursAt(s, [c], j)
    ensures c !in s[from..to]
  {
    forall j | 0 <= j < to - from ensures s[from..to][j] != c {
      assert !OccursAt(s, [c], from + j);
      assert s[from + j..from + j + 1] == [s[from + j]];
    }
  }

  /** For a one-character target, the repeated `indexOf` counts every occurrence of the character. */
  lemma {:induction false} OccurrencesOfChar(s: string, c: char, from: nat)
    requires from <= |s|
    ensures Occurrences(s, [c], from) == CharCount(s[from..], c)
    decreases |s| - from
  {
    var idx := IndexOf(s, [c], from);
    IndexOfFinds(s, [c], from);
    if idx == -1 {
      NoCharIn(s, c, from, |s|);
      CharCountAbsent(s[from..], c);
    } else {
      assert Occurrences(s, [c], from) == 1 + Occurrences(s, [c], idx + 1);
      OccurrencesOfChar(s, c, idx + 1);
      NoCharIn(s, c, from, idx);
      CharCountAbsent(s[from..idx], c);
      assert s[idx..idx + 1] == [c];
      SplitAround(s, from, idx);
      CharCountAppend(s[from..idx] + [s[idx]], s[idx + 1..], c);
      CharCountAppend(s[from..idx], [s[idx]], c);
    }
  }

  lemma SplitAround(s: string, from: nat, idx: nat)
    requires from <= idx < |s|
    ensures s[from..] == s[from..idx] + [s[idx]] + s[idx + 1..]
  {
  }

  /** `countMatches(s, "}")` counts every closing brace. */
  lemma CountOfCloser(s: string)
    ensures CountOf(s, SYSTEM_PROPERTY_END) == CharCount(s, '}')
  {
    if s != "" {
      OccurrencesOfChar(s, '}', 0);
      assert s[0..] == s;
    }
  }

  /** `countMatches`, with its `indexOf` loop. */
  method CountMatches(s: string, sub: string) returns (count: nat)
    ensures count == CountOf(s, sub)
  {
    if s == "" || sub == "" {
      return 0;
    }
    count := 0;
    ghost var from := 0;
    var idx := IndexOf(s, sub, 0);
    while idx != -1
      invariant from <= |s| + 1
      invariant idx == IndexOf(s, sub, from)
      invariant count + Occurrences(s, sub, from) == Occurrences(s, sub, 0)
      decreases |s| + 1 - from
    {
      assert Occurrences(s, sub, from) == 1 + Occurrences(s, sub, idx + |sub|);
      count := count + 1;
      from := idx + |sub|;
      idx := IndexOf(s, sub, idx + |sub|);
    }
  }

  /**
   * The balancing loop: `tentative` is `str[start..end]`, and `end` moves on
   * while the openers and closers in it differ. When it runs off the end of
   * the input the last tentative is kept, one character short.
   */
  function Balance(str: string, open: string, close: string, start: nat, end: nat): (r: (string, nat))
    requires start <= end < |str|
    ensures end <= r.1 <= |str|
    decreases |str| - end
  {
    var tentative := str[start..end];
    if CountOf(tentative, open) == CountOf(tentative, close) then (tentative, end)
    else if end + 1 >= |str| then (tentative, end + 1)
    else Balance(str, open, close, start, end + 1)
  }

  /**
   * The balanced tentative ends where the scan stopped; one that ran off the
   * end of the input is unbalanced and stops one character short.
   */
  lemma {:induction false} BalanceResult(str: string, open: string, close: string, start: nat, end: nat)
    requires start <= end < |str|
    ensures var r := Balance(str, open, close, start, end);
      && (r.1 < |str| <==> CountOf(r.0, open) == CountOf(r.0, close))
      && r.0 == str[start..if r.1 < |str| then r.1 else r.1 - 1]
    decreases |str| - end
  {
    var tentative := str[start..end];
    if CountOf(tentative, open) != CountOf(tentative, close) && end + 1 < |str| {
      BalanceResult(str, open, close, start, end + 1);
    }
  }

  /**
   * One iteration of the main loop from `pos`: find an opener, then a closer
   * after it, and balance. It gives the entry and the position after the
   * closer, or nothing when either search fails.
   */
  function Next(str: string, open: string, close: string, pos: nat): (r: Option<(string, nat)>)
    requires |open| > 0 && |close| > 0
    ensures r.Some? ==> pos < r.value.1 <= |str| + |close|
  {
    var start := IndexOf(str, open, pos);
    if start < 0 then None
    else
      var from := start + |open|;
      var end := IndexOf(str, close, from);
      if end < 0 then None
      else
        var b := Balance(str, open, close, from, end);
        Some((b.0, b.1 + |close|))
  }

  /** The main loop from position `pos`, while `pos < str.length() - close.length()`. */
  function Scan(str: string, open: string, close: string, pos: nat): seq<string>
    requires |open| > 0 && |close| > 0
    requires pos <= |str| + |close|
    decreases |str| + |close| - pos
  {
    if pos >= |str| - |close| then []
    else
      match Next(str, open, close, pos)
      case None => []
      case Some((t, p)) => [t] + Scan(str, open, close, p)
  }

  /** `substringsBetween`: nothing for an empty input, opener or closer. */
  function SubstringsBetween(str: string, open: string, close: string): seq<string>
  {
    if str == "" || open == "" || close == "" then [] else Scan(str, open, close, 0)
  }

  /** `getSystemProperties`. */
  function GetSystemProperties(str: string): seq<string>
  {
    SubstringsBetween(str, SYSTEM_PROPERTY_START, SYSTEM_PROPERTY_END)
  }

  /** The input holds `t` right after an opener that starts at or after `pos`. */
  ghost predicate AfterOpener(str: string, open: string, t: string, pos: nat)
  {
    exists i :: pos <= i && OccursAt(str, open, i) && i + |open| + |t| <= |str| && str[i + |open|..i + |open| + |t|] == t
  }

  lemma NextAfterOpener(str: string, open: string, close: string, pos: nat)
    requires |open| > 0 && |close| > 0
    requires Next(str, open, close, pos).Some?
    ensures AfterOpener(str, open, Next(str, open, close, pos).value.0, pos)
  {
    var start := IndexOf(str, open, pos);
    var from := start + |open|;
    var b := Balance(str, open, close, from, IndexOf(str, close, from));
    BalanceResult(str, open, close, from, IndexOf(str, close, from));
    IndexOfFinds(str, open, pos);
    assert from + |b.0| <= |str| && str[from..from + |b.0|] == b.0;
    assert OccursAt(str, open, start);
  }

  /** Every result is a piece of the input that begins right after an opener. */
  lemma {:induction false} ScanStartsAfterOpener(str: string, open: string, close: string, pos: nat, k: nat)
    requires |open| > 0 && |close| > 0
    requires pos <= |str| + |close|
    requires k < |Scan(str, open, close, pos)|
    ensures AfterOpener(str, open, Scan(str, open, close, pos)[k], pos)
    decreases |str| + |close| - pos
  {
    var n := Next(str, open, close, pos).value;
    ScanUnfold(str, open, close, pos);
    if k == 0 {
      NextAfterOpener(str, open, close, pos);
    } else {
      ScanStartsAfterOpener(str, open, close, n.1, k - 1);
      AfterOpenerLater(str, open, Scan(str, open, close, pos)[k], pos, n.1);
    }
  }

  lemma AfterOpenerLater(str: string, open: string, t: string, pos: nat, later: nat)
    requires pos <= later && AfterOpener(str, open, t, later)
    ensures AfterOpener(str, open, t, pos)
  {
  }

  /** A found entry is the head of the scan from `pos`. */
  lemma ScanUnfold(str: string, open: string, close: string, pos: nat)
    requires |open| > 0 && |close| > 0
    requires pos < |str| - |close| && Next(str, open, close, pos).Some?
    ensures Scan(str, open, close, pos)
      == [Next(str, open, close, pos).value.0] + Scan(str, open, close, Next(str, open, close, pos).value.1)
  {
  }

  lemma SubstringsStartAfterOpener(str: string, open: string, close: string, k: nat)
    requires k < |SubstringsBetween(str, open, close)|
    ensures AfterOpener(str, open, SubstringsBetween(str, open, close)[k], 0)
  {
    ScanStartsAfterOpener(str, open, close, 0, k);
  }

  /** An opener with no closer anywhere after it ends the scan without an entry. */
  lemma UnclosedStops(str: string, open: string, close: string, pos: nat)
    requires |open| > 0 && |close| > 0 && pos < |str| - |close|
    requires IndexOf(str, open, pos) >= 0 && IndexOf(str, close, IndexOf(str, open, pos) + |open|) < 0
    ensures Scan(str, open, close, pos) == []
  {
  }

  /** `indexOf` stops at the first occurrence: one at `i`, with the target's first character absent before it. */
  lemma IndexOfFirst(s: string, sub: string, from: nat, i: nat)
    requires |sub| > 0 && from <= i && OccursAt(s, sub, i) && sub[0] !in s[from..i]
    ensures IndexOf(s, sub, from) == i
  {
    IndexOfFinds(s, sub, from);
    forall j | from <= j < i ensures !OccursAt(s, sub, j) {
      assert s[from..i][j - from] == s[j];
      if j + |sub| <= |s| {
        assert s[j..j + |sub|][0] == s[j];
      }
    }
  }

  lemma IndexOfAbsent(s: string, sub: string, from: nat)
    requires |sub| > 0 && from <= |s| && sub[0] !in s[from..]
    ensures IndexOf(s, sub, from) == -1
  {
    IndexOfFinds(s, sub, from);
    forall j | from <= j ensures !OccursAt(s, sub, j) {
      if j + |sub| <= |s| {
        assert s[from..][j - from] == s[j];
        assert s[j..j + |sub|][0] == s[j];
      }
    }
  }

  lemma CountWithoutFirstChar(s: string, sub: string)
    requires |sub| > 0 && sub[0] !in s
    ensures CountOf(s, sub) == 0
  {
    if s != "" {
      assert s[0..] == s;
      IndexOfAbsent(s, sub, 0);
    }
  }

  /** A tentative holding neither the opener's nor the closer's first character is balanced at once. */
  lemma BalanceAtOnce(str: string, open: string, close: string, start: nat, end: nat)
    requires start <= end < |str| && |open| > 0 && |close| > 0
    requires open[0] !in str[start..end] && close[0] !in str[start..end]
    ensures Balance(str, open, close, start, end) == (str[start..end], end)
  {
    CountWithoutFirstChar(str[start..end], open);
    CountWithoutFirstChar(str[start..end], close);
  }

  lemma TwoPlaceholdersFirst(s: string)
    requires s == "x ${a} y ${b}"
    ensures Next(s, SYSTEM_PROPERTY_START, SYSTEM_PROPERTY_END, 0) == Some(("a", 6))
  {
    assert s[0] == 'x' && s[1] == ' ' && s[2] == '$' && s[3] == '{' && s[4] == 'a' && s[5] == '}';
    assert s[0..2] == "x ";
    assert s[2..4] == "${";
    assert s[4..5] == "a";
    assert s[5..6] == "}";
    IndexOfFirst(s, SYSTEM_PROPERTY_START, 0, 2);
    IndexOfFirst(s, SYSTEM_PROPERTY_END, 4, 5);
    BalanceAtOnce(s, SYSTEM_PROPERTY_START, SYSTEM_PROPERTY_END, 4, 5);
  }

  lemma TwoPlaceholdersSecond(s: string)
    requires s == "x ${a} y ${b}"
    ensures Next(s, SYSTEM_PROPERTY_START, SYSTEM_PROPERTY_END, 6) == Some(("b", 13))
  {
    assert s[6] == ' ' && s[7] == 'y' && s[8] == ' ' && s[9] == '$' && s[10] == '{' && s[11] == 'b' && s[12] == '}';
    assert s[6..9] == " y ";
    assert s[9..11] == "${";
    assert s[11..12] == "b";
    assert s[12..13] == "}";
    IndexOfFirst(s, SYSTEM_PROPERTY_START, 6, 9);
    IndexOfFirst(s, SYSTEM_PROPERTY_END, 11, 12);
    BalanceAtOnce(s, SYSTEM_PROPERTY_START, SYSTEM_PROPERTY_END, 11, 12);
  }

  /** `x ${a} y ${b}` yields `[a, b]`. */
  lemma TwoPlaceholders()
    ensures GetSystemProperties("x ${a} y ${b}") == ["a", "b"]
  {
    var s := "x ${a} y ${b}";
    TwoPlaceholdersFirst(s);
    TwoPlaceholdersSecond(s);
    ScanUnfold(s, SYSTEM_PROPERTY_START, SYSTEM_PROPERTY_END, 0);
    ScanUnfold(s, SYSTEM_PROPERTY_START, SYSTEM_PROPERTY_END, 6);
    assert Scan(s, SYSTEM_PROPERTY_START, SYSTEM_PROPERTY_END, 13) == [];
  }

  /** The tentatives of the nested example: `a${b` has an unmatched opener, `a${b}` none. */
  lemma NestedCounts(t: string, u: string)
    requires t == "a${b" && u == "a${b}"
    ensures CountOf(t, SYSTEM_PROPERTY_START) == 1 && CountOf(t, SYSTEM_PROPERTY_END) == 0
    ensures CountOf(u, SYSTEM_PROPERTY_START) == 1 && CountOf(u, SYSTEM_PROPERTY_END) == 1
  {
    CountWithoutFirstChar(t, SYSTEM_PROPERTY_END);
    assert t[0..1] == "a" && u[0..1] == "a";
    assert t[1..3] == "${" && u[1..3] == "${";
    IndexOfFirst(t, SYSTEM_PROPERTY_START, 0, 1);
    IndexOfFirst(u, SYSTEM_PROPERTY_START, 0, 1);
    assert u[3..] == "b}";
    assert IndexOf(t, SYSTEM_PROPERTY_START, 3) == -1;
    assert Occurrences(t, SYSTEM_PROPERTY_START, 0) == 1 + Occurrences(t, SYSTEM_PROPERTY_START, 3);
    IndexOfAbsent(u, SYSTEM_PROPERTY_START, 3);
    assert Occurrences(u, SYSTEM_PROPERTY_START, 0) == 1 + Occurrences(u, SYSTEM_PROPERTY_START, 3);
    CountOfCloser(u);
    assert u == t + "}";
    CharCountAppend(t, "}", '}');
    CharCountAbsent(t, '}');
    assert CharCount("}", '}') == 1 + CharCount("", '}');
  }

  lemma NestedBalance(s: string)
    requires s == "${a${b}}"
    ensures Balance(s, SYSTEM_PROPERTY_START, SYSTEM_PROPERTY_END, 2, 6) == ("a${b}", 7)
  {
    assert s[2..6] == "a${b";
    assert s[2..7] == "a${b}";
    NestedCounts(s[2..6], s[2..7]);
    assert Balance(s, SYSTEM_PROPERTY_START, SYSTEM_PROPERTY_END, 2, 7) == ("a${b}", 7);
  }

  /** `${a${b}}` yields `[a${b}]`: the closer of the inner placeholder does not end the outer one. */
  lemma NestedPlaceholder()
    ensures GetSystemProperties("${a${b}}") == ["a${b}"]
  {
    var s := "${a${b}}";
    assert s[0..0] == "" && s[0..2] == "${";
    assert s[2..6] == "a${b" && s[6..7] == "}";
    IndexOfFirst(s, SYSTEM_PROPERTY_START, 0, 0);
    IndexOfFirst(s, SYSTEM_PROPERTY_END, 2, 6);
    NestedBalance(s);
    assert Next(s, SYSTEM_PROPERTY_START, SYSTEM_PROPERTY_END, 0) == Some(("a${b}", 8));
    ScanUnfold(s, SYSTEM_PROPERTY_START, SYSTEM_PROPERTY_END, 0);
    assert Scan(s, SYSTEM_PROPERTY_START, SYSTEM_PROPERTY_END, 8) == [];
  }

  lemma UnclosedBalance(s: string)
    requires s == "${a${b}"
    ensures Balance(s, SYSTEM_PROPERTY_START, SYSTEM_PROPERTY_END, 2, 6) == ("a${b", 7)
  {
    assert s[2..6] == "a${b";
    NestedCounts(s[2..6], "a${b}");
  }

  /** An unclosed outer placeholder still yields an entry, cut one character short of the input's end. */
  lemma UnclosedOuterPlaceholder()
    ensures GetSystemProperties("${a${b}") == ["a${b"]
  {
    var s := "${a${b}";
    assert s[0..0] == "" && s[0..2] == "${";
    assert s[2..6] == "a${b" && s[6..7] == "}";
    IndexOfFirst(s, SYSTEM_PROPERTY_START, 0, 0);
    IndexOfFirst(s, SYSTEM_PROPERTY_END, 2, 6);
    UnclosedBalance(s);
    assert Next(s, SYSTEM_PROPERTY_START, SYSTEM_PROPERTY_END, 0) == Some(("a${b", 8));
    ScanUnfold(s, SYSTEM_PROPERTY_START, SYSTEM_PROPERTY_END, 0);
    assert Scan(s, SYSTEM_PROPERTY_START, SYSTEM_PROPERTY_END, 8) == [];
  }

  /** The balancing `while` loop. */
  method BalanceTentative(str: string, open: string, close: string, start: nat, end0: nat) returns (tentative: string, end: nat)
    requires start <= end0 < |str|
    ensures (tentative, end) == Balance(str, open, close, start, end0)
  {
    end := end0;
    tentative := str[start..end];
    var opens := CountMatches(tentative, open);
    var closes := CountMatches(tentative, close);
    while opens != closes
      invariant end0 <= end < |str|
      invariant tentative == str[start..end]
      invariant opens == CountOf(tentative, open) && closes == CountOf(tentative, close)
      invariant Balance(str, open, close, start, end0) == Balance(str, open, close, start, end)
      decreases |str| - end
    {
      if end + 1 >= |str| {
        end := end + 1;
        return;
      }
      end := end + 1;
      tentative := str[start..end];
      opens := CountMatches(tentative, open);
      closes := CountMatches(tentative, close);
    }
  }

  /** The body of the main loop: the two searches and the balancing. */
  method FindNext(str: string, open: string, close: string, pos: nat) returns (r: Option<(string, nat)>)
    requires |open| > 0 && |close| > 0
    ensures r == Next(str, open, close, pos)
  {
    var start := IndexOf(str, open, pos);
    if start < 0 {
      return None;
    }
    start := start + |open|;
    var end := IndexOf(str, close, start);
    if end < 0 {
      return None;
    }
    var tentative;
    tentative, end := BalanceTentative(str, open, close, start, end);
    return Some((tentative, end + |close|));
  }

  /** `substringsBetween`, with its `for` loop. */
  method GetSubstringsBetween(str: string, open: string, close: string) returns (list: seq<string>)
    ensures list == SubstringsBetween(str, open, close)
  {
    if str == "" || open == "" || close == "" {
      return [];
    }
    list := [];
    var pos: nat := 0;
    while pos < |str| - |close|
      invariant pos <= |str| + |close|
      invariant list + Scan(str, open, close, pos) == Scan(str, open, close, 0)
      decreases |str| + |close| - pos
    {
      var next := FindNext(str, open, close, pos);
      if next.None? {
        assert list == Scan(str, open, close, 0);
        return;
      }
      ScanUnfold(str, open, close, pos);
      list := list + [next.value.0];
      pos := next.value.1;
    }
  }
}
