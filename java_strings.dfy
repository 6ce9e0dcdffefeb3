/**
 * The few `java.lang.String` operations the plugin relies on, with Java's
 * semantics: left-to-right non-overlapping `replace`, and a `split` on a
 * literal one-character separator that drops trailing empty strings.
 */
module JavaStrings {

  predicate StartsWith(s: string, prefix: string)
  {
    |prefix| <= |s| && s[..|prefix|] == prefix
  }

  predicate EndsWith(s: string, suffix: string)
  {
    |suffix| <= |s| && s[|s| - |suffix|..] == suffix
  }

  /** `sub` occurs in `s` starting at index `i`. */
  predicate OccursAt(s: string, sub: string, i: int)
  {
    0 <= i && i + |sub| <= |s| && s[i..i + |sub|] == sub
  }

  /** `s.indexOf(sub, from)`: the first occurrence at or after `from`, or -1. */
  function IndexOf(s: string, sub: string, from: nat): (r: int)
    ensures r == -1 || (from <= r && r + |sub| <= |s|)
    decreases |s| - from
  {
    if from + |sub| > |s| then -1
    else if s[from..from + |sub|] == sub then from
    else IndexOf(s, sub, from + 1)
  }

  /** `indexOf` gives an occurrence at or after `from`, and none lies between `from` and it. */
  lemma {:induction false} IndexOfFinds(s: string, sub: string, from: nat)
    ensures var r := IndexOf(s, sub, from);
      && (r == -1 || (from <= r && OccursAt(s, sub, r)))
      && (forall j :: from <= j && (r == -1 || j < r) ==> !OccursAt(s, sub, j))
    decreases |s| - from
  {
    if from + |sub| <= |s| && s[from..from + |sub|] != sub {
      IndexOfFinds(s, sub, from + 1);
    }
  }

  /** `s.contains(sub)`. */
  predicate Contains(s: string, sub: string)
  {
    IndexOf(s, sub, 0) >= 0
  }

  lemma ContainsAt(s: string, sub: string, i: int)
    requires OccursAt(s, sub, i)
    ensures Contains(s, sub)
  {
    IndexOfFinds(s, sub, 0);
  }

  /** `s.replace(target, replacement)` for a non-empty target: every occurrence, scanning left to right. */
  function Replace(s: string, target: string, replacement: string): string
    requires |target| > 0
    decreases |s|
  {
    if |s| < |target| then s
    else if s[..|target|] == target then replacement + Replace(s[|target|..], target, replacement)
    else [s[0]] + Replace(s[1..], target, replacement)
  }

  /** An occurrence of the target at the front is replaced, and the scan resumes after it. */
  lemma ReplaceAtStart(target: string, rest: string, replacement: string)
    requires |target| > 0
    ensures Replace(target + rest, target, replacement) == replacement + Replace(rest, target, replacement)
  {
    assert (target + rest)[..|target|] == target;
    assert (target + rest)[|target|..] == rest;
  }

  /** A prefix in which no occurrence of the target starts is copied unchanged. */
  lemma {:induction false} ReplacePassOver(x: string, rest: string, target: string, replacement: string)
    requires |target| > 0
    requires forall i :: 0 <= i < |x| ==> !OccursAt(x + rest, target, i)
    ensures Replace(x + rest, target, replacement) == x + Replace(rest, target, replacement)
    decreases |x|
  {
    if x == [] {
      assert x + rest == rest;
    } else {
      var s := x + rest;
      if |s| < |target| {
        assert Replace(rest, target, replacement) == rest;
      } else {
        assert !OccursAt(s, target, 0);
        assert s[..|target|] != target;
        forall i | 0 <= i < |x[1..]|
          ensures !OccursAt(x[1..] + rest, target, i)
        {
          assert !OccursAt(s, target, i + 1);
          assert x[1..] + rest == s[1..];
        }
        ReplacePassOver(x[1..], rest, target, replacement);
        assert s[1..] == x[1..] + rest;
        assert Replace(s, target, replacement) == [s[0]] + Replace(s[1..], target, replacement);
        assert [x[0]] + x[1..] == x;
      }
    }
  }

  /** A string in which the target does not occur is left unchanged. */
  lemma ReplaceWithoutOccurrence(s: string, target: string, replacement: string)
    requires |target| > 0
    requires forall i :: 0 <= i < |s| ==> !OccursAt(s, target, i)
    ensures Replace(s, target, replacement) == s
  {
    assert s + [] == s;
    ReplacePassOver(s, [], target, replacement);
  }

  /** A string that lacks one of the target's characters is left unchanged. */
  lemma ReplaceMissingChar(s: string, target: string, replacement: string, k: nat)
    requires k < |target| && target[k] !in s
    ensures Replace(s, target, replacement) == s
  {
    forall i | 0 <= i < |s| ensures !OccursAt(s, target, i) {
      if i + |target| <= |s| {
        assert s[i + k] in s;
        assert s[i..i + |target|][k] == s[i + k];
      }
    }
    ReplaceWithoutOccurrence(s, target, replacement);
  }

  /** The target has no border: no proper non-empty prefix equals a suffix, so occurrences cannot overlap. */
  predicate Borderless(t: string)
  {
    forall k :: 0 < k < |t| ==> t[..k] != t[|t| - k..]
  }

  /** Replacing a borderless target in a string that ends with it yields a string that ends with the replacement. */
  lemma {:induction false} ReplaceKeepsSuffix(s: string, target: string, replacement: string)
    requires |target| > 0 && Borderless(target) && EndsWith(s, target)
    ensures EndsWith(Replace(s, target, replacement), replacement)
    decreases |s|
  {
    var n := |target|;
    if s[..n] == target {
      if |s| == n {
        assert s[n..] == [];
      } else {
        var rest := s[n..];
        // the occurrence at the front and the one at the end cannot overlap
        OverlapIsBorder(s, target);
        assert rest[|rest| - n..] == s[|s| - n..];
        ReplaceKeepsSuffix(rest, target, replacement);
      }
    } else {
      assert |s| > n;
      assert s[1..][|s| - 1 - n..] == s[|s| - n..];
      ReplaceKeepsSuffix(s[1..], target, replacement);
    }
  }

  /** Two occurrences of a target, at the front and at the end of a string shorter than twice the target, share a border. */
  lemma OverlapIsBorder(s: string, target: string)
    requires |target| <= |s| && s[..|target|] == target && EndsWith(s, target)
    ensures var n := |target|;
      n < |s| < 2 * n ==> target[..2 * n - |s|] == target[|s| - n..]
  {
    var n := |target|;
    if n < |s| < 2 * n {
      var k := |s| - n;
      assert target[k..] == s[k..n] by {
        assert s[..n][k..] == s[k..n];
      }
      assert target[..n - k] == s[k..n] by {
        assert s[|s| - n..] == s[k..];
        assert s[k..][..n - k] == s[k..n];
      }
    }
  }

  /** `appendIfMissing(s, suffix)` of Apache commons-lang. */
  function AppendIfMissing(s: string, suffix: string): string
  {
    if EndsWith(s, suffix) then s else s + suffix
  }

  /** `Strings.defaultIfEmpty`: the value, unless it is empty (or null, modelled as empty). */
  function DefaultIfEmpty(s: string, fallback: string): string
  {
    if s == "" then fallback else s
  }

  /** The pieces between the separators, empty ones included: one more piece than separators. */
  function Pieces(s: string, sep: char): (ps: seq<string>)
    ensures |ps| >= 1
    decreases |s|
  {
    if s == [] then [""]
    else if s[0] == sep then [""] + Pieces(s[1..], sep)
    else
      var rest := Pieces(s[1..], sep);
      [[s[0]] + rest[0]] + rest[1..]
  }

  function DropTrailingEmpty(ps: seq<string>): seq<string>
  {
    if ps == [] then []
    else if ps[|ps| - 1] == "" then DropTrailingEmpty(ps[..|ps| - 1])
    else ps
  }

  /**
   * `s.split(Pattern.quote(sep))`: without a separator the result is `[s]`
   * (so `""` splits into `[""]`); otherwise the pieces, with trailing empty
   * pieces removed.
   */
  function Split(s: string, sep: char): seq<string>
  {
    if sep !in s then [s] else DropTrailingEmpty(Pieces(s, sep))
  }

  lemma {:induction false} PiecesWithoutSeparator(s: string, sep: char)
    requires sep !in s
    ensures Pieces(s, sep) == [s]
    decreases |s|
  {
    if s != [] {
      PiecesWithoutSeparator(s[1..], sep);
      assert [s[0]] + s[1..] == s;
    }
  }

  /** The piece before the first separator comes first, then the pieces of the rest. */
  lemma {:induction false} PiecesAtFirstSeparator(a: string, sep: char, b: string)
    requires sep !in a
    ensures Pieces(a + [sep] + b, sep) == [a] + Pieces(b, sep)
    decreases |a|
  {
    if a == [] {
      assert a + [sep] + b == [sep] + b;
      assert ([sep] + b)[1..] == b;
    } else {
      PiecesAtFirstSeparator(a[1..], sep, b);
      assert (a + [sep] + b)[1..] == a[1..] + [sep] + b;
      assert [a[0]] + a[1..] == a;
    }
  }

  lemma {:induction false} DropTrailingEmptyIsPrefix(ps: seq<string>)
    ensures |DropTrailingEmpty(ps)| <= |ps|
    ensures DropTrailingEmpty(ps) == ps[..|DropTrailingEmpty(ps)|]
    decreases |ps|
  {
    if ps != [] && ps[|ps| - 1] == "" {
      DropTrailingEmptyIsPrefix(ps[..|ps| - 1]);
    }
  }

  /** `a.b` splits into its two segments. */
  lemma SplitTwoSegments(a: string, sep: char, b: string)
    requires sep !in a && sep !in b && b != ""
    ensures Split(a + [sep] + b, sep) == [a, b]
  {
    PiecesAtFirstSeparator(a, sep, b);
    PiecesWithoutSeparator(b, sep);
    assert (a + [sep] + b)[|a|] == sep;
  }

  /** `a.` splits into `a` alone: the trailing empty piece is dropped. */
  lemma SplitTrailingSeparator(a: string, sep: char)
    requires sep !in a && a != ""
    ensures Split(a + [sep], sep) == [a]
  {
    PiecesAtFirstSeparator(a, sep, "");
    assert a + [sep] + "" == a + [sep];
    assert (a + [sep])[|a|] == sep;
    assert Pieces(a + [sep], sep) == [a, ""];
    assert DropTrailingEmpty([a, ""]) == DropTrailingEmpty([a]);
  }

  /** When `split` yields two or more pieces, the input starts with the first piece and a separator. */
  lemma {:induction false} SplitHead(s: string, sep: char)
    requires |Split(s, sep)| >= 2
    ensures StartsWith(s, Split(s, sep)[0] + [sep])
  {
    var ps := Pieces(s, sep);
    DropTrailingEmptyIsPrefix(ps);
    assert Split(s, sep)[0] == ps[0];
    var i :| 0 <= i < |s| && s[i] == sep && sep !in s[..i] by {
      FirstSeparator(s, sep);
    }
    assert s == s[..i] + [sep] + s[i + 1..];
    PiecesAtFirstSeparator(s[..i], sep, s[i + 1..]);
    assert (s[..i] + [sep])[..|s[..i] + [sep]|] == s[..i] + [sep];
  }

  lemma {:induction false} FirstSeparator(s: string, sep: char)
    requires sep in s
    ensures exists i :: 0 <= i < |s| && s[i] == sep && sep !in s[..i]
    decreases |s|
  {
    if s[0] == sep {
      assert s[..0] == [];
    } else {
      assert sep in s[1..];
      FirstSeparator(s[1..], sep);
      var j :| 0 <= j < |s[1..]| && s[1..][j] == sep && sep !in s[1..][..j];
      assert s[..j + 1] == [s[0]] + s[1..][..j];
    }
  }

  /** `String.join(sep, parts)`. */
  function Join(parts: seq<string>, sep: string): string
  {
    if parts == [] then ""
    else if |parts| == 1 then parts[0]
    else parts[0] + sep + Join(parts[1..], sep)
  }

  function ToLowerAscii(s: string): string
  {
    if s == [] then []
    else
      var c := s[0];
      [if 'A' <= c <= 'Z' then (c as int - 'A' as int + 'a' as int) as char else c] + ToLowerAscii(s[1..])
  }

  function DigitsOf(n: nat): string
    decreases n
  {
    var d := ['0' + (n % 10) as char];
    if n < 10 then d else DigitsOf(n / 10) + d
  }

  /** `Integer.toString(i)`. */
  function IntToString(i: int): string
  {
    if i < 0 then "-" + DigitsOf(-i) else DigitsOf(i)
  }
}
