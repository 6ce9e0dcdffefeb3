/**
 * Path-rewrite strategies applied to a reference's manifest paths. The only
 * registered one points a probe's `httpGet.port` at the probe whose port
 * equals the reference's value, so that only that probe is templated.
 */
module ConfigReferenceStrategy {
  import opened Wrappers
  import opened JavaStrings
  import opened Values

  /** `NoRewrite` is the interface's default `visitPath`; `HttpGetPort` is the probe-port strategy. */
  datatype Strategy = NoRewrite | HttpGetPort

  const HTTP_GET_PORT := "httpGet.port"

  /** `String.format("httpGet.(port == %s).port", value)`. */
  function PortReplacement(valueText: string): string
  {
    "httpGet.(port == " + valueText + ").port"
  }

  /** A strategy's `visitPath`: a path ending in `httpGet.port` has every occurrence of it replaced; others give nothing. */
  function VisitPath(s: Strategy, reference: ConfigReference, path: string, mapText: string): (r: Option<string>)
    ensures s.NoRewrite? ==> r.None?
    ensures s.HttpGetPort? ==> (r.Some? <==> EndsWith(path, HTTP_GET_PORT))
  {
    match s
    case NoRewrite => None
    case HttpGetPort =>
      if EndsWith(path, HTTP_GET_PORT) then
        Some(Replace(path, HTTP_GET_PORT, PortReplacement(Formatted(reference.value, mapText))))
      else None
  }

  lemma HttpGetPortBorderless()
    ensures Borderless(HTTP_GET_PORT)
  {
    var t := HTTP_GET_PORT;
    forall k | 0 < k < |t| ensures t[..k] != t[|t| - k..] {
      assert t[..k][0] == 'h';
      assert t[|t| - k..][0] == t[|t| - k] != 'h';
    }
  }

  /** The replacement ends with `).port`, which `httpGet.port` does not. */
  lemma ReplacementIsNotTarget(valueText: string, s: string)
    requires EndsWith(s, PortReplacement(valueText))
    ensures !EndsWith(s, HTTP_GET_PORT)
  {
    var r := PortReplacement(valueText);
    assert |r| >= 23;
    assert s[|s| - 6] == r[|r| - 6] == ')' by {
      assert s[|s| - |r|..][|r| - 6] == s[|s| - 6];
    }
    assert s[|s| - 12..][6] == ')';
    assert HTTP_GET_PORT[6] == 't';
  }

  /**
   * A rewritten path ends with the port predicate on the reference's value,
   * so it selects only the probe with that port, and it never again ends with
   * `httpGet.port`.
   */
  lemma RewriteSelectsPort(reference: ConfigReference, path: string, mapText: string)
    requires EndsWith(path, HTTP_GET_PORT)
    ensures var r := VisitPath(HttpGetPort, reference, path, mapText);
      && r.Some?
      && EndsWith(r.value, PortReplacement(Formatted(reference.value, mapText)))
      && !EndsWith(r.value, HTTP_GET_PORT)
  {
    var text := Formatted(reference.value, mapText);
    HttpGetPortBorderless();
    ReplaceKeepsSuffix(path, HTTP_GET_PORT, PortReplacement(text));
    ReplacementIsNotTarget(text, Replace(path, HTTP_GET_PORT, PortReplacement(text)));
  }

  /** Visiting a path the strategy has rewritten gives nothing. */
  lemma RewriteIsFinal(reference: ConfigReference, path: string, mapText: string)
    requires VisitPath(HttpGetPort, reference, path, mapText).Some?
    ensures VisitPath(HttpGetPort, reference, VisitPath(HttpGetPort, reference, path, mapText).value, mapText).None?
  {
    RewriteSelectsPort(reference, path, mapText);
  }

  /** Every occurrence is replaced, not only the suffix: `httpGet.port` + x + `httpGet.port` becomes R + x + R. */
  lemma RewritesEveryOccurrence(reference: ConfigReference, x: string, mapText: string)
    requires 'h' !in x
    ensures var r := PortReplacement(Formatted(reference.value, mapText));
      VisitPath(HttpGetPort, reference, HTTP_GET_PORT + x + HTTP_GET_PORT, mapText) == Some(r + x + r)
  {
    var t := HTTP_GET_PORT;
    var r := PortReplacement(Formatted(reference.value, mapText));
    var path := t + x + t;
    assert EndsWith(path, t) by {
      assert path[|path| - |t|..] == t;
    }
    assert path == t + (x + t);
    ReplaceAtStart(t, x + t, r);
    forall i | 0 <= i < |x| ensures !OccursAt(x + t, t, i) {
      assert x[i] in x;
      assert (x + t)[i..i + |t|][0] == x[i] != t[0];
    }
    ReplacePassOver(x, t, t, r);
    assert t + [] == t;
    ReplaceAtStart(t, [], r);
    assert Replace(t, t, r) == r;
    assert r + (x + r) == r + x + r;
  }

  /** Whether the path ends with `httpGet.port` and nothing else decides the outcome: the doc-comment example. */
  lemma LivenessProbeExample(reference: ConfigReference)
    requires reference.value == VInt(8888)
    ensures VisitPath(HttpGetPort, reference, "(kind == Deployment).spec.template.spec.containers.livenessProbe." + HTTP_GET_PORT, "")
      .Some?
    ensures VisitPath(HttpGetPort, reference, "(kind == Deployment).spec.template.spec.containers.livenessProbe.httpGet.path", "")
      .None?
  {
    var p := "(kind == Deployment).spec.template.spec.containers.livenessProbe." + HTTP_GET_PORT;
    assert EndsWith(p, HTTP_GET_PORT) by {
      assert p[|p| - 12..] == HTTP_GET_PORT;
    }
    var q := "(kind == Deployment).spec.template.spec.containers.livenessProbe.httpGet.path";
    assert q[|q| - 1] == 'h' != 't';
  }
}
