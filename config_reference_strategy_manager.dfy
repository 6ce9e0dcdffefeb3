/**
 * The manager runs each registered strategy over every path of a reference,
 * overwriting a path in place whenever the strategy returns a new one.
 */
module ConfigReferenceStrategyManager {
  import opened Wrappers
  import opened JavaStrings
  import opened Values
  import opened ConfigReferenceStrategy

  /** The registered strategies, in order. */
  const Strategies: seq<Strategy> := [HttpGetPort]

  /** One path after the strategies, each seeing what the earlier ones made of it. */
  function RewritePath(strategies: seq<Strategy>, reference: ConfigReference, path: string, mapText: string): string
    decreases |strategies|
  {
    if |strategies| == 0 then path
    else
      var before := RewritePath(strategies[..|strategies| - 1], reference, path, mapText);
      OrElse(VisitPath(strategies[|strategies| - 1], reference, before, mapText), before)
  }

  /** Every path rewritten on its own. */
  function Visited(strategies: seq<Strategy>, reference: ConfigReference, paths: seq<string>, mapText: string): (r: seq<string>)
    ensures |r| == |paths|
  {
    seq(|paths|, i requires 0 <= i < |paths| => RewritePath(strategies, reference, paths[i], mapText))
  }

  /** Strategies run in list order: the later list sees the earlier list's rewrite. */
  lemma {:induction false} RewriteInOrder(a: seq<Strategy>, b: seq<Strategy>, reference: ConfigReference, path: string, mapText: string)
    ensures RewritePath(a + b, reference, path, mapText)
      == RewritePath(b, reference, RewritePath(a, reference, path, mapText), mapText)
    decreases |b|
  {
    if |b| == 0 {
      assert a + b == a;
    } else {
      RewriteInOrder(a, b[..|b| - 1], reference, path, mapText);
      assert (a + b)[..|a + b| - 1] == a + b[..|b| - 1];
    }
  }

  /** With the registered list, a path changes exactly when the probe-port strategy returns a new one. */
  lemma RegisteredRewrite(reference: ConfigReference, path: string, mapText: string)
    ensures var r := RewritePath(Strategies, reference, path, mapText);
      && (EndsWith(path, HTTP_GET_PORT) ==> r == VisitPath(HttpGetPort, reference, path, mapText).value)
      && (!EndsWith(path, HTTP_GET_PORT) ==> r == path)
  {
    assert Strategies[..0] == [];
  }

  /** With the registered list, a second visit changes nothing. */
  lemma VisitTwice(reference: ConfigReference, paths: seq<string>, mapText: string)
    ensures Visited(Strategies, reference, Visited(Strategies, reference, paths, mapText), mapText)
      == Visited(Strategies, reference, paths, mapText)
  {
    var once := Visited(Strategies, reference, paths, mapText);
    forall i | 0 <= i < |paths|
      ensures RewritePath(Strategies, reference, once[i], mapText) == once[i]
    {
      RegisteredRewrite(reference, paths[i], mapText);
      RegisteredRewrite(reference, once[i], mapText);
      if EndsWith(paths[i], HTTP_GET_PORT) {
        RewriteSelectsPort(reference, paths[i], mapText);
      }
    }
  }

  /** One strategy over every path: a path is overwritten when the strategy returns a new one. */
  method VisitWith(strategy: Strategy, reference: ConfigReference, paths: array<string>, mapText: string)
    modifies paths
    ensures forall j :: 0 <= j < paths.Length ==>
      paths[j] == OrElse(VisitPath(strategy, reference, old(paths[j]), mapText), old(paths[j]))
  {
    for i := 0 to paths.Length
      invariant forall j :: 0 <= j < i ==>
        paths[j] == OrElse(VisitPath(strategy, reference, old(paths[j]), mapText), old(paths[j]))
      invariant forall j :: i <= j < paths.Length ==> paths[j] == old(paths[j])
    {
      var newPath := VisitPath(strategy, reference, paths[i], mapText);
      if newPath.Some? {
        paths[i] := newPath.value;
      }
    }
  }

  /**
   * `visit` on the reference's paths array: for each strategy in turn, each
   * path is overwritten in place when the strategy returns a new one. The
   * array keeps its length, as it is the same array.
   */
  method Visit(strategies: seq<Strategy>, reference: ConfigReference, paths: array<string>, mapText: string)
    modifies paths
    ensures paths[..] == Visited(strategies, reference, old(paths[..]), mapText)
  {
    ghost var original := paths[..];
    for k := 0 to |strategies|
      invariant forall j :: 0 <= j < paths.Length ==>
        paths[j] == RewritePath(strategies[..k], reference, original[j], mapText)
    {
      VisitWith(strategies[k], reference, paths, mapText);
      assert strategies[..k + 1][..k] == strategies[..k];
    }
    assert strategies[..|strategies|] == strategies;
  }
}
