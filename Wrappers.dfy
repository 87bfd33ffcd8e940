/** Option and Result values standing in for Python's `None` and raised exceptions. */
module Wrappers {
  import Seqs

  datatype Option<+T> = None | Some(value: T) {
    function GetOr(default: T): T {
      match this
      case Some(v) => v
      case None => default
    }
  }

  /** `Err` carries the message of the exception the source would raise. */
  datatype Result<+T> = Ok(value: T) | Err(message: seq<char>)

  /**
   * `f` applied to every element in order, stopping at the first failure, as a loop that lets
   * the exception propagate does.
   */
  function MapAll<A, B>(xs: seq<A>, f: A -> Result<B>): (r: Result<seq<B>>)
    ensures r.Err? <==> exists i :: 0 <= i < |xs| && f(xs[i]).Err?
    ensures r.Ok? ==> |r.value| == |xs| && forall i :: 0 <= i < |xs| ==> f(xs[i]) == Ok(r.value[i])
    decreases |xs|
  {
    if xs == [] then Ok([])
    else
      var init := xs[..|xs| - 1];
      assert forall i :: 0 <= i < |init| ==> init[i] == xs[i];
      match MapAll(init, f)
      case Err(e) => Err(e)
      case Ok(vs) =>
        match f(xs[|xs| - 1])
        case Err(e) => Err(e)
        case Ok(v) => Ok(vs + [v])
  }

  /** Over the elements a test keeps, `MapAll` fails exactly when one kept element fails. */
  lemma MapAllFiltered<A, B>(xs: seq<A>, p: A -> bool, f: A -> Result<B>)
    ensures MapAll(Seqs.Filter(xs, p), f).Err? <==> exists i :: 0 <= i < |xs| && p(xs[i]) && f(xs[i]).Err?
    ensures MapAll(Seqs.Filter(xs, p), f).Ok? ==>
              forall k :: 0 <= k < |MapAll(Seqs.Filter(xs, p), f).value| ==>
                exists i :: 0 <= i < |xs| && p(xs[i]) && f(xs[i]) == Ok(MapAll(Seqs.Filter(xs, p), f).value[k])
  {
    var fs := Seqs.Filter(xs, p);
    if exists i :: 0 <= i < |xs| && p(xs[i]) && f(xs[i]).Err? {
      var i :| 0 <= i < |xs| && p(xs[i]) && f(xs[i]).Err?;
      var k :| 0 <= k < |fs| && fs[k] == xs[i];
    }
    if MapAll(fs, f).Ok? {
      forall k | 0 <= k < |fs| ensures exists i :: 0 <= i < |xs| && p(xs[i]) && f(xs[i]) == Ok(MapAll(fs, f).value[k]) {
        var i :| 0 <= i < |xs| && xs[i] == fs[k];
      }
    } else {
      var k :| 0 <= k < |fs| && f(fs[k]).Err?;
      var i :| 0 <= i < |xs| && xs[i] == fs[k];
    }
  }

  /** One more element of the input adds at most its result to `MapAll` over the kept elements. */
  lemma MapAllFilterStep<A, B>(xs: seq<A>, i: nat, p: A -> bool, f: A -> Result<B>)
    requires i < |xs| && MapAll(Seqs.Filter(xs[..i], p), f).Ok?
    requires p(xs[i]) ==> f(xs[i]).Ok?
    ensures MapAll(Seqs.Filter(xs[..i + 1], p), f) ==
              Ok(MapAll(Seqs.Filter(xs[..i], p), f).value + if p(xs[i]) then [f(xs[i]).value] else [])
  {
    var fs := Seqs.Filter(xs[..i], p);
    Seqs.FilterPrefixStep(xs, i, p);
    if p(xs[i]) {
      var ys := fs + [xs[i]];
      assert ys[..|ys| - 1] == fs && ys[|ys| - 1] == xs[i];
    } else {
      assert Seqs.Filter(xs[..i + 1], p) == fs + [] == fs;
      assert MapAll(fs, f).value + [] == MapAll(fs, f).value;
    }
  }
}
