/**
 * The shared shape of the two line scanners (`parse_granite_output` in
 * app/summarizer.py and the loop of app/granite_handler.py): each line
 * either sets the summary, sets the rating, leaves both alone, or raises
 * IndexError; the last setting of a field wins.
 */
module LineScan {
  import opened Base

  /** The summary and the raw rating text gathered so far. */
  datatype Fields = Fields(summary: string, rating: string)

  /** What one pass of a loop body does with its line; `Raise` is the IndexError of `split(":", 1)[1]`. */
  datatype Action = SetSummary(value: string) | SetRating(value: string) | Keep | Raise

  function Apply(f: Fields, a: Action): Option<Fields> {
    match a
    case SetSummary(v) => Some(f.(summary := v))
    case SetRating(v) => Some(f.(rating := v))
    case Keep => Some(f)
    case Raise => None
  }

  /** The loop over the actions, from `init`; None once a line has raised. */
  function Scan(init: Fields, acts: seq<Action>): Option<Fields>
  {
    if acts == [] then Some(init)
    else
      match Scan(init, acts[..|acts| - 1])
      case None => None
      case Some(f) => Apply(f, acts[|acts| - 1])
  }

  lemma ScanStep(init: Fields, acts: seq<Action>, a: Action)
    ensures Scan(init, acts + [a]) == match Scan(init, acts) case None => None case Some(f) => Apply(f, a)
  {
    assert (acts + [a])[..|acts|] == acts;
  }

  /** The loop raises exactly when some action raises. */
  lemma {:induction false} ScanFails(init: Fields, acts: seq<Action>)
    ensures Scan(init, acts).None? <==> Raise in acts
  {
    if acts != [] {
      var prefix := acts[..|acts| - 1];
      ScanFails(init, prefix);
      assert acts == prefix + [acts[|acts| - 1]];
    }
  }

  /** Index of the last action that sets the summary. */
  function LastSummary(acts: seq<Action>): (r: Option<nat>)
    ensures r.Some? ==> r.value < |acts| && acts[r.value].SetSummary?
    ensures r.Some? ==> forall k :: r.value < k < |acts| ==> !acts[k].SetSummary?
    ensures r.None? ==> forall k :: 0 <= k < |acts| ==> !acts[k].SetSummary?
  {
    if acts == [] then None
    else if acts[|acts| - 1].SetSummary? then Some(|acts| - 1)
    else LastSummary(acts[..|acts| - 1])
  }

  /** Index of the last action that sets the rating. */
  function LastRating(acts: seq<Action>): (r: Option<nat>)
    ensures r.Some? ==> r.value < |acts| && acts[r.value].SetRating?
    ensures r.Some? ==> forall k :: r.value < k < |acts| ==> !acts[k].SetRating?
    ensures r.None? ==> forall k :: 0 <= k < |acts| ==> !acts[k].SetRating?
  {
    if acts == [] then None
    else if acts[|acts| - 1].SetRating? then Some(|acts| - 1)
    else LastRating(acts[..|acts| - 1])
  }

  /** When nothing raises, the last setting of each field wins, and an unset field keeps its initial value. */
  lemma {:induction false} ScanLastWins(init: Fields, acts: seq<Action>)
    requires Raise !in acts
    ensures Scan(init, acts).Some?
    ensures Scan(init, acts).value.summary ==
              match LastSummary(acts) case None => init.summary case Some(j) => acts[j].value
    ensures Scan(init, acts).value.rating ==
              match LastRating(acts) case None => init.rating case Some(j) => acts[j].value
  {
    ScanFails(init, acts);
    if acts != [] {
      var prefix := acts[..|acts| - 1];
      ScanLastWins(init, prefix);
      assert acts == prefix + [acts[|acts| - 1]];
    }
  }
}
