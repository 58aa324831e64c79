/** Left-to-right passes over the lines of a file that keep some state and stop
    at the first line that raises: the shape of every `for line in lines:` loop
    in the scripts. */
module Scans {
  import opened Wrappers

  /** The state after feeding `items` to `step` in order, or the failure of the
      first item `step` rejects. */
  function Scan<T, S>(items: seq<T>, init: S, step: (S, T) -> Result<S>): Result<S>
  {
    if items == [] then Success(init)
    else
      match Scan(items[..|items| - 1], init, step)
      case Failure(e) => Failure(e)
      case Success(s) => step(s, items[|items| - 1])
  }

  /** One more item: the scan of a longer prefix is one step from the shorter. */
  lemma ScanNext<T, S>(items: seq<T>, k: nat, init: S, step: (S, T) -> Result<S>, s: S)
    requires k < |items|
    requires Scan(items[..k], init, step) == Success(s)
    ensures Scan(items[..k + 1], init, step) == step(s, items[k])
  {
    assert items[..k + 1][..k] == items[..k];
  }

  /** Once a prefix has failed, the whole scan fails the same way. */
  lemma {:induction false} ScanStops<T, S>(items: seq<T>, k: nat, init: S, step: (S, T) -> Result<S>)
    requires k <= |items|
    requires Scan(items[..k], init, step).Failure?
    ensures Scan(items, init, step) == Scan(items[..k], init, step)
    decreases |items| - k
  {
    if k < |items| {
      assert items[..k + 1][..k] == items[..k];
      ScanStops(items, k + 1, init, step);
    } else {
      assert items[..k] == items;
    }
  }
}
