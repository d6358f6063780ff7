/** The first-match linear search the configuration lookups share. */
module Lookup {
  import opened Wrappers

  /**
   * The first element of xs that satisfies p, as a `for range` loop with an early return
   * finds it; None when no element does.
   */
  function FirstMatch<T>(xs: seq<T>, p: T -> bool): (r: Option<T>)
    ensures r.None? <==> forall i :: 0 <= i < |xs| ==> !p(xs[i])
    ensures r.Some? ==> exists i :: 0 <= i < |xs| && xs[i] == r.value && p(xs[i])
                                    && forall j :: 0 <= j < i ==> !p(xs[j])
  {
    if xs == [] then None
    else if p(xs[0]) then Some(xs[0])
    else
      var r := FirstMatch(xs[1..], p);
      assert r.Some? ==> exists i :: 1 <= i < |xs| && xs[i] == r.value && p(xs[i])
                                      && forall j :: 1 <= j < i ==> !p(xs[j]) by {
        if r.Some? {
          var i :| 0 <= i < |xs[1..]| && xs[1..][i] == r.value && p(xs[1..][i])
                   && forall j :: 0 <= j < i ==> !p(xs[1..][j]);
          assert xs[i + 1] == r.value;
          forall j | 1 <= j < i + 1 ensures !p(xs[j]) {
            assert xs[j] == xs[1..][j - 1];
          }
        }
      }
      assert r.None? ==> forall i :: 1 <= i < |xs| ==> !p(xs[i]) by {
        if r.None? {
          forall i | 1 <= i < |xs| ensures !p(xs[i]) {
            assert xs[i] == xs[1..][i - 1];
          }
        }
      }
      r
  }
}
