/** np.argmin on a one-dimensional array: the index of the first minimum. */
module Search {
  function ArgMin(d: seq<real>): (k: nat)
    requires |d| > 0
    ensures k < |d|
    decreases |d|
  {
    if |d| == 1 then 0
    else
      var k := ArgMin(d[..|d| - 1]);
      if d[|d| - 1] < d[k] then |d| - 1 else k
  }

  /** k holds a minimum of d, and every earlier element is strictly larger. */
  ghost predicate IsFirstMin(d: seq<real>, k: nat) {
    && k < |d|
    && (forall j :: 0 <= j < |d| ==> d[k] <= d[j])
    && (forall j :: 0 <= j < k ==> d[k] < d[j])
  }

  lemma {:induction false} ArgMinIsFirstMin(d: seq<real>)
    requires |d| > 0
    ensures IsFirstMin(d, ArgMin(d))
    decreases |d|
  {
    if |d| > 1 {
      var p := d[..|d| - 1];
      ArgMinIsFirstMin(p);
      assert forall j :: 0 <= j < |p| ==> p[j] == d[j];
    }
  }

  /** The first minimum is unique, so IsFirstMin pins down ArgMin. */
  lemma FirstMinUnique(d: seq<real>, k: nat, k': nat)
    requires IsFirstMin(d, k) && IsFirstMin(d, k')
    ensures k == k'
  {
    assert d[k] <= d[k'] && d[k'] <= d[k];
  }
}
