/**
 * The minimum search the adapters run over their session maps: keys in
 * ascending order, a local that starts at 0, and 0 meaning "not set yet".
 */
module MapSearch {

  ghost predicate IsLeast(keys: set<int>, k: int) {
    k in keys && forall other :: other in keys ==> k <= other
  }

  ghost function LeastKey(keys: set<int>): (k: int)
    requires keys != {}
    ensures IsLeast(keys, k)
  {
    LeastKeyExists(keys);
    var k :| IsLeast(keys, k);
    k
  }

  lemma {:induction false} LeastKeyExists(keys: set<int>)
    requires keys != {}
    ensures exists k :: IsLeast(keys, k)
    decreases |keys|
  {
    assert (forall k :: k !in keys) ==> keys == {};
    var x :| x in keys;
    var rest := keys - {x};
    assert forall other :: other in keys ==> other == x || other in rest;
    if rest == {} {
      assert IsLeast(keys, x);
    } else {
      LeastKeyExists(rest);
      var y :| IsLeast(rest, y);
      assert IsLeast(keys, if x <= y then x else y);
    }
  }

  ghost function Smallest(values: map<int, nat>, keys: set<int>, current: nat): (r: nat)
    requires keys <= values.Keys
    ensures r == current || exists k :: k in keys && values[k] == r
    decreases |keys|
  {
    if keys == {} then current
    else
      var k := LeastKey(keys);
      Smallest(values, keys - {k}, if current == 0 || current > values[k] then values[k] else current)
  }

  /** On positive values the search finds the minimum. */
  lemma {:induction false} SmallestIsMinimum(values: map<int, nat>, keys: set<int>, current: nat)
    requires keys <= values.Keys && forall k :: k in keys ==> values[k] > 0
    ensures var r := Smallest(values, keys, current);
            && (forall k :: k in keys ==> 0 < r <= values[k])
            && (current > 0 ==> 0 < r <= current)
    decreases |keys|
  {
    if keys == {} {
    } else {
      var k := LeastKey(keys);
      SmallestIsMinimum(values, keys - {k}, if current == 0 || current > values[k] then values[k] else current);
      assert forall other :: other in keys ==> other == k || other in keys - {k};
    }
  }

  method FindSmallest(values: map<int, nat>, keys: set<int>) returns (smallest: nat)
    requires keys <= values.Keys
    ensures smallest == Smallest(values, keys, 0)
  {
    smallest := 0;
    var rest := keys;
    while rest != {}
      invariant rest <= keys
      invariant Smallest(values, keys, 0) == Smallest(values, rest, smallest)
      decreases |rest|
    {
      assert IsLeast(rest, LeastKey(rest));
      var k :| k in rest && forall other :: other in rest ==> k <= other;
      if smallest == 0 || smallest > values[k] {
        smallest := values[k];
      }
      rest := rest - {k};
    }
  }
}
