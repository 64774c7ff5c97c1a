/** Small shared vocabulary. */
module Prelude {

  datatype Option<+T> = None | Some(value: T)

  predicate IsLeast(keys: set<nat>, k: nat) { k in keys && forall x <- keys :: k <= x }

  /** The smallest element of a non-empty set, as std::map::begin finds it. */
  function MinKey(keys: set<nat>): (k: nat)
    requires keys != {}
    ensures k in keys && forall x <- keys :: k <= x
  {
    LeastExists(keys);
    var k :| IsLeast(keys, k);
    k
  }

  lemma {:induction false} LeastExists(keys: set<nat>)
    requires keys != {}
    ensures exists k :: IsLeast(keys, k)
  {
    var e :| e in keys;
    var rest := keys - {e};
    assert keys == rest + {e};
    if rest == {} {
      assert IsLeast(keys, e);
    } else {
      LeastExists(rest);
      var k :| IsLeast(rest, k);
      assert IsLeast(keys, if k <= e then k else e);
    }
  }
}
