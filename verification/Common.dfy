/** What several components share. */
module Common {

  datatype Option<T> = None | Some(value: T)

  /** The next element of an iteration over a set or the keys of a map, in an order
      that neither promises. */
  method AnyOf<T>(s: set<T>) returns (x: T)
    requires s != {}
    ensures x in s
  {
    x :| x in s;
  }

  /** `part` holds what `keep` selects of `all`, each once and in order: the elements at the
      positions `ks`. */
  ghost predicate Filters<T>(all: seq<T>, part: seq<T>, ks: seq<nat>, keep: T -> bool)
  {
    && |ks| == |part|
    && (forall i | 0 <= i < |ks| :: ks[i] < |all| && part[i] == all[ks[i]])
    && (forall i, j | 0 <= i < j < |ks| :: ks[i] < ks[j])
    && (forall k: nat | k < |all| :: k in ks <==> keep(all[k]))
  }

  lemma FiltersNone<T>(keep: T -> bool)
    ensures Filters([], [], [], keep)
  {
  }

  lemma FiltersKeep<T>(all: seq<T>, part: seq<T>, ks: seq<nat>, keep: T -> bool, x: T)
    requires Filters(all, part, ks, keep) && keep(x)
    ensures Filters(all + [x], part + [x], ks + [|all|], keep)
  {
    var all', ks' := all + [x], ks + [|all|];
    forall k: nat | k < |all'| ensures k in ks' <==> keep(all'[k]) {
      assert k < |all| ==> (k in ks <==> keep(all[k]));
    }
  }

  lemma FiltersSkip<T>(all: seq<T>, part: seq<T>, ks: seq<nat>, keep: T -> bool, x: T)
    requires Filters(all, part, ks, keep) && !keep(x)
    ensures Filters(all + [x], part, ks, keep)
  {
    var all' := all + [x];
    forall k: nat | k < |all'| ensures k in ks <==> keep(all'[k]) {
      if k < |all| { assert k in ks <==> keep(all[k]); }
    }
  }
}
