/** runner.py resolve_order as the runner executes it: a nested `visit` that
    updates the closure's `visited` set and `order` list, driven by a loop
    over the selection. The closure becomes an object whose methods update its
    fields; each method is proved to do what the functions of module Ordering
    describe. */
module Resolver {
  import opened Registry
  import opened Ordering

  /** The closure of one resolve_order call. */
  class Walker {
    const table: Table
    const selected: seq<string>
    var visited: set<string>
    var order: seq<string>

    constructor (table: Table, selected: seq<string>)
      ensures this.table == table && this.selected == selected
      ensures visited == {} && order == []
    {
      this.table := table;
      this.selected := selected;
      visited := {};
      order := [];
    }

    /** visit(step). `raised` is the id of the KeyError the call raises, if any;
        after a KeyError the closure is abandoned, so its state is left
        unspecified. */
    method Visit(step: string) returns (raised: Option<string>)
      requires DepsDeclaredEarlier(table)
      modifies this
      decreases Rank(table, step)
      ensures match Ordering.Visit(table, selected, old(Walk(visited, order)), step)
        case Ok(w) => raised == None && visited == w.visited && order == w.order
        case KeyError(e) => raised == Some(e)
    {
      if step in visited || step !in selected {
        return None;
      }
      var found := IndexOf(table, step);
      if found.None? {
        return Some(step);
      }
      var k := found.value;
      var deps := table[k].depends;
      ghost var start := Walk(visited, order);
      var i := 0;
      while i < |deps|
        invariant 0 <= i <= |deps|
        invariant VisitDeps(table, selected, start, k, 0) == VisitDeps(table, selected, Walk(visited, order), k, i)
      {
        DependencyRank(table, k, deps[i]);
        raised := Visit(deps[i]);
        if raised.Some? {
          return;
        }
        i := i + 1;
      }
      visited := visited + {step};
      order := order + [step];
      raised := None;
    }
  }

  /** resolve_order(selected_steps): the dependency-respecting order of the
      selection, or the KeyError it raises on an id the registry lacks. */
  method ResolveOrder(table: Table, selected: seq<string>) returns (r: Result<seq<string>>)
    requires DepsDeclaredEarlier(table)
    ensures r == Resolve(table, selected)
    ensures r.Ok? <==> forall s :: s in selected ==> Known(table, s)
    ensures r.Ok? ==> NoDup(r.value) && (forall s :: s in r.value <==> s in selected)
    ensures r.Ok? ==> DepsFirst(table, selected, r.value)
  {
    ResolveSound(table, selected);
    var walker := new Walker(table, selected);
    var i := 0;
    while i < |selected|
      invariant 0 <= i <= |selected|
      invariant walker.table == table && walker.selected == selected
      invariant ResolveFrom(table, selected, Walk({}, []), 0) == ResolveFrom(table, selected, Walk(walker.visited, walker.order), i)
    {
      var raised := walker.Visit(selected[i]);
      if raised.Some? {
        return KeyError(raised.value);
      }
      i := i + 1;
    }
    r := Ok(walker.order);
  }
}
