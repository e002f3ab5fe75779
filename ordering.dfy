/** The dependency resolver as functions: the depth-first walk of runner.py
    resolve_order, written over an explicit walk state, and what it
    guarantees. The imperative walker in module Resolver is proved equal to
    `Resolve`. */
module Ordering {
  import opened Registry

  /** The walk's state: the closure variables `visited` and `order`. */
  datatype Walk = Walk(visited: set<string>, order: seq<string>)

  /** visit(step): a step already visited or not selected is skipped;
      otherwise its dependencies are visited in declaration order, then it is
      marked visited and appended. Visiting a selected unknown id raises
      KeyError. */
  function Visit(t: Table, sel: seq<string>, w: Walk, step: string): Result<Walk>
    requires DepsDeclaredEarlier(t)
    decreases Rank(t, step), 1, 0
  {
    if step in w.visited || step !in sel then Ok(w)
    else match IndexOf(t, step)
      case None => KeyError(step)
      case Some(k) =>
        match VisitDeps(t, sel, w, k, 0)
        case KeyError(e) => KeyError(e)
        case Ok(w') => Ok(Walk(w'.visited + {step}, w'.order + [step]))
  }

  /** The loop over the k-th step's dependencies, from the i-th on. */
  function VisitDeps(t: Table, sel: seq<string>, w: Walk, k: nat, i: nat): Result<Walk>
    requires DepsDeclaredEarlier(t)
    requires k < |t| && i <= |t[k].depends|
    decreases k + 1, 0, |t[k].depends| - i
  {
    if i == |t[k].depends| then Ok(w)
    else
      DependencyRank(t, k, t[k].depends[i]);
      match Visit(t, sel, w, t[k].depends[i])
      case KeyError(e) => KeyError(e)
      case Ok(w') => VisitDeps(t, sel, w', k, i + 1)
  }

  /** The outer loop over the selection, from the i-th entry on. */
  function ResolveFrom(t: Table, sel: seq<string>, w: Walk, i: nat): Result<Walk>
    requires DepsDeclaredEarlier(t)
    requires i <= |sel|
    decreases |sel| - i
  {
    if i == |sel| then Ok(w)
    else match Visit(t, sel, w, sel[i])
      case KeyError(e) => KeyError(e)
      case Ok(w') => ResolveFrom(t, sel, w', i + 1)
  }

  /** resolve_order(selected_steps). */
  function Resolve(t: Table, sel: seq<string>): Result<seq<string>>
    requires DepsDeclaredEarlier(t)
  {
    match ResolveFrom(t, sel, Walk({}, []), 0)
    case KeyError(e) => KeyError(e)
    case Ok(w) => Ok(w.order)
  }

  function Elems(s: seq<string>): set<string> {
    set x | x in s
  }

  predicate NoDup(s: seq<string>) {
    forall i, j :: 0 <= i < j < |s| ==> s[i] != s[j]
  }

  /** Every selected dependency of an entry of `s` stands earlier in `s`. */
  ghost predicate DepsFirst(t: Table, sel: seq<string>, s: seq<string>) {
    forall i, d :: 0 <= i < |s| && d in Deps(t, s[i]) && d in sel ==> d in s[..i]
  }

  /** `a` stands strictly before `b` in `s`. */
  ghost predicate Before(s: seq<string>, a: string, b: string) {
    exists i, j :: 0 <= i < j < |s| && s[i] == a && s[j] == b
  }

  /** What holds of the walk state between visits. */
  ghost predicate Sound(t: Table, sel: seq<string>, w: Walk) {
    && (forall x :: x in w.visited <==> x in w.order)
    && NoDup(w.order)
    && (forall x :: x in w.order ==> x in sel && Known(t, x))
    && DepsFirst(t, sel, w.order)
  }

  lemma {:induction false} VisitSound(t: Table, sel: seq<string>, w: Walk, step: string)
    requires DepsDeclaredEarlier(t) && Sound(t, sel, w)
    ensures match Visit(t, sel, w, step)
      case Ok(w') =>
        && Sound(t, sel, w') && w.order <= w'.order
        && (step in sel ==> step in w'.visited)
        && (forall x :: x in w'.visited && x !in w.visited ==> Rank(t, x) <= Rank(t, step))
      case KeyError(e) => e in sel && !Known(t, e)
    decreases Rank(t, step), 1, 0
  {
    if step in w.visited || step !in sel {
    } else {
      match IndexOf(t, step)
      case None =>
      case Some(k) =>
        VisitDepsSound(t, sel, w, k, 0);
        match VisitDeps(t, sel, w, k, 0)
        case KeyError(e) =>
        case Ok(w1) =>
          assert step !in w1.visited;
          var w2 := Walk(w1.visited + {step}, w1.order + [step]);
          assert Deps(t, step) == t[k].depends;
          assert t[k].depends[0..] == t[k].depends;
          forall i, d | 0 <= i < |w2.order| && d in Deps(t, w2.order[i]) && d in sel
            ensures d in w2.order[..i]
          {
            if i < |w1.order| {
              assert w2.order[..i] == w1.order[..i];
            } else {
              assert w2.order[..i] == w1.order;
            }
          }
          assert Visit(t, sel, w, step) == Ok(w2);
    }
  }

  lemma {:induction false} VisitDepsSound(t: Table, sel: seq<string>, w: Walk, k: nat, i: nat)
    requires DepsDeclaredEarlier(t) && Sound(t, sel, w)
    requires k < |t| && i <= |t[k].depends|
    ensures match VisitDeps(t, sel, w, k, i)
      case Ok(w') =>
        && Sound(t, sel, w') && w.order <= w'.order
        && (forall d :: d in t[k].depends[i..] && d in sel ==> d in w'.visited)
        && (forall x :: x in w'.visited && x !in w.visited ==> Rank(t, x) <= k)
      case KeyError(e) => e in sel && !Known(t, e)
    decreases k + 1, 0, |t[k].depends| - i
  {
    var deps := t[k].depends;
    if i < |deps| {
      DependencyRank(t, k, deps[i]);
      VisitSound(t, sel, w, deps[i]);
      match Visit(t, sel, w, deps[i])
      case KeyError(e) =>
      case Ok(w1) =>
        VisitDepsSound(t, sel, w1, k, i + 1);
        assert deps[i..] == [deps[i]] + deps[i + 1..];
    }
  }

  lemma {:induction false} ResolveFromSound(t: Table, sel: seq<string>, w: Walk, i: nat)
    requires DepsDeclaredEarlier(t) && Sound(t, sel, w)
    requires i <= |sel| && forall x :: x in sel[..i] ==> x in w.visited
    ensures match ResolveFrom(t, sel, w, i)
      case Ok(w') => Sound(t, sel, w') && forall x :: x in sel ==> x in w'.visited
      case KeyError(e) => e in sel && !Known(t, e)
    ensures (exists j :: i <= j < |sel| && !Known(t, sel[j])) ==> ResolveFrom(t, sel, w, i).KeyError?
    decreases |sel| - i
  {
    if i == |sel| {
      assert sel[..i] == sel;
    } else {
      VisitSound(t, sel, w, sel[i]);
      match Visit(t, sel, w, sel[i])
      case KeyError(e) =>
      case Ok(w1) =>
        assert sel[..i + 1] == sel[..i] + [sel[i]];
        ResolveFromSound(t, sel, w1, i + 1);
        if exists j :: i <= j < |sel| && !Known(t, sel[j]) {
          var j :| i <= j < |sel| && !Known(t, sel[j]);
          assert j != i;
        }
    }
  }

  /** The properties of the resolver's result, gathered once: it raises
      KeyError exactly when the selection holds an id the registry does not
      know, and then it names such an id; otherwise the order is
      duplicate-free, holds exactly the selection and lists dependencies
      first. */
  lemma ResolveSound(t: Table, sel: seq<string>)
    requires DepsDeclaredEarlier(t)
    ensures Resolve(t, sel).KeyError? ==> Resolve(t, sel).key in sel && !Known(t, Resolve(t, sel).key)
    ensures Resolve(t, sel).Ok? <==> forall x :: x in sel ==> Known(t, x)
    ensures Resolve(t, sel).Ok? ==>
      var r := Resolve(t, sel).value;
      NoDup(r) && (forall x :: x in r <==> x in sel) && DepsFirst(t, sel, r)
  {
    ResolveFromSound(t, sel, Walk({}, []), 0);
    if !forall x :: x in sel ==> Known(t, x) {
      var x :| x in sel && !Known(t, x);
      var j :| 0 <= j < |sel| && sel[j] == x;
    }
  }

  /** Every selected id appears in the order exactly once, and nothing else:
      duplicates in the selection collapse and unselected dependencies are
      never pulled in. */
  lemma ResolveExactlyOnce(t: Table, sel: seq<string>)
    requires DepsDeclaredEarlier(t)
    requires Resolve(t, sel).Ok?
    ensures NoDup(Resolve(t, sel).value)
    ensures forall x :: x in Resolve(t, sel).value <==> x in sel
  {
    ResolveSound(t, sel);
  }

  /** A selected dependency of a selected step comes strictly before it. */
  lemma DependencyPrecedes(t: Table, sel: seq<string>, s: string, d: string)
    requires DepsDeclaredEarlier(t)
    requires Resolve(t, sel).Ok?
    requires s in sel && d in sel && d in Deps(t, s)
    ensures Before(Resolve(t, sel).value, d, s)
  {
    ResolveSound(t, sel);
    var r := Resolve(t, sel).value;
    var j :| 0 <= j < |r| && r[j] == s;
    assert d in r[..j];
    var i :| 0 <= i < j && r[..j][i] == d;
    assert r[i] == d;
  }

  /** Visiting dependencies that are all visited or unselected changes nothing. */
  lemma {:induction false} VisitDepsSkipsDone(t: Table, sel: seq<string>, w: Walk, k: nat, i: nat)
    requires DepsDeclaredEarlier(t)
    requires k < |t| && i <= |t[k].depends|
    requires forall d :: d in t[k].depends[i..] && d in sel ==> d in w.visited
    ensures VisitDeps(t, sel, w, k, i) == Ok(w)
    decreases |t[k].depends| - i
  {
    var deps := t[k].depends;
    if i < |deps| {
      assert deps[i..] == [deps[i]] + deps[i + 1..];
      assert Visit(t, sel, w, deps[i]) == Ok(w);
      VisitDepsSkipsDone(t, sel, w, k, i + 1);
    }
  }

  lemma {:induction false} OrderedFrom(t: Table, sel: seq<string>, i: nat)
    requires DepsDeclaredEarlier(t)
    requires forall x :: x in sel ==> Known(t, x)
    requires NoDup(sel) && DepsFirst(t, sel, sel)
    requires i <= |sel|
    ensures ResolveFrom(t, sel, Walk(Elems(sel[..i]), sel[..i]), i) == Ok(Walk(Elems(sel), sel))
    decreases |sel| - i
  {
    if i == |sel| {
      assert sel[..i] == sel;
    } else {
      var w := Walk(Elems(sel[..i]), sel[..i]);
      var s := sel[i];
      assert s !in w.visited;
      assert Known(t, s);
      var k := IndexOf(t, s).value;
      assert Deps(t, s) == t[k].depends;
      assert t[k].depends[0..] == t[k].depends;
      VisitDepsSkipsDone(t, sel, w, k, 0);
      assert sel[..i + 1] == sel[..i] + [s];
      assert Elems(sel[..i + 1]) == w.visited + {s};
      assert Visit(t, sel, w, s) == Ok(Walk(Elems(sel[..i + 1]), sel[..i + 1]));
      OrderedFrom(t, sel, i + 1);
    }
  }

  /** A selection that already lists each selected dependency before its
      dependant, without repeats, is returned unchanged. */
  lemma OrderedSelectionUnchanged(t: Table, sel: seq<string>)
    requires DepsDeclaredEarlier(t)
    requires forall x :: x in sel ==> Known(t, x)
    requires NoDup(sel) && DepsFirst(t, sel, sel)
    ensures Resolve(t, sel) == Ok(sel)
  {
    OrderedFrom(t, sel, 0);
    assert sel[..0] == [];
    assert Elems([]) == {};
  }

  /** Resolving every step of a well-formed registry in declaration order
      returns declaration order: this is the plan the runner executes. */
  lemma DeclarationOrderIsResolved(t: Table)
    requires WellFormed(t)
    ensures Resolve(t, Ids(t)) == Ok(Ids(t))
  {
    var ids := Ids(t);
    forall x | x in ids ensures Known(t, x) {
      var i :| 0 <= i < |ids| && ids[i] == x;
    }
    forall i, d | 0 <= i < |ids| && d in Deps(t, ids[i]) && d in ids
      ensures d in ids[..i]
    {
      LookupEntry(t, i);
      var j :| 0 <= j < i && t[j].id == d;
      assert ids[..i][j] == d;
    }
    OrderedSelectionUnchanged(t, ids);
  }

  /** An empty selection resolves to an empty order. */
  lemma ResolveEmpty(t: Table)
    requires DepsDeclaredEarlier(t)
    ensures Resolve(t, []) == Ok([])
  {
  }

  /** On the shipped registry, resolving every step in declaration order runs
      them in declaration order. */
  lemma ShippedFullPlan()
    ensures DepsDeclaredEarlier(Steps)
    ensures Resolve(Steps, Ids(Steps)) == Ok(["proxmox_post_install", "docker_vm", "set_swappiness", "iommu", "vfio_modules", "pci_passthrough"])
  {
    StepsWellFormed();
    DeclarationOrderIsResolved(Steps);
    assert Ids(Steps) == ["proxmox_post_install", "docker_vm", "set_swappiness", "iommu", "vfio_modules", "pci_passthrough"];
  }

  /** vfio_modules selected without its dependency iommu resolves to itself
      alone: the unselected dependency is not pulled in. */
  lemma ShippedVfioAlone()
    ensures DepsDeclaredEarlier(Steps)
    ensures Resolve(Steps, ["vfio_modules"]) == Ok(["vfio_modules"])
  {
    StepsWellFormed();
    LookupEntry(Steps, 4);
    OrderedSelectionUnchanged(Steps, ["vfio_modules"]);
  }

  /** A step selected twice is run once. */
  lemma ShippedDuplicateCollapses()
    ensures DepsDeclaredEarlier(Steps)
    ensures Resolve(Steps, ["iommu", "iommu"]) == Ok(["iommu"])
  {
    StepsWellFormed();
    LookupEntry(Steps, 3);
    ResolveSound(Steps, ["iommu", "iommu"]);
    var r := Resolve(Steps, ["iommu", "iommu"]).value;
    assert r[0] == "iommu";
    assert |r| == 1;
    assert r == ["iommu"];
  }

  /** A selected dependency ranks below the step that declares it. */
  lemma DependsRanksLower(t: Table, s: string, d: string)
    requires DepsDeclaredEarlier(t)
    requires d in Deps(t, s)
    ensures Known(t, s) && Known(t, d) && Rank(t, d) < Rank(t, s)
  {
    DependencyRank(t, IndexOf(t, s).value, d);
  }

  /** Three steps that form a dependency chain a <- b <- c resolve to
      [a, b, c] whatever order, and however often, they are selected in. */
  lemma ChainResolvesInOrder(t: Table, sel: seq<string>, a: string, b: string, c: string)
    requires DepsDeclaredEarlier(t)
    requires a in Deps(t, b) && b in Deps(t, c)
    requires forall x :: x in sel <==> x == a || x == b || x == c
    ensures Resolve(t, sel) == Ok([a, b, c])
  {
    DependsRanksLower(t, b, a);
    DependsRanksLower(t, c, b);
    ResolveSound(t, sel);
    ResolveExactlyOnce(t, sel);
    var r := Resolve(t, sel).value;
    DependencyPrecedes(t, sel, b, a);
    DependencyPrecedes(t, sel, c, b);
    var i, j :| 0 <= i < j < |r| && r[i] == a && r[j] == b;
    var j', k :| 0 <= j' < k < |r| && r[j'] == b && r[k] == c;
    assert j' == j;
    assert r[0] in sel && r[|r| - 1] in sel;
    assert i == 0 && k == |r| - 1;
    assert r[1] in sel && r[2] in sel;
    assert j == 1 && k == 2;
    assert r == [a, b, c];
  }

  /** The passthrough chain selected in reverse resolves to iommu, then
      vfio_modules, then pci_passthrough. */
  lemma ShippedPassthroughChain()
    ensures DepsDeclaredEarlier(Steps)
    ensures Resolve(Steps, ["pci_passthrough", "iommu", "vfio_modules"]) == Ok(["iommu", "vfio_modules", "pci_passthrough"])
  {
    StepsWellFormed();
    LookupEntry(Steps, 4);
    LookupEntry(Steps, 5);
    ChainResolvesInOrder(Steps, ["pci_passthrough", "iommu", "vfio_modules"], "iommu", "vfio_modules", "pci_passthrough");
  }
}
