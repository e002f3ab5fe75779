/** The step registry: a fixed, ordered table of setup steps, each with a
    description, the ids of the steps it depends on and the script that
    implements its query/enable/disable actions (runner.py STEPS). The table is
    a parameter of every operation; `Steps` is the table the runner ships. */
module Registry {

  datatype Option<T> = None | Some(value: T)

  /** The outcome of an operation that looks step ids up in the table: looking
      up an id the table does not hold raises KeyError in the runner. */
  datatype Result<T> = Ok(value: T) | KeyError(key: string)

  datatype StepDef = StepDef(id: string, desc: string, depends: seq<string>, script: string)

  /** The registry dictionary, in declaration (insertion) order. */
  type Table = seq<StepDef>

  /** The position of the entry for `id`: the dictionary lookup `STEPS[id]`. */
  function IndexOf(t: Table, id: string): (r: Option<nat>)
    ensures r.Some? ==> r.value < |t| && t[r.value].id == id
    ensures r.Some? ==> forall j :: 0 <= j < r.value ==> t[j].id != id
    ensures r.None? ==> forall j :: 0 <= j < |t| ==> t[j].id != id
  {
    if t == [] then None
    else match IndexOf(t[..|t| - 1], id)
      case Some(j) => Some(j)
      case None => if t[|t| - 1].id == id then Some(|t| - 1) else None
  }

  predicate Known(t: Table, id: string) {
    IndexOf(t, id).Some?
  }

  /** The declared dependencies of `id`; an unknown id has none. */
  function Deps(t: Table, id: string): seq<string> {
    match IndexOf(t, id)
    case Some(k) => t[k].depends
    case None => []
  }

  function ScriptOf(t: Table, id: string): string
    requires Known(t, id)
  {
    t[IndexOf(t, id).value].script
  }

  /** Position plus one for a known id, 0 for an unknown one: the measure that
      makes the depth-first walk over dependencies terminate. */
  function Rank(t: Table, id: string): nat {
    match IndexOf(t, id)
    case Some(k) => k + 1
    case None => 0
  }

  /** The step ids in declaration order: iterating over the dictionary. */
  function Ids(t: Table): seq<string> {
    seq(|t|, i requires 0 <= i < |t| => t[i].id)
  }

  /** A dictionary holds each key once. */
  ghost predicate UniqueIds(t: Table) {
    forall i, j :: 0 <= i < j < |t| ==> t[i].id != t[j].id
  }

  /** Every dependency names a step declared earlier in the table; this rules
      out dependency cycles, which the runner does not detect. */
  ghost predicate DepsDeclaredEarlier(t: Table) {
    forall k, d :: 0 <= k < |t| && d in t[k].depends ==> exists j :: 0 <= j < k && t[j].id == d
  }

  ghost predicate WellFormed(t: Table) {
    UniqueIds(t) && DepsDeclaredEarlier(t)
  }

  /** A dependency of the k-th step is known and ranks below that step. */
  lemma DependencyRank(t: Table, k: nat, d: string)
    requires DepsDeclaredEarlier(t)
    requires k < |t| && d in t[k].depends
    ensures Known(t, d) && Rank(t, d) <= k
  {
    var j :| 0 <= j < k && t[j].id == d;
    assert IndexOf(t, d).Some?;
  }

  /** With unique ids, looking up the id of the k-th entry finds that entry. */
  lemma LookupEntry(t: Table, k: nat)
    requires UniqueIds(t) && k < |t|
    ensures IndexOf(t, t[k].id) == Some(k)
    ensures Deps(t, t[k].id) == t[k].depends && ScriptOf(t, t[k].id) == t[k].script
  {
  }

  /** The registry the runner ships with (runner.py STEPS). */
  const Steps: Table := [
    StepDef("proxmox_post_install", "Proxmox post-install", [], "runner-steps/proxmox_post_install.sh"),
    StepDef("docker_vm", "Install Docker VM", [], "runner-steps/docker_vm.sh"),
    StepDef("set_swappiness", "Set vm.swappiness", [], "runner-steps/set_swappiness.sh"),
    StepDef("iommu", "Enable IOMMU in GRUB", [], "runner-steps/iommu.sh"),
    StepDef("vfio_modules", "Load VFIO kernel modules", ["iommu"], "runner-steps/vfio_modules.sh"),
    StepDef("pci_passthrough", "PCI passthrough setup", ["iommu", "vfio_modules"], "runner-steps/pci_passthrough.sh")
  ]

  /** The shipped registry has distinct ids and only backward dependencies. */
  lemma StepsWellFormed()
    ensures WellFormed(Steps)
  {
    forall k, d | 0 <= k < |Steps| && d in Steps[k].depends
      ensures exists j :: 0 <= j < k && Steps[j].id == d
    {
      if d == "iommu" {
        assert Steps[3].id == d;
      } else {
        assert Steps[4].id == d;
      }
    }
  }
}
