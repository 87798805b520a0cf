/**
 * The older disk-usage collector: the same walk as the tree reader, keeping
 * only the sum of the file lengths, and the same resolve-once job.
 */
module DiskUsage {
  import opened Common
  import Config
  import Jobs
  import TreeReader

  type Tree = TreeReader.Tree

  /** `compute_disk_usage`: `None` unless `t` is a readable directory on the device of `parentDev`. */
  function ComputeDiskUsage(t: Tree, parentDev: Option<nat>, check: TreeReader.DeviceCheck): (r: Option<nat>)
    ensures r.Some? <==> t.Dir? && parentDev == Some(t.dev) && t.readable
    decreases t, 2
  {
    match t
    case Leaf(_, _) => None
    case Dir(dev, readable, _) =>
      if parentDev != Some(dev) then None
      else if !readable then None
      else Some(SumFrom(t, 0, check))
  }

  /** The `sum` of what the children of `t` from index `i` on give, the `None`s counting for nothing. */
  function SumFrom(t: Tree, i: nat, check: TreeReader.DeviceCheck): nat
    requires t.Dir? && i <= |t.children|
    decreases t, 1, |t.children| - i
  {
    if i == |t.children| then 0 else ChildUsage(t, i, check) + SumFrom(t, i + 1, check)
  }

  function ChildUsage(t: Tree, i: nat, check: TreeReader.DeviceCheck): nat
    requires t.Dir? && i < |t.children|
    decreases t, 0
  {
    match t.children[i]
    case Skipped => 0
    case Present(Leaf(len, _)) => len
    case Present(n) => ComputeDiskUsage(n, Some(TreeReader.ParentDeviceFor(t, n, check)), check).GetOr(0)
  }

  /**
   * The sum is the reference: the lengths of the non-directory entries the
   * walk reaches, which is also the size part of the tree reader's result.
   */
  lemma {:induction false} ComputeDiskUsageTotals(t: Tree, parentDev: Option<nat>, check: TreeReader.DeviceCheck)
    ensures ComputeDiskUsage(t, parentDev, check) ==
      if t.Dir? && parentDev == Some(t.dev) && t.readable
      then Some(TreeReader.SumUsage(TreeReader.LeavesFrom(t, 0, check))) else None
    ensures ComputeDiskUsage(t, parentDev, check).Some? ==>
      ComputeDiskUsage(t, parentDev, check).value == TreeReader.ReadPath(t, parentDev, check).value.diskUsage
    decreases t, 2
  {
    TreeReader.ReadPathTotals(t, parentDev, check);
    if t.Dir? && parentDev == Some(t.dev) && t.readable {
      SumFromTotals(t, 0, check);
    }
  }

  lemma {:induction false} SumFromTotals(t: Tree, i: nat, check: TreeReader.DeviceCheck)
    requires t.Dir? && i <= |t.children|
    ensures SumFrom(t, i, check) == TreeReader.SumUsage(TreeReader.LeavesFrom(t, i, check))
    decreases t, 1, |t.children| - i
  {
    if i < |t.children| {
      SumFromTotals(t, i + 1, check);
      ChildUsageTotals(t, i, check);
      SumUsageConcat(TreeReader.ChildLeaves(t, i, check), TreeReader.LeavesFrom(t, i + 1, check));
    }
  }

  /** What one child adds is the size of the entries the walk reaches through it. */
  lemma {:induction false} ChildUsageTotals(t: Tree, i: nat, check: TreeReader.DeviceCheck)
    requires t.Dir? && i < |t.children|
    ensures ChildUsage(t, i, check) == TreeReader.SumUsage(TreeReader.ChildLeaves(t, i, check))
    decreases t, 0
  {
    match t.children[i]
    case Skipped =>
    case Present(n) =>
      if n.Leaf? {
        var leaf := TreeReader.TreeInfo(n.len, n.mtime);
        assert TreeReader.ChildLeaves(t, i, check) == [leaf];
        assert [leaf][1..] == [];
      } else {
        ComputeDiskUsageTotals(n, Some(TreeReader.ParentDeviceFor(t, n, check)), check);
      }
  }

  lemma {:induction false} SumUsageConcat(a: seq<TreeReader.TreeInfo>, b: seq<TreeReader.TreeInfo>)
    ensures TreeReader.SumUsage(a + b) == TreeReader.SumUsage(a) + TreeReader.SumUsage(b)
  {
    if a != [] {
      assert (a + b)[1..] == a[1..] + b;
      SumUsageConcat(a[1..], b);
    } else {
      assert a + b == b;
    }
  }

  /** An empty readable directory uses 0 bytes; an unreadable one, or one on another device, gives `None`. */
  lemma EmptyOrUnreadable(dev: nat, parentDev: nat, children: seq<TreeReader.Child>, check: TreeReader.DeviceCheck)
    ensures ComputeDiskUsage(TreeReader.Dir(dev, true, []), Some(dev), check) == Some(0)
    ensures ComputeDiskUsage(TreeReader.Dir(dev, false, children), Some(parentDev), check).None?
    ensures dev != parentDev ==> ComputeDiskUsage(TreeReader.Dir(dev, true, children), Some(parentDev), check).None?
  {
  }

  /** The nested mount point of the tree reader's example is counted here too, as written. */
  lemma NestedMountCounted()
    ensures
      var t := TreeReader.Dir(1, true, [TreeReader.Present(TreeReader.Dir(2, true, [TreeReader.Present(TreeReader.Leaf(5, 7))]))]);
      && ComputeDiskUsage(t, Some(1), TreeReader.AgainstOwn) == Some(5)
      && ComputeDiskUsage(t, Some(1), TreeReader.AgainstParent) == Some(0)
  {
    var t := TreeReader.Dir(1, true, [TreeReader.Present(TreeReader.Dir(2, true, [TreeReader.Present(TreeReader.Leaf(5, 7))]))]);
    TreeReader.NestedMountCounted();
    ComputeDiskUsageTotals(t, Some(1), TreeReader.AgainstOwn);
    ComputeDiskUsageTotals(t, Some(1), TreeReader.AgainstParent);
  }

  /**
   * With the corrected check, a subdirectory on another device adds nothing
   * to the sum, so a directory's usage is what its own device holds.
   */
  lemma OtherDeviceIgnored(t: Tree, i: nat)
    requires t.Dir? && i < |t.children| && t.children[i].Present? && t.children[i].node.Dir?
    requires t.children[i].node.dev != t.dev
    ensures ChildUsage(t, i, TreeReader.AgainstParent) == 0
    ensures SumFrom(t, i, TreeReader.AgainstParent) == SumFrom(t, i + 1, TreeReader.AgainstParent)
  {
  }

  /** `DiskUsageCollector`: the deadline every job of this collector shares. */
  datatype Collector = Collector(deadline: Option<Config.Nanos>)

  /** `DiskUsageCollector::new`, with `now` for the clock. */
  function New(config: Config.Root, now: Config.Nanos): (r: Option<Collector>)
    ensures r.None? <==> !config.collector.diskUsage
    ensures r.Some? ==> (r.value.deadline.None? <==> config.collector.timeout.None?)
    ensures r.Some? && r.value.deadline.Some? ==> r.value.deadline.value == now + config.collector.timeout.value
  {
    if !config.collector.diskUsage then None
    else
      var timeout := config.collector.timeout;
      Some(Collector(if timeout.Some? then Some(now + timeout.value) else None))
  }

  /**
   * `DiskUsage`: the result of one background computation. `sent` is what
   * the worker thread sends: `compute_disk_usage` of the job's path, checked
   * against the device of the path's parent.
   */
  class DiskUsageJob {
    const sent: Option<nat>
    var state: Jobs.JobState<nat>

    /** The cache never holds anything but the worker's result. */
    predicate Valid()
      reads this
    {
      Jobs.Caches(state, sent)
    }

    /** `disk_usage`: a job of `collector` starts working on `tree`, with the collector's deadline. */
    constructor(collector: Collector, tree: Tree, parentDev: Option<nat>, check: TreeReader.DeviceCheck)
      ensures sent == ComputeDiskUsage(tree, parentDev, check)
      ensures state == Jobs.Working(collector.deadline)
      ensures Valid()
    {
      sent := ComputeDiskUsage(tree, parentDev, check);
      state := Jobs.Working(collector.deadline);
    }

    /**
     * `DiskUsage::get`, with `outcome` for what a receive would give if it
     * happens: the value is either missing or the sum `compute_disk_usage`
     * computes.
     */
    method Get(outcome: Jobs.Outcome<nat>) returns (r: Option<nat>)
      requires Valid() && Jobs.Possible(state, outcome) && Jobs.Delivers(outcome, sent)
      modifies this
      ensures Valid()
      ensures (state, r) == Jobs.Resolve(old(state), outcome)
      ensures old(state).Done? ==> r == old(state).result && state == old(state)
      ensures r.Some? ==> r == sent
    {
      Jobs.ResolveDelivers(state, outcome, sent);
      match state
      case Done(n) =>
        r := n;
      case Working(_) =>
        r := Jobs.Flattened(outcome);
        state := Jobs.Done(r);
    }
  }
}
