/**
 * The tree reader: for a directory, the apparent size of everything below it
 * (the sum of file lengths, as `du --apparent-size` counts) and the newest
 * modification time, computed by a background job that the analyzer asks
 * for its result at most once.
 *
 * The directory tree is a value. A `Dir` carries the device id its
 * `metadata()` reports and whether `read_dir` succeeds on it; a child whose
 * directory entry or metadata cannot be read is `Skipped`. Everything that is
 * not a directory is a `Leaf` with the length and modification time of its
 * metadata.
 */
module TreeReader {
  import opened Common
  import Config
  import Jobs

  datatype Tree = Leaf(len: nat, mtime: nat) | Dir(dev: nat, readable: bool, children: seq<Child>)

  datatype Child = Skipped | Present(node: Tree)

  datatype TreeInfo = TreeInfo(diskUsage: nat, mtime: nat)

  /** `TreeInfo::default()`. */
  const Empty: TreeInfo := TreeInfo(0, 0)

  /**
   * Which device a subdirectory is compared with before it is descended.
   * `AgainstOwn` is what the recursive call does: it passes the child's own
   * metadata as the parent's, so the comparison is of the child with itself.
   * `AgainstParent` compares it with the directory it is listed in, which is
   * what the module's promise of `du -x` behaviour needs.
   */
  datatype DeviceCheck = AgainstOwn | AgainstParent

  /** The device a child directory of `parent` is checked against. */
  function ParentDeviceFor(parent: Tree, child: Tree, check: DeviceCheck): (d: nat)
    requires parent.Dir? && child.Dir?
    ensures check == AgainstOwn ==> d == child.dev
    ensures check == AgainstParent ==> d == parent.dev
  {
    if check == AgainstOwn then child.dev else parent.dev
  }

  /** The closure given to `reduce`: sizes add up, the newest time wins. */
  function Merge(a: TreeInfo, b: TreeInfo): TreeInfo {
    TreeInfo(a.diskUsage + b.diskUsage, Max(a.mtime, b.mtime))
  }

  /** `acc` merged, left to right, with every element of `xs`. */
  function FoldFrom(acc: TreeInfo, xs: seq<TreeInfo>): TreeInfo
    decreases |xs|
  {
    if xs == [] then acc else FoldFrom(Merge(acc, xs[0]), xs[1..])
  }

  /** `Iterator::reduce`: nothing for an empty sequence, else the fold from its first element. */
  function Reduce(xs: seq<TreeInfo>): (r: Option<TreeInfo>)
    ensures r.None? <==> xs == []
  {
    if xs == [] then None else Some(FoldFrom(xs[0], xs[1..]))
  }

  /** `read_path`: `None` unless `t` is a readable directory on the device of `parentDev`. */
  function ReadPath(t: Tree, parentDev: Option<nat>, check: DeviceCheck): (r: Option<TreeInfo>)
    ensures r.Some? <==> t.Dir? && parentDev == Some(t.dev) && t.readable
    decreases t, 2
  {
    match t
    case Leaf(_, _) => None
    case Dir(dev, readable, _) =>
      if parentDev != Some(dev) then None
      else if !readable then None
      else Reduce(Collected(t, 0, check)).Or(Some(Empty))
  }

  /**
   * The values the children of `t` from index `i` on give, in listing order,
   * with the `None`s dropped (the two `filter_map`s, the `map` and the
   * `flatten`).
   */
  function Collected(t: Tree, i: nat, check: DeviceCheck): seq<TreeInfo>
    requires t.Dir? && i <= |t.children|
    decreases t, 1, |t.children| - i
  {
    if i == |t.children| then [] else ChildValue(t, i, check) + Collected(t, i + 1, check)
  }

  /** What child `i` of `t` gives: nothing, or one value. */
  function ChildValue(t: Tree, i: nat, check: DeviceCheck): (r: seq<TreeInfo>)
    requires t.Dir? && i < |t.children|
    ensures |r| <= 1
    decreases t, 0
  {
    match t.children[i]
    case Skipped => []
    case Present(Leaf(len, mtime)) => [TreeInfo(len, mtime)]
    case Present(n) =>
      match ReadPath(n, Some(ParentDeviceFor(t, n, check)), check)
      case None => []
      case Some(v) => [v]
  }

  // ---------------------------------------------------------------------
  // The reference: the non-directory entries a walk reaches.

  function SumUsage(xs: seq<TreeInfo>): nat {
    if xs == [] then 0 else xs[0].diskUsage + SumUsage(xs[1..])
  }

  function MaxMtime(xs: seq<TreeInfo>): nat {
    if xs == [] then 0 else Max(xs[0].mtime, MaxMtime(xs[1..]))
  }

  /** The sum of the lengths and the newest time of a set of entries; zero for none. */
  function Totals(xs: seq<TreeInfo>): (r: TreeInfo)
    ensures xs == [] ==> r == Empty
    ensures forall i :: 0 <= i < |xs| ==> xs[i].mtime <= r.mtime
  {
    MaxMtimeBounds(xs);
    TreeInfo(SumUsage(xs), MaxMtime(xs))
  }

  lemma {:induction false} MaxMtimeBounds(xs: seq<TreeInfo>)
    ensures forall i :: 0 <= i < |xs| ==> xs[i].mtime <= MaxMtime(xs)
  {
    if xs != [] {
      MaxMtimeBounds(xs[1..]);
      forall i | 1 <= i < |xs| ensures xs[i].mtime <= MaxMtime(xs) {
        assert xs[i] == xs[1..][i - 1];
      }
    }
  }

  /** Whether the walk enters the subdirectory `child` of `parent`. */
  predicate Descends(parent: Tree, child: Tree, check: DeviceCheck)
    requires parent.Dir? && child.Dir?
  {
    child.readable && (check == AgainstOwn || child.dev == parent.dev)
  }

  /** The non-directory entries reached from the children of `t` from index `i` on. */
  function LeavesFrom(t: Tree, i: nat, check: DeviceCheck): seq<TreeInfo>
    requires t.Dir? && i <= |t.children|
    decreases t, |t.children| - i
  {
    if i == |t.children| then [] else ChildLeaves(t, i, check) + LeavesFrom(t, i + 1, check)
  }

  /** The non-directory entries reached through child `i` of `t`. */
  function ChildLeaves(t: Tree, i: nat, check: DeviceCheck): seq<TreeInfo>
    requires t.Dir? && i < |t.children|
    decreases t, 0
  {
    match t.children[i]
    case Skipped => []
    case Present(Leaf(len, mtime)) => [TreeInfo(len, mtime)]
    case Present(n) => if Descends(t, n, check) then LeavesFrom(n, 0, check) else []
  }

  lemma {:induction false} TotalsConcat(a: seq<TreeInfo>, b: seq<TreeInfo>)
    ensures Totals(a + b) == Merge(Totals(a), Totals(b))
  {
    if a != [] {
      assert (a + b)[1..] == a[1..] + b;
      TotalsConcat(a[1..], b);
    } else {
      assert a + b == b;
    }
  }

  lemma {:induction false} FoldFromTotals(acc: TreeInfo, xs: seq<TreeInfo>)
    ensures FoldFrom(acc, xs) == Merge(acc, Totals(xs))
    decreases |xs|
  {
    if xs != [] {
      FoldFromTotals(Merge(acc, xs[0]), xs[1..]);
    }
  }

  /** `reduce(..).or_else(|| Some(TreeInfo::default()))` always gives the totals. */
  lemma ReduceTotals(xs: seq<TreeInfo>)
    ensures Reduce(xs).Or(Some(Empty)) == Some(Totals(xs))
  {
    if xs != [] {
      FoldFromTotals(xs[0], xs[1..]);
      assert xs == [xs[0]] + xs[1..];
      TotalsConcat([xs[0]], xs[1..]);
    }
  }

  /**
   * The fold computes the reference: for a readable directory on the
   * expected device, the sum of the lengths and the newest modification time
   * of the non-directory entries its walk reaches; `None` otherwise.
   */
  lemma {:induction false} ReadPathTotals(t: Tree, parentDev: Option<nat>, check: DeviceCheck)
    ensures ReadPath(t, parentDev, check) ==
      if t.Dir? && parentDev == Some(t.dev) && t.readable then Some(Totals(LeavesFrom(t, 0, check))) else None
    decreases t, 2
  {
    if t.Dir? && parentDev == Some(t.dev) && t.readable {
      ReduceTotals(Collected(t, 0, check));
      CollectedTotals(t, 0, check);
    }
  }

  lemma {:induction false} CollectedTotals(t: Tree, i: nat, check: DeviceCheck)
    requires t.Dir? && i <= |t.children|
    ensures Totals(Collected(t, i, check)) == Totals(LeavesFrom(t, i, check))
    decreases t, 1, |t.children| - i
  {
    if i < |t.children| {
      CollectedTotals(t, i + 1, check);
      ChildTotals(t, i, check);
      TotalsConcat(ChildValue(t, i, check), Collected(t, i + 1, check));
      TotalsConcat(ChildLeaves(t, i, check), LeavesFrom(t, i + 1, check));
    }
  }

  /** What one child gives is the totals of the entries the walk reaches through it. */
  lemma {:induction false} ChildTotals(t: Tree, i: nat, check: DeviceCheck)
    requires t.Dir? && i < |t.children|
    ensures Totals(ChildValue(t, i, check)) == Totals(ChildLeaves(t, i, check))
    decreases t, 0
  {
    match t.children[i]
    case Skipped =>
    case Present(n) =>
      if n.Dir? {
        ReadPathTotals(n, Some(ParentDeviceFor(t, n, check)), check);
        if Descends(t, n, check) {
          var total := Totals(LeavesFrom(n, 0, check));
          assert ChildValue(t, i, check) == [total];
          assert ChildLeaves(t, i, check) == LeavesFrom(n, 0, check);
          assert [total][1..] == [];
          assert SumUsage([total]) == total.diskUsage && MaxMtime([total]) == total.mtime;
        }
      }
  }

  /**
   * A readable directory whose children give nothing (none listed, or only
   * unreadable ones) gives `Some` zero totals, not `None`.
   */
  lemma EmptyDirectory(dev: nat, children: seq<Child>, check: DeviceCheck)
    requires forall i :: 0 <= i < |children| ==> children[i].Skipped? || (children[i].node.Dir? && !children[i].node.readable)
    ensures ReadPath(Dir(dev, true, children), Some(dev), check) == Some(Empty)
  {
    var t := Dir(dev, true, children);
    forall i | 0 <= i <= |children| ensures Collected(t, i, check) == [] {
      CollectedNone(t, i, check);
    }
  }

  lemma {:induction false} CollectedNone(t: Tree, i: nat, check: DeviceCheck)
    requires t.Dir? && i <= |t.children|
    requires forall j :: 0 <= j < |t.children| ==> t.children[j].Skipped? || (t.children[j].node.Dir? && !t.children[j].node.readable)
    ensures Collected(t, i, check) == []
    decreases |t.children| - i
  {
    if i < |t.children| {
      CollectedNone(t, i + 1, check);
    }
  }

  /**
   * The walk of the code as written enters every readable subdirectory: the
   * device comparison never fails below the top level.
   */
  lemma OwnCheckNeverStops(parent: Tree, child: Tree)
    requires parent.Dir? && child.Dir? && child.readable
    ensures Descends(parent, child, AgainstOwn)
    ensures ReadPath(child, Some(ParentDeviceFor(parent, child, AgainstOwn)), AgainstOwn).Some?
  {
  }

  /**
   * A directory on device 1 holding a mount point of device 2 with a file of
   * 5 bytes in it: the code as written counts the file, the corrected walk
   * stops at the mount point.
   */
  lemma NestedMountCounted()
    ensures
      var t := Dir(1, true, [Present(Dir(2, true, [Present(Leaf(5, 7))]))]);
      && ReadPath(t, Some(1), AgainstOwn) == Some(TreeInfo(5, 7))
      && ReadPath(t, Some(1), AgainstParent) == Some(Empty)
  {
    var m := Dir(2, true, [Present(Leaf(5, 7))]);
    var t := Dir(1, true, [Present(m)]);
    ReadPathTotals(t, Some(1), AgainstOwn);
    ReadPathTotals(t, Some(1), AgainstParent);
    assert LeavesFrom(m, 1, AgainstOwn) == [];
    assert LeavesFrom(m, 0, AgainstOwn) == [TreeInfo(5, 7)];
    assert LeavesFrom(t, 1, AgainstOwn) == [];
    assert LeavesFrom(t, 0, AgainstOwn) == [TreeInfo(5, 7)];
    assert LeavesFrom(t, 1, AgainstParent) == [];
    assert LeavesFrom(t, 0, AgainstParent) == [];
  }

  /** With the corrected check, a subdirectory on another device contributes nothing. */
  lemma OtherDeviceIgnored(t: Tree, i: nat)
    requires t.Dir? && i < |t.children| && t.children[i].Present? && t.children[i].node.Dir?
    requires t.children[i].node.dev != t.dev
    ensures ChildValue(t, i, AgainstParent) == []
  {
  }

  // ---------------------------------------------------------------------
  // The reader and its jobs.

  /** `TreeReader`: the deadline every job of this reader shares. */
  datatype Reader = Reader(deadline: Option<Config.Nanos>)

  /**
   * `TreeReader::new`, with `now` for the clock: no reader when disk usage
   * is disabled; otherwise a deadline `timeout` after now, or none.
   */
  function New(config: Config.Root, now: Config.Nanos): (r: Option<Reader>)
    ensures r.None? <==> !config.collector.diskUsage
    ensures r.Some? ==> (r.value.deadline.None? <==> config.collector.timeout.None?)
    ensures r.Some? && r.value.deadline.Some? ==> r.value.deadline.value == now + config.collector.timeout.value
  {
    if !config.collector.diskUsage then None
    else
      var timeout := config.collector.timeout;
      Some(Reader(if timeout.Some? then Some(now + timeout.value) else None))
  }

  /** The default configuration enables the reader with a 100 ms deadline. */
  lemma DefaultReader(now: Config.Nanos)
    ensures New(Config.DefaultRoot, now) == Some(Reader(Some(now + 100 * Config.NANOS_PER_MILLI)))
  {
  }

  /**
   * `TreeInfoJob`: the result of one background read. `sent` is what the
   * worker thread sends: `read_path` of the job's path, checked against the
   * device of the path's parent (`parentDev`, `None` where that metadata
   * cannot be read).
   */
  class TreeInfoJob {
    const sent: Option<TreeInfo>
    var state: Jobs.JobState<TreeInfo>

    /** The cache never holds anything but the worker's result. */
    predicate Valid()
      reads this
    {
      Jobs.Caches(state, sent)
    }

    /** `read_info`: a job of `reader` starts working on `tree`, with the reader's deadline. */
    constructor(reader: Reader, tree: Tree, parentDev: Option<nat>, check: DeviceCheck)
      ensures sent == ReadPath(tree, parentDev, check)
      ensures state == Jobs.Working(reader.deadline)
      ensures Valid()
    {
      sent := ReadPath(tree, parentDev, check);
      state := Jobs.Working(reader.deadline);
    }

    /**
     * `TreeInfoJob::get`, with `outcome` for what a receive would give if it
     * happens: the value is either missing or the tree's totals as
     * `read_path` computes them.
     */
    method Get(outcome: Jobs.Outcome<TreeInfo>) returns (r: Option<TreeInfo>)
      requires Valid() && Jobs.Possible(state, outcome) && Jobs.Delivers(outcome, sent)
      modifies this
      ensures Valid()
      ensures (state, r) == Jobs.Resolve(old(state), outcome)
      ensures old(state).Done? ==> r == old(state).result && state == old(state)
      ensures r.Some? ==> r == sent
    {
      Jobs.ResolveDelivers(state, outcome, sent);
      match state
      case Done(n) =>
        r := n;
      case Working(_) =>
        r := Jobs.Flattened(outcome);
        state := Jobs.Done(r);
    }
  }
}
