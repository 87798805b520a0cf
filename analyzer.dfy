/**
 * `analyze_path`: one pass over the entries of a directory that counts the
 * configured variables, sums the lengths of the regular files and puts each
 * entry in the first group that takes it; then every group is sorted.
 *
 * The listing of the directory, how the `git` process ended, the file tree
 * under each entry and whether each background job finished in time are
 * inputs.
 */
module Analyzer {
  import opened Common
  import Config
  import Fs
  import GitDiff
  import Jobs
  import Matchers
  import TreeReader
  import Files
  import Sorting

  /**
   * One item of `read_dir`: one whose entry or metadata could not be read,
   * or a readable one with its full path, its file name and its metadata.
   */
  datatype DirEntry = Unreadable | Readable(path: seq<Byte>, name: seq<Byte>, metadata: Fs.Metadata)

  /**
   * What the analysis depends on besides the configuration and the listing:
   * the matchers' environment (whose clock also starts the tree reader), how
   * the `git` process ended and whether its result came in time, the file
   * tree under each path, the device of the listed directory (what every
   * tree-reader job reads as the metadata of its path's parent, `None` when
   * that cannot be read), and whether the job of each path sends its result
   * before the reader's deadline.
   */
  datatype Inputs = Inputs(
    env: Matchers.Env,
    gitRun: GitDiff.GitRun,
    gitInTime: bool,
    treeOf: seq<Byte> -> TreeReader.Tree,
    dirDev: Option<nat>,
    treeInTime: seq<Byte> -> bool)

  /** `Analysis`, without the canonical path. */
  datatype Analysis = Analysis(
    groups: seq<Files.FilesGroup>,
    variables: map<string, nat>,
    changes: Option<GitDiff.Change>,
    diskUsageFiles: nat)

  function DiffStats(inp: Inputs, config: Config.Root): Option<GitDiff.Changes> {
    GitDiff.Collect(config.collector, inp.gitRun, inp.gitInTime)
  }

  /** The change statistics of a file name: its entry in the diff, if any. */
  function GitChanges(diffStats: Option<GitDiff.Changes>, name: seq<Byte>): (r: Option<GitDiff.Change>)
    ensures r.Some? <==> diffStats.Some? && name in diffStats.value
    ensures r.Some? ==> r.value == diffStats.value[name]
  {
    if diffStats.Some? && name in diffStats.value then Some(diffStats.value[name]) else None
  }

  /** What the matchers see of an entry: its file name stands for its path. */
  function EntryOf(inp: Inputs, config: Config.Root, d: DirEntry): Matchers.Entry
    requires d.Readable?
  {
    Matchers.Entry(d.name, d.name, d.metadata, GitChanges(DiffStats(inp, config), d.name))
  }

  /**
   * What the tree-reader job of a directory entry resolves to, for the
   * sorting keys and the disk-usage column: a job is started only for a
   * directory, and only when there is a reader; its receive waits for the
   * worker when there is no deadline, and otherwise gets nothing once the
   * deadline passes. The worker sends `read_path` of the tree under the
   * entry, checked against the listed directory's device, with the
   * recursion's own device check as written.
   */
  function TreeOutcome(inp: Inputs, reader: TreeReader.Reader, d: DirEntry): (o: Jobs.Outcome<TreeReader.TreeInfo>)
    requires d.Readable?
    ensures Jobs.Possible(Jobs.Working(reader.deadline), o)
    ensures Jobs.Delivers(o, TreeReader.ReadPath(inp.treeOf(d.path), inp.dirDev, TreeReader.AgainstOwn))
  {
    if reader.deadline.None? || inp.treeInTime(d.path)
    then Jobs.Received(TreeReader.ReadPath(inp.treeOf(d.path), inp.dirDev, TreeReader.AgainstOwn))
    else Jobs.TimedOut
  }

  /**
   * The tree information of an entry: present only for a readable directory
   * on the listed directory's device whose job finished in time, and then
   * the sum of the lengths and the newest time of the entries its walk
   * reaches.
   */
  function TreeInfoOf(inp: Inputs, config: Config.Root, d: DirEntry): (r: Option<TreeReader.TreeInfo>)
    requires d.Readable?
    ensures r.Some? ==> d.metadata.IsDir() && TreeReader.New(config, inp.env.now).Some?
    ensures r.Some? <==>
      && d.metadata.IsDir() && TreeReader.New(config, inp.env.now).Some?
      && (TreeReader.New(config, inp.env.now).value.deadline.None? || inp.treeInTime(d.path))
      && inp.treeOf(d.path).Dir? && inp.dirDev == Some(inp.treeOf(d.path).dev) && inp.treeOf(d.path).readable
    ensures r.Some? ==> r.value == TreeReader.Totals(TreeReader.LeavesFrom(inp.treeOf(d.path), 0, TreeReader.AgainstOwn))
  {
    var reader := TreeReader.New(config, inp.env.now);
    TreeReader.ReadPathTotals(inp.treeOf(d.path), inp.dirDev, TreeReader.AgainstOwn);
    if reader.Some? && d.metadata.IsDir() then Jobs.Flattened(TreeOutcome(inp, reader.value, d)) else None
  }

  function FileOf(inp: Inputs, config: Config.Root, d: DirEntry): Files.File
    requires d.Readable?
  {
    Files.File(d.name, d.metadata, GitChanges(DiffStats(inp, config), d.name),
      TreeReader.New(config, inp.env.now).Some? && d.metadata.IsDir(), TreeInfoOf(inp, config, d))
  }

  /** A column takes an entry when its exclude list (hidden entries included) fails and its matchers succeed. */
  predicate Accepts(env: Matchers.Env, e: Matchers.Entry, c: Config.Column) {
    !Matchers.Matches(env, e, true, c.exclude) && Matchers.Matches(env, e, c.includeHidden, c.matchers)
  }

  /** The group an entry goes to: the first column from `from` on that takes it. */
  function GroupOf(env: Matchers.Env, e: Matchers.Entry, columns: seq<Config.Column>, from: nat): (r: Option<nat>)
    requires from <= |columns|
    ensures r.Some? ==> from <= r.value < |columns| && Accepts(env, e, columns[r.value])
    ensures r.Some? ==> forall j :: from <= j < r.value ==> !Accepts(env, e, columns[j])
    ensures r.None? ==> forall j :: from <= j < |columns| ==> !Accepts(env, e, columns[j])
    decreases |columns| - from
  {
    if from == |columns| then None
    else if Accepts(env, e, columns[from]) then Some(from)
    else GroupOf(env, e, columns, from + 1)
  }

  /**
   * The default configuration's two columns: a directory that is not hidden
   * goes to the first group, and every other entry, hidden or not, to the
   * second; no entry is left out.
   */
  lemma DefaultGroups(env: Matchers.Env, e: Matchers.Entry)
    ensures GroupOf(env, e, Config.DefaultRoot.columns, 0)
         == if e.metadata.IsDir() && !Matchers.IsHiddenFile(e.name) then Some(0) else Some(1)
  {
    var cs := Config.DefaultRoot.columns;
    assert Matchers.MatchOne(env, e, cs[1].matchers[0]);
    assert Accepts(env, e, cs[1]);
    if e.metadata.IsDir() && !Matchers.IsHiddenFile(e.name) {
      assert Matchers.MatchOne(env, e, cs[0].matchers[0]);
      assert Accepts(env, e, cs[0]);
    } else {
      assert !Accepts(env, e, cs[0]);
    }
  }

  /** The group of a readable entry under `config`. */
  function GroupOfEntry(inp: Inputs, config: Config.Root, d: DirEntry): Option<nat>
    requires d.Readable?
  {
    GroupOf(inp.env, EntryOf(inp, config, d), config.columns, 0)
  }

  /** The files group `g` receives from `entries`, in the order of the listing. */
  function Assigned(inp: Inputs, config: Config.Root, entries: seq<DirEntry>, g: nat): seq<Files.File> {
    if entries == [] then []
    else
      var rest := Assigned(inp, config, entries[..|entries| - 1], g);
      var d := entries[|entries| - 1];
      if d.Readable? && GroupOfEntry(inp, config, d) == Some(g) then rest + [FileOf(inp, config, d)] else rest
  }

  /** The number of readable entries that the matchers `ms` match, hidden entries included. */
  function MatchCount(inp: Inputs, config: Config.Root, entries: seq<DirEntry>, ms: seq<Config.Matcher>): nat {
    if entries == [] then 0
    else
      var d := entries[|entries| - 1];
      MatchCount(inp, config, entries[..|entries| - 1], ms)
        + (if d.Readable? && Matchers.Matches(inp.env, EntryOf(inp, config, d), true, ms) then 1 else 0)
  }

  /** The sum of the lengths of the readable regular files. */
  function FilesLength(entries: seq<DirEntry>): nat {
    if entries == [] then 0
    else
      var d := entries[|entries| - 1];
      FilesLength(entries[..|entries| - 1]) + (if d.Readable? && d.metadata.IsFile() then d.metadata.len else 0)
  }

  /** The variables of the configuration, none without an `info` section. */
  function Variables(config: Config.Root): map<string, seq<Config.Matcher>> {
    if config.info.Some? then config.info.value.variables else map[]
  }

  /** A map of counters holds `count` for `name`: the key exists only once something was counted. */
  predicate Counted(counts: map<string, nat>, name: string, count: nat) {
    (name in counts <==> count > 0) && (name in counts ==> counts[name] == count)
  }

  // ---------------------------------------------------------------------
  // The sum of the diff values, in whatever order the map gives them.

  function Field(c: GitDiff.Change, deletions: bool): nat {
    if deletions then c.deletions else c.insertions
  }

  /** The sum of one field over the values of `keys`, taking the keys in any order. */
  ghost function Total(m: GitDiff.Changes, keys: set<seq<Byte>>, deletions: bool): nat
    requires keys <= m.Keys
    decreases keys
  {
    if keys == {} then 0
    else
      var k :| k in keys;
      Field(m[k], deletions) + Total(m, keys - {k}, deletions)
  }

  /** Any key may come first: the total does not depend on the order of the keys. */
  lemma {:induction false} TotalTake(m: GitDiff.Changes, keys: set<seq<Byte>>, deletions: bool, k: seq<Byte>)
    requires keys <= m.Keys && k in keys
    ensures Total(m, keys, deletions) == Field(m[k], deletions) + Total(m, keys - {k}, deletions)
    decreases keys
  {
    var k' :| k' in keys && Total(m, keys, deletions) == Field(m[k'], deletions) + Total(m, keys - {k'}, deletions);
    if k' != k {
      TotalTake(m, keys - {k'}, deletions, k);
      TotalTake(m, keys - {k}, deletions, k');
      assert keys - {k'} - {k} == keys - {k} - {k'};
    }
  }

  /** `ds.values().sum()`: both fields summed over all values, modulo 2^32. */
  method SumValues(m: GitDiff.Changes) returns (r: GitDiff.Change)
    ensures r.insertions == Total(m, m.Keys, false) % U32_LIMIT
    ensures r.deletions == Total(m, m.Keys, true) % U32_LIMIT
  {
    r := GitDiff.Change(0, 0);
    var left := m.Keys;
    ghost var done: set<seq<Byte>> := {};
    while left != {}
      invariant left <= m.Keys && done <= m.Keys && done + left == m.Keys && done !! left
      invariant r.insertions == Total(m, done, false) % U32_LIMIT
      invariant r.deletions == Total(m, done, true) % U32_LIMIT
      decreases left
    {
      var k :| k in left;
      TotalTake(m, done + {k}, false, k);
      TotalTake(m, done + {k}, true, k);
      assert done + {k} - {k} == done;
      GitDiff.ModAdd(Total(m, done, false), m[k].insertions);
      GitDiff.ModAdd(Total(m, done, true), m[k].deletions);
      r := GitDiff.Change(AddU32(r.insertions, m[k].insertions), AddU32(r.deletions, m[k].deletions));
      done := done + {k};
      left := left - {k};
    }
  }

  // ---------------------------------------------------------------------
  // The pass over the entries.

  /** The loop over `info.variables` for one entry: every variable whose matchers match it is counted once more. */
  method CountVariables(env: Matchers.Env, e: Matchers.Entry, variables: map<string, seq<Config.Matcher>>,
                        counts: map<string, nat>)
    returns (r: map<string, nat>)
    ensures forall name :: name in r <==> name in counts || (name in variables && Matchers.Matches(env, e, true, variables[name]))
    ensures forall name :: name in r && name !in variables ==> r[name] == counts[name]
    ensures forall name :: name in r && name in variables ==>
      r[name] == (if name in counts then counts[name] else 0)
        + (if Matchers.Matches(env, e, true, variables[name]) then 1 else 0)
  {
    r := counts;
    var left := variables.Keys;
    while left != {}
      invariant left <= variables.Keys
      invariant forall name :: name in r <==>
        (name in counts || (name in variables && name !in left && Matchers.Matches(env, e, true, variables[name])))
      invariant forall name :: name in r && (name !in variables || name in left) ==> r[name] == counts[name]
      invariant forall name :: name in r && name in variables && name !in left ==>
        r[name] == (if name in counts then counts[name] else 0)
          + (if Matchers.Matches(env, e, true, variables[name]) then 1 else 0)
      decreases left
    {
      var name :| name in left;
      var matched, _ := Matchers.IsMatch(env, e, true, variables[name]);
      if matched {
        r := r[name := (if name in r then r[name] else 0) + 1];
      }
      left := left - {name};
    }
  }

  /** No two groups are the same object. */
  predicate Distinct(groups: seq<Files.FilesGroup>) {
    forall j, k :: 0 <= j < k < |groups| ==> groups[j] != groups[k]
  }

  function ColumnsOf(groups: seq<Files.FilesGroup>): (cs: seq<Config.Column>)
    ensures |cs| == |groups| && forall j :: 0 <= j < |groups| ==> cs[j] == groups[j].column
  {
    seq(|groups|, j requires 0 <= j < |groups| => groups[j].column)
  }

  /** The loop over the groups for one entry: the file is pushed onto the first group that takes it, and only there. */
  method Place(env: Matchers.Env, groups: seq<Files.FilesGroup>, e: Matchers.Entry, file: Files.File)
    requires Distinct(groups)
    modifies set x | x in groups
    ensures forall j :: 0 <= j < |groups| ==>
      groups[j].files == old(groups[j].files) + (if GroupOf(env, e, ColumnsOf(groups), 0) == Some(j) then [file] else [])
  {
    var columns := ColumnsOf(groups);
    var g := 0;
    while g < |groups|
      invariant g <= |groups|
      invariant GroupOf(env, e, columns, 0) == GroupOf(env, e, columns, g)
      invariant forall j :: 0 <= j < |groups| ==> groups[j].files == old(groups[j].files)
    {
      var excluded, _ := Matchers.IsMatch(env, e, true, groups[g].column.exclude);
      if !excluded {
        var matched, _ := Matchers.IsMatch(env, e, groups[g].column.includeHidden, groups[g].column.matchers);
        if matched {
          groups[g].Push(file);
          return;
        }
      }
      g := g + 1;
    }
  }

  /** The groups after the first `i` entries: each holds the files of the entries it took, in order. */
  predicate GroupsAt(inp: Inputs, config: Config.Root, entries: seq<DirEntry>, i: nat, groups: seq<Files.FilesGroup>)
    requires i <= |entries|
    reads set x | x in groups
  {
    && |groups| == |config.columns| && Distinct(groups)
    && (forall g :: 0 <= g < |groups| ==> groups[g].column == config.columns[g])
    && (forall g :: 0 <= g < |groups| ==> groups[g].files == Assigned(inp, config, entries[..i], g))
  }

  /** The counters after the first `i` entries. */
  predicate VariablesAt(inp: Inputs, config: Config.Root, entries: seq<DirEntry>, i: nat, variables: map<string, nat>)
    requires i <= |entries|
  {
    && (forall name :: name in variables ==> name in Variables(config))
    && (forall name :: name in Variables(config) ==>
         Counted(variables, name, MatchCount(inp, config, entries[..i], Variables(config)[name])))
  }

  /** The state of the pass after the first `i` entries. */
  predicate Visited(inp: Inputs, config: Config.Root, entries: seq<DirEntry>, i: nat,
                    groups: seq<Files.FilesGroup>, variables: map<string, nat>, diskUsageFiles: nat)
    requires i <= |entries|
    reads set x | x in groups
  {
    && GroupsAt(inp, config, entries, i, groups)
    && VariablesAt(inp, config, entries, i, variables)
    && diskUsageFiles == FilesLength(entries[..i])
  }

  /** `FilesGroup`s for the columns, in order, with no files yet. */
  method NewGroups(columns: seq<Config.Column>) returns (groups: seq<Files.FilesGroup>)
    ensures |groups| == |columns| && Distinct(groups)
    ensures forall j :: 0 <= j < |groups| ==> fresh(groups[j]) && groups[j].column == columns[j] && groups[j].files == []
  {
    groups := [];
    while |groups| < |columns|
      invariant |groups| <= |columns| && Distinct(groups)
      invariant forall j :: 0 <= j < |groups| ==> fresh(groups[j]) && groups[j].column == columns[j] && groups[j].files == []
    {
      var group := new Files.FilesGroup(columns[|groups|]);
      groups := groups + [group];
    }
  }

  /** The loop over the variables, for entry `i`. */
  method CountEntry(inp: Inputs, config: Config.Root, entries: seq<DirEntry>, i: nat, variables: map<string, nat>)
    returns (r: map<string, nat>)
    requires i < |entries| && VariablesAt(inp, config, entries, i, variables)
    ensures VariablesAt(inp, config, entries, i + 1, r)
  {
    r := variables;
    var d := entries[i];
    assert entries[..i + 1] == entries[..i] + [d];
    forall ms: seq<Config.Matcher> {
      MatchCountStep(inp, config, entries[..i], d, ms);
    }
    if d.Readable? && config.info.Some? {
      r := CountVariables(inp.env, EntryOf(inp, config, d), config.info.value.variables, r);
    }
  }

  /** The loop over the groups, for entry `i`. */
  method PlaceEntry(inp: Inputs, config: Config.Root, entries: seq<DirEntry>, i: nat, groups: seq<Files.FilesGroup>)
    requires i < |entries| && GroupsAt(inp, config, entries, i, groups)
    modifies set x | x in groups
    ensures GroupsAt(inp, config, entries, i + 1, groups)
  {
    var d := entries[i];
    assert entries[..i + 1] == entries[..i] + [d];
    forall g | 0 <= g < |groups| {
      AssignedStep(inp, config, entries[..i], d, g);
    }
    if d.Readable? {
      var metadata := d.metadata;
      var gitChanges := GitChanges(GitDiff.Collect(config.collector, inp.gitRun, inp.gitInTime), d.name);
      var e := Matchers.Entry(d.name, d.name, metadata, gitChanges);
      var reader := TreeReader.New(config, inp.env.now);
      var treeJob := reader.Some? && metadata.IsDir();
      var treeInfo := None;
      if treeJob {
        var job := new TreeReader.TreeInfoJob(reader.value, inp.treeOf(d.path), inp.dirDev, TreeReader.AgainstOwn);
        treeInfo := job.Get(TreeOutcome(inp, reader.value, d));
      }
      assert ColumnsOf(groups) == config.columns;
      Place(inp.env, groups, e, Files.File(d.name, metadata, gitChanges, treeJob, treeInfo));
    }
  }

  /** The body of the loop over the entries, for entry `i`. */
  method Visit(inp: Inputs, config: Config.Root, entries: seq<DirEntry>, i: nat,
               groups: seq<Files.FilesGroup>, variables: map<string, nat>, diskUsageFiles: nat)
    returns (variables': map<string, nat>, diskUsageFiles': nat)
    requires i < |entries| && Visited(inp, config, entries, i, groups, variables, diskUsageFiles)
    modifies set x | x in groups
    ensures Visited(inp, config, entries, i + 1, groups, variables', diskUsageFiles')
  {
    var d := entries[i];
    assert entries[..i + 1] == entries[..i] + [d];
    MatchCountStep(inp, config, entries[..i], d, []);
    diskUsageFiles' := diskUsageFiles;
    if d.Readable? && d.metadata.IsFile() {
      diskUsageFiles' := diskUsageFiles' + d.metadata.len;
    }
    variables' := CountEntry(inp, config, entries, i, variables);
    PlaceEntry(inp, config, entries, i, groups);
  }

  /** The loop that sorts every group. */
  method SortAll(groups: seq<Files.FilesGroup>)
    requires Distinct(groups)
    modifies set x | x in groups
    ensures forall j :: 0 <= j < |groups| ==>
      && multiset(groups[j].files) == multiset(old(groups[j].files))
      && Sorting.Arranged(groups[j].column, groups[j].files)
  {
    var g := 0;
    while g < |groups|
      invariant g <= |groups|
      invariant forall j :: 0 <= j < g ==>
        && multiset(groups[j].files) == multiset(old(groups[j].files))
        && Sorting.Arranged(groups[j].column, groups[j].files)
      invariant forall j :: g <= j < |groups| ==> groups[j].files == old(groups[j].files)
    {
      Sorting.Sort(groups[g]);
      g := g + 1;
    }
  }

  /**
   * `analyze_path` once the directory could be listed: one group per
   * column, in the order of the configuration, holding (sorted) the files of
   * the entries it takes; the counts of the variables; the total length of
   * the regular files; and the sum of the diff values, `None` exactly when
   * the diff collector gave nothing.
   */
  method Analyze(inp: Inputs, config: Config.Root, entries: seq<DirEntry>) returns (a: Analysis)
    ensures |a.groups| == |config.columns| && Distinct(a.groups)
    ensures forall g :: 0 <= g < |a.groups| ==> fresh(a.groups[g]) && a.groups[g].column == config.columns[g]
    ensures forall g :: 0 <= g < |a.groups| ==>
      && multiset(a.groups[g].files) == multiset(Assigned(inp, config, entries, g))
      && Sorting.Arranged(config.columns[g], a.groups[g].files)
    ensures forall name :: name in a.variables ==> name in Variables(config)
    ensures forall name :: name in Variables(config) ==>
      Counted(a.variables, name, MatchCount(inp, config, entries, Variables(config)[name]))
    ensures a.diskUsageFiles == FilesLength(entries)
    ensures a.changes.None? <==> DiffStats(inp, config).None?
    ensures a.changes.Some? ==>
      var m := DiffStats(inp, config).value;
      a.changes.value.insertions == Total(m, m.Keys, false) % U32_LIMIT
      && a.changes.value.deletions == Total(m, m.Keys, true) % U32_LIMIT
  {
    var diffStats := GitDiff.Collect(config.collector, inp.gitRun, inp.gitInTime);
    var variables: map<string, nat> := map[];
    var diskUsageFiles := 0;
    var groups := NewGroups(config.columns);

    var i := 0;
    while i < |entries|
      invariant i <= |entries| && Visited(inp, config, entries, i, groups, variables, diskUsageFiles)
      invariant forall j :: 0 <= j < |groups| ==> fresh(groups[j])
    {
      variables, diskUsageFiles := Visit(inp, config, entries, i, groups, variables, diskUsageFiles);
      i := i + 1;
    }
    assert entries[..i] == entries;

    SortAll(groups);

    var changes: Option<GitDiff.Change> := None;
    if diffStats.Some? {
      var total := SumValues(diffStats.value);
      changes := Some(total);
    }
    a := Analysis(groups, variables, changes, diskUsageFiles);
  }

  /** `analyze_path`: an error when the directory cannot be listed, the analysis of its entries otherwise. */
  method AnalyzePath(inp: Inputs, config: Config.Root, listing: Option<seq<DirEntry>>) returns (r: Option<Analysis>)
    ensures r.None? <==> listing.None?
    ensures r.Some? ==> |r.value.groups| == |config.columns| && r.value.diskUsageFiles == FilesLength(listing.value)
  {
    if listing.None? {
      return None;
    }
    var a := Analyze(inp, config, listing.value);
    return Some(a);
  }

  // ---------------------------------------------------------------------
  // Properties of the classification.

  /** An entry the listing could not read is in no group and counts for nothing. */
  lemma {:induction false} UnreadableIgnored(inp: Inputs, config: Config.Root, entries: seq<DirEntry>, g: nat,
                                             ms: seq<Config.Matcher>)
    ensures Assigned(inp, config, entries + [Unreadable], g) == Assigned(inp, config, entries, g)
    ensures MatchCount(inp, config, entries + [Unreadable], ms) == MatchCount(inp, config, entries, ms)
    ensures FilesLength(entries + [Unreadable]) == FilesLength(entries)
  {
    assert (entries + [Unreadable])[..|entries|] == entries;
  }

  /** An entry no column takes is in no group. */
  lemma {:induction false} Unplaced(inp: Inputs, config: Config.Root, entries: seq<DirEntry>, g: nat)
    requires forall i :: 0 <= i < |entries| && entries[i].Readable? ==> GroupOfEntry(inp, config, entries[i]).None?
    ensures Assigned(inp, config, entries, g) == []
  {
    if entries != [] {
      var init := entries[..|entries| - 1];
      assert forall i :: 0 <= i < |init| ==> init[i] == entries[i];
      Unplaced(inp, config, init, g);
    }
  }

  /** Every file in a group came from an entry that group takes, and carries tree information only for a directory. */
  lemma {:induction false} AssignedFiles(inp: Inputs, config: Config.Root, entries: seq<DirEntry>, g: nat, f: Files.File)
    requires f in Assigned(inp, config, entries, g)
    ensures exists d :: d in entries && d.Readable? && GroupOfEntry(inp, config, d) == Some(g) && f == FileOf(inp, config, d)
    ensures f.treeInfo.Some? ==> f.treeJob && f.metadata.IsDir()
  {
    var init := entries[..|entries| - 1];
    var d := entries[|entries| - 1];
    if f in Assigned(inp, config, init, g) {
      AssignedFiles(inp, config, init, g, f);
      var d' :| d' in init && d'.Readable? && GroupOfEntry(inp, config, d') == Some(g) && f == FileOf(inp, config, d');
      assert d' in entries;
    } else {
      assert d in entries;
    }
  }

  /** `f` is the file of entry `d`, whose tree gives its `size` and `deep modification time` keys. */
  predicate TreeKeysOf(inp: Inputs, entries: seq<DirEntry>, d: DirEntry, f: Files.File) {
    && d in entries && d.Readable? && d.name == f.fileName && inp.treeOf(d.path).Dir?
    && Sorting.KeyNumber(Config.Size, f) == TreeReader.SumUsage(TreeReader.LeavesFrom(inp.treeOf(d.path), 0, TreeReader.AgainstOwn))
    && Sorting.KeyNumber(Config.DeepModificationTime, f) == TreeReader.MaxMtime(TreeReader.LeavesFrom(inp.treeOf(d.path), 0, TreeReader.AgainstOwn))
  }

  /**
   * The `size` and `deep modification time` sort keys of a directory whose
   * tree information came in time are the sum of the lengths and the newest
   * time of the entries the tree reader's walk reaches under it.
   */
  lemma AssignedTreeKeys(inp: Inputs, config: Config.Root, entries: seq<DirEntry>, g: nat, f: Files.File)
    requires f in Assigned(inp, config, entries, g) && f.treeInfo.Some?
    ensures exists d :: TreeKeysOf(inp, entries, d, f)
  {
    AssignedFiles(inp, config, entries, g, f);
    var d :| d in entries && d.Readable? && GroupOfEntry(inp, config, d) == Some(g) && f == FileOf(inp, config, d);
    assert f.treeInfo == TreeInfoOf(inp, config, d);
    assert TreeKeysOf(inp, entries, d, f);
  }

  /**
   * Each entry adds at most one file to a group, and only to the group
   * `GroupOf` names: the groups receive a readable entry once between them.
   */
  lemma AssignedStep(inp: Inputs, config: Config.Root, entries: seq<DirEntry>, d: DirEntry, g: nat)
    ensures Assigned(inp, config, entries + [d], g) ==
      Assigned(inp, config, entries, g) + (if d.Readable? && GroupOfEntry(inp, config, d) == Some(g) then [FileOf(inp, config, d)] else [])
  {
    assert (entries + [d])[..|entries|] == entries;
  }

  /** Each entry adds one to the count of the variables that match it, and its length when it is a regular file. */
  lemma MatchCountStep(inp: Inputs, config: Config.Root, entries: seq<DirEntry>, d: DirEntry, ms: seq<Config.Matcher>)
    ensures MatchCount(inp, config, entries + [d], ms) == MatchCount(inp, config, entries, ms)
      + (if d.Readable? && Matchers.Matches(inp.env, EntryOf(inp, config, d), true, ms) then 1 else 0)
    ensures FilesLength(entries + [d]) == FilesLength(entries) + (if d.Readable? && d.metadata.IsFile() then d.metadata.len else 0)
  {
    assert (entries + [d])[..|entries|] == entries;
  }
}
