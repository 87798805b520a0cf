/**
 * The entries the analyzer collects, and the groups (one per configured
 * column) it distributes them into.
 */
module Files {
  import opened Common
  import Config
  import Fs
  import GitDiff
  import TreeReader

  /**
   * One directory entry. `treeJob` says whether a tree-reader job was
   * started for it (`tree_info.is_some()`), and `treeInfo` is what that job
   * resolves to (`None` when there is no job, or when the job gave nothing):
   * a job resolves once and keeps its value, so every read of it during
   * sorting and rendering sees this same value.
   */
  datatype File = File(
    fileName: seq<Byte>,
    metadata: Fs.Metadata,
    gitChanges: Option<GitDiff.Change>,
    treeJob: bool,
    treeInfo: Option<TreeReader.TreeInfo>)

  /** `FilesGroup`: the files of one column, in the order they were pushed, then sorted. */
  class FilesGroup {
    const column: Config.Column
    var files: seq<File>

    constructor(column: Config.Column)
      ensures this.column == column && files == []
    {
      this.column := column;
      files := [];
    }

    /** `files.push(file)`. */
    method Push(file: File)
      modifies this
      ensures files == old(files) + [file]
    {
      files := files + [file];
    }
  }
}
