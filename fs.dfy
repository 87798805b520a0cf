/**
 * The metadata of a directory entry, as the program reads it (through
 * `DirEntry::metadata`, which does not follow symbolic links): the kind of
 * the entry, its unix permission bits, its length and its modification time.
 */
module Fs {
  import opened Common
  import Config

  /** The unix file types. */
  datatype Kind = RegularFile | Directory | SymLink | BlockDevice | CharDevice | Fifo | Socket

  /**
   * `modified` is `Metadata::modified()` in nanoseconds since the epoch, or
   * `None` where the platform cannot report it; `mtime` is the seconds of
   * `st_mtime` that `exts::mtime` returns.
   */
  datatype Metadata = Metadata(kind: Kind, mode: bv32, len: nat, modified: Option<Config.Nanos>, mtime: nat)
  {
    predicate IsDir() { kind == Directory }

    predicate IsFile() { kind == RegularFile }
  }
}
