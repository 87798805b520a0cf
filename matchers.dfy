/**
 * Matcher evaluation: whether a directory entry is selected by a list of
 * matchers from the configuration. The list succeeds as soon as one of its
 * matchers does; an `All` succeeds when each of its members, evaluated as a
 * one-element list, does. Unless hidden entries are included, an entry whose
 * name starts with `.` is rejected before any matcher is looked at.
 *
 * Glob and regular-expression matching and the MIME database are outside the
 * model: they are the functions of an `Env`, with the clock.
 */
module Matchers {
  import opened Common
  import Config
  import Utf8
  import Fs
  import GitDiff

  const DOT: Byte := 0x2E

  /**
   * What the matchers depend on besides the entry: the current time, the
   * glob-set test on a full path, the regular-expression test on a name, and
   * `MimeType::from_extension`.
   */
  datatype Env = Env(
    now: Config.Nanos,
    globMatch: (seq<string>, seq<Byte>) -> bool,
    regexMatch: (string, string) -> bool,
    mimeOf: seq<Byte> -> Option<Config.MimeType>)

  /** A directory entry: its full path, its file name, its metadata and its change statistics. */
  datatype Entry = Entry(path: seq<Byte>, name: seq<Byte>, metadata: Fs.Metadata, change: Option<GitDiff.Change>)

  /** `is_hidden_file` on unix: the name starts with a dot. */
  predicate IsHiddenFile(name: seq<Byte>) {
    |name| > 0 && name[0] == DOT
  }

  /** The position of the last dot of `name`. */
  function LastDot(name: seq<Byte>): (r: Option<nat>)
    ensures r.None? <==> DOT !in name
    ensures r.Some? ==> r.value < |name| && name[r.value] == DOT && DOT !in name[r.value + 1..]
    decreases |name|
  {
    if name == [] then None
    else if name[|name| - 1] == DOT then Some(|name| - 1)
    else
      var r := LastDot(name[..|name| - 1]);
      assert r.Some? ==> name[r.value + 1..] == name[..|name| - 1][r.value + 1..] + [name[|name| - 1]];
      r
  }

  /**
   * `Path::extension` of a file name: what follows the last dot, unless the
   * name has no dot, its only dot is its first byte, or it is `..`.
   */
  function Extension(name: seq<Byte>): (r: Option<seq<Byte>>)
    ensures r.None? <==> DOT !in name || name == [DOT, DOT] || LastDot(name) == Some(0)
    ensures r.Some? ==> DOT !in r.value && |r.value| + 1 < |name|
    ensures r.Some? ==> name == name[..|name| - |r.value| - 1] + [DOT] + r.value
  {
    if name == [DOT, DOT] then None
    else match LastDot(name)
      case None => None
      case Some(i) =>
        if i == 0 then None
        else
          assert name == name[..i] + [DOT] + name[i + 1..];
          Some(name[i + 1..])
  }

  /** The MIME type of an entry, by the extension of its name. */
  function MimeOf(env: Env, name: seq<Byte>): (r: Option<Config.MimeType>)
    ensures Extension(name).None? ==> r.None?
    ensures Extension(name).Some? ==> r == env.mimeOf(Extension(name).value)
  {
    match Extension(name)
    case None => None
    case Some(ext) => env.mimeOf(ext)
  }

  /** The `Type` arm: what each configured file type asks of the metadata (`0x49` is the octal `111`, the three execute bits). */
  predicate TypeMatches(fileType: Config.FileType, md: Fs.Metadata) {
    match fileType
    case BlockDev => md.kind == Fs.BlockDevice
    case CharDev => md.kind == Fs.CharDevice
    case Directory => md.IsDir()
    case Executable => md.IsFile() && md.mode & 0x49 != 0
    case File => md.IsFile()
    case Fifo => md.kind == Fs.Fifo
    case Socket => md.kind == Fs.Socket
    case SymLink => md.kind == Fs.SymLink
  }

  /** The `Changes::Duration` arm: modified, not in the future, and less than `limit` ago. */
  predicate NewerThan(env: Env, md: Fs.Metadata, limit: Config.Nanos) {
    md.modified.Some? && md.modified.value <= env.now && env.now - md.modified.value < limit
  }

  /** Whether one matcher accepts an entry that passed the hidden check. */
  predicate MatchOne(env: Env, e: Entry, m: Config.Matcher)
    decreases m
  {
    match m
    case Any => true
    case All(ms) => forall i :: 0 <= i < |ms| ==> MatchOne(env, e, ms[i])
    case Changes(Git) => e.change.Some?
    case Changes(Duration(limit)) => NewerThan(env, e.metadata, limit)
    case Glob(globs) => env.globMatch(globs, e.path)
    case Mime(t) => MimeOf(env, e.name) == Some(t)
    case Regex(re) => Utf8.Decode(e.name).Some? && env.regexMatch(re, Utf8.Decode(e.name).value)
    case Type(ft) => TypeMatches(ft, e.metadata)
  }

  predicate Rejected(e: Entry, includeHidden: bool) {
    !includeHidden && IsHiddenFile(e.name)
  }

  /** The value of `is_match`. */
  predicate Matches(env: Env, e: Entry, includeHidden: bool, matchers: seq<Config.Matcher>) {
    !Rejected(e, includeHidden) && exists i :: 0 <= i < |matchers| && MatchOne(env, e, matchers[i])
  }

  // ---------------------------------------------------------------------
  // A measure for the recursive calls of `IsMatch`.

  function Size(m: Config.Matcher): nat
    decreases m, 1
  {
    match m
    case All(ms) => 1 + SizeAll(ms)
    case _ => 1
  }

  function SizeAll(ms: seq<Config.Matcher>): nat
    decreases ms, 0
  {
    if ms == [] then 0 else Size(ms[0]) + SizeAll(ms[1..])
  }

  lemma {:induction false} SizeElement(ms: seq<Config.Matcher>, i: nat)
    requires i < |ms|
    ensures Size(ms[i]) <= SizeAll(ms)
    decreases i
  {
    if i > 0 {
      SizeElement(ms[1..], i - 1);
    }
  }

  /** A member of an `All`, as a one-element list, is smaller than a list holding the `All`. */
  lemma SingletonSmaller(ms: seq<Config.Matcher>, i: nat, inner: seq<Config.Matcher>, k: nat)
    requires i < |ms| && ms[i] == Config.All(inner) && k < |inner|
    ensures SizeAll([inner[k]]) < SizeAll(ms)
  {
    SizeElement(ms, i);
    SizeElement(inner, k);
    assert [inner[k]][1..] == [];
  }

  /**
   * `is_match`. The MIME type is looked up at most once per call, however
   * many `Mime` matchers the list holds (`lookups` counts the lookups of this
   * call, not of the nested ones an `All` makes).
   */
  method IsMatch(env: Env, e: Entry, includeHidden: bool, matchers: seq<Config.Matcher>)
    returns (r: bool, ghost lookups: nat)
    ensures r == Matches(env, e, includeHidden, matchers)
    ensures lookups <= 1
    decreases SizeAll(matchers)
  {
    var cached: Option<Option<Config.MimeType>> := None;
    lookups := 0;
    if !includeHidden && IsHiddenFile(e.name) {
      return false, lookups;
    }
    var i := 0;
    while i < |matchers|
      invariant 0 <= i <= |matchers|
      invariant forall j :: 0 <= j < i ==> !MatchOne(env, e, matchers[j])
      invariant cached.None? ==> lookups == 0
      invariant cached.Some? ==> lookups == 1 && cached.value == MimeOf(env, e.name)
    {
      match matchers[i] {
        case Any =>
          return true, lookups;
        case All(inner) =>
          var all := true;
          var k := 0;
          while k < |inner| && all
            invariant 0 <= k <= |inner|
            invariant all <==> forall j :: 0 <= j < k ==> MatchOne(env, e, inner[j])
          {
            SingletonSmaller(matchers, i, inner, k);
            var sub, _ := IsMatch(env, e, includeHidden, [inner[k]]);
            assert sub <==> MatchOne(env, e, inner[k]) by {
              assert [inner[k]][0] == inner[k];
            }
            all := sub;
            k := k + 1;
          }
          if all {
            return true, lookups;
          }
        case Changes(changes) =>
          match changes {
            case Git =>
              if e.change.Some? {
                return true, lookups;
              }
            case Duration(limit) =>
              var md := e.metadata;
              var newer := md.modified.Some? && md.modified.value <= env.now && env.now - md.modified.value < limit;
              if newer {
                return true, lookups;
              }
          }
        case Glob(globs) =>
          if env.globMatch(globs, e.path) {
            return true, lookups;
          }
        case Mime(t) =>
          if cached.None? {
            cached := Some(MimeOf(env, e.name));
            lookups := lookups + 1;
          }
          if cached.value == Some(t) {
            return true, lookups;
          }
        case Regex(re) =>
          var n := Utf8.Decode(e.name);
          if n.Some? && env.regexMatch(re, n.value) {
            return true, lookups;
          }
        case Type(ft) =>
          if TypeMatches(ft, e.metadata) {
            return true, lookups;
          }
      }
      i := i + 1;
    }
    return false, lookups;
  }

  // ---------------------------------------------------------------------
  // Properties of the evaluation.

  /** An empty list never matches. */
  lemma EmptyNeverMatches(env: Env, e: Entry, includeHidden: bool)
    ensures !Matches(env, e, includeHidden, [])
  {
  }

  /** A hidden entry is rejected, unless hidden entries are included, by every list, `[Any]` too. */
  lemma HiddenRejected(env: Env, e: Entry, matchers: seq<Config.Matcher>)
    requires IsHiddenFile(e.name)
    ensures !Matches(env, e, false, matchers)
    ensures Matches(env, e, true, [Config.Any])
  {
    assert MatchOne(env, e, [Config.Any][0]);
  }

  /** `Any` matches every entry that passes the hidden check. */
  lemma AnyMatches(env: Env, e: Entry, includeHidden: bool, matchers: seq<Config.Matcher>)
    requires Config.Any in matchers
    ensures Matches(env, e, includeHidden, matchers) <==> !Rejected(e, includeHidden)
  {
    var i :| 0 <= i < |matchers| && matchers[i] == Config.Any;
    assert MatchOne(env, e, matchers[i]);
  }

  /**
   * `All(ms)` succeeds exactly when each member succeeds as a one-element
   * list, with the same arguments; `All([])` always succeeds.
   */
  lemma AllAsSingletons(env: Env, e: Entry, includeHidden: bool, ms: seq<Config.Matcher>)
    requires !Rejected(e, includeHidden)
    ensures Matches(env, e, includeHidden, [Config.All(ms)]) <==>
      forall i :: 0 <= i < |ms| ==> Matches(env, e, includeHidden, [ms[i]])
    ensures Matches(env, e, includeHidden, [Config.All([])])
  {
    assert [Config.All(ms)][0] == Config.All(ms);
    assert [Config.All([])][0] == Config.All([]);
    forall i | 0 <= i < |ms|
      ensures Matches(env, e, includeHidden, [ms[i]]) <==> MatchOne(env, e, ms[i])
    {
      assert [ms[i]][0] == ms[i];
    }
  }

  /** Which entries the single-arm matchers accept, past the hidden check. */
  lemma ArmMeanings(env: Env, e: Entry, includeHidden: bool, limit: Config.Nanos, t: Config.MimeType)
    requires !Rejected(e, includeHidden)
    ensures Matches(env, e, includeHidden, [Config.Changes(Config.Git)]) <==> e.change.Some?
    ensures Matches(env, e, includeHidden, [Config.Changes(Config.Duration(limit))]) <==>
      e.metadata.modified.Some? && e.metadata.modified.value <= env.now && env.now - e.metadata.modified.value < limit
    ensures Matches(env, e, includeHidden, [Config.Type(Config.Executable)]) <==>
      e.metadata.kind == Fs.RegularFile && e.metadata.mode & 0x49 != 0
    ensures Matches(env, e, includeHidden, [Config.Mime(t)]) ==> Extension(e.name).Some?
  {
    assert [Config.Changes(Config.Git)][0] == Config.Changes(Config.Git);
    assert [Config.Changes(Config.Duration(limit))][0] == Config.Changes(Config.Duration(limit));
    assert [Config.Type(Config.Executable)][0] == Config.Type(Config.Executable);
    assert [Config.Mime(t)][0] == Config.Mime(t);
  }

  /** The list is a disjunction: adding matchers never turns a match into a non-match. */
  lemma MatchesMonotone(env: Env, e: Entry, includeHidden: bool, ms: seq<Config.Matcher>, more: seq<Config.Matcher>)
    ensures Matches(env, e, includeHidden, ms + more) <==>
      Matches(env, e, includeHidden, ms) || Matches(env, e, includeHidden, more)
  {
    if Matches(env, e, includeHidden, ms) {
      var i :| 0 <= i < |ms| && MatchOne(env, e, ms[i]);
      assert (ms + more)[i] == ms[i];
    }
    if Matches(env, e, includeHidden, more) {
      var i :| 0 <= i < |more| && MatchOne(env, e, more[i]);
      assert (ms + more)[|ms| + i] == more[i];
    }
    if Matches(env, e, includeHidden, ms + more) {
      var i :| 0 <= i < |ms + more| && MatchOne(env, e, (ms + more)[i]);
      if i >= |ms| {
        assert (ms + more)[i] == more[i - |ms|];
      }
    }
  }
}
