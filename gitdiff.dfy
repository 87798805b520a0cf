/**
 * Change statistics of a git work tree: the reader of the output of
 * `git diff --numstat --relative -z HEAD .` (the NUL-terminated numstat
 * format of git-diff(1), "Other diff formats"), which sums the insertions and
 * deletions of every changed path under the name of its top-level component,
 * and the decision of the collector that runs `git`.
 */
module GitDiff {
  import opened Common
  import Utf8
  import Config

  /** Insertions and deletions of one path; both are `u32` and add with wrap-around. */
  datatype Change = Change(insertions: U32, deletions: U32)

  /** Top-level entry name (the bytes of an `OsString`) to its changes. */
  type Changes = map<seq<Byte>, Change>

  const TAB: Byte := 9
  const NUL: Byte := 0
  const SLASH: Byte := 0x2F
  const DASH: Byte := 0x2D
  const PLUS: Byte := 0x2B

  // ---------------------------------------------------------------------
  // Sum of changes
  // ---------------------------------------------------------------------

  function TotalInsertions(cs: seq<Change>): nat {
    if cs == [] then 0 else TotalInsertions(cs[..|cs| - 1]) + cs[|cs| - 1].insertions
  }

  function TotalDeletions(cs: seq<Change>): nat {
    if cs == [] then 0 else TotalDeletions(cs[..|cs| - 1]) + cs[|cs| - 1].deletions
  }

  lemma ModAdd(a: nat, b: nat)
    ensures (a % U32_LIMIT + b) % U32_LIMIT == (a + b) % U32_LIMIT
  {
  }

  /**
   * `Sum for Change`: the fold that starts from no change and adds both
   * counts field by field; each field is the sum of that field over all
   * changes, modulo 2^32.
   */
  function Sum(cs: seq<Change>): (r: Change)
    ensures r.insertions == TotalInsertions(cs) % U32_LIMIT
    ensures r.deletions == TotalDeletions(cs) % U32_LIMIT
  {
    if cs == [] then Change(0, 0)
    else
      var a := Sum(cs[..|cs| - 1]);
      var b := cs[|cs| - 1];
      ModAdd(TotalInsertions(cs[..|cs| - 1]), b.insertions);
      ModAdd(TotalDeletions(cs[..|cs| - 1]), b.deletions);
      Change(AddU32(a.insertions, b.insertions), AddU32(a.deletions, b.deletions))
  }

  // ---------------------------------------------------------------------
  // Lexical pieces
  // ---------------------------------------------------------------------

  /** The first position of `b` in `s` (`memchr`). */
  function IndexOf(s: seq<Byte>, b: Byte): (r: Option<nat>)
    ensures r.Some? ==> r.value < |s| && s[r.value] == b && b !in s[..r.value]
    ensures r.None? ==> b !in s
  {
    if s == [] then None
    else if s[0] == b then Some(0)
    else
      match IndexOf(s[1..], b)
      case None => None
      case Some(i) =>
        assert s[..i + 1] == [s[0]] + s[1..][..i];
        Some(i + 1)
  }

  /** The position `memchr` returns is the only one that satisfies its contract. */
  lemma {:induction false} IndexOfUnique(s: seq<Byte>, b: Byte, i: nat)
    requires i < |s| && s[i] == b && b !in s[..i]
    ensures IndexOf(s, b) == Some(i)
    decreases i
  {
    if i > 0 {
      assert s[..i][0] == s[0];
      assert s[1..][..i - 1] == s[..i][1..];
      IndexOfUnique(s[1..], b, i - 1);
    }
  }

  /** `until!(delim)`: the bytes before the first `delim` and the bytes after it. */
  function Until(input: seq<Byte>, delim: Byte): (r: Option<(seq<Byte>, seq<Byte>)>)
    ensures r.None? <==> delim !in input
    ensures r.Some? ==> input == r.value.0 + [delim] + r.value.1 && delim !in r.value.0
  {
    match IndexOf(input, delim)
    case None => None
    case Some(i) =>
      assert input == input[..i] + [delim] + input[i + 1..];
      Some((input[..i], input[i + 1..]))
  }

  /** `path!()`'s key: the bytes before the first `/`, or the whole path when there is none. */
  function TopLevel(path: seq<Byte>): (key: seq<Byte>)
    ensures SLASH !in key
    ensures key <= path
    ensures key == path || path[|key|] == SLASH
  {
    match IndexOf(path, SLASH)
    case None => path
    case Some(i) => path[..i]
  }

  /**
   * `str::parse::<u32>`: an optional `+`, then one or more decimal digits of
   * a value below 2^32.
   */
  function ParseU32(bs: seq<Byte>): (r: Option<U32>)
    ensures r.Some? ==> |bs| > 0
  {
    if bs == [] || (|bs| == 1 && (bs[0] == PLUS || bs[0] == DASH)) then None
    else
      var digits := if bs[0] == PLUS then bs[1..] else bs;
      if forall i :: 0 <= i < |digits| ==> IsAsciiDigit(digits[i]) then
        var v := DigitsValue(digits);
        if v < U32_LIMIT then Some(v) else None
      else None
  }

  /** `parse_num!`: the token must be UTF-8; `-` (a binary file) counts as 0. */
  function ParseCount(token: seq<Byte>): (r: Option<U32>)
    ensures r.Some? ==> Utf8.Decode(token).Some?
  {
    match Utf8.Decode(token)
    case None => None
    case Some(s) => if s == "-" then Some(0) else ParseU32(token)
  }

  /** `parse_num!(delim)`: a count ended by `delim`, and the input after it. */
  function ReadCount(input: seq<Byte>, delim: Byte): (r: Option<(U32, seq<Byte>)>)
    ensures r.Some? ==> |r.value.1| < |input|
  {
    match Until(input, delim)
    case None => None
    case Some((token, rest)) =>
      match ParseCount(token)
      case None => None
      case Some(n) => Some((n, rest))
  }

  // ---------------------------------------------------------------------
  // Records
  // ---------------------------------------------------------------------

  /** The path part of a record: one path, or the old and the new path of a rename. */
  datatype Paths = Single(path: seq<Byte>) | Rename(from: seq<Byte>, to: seq<Byte>)

  datatype Record = Record(insertions: U32, deletions: U32, paths: Paths)

  /** `add_change!`: a new key starts with the given counts, an existing one adds to each count. */
  function AddChange(changes: Changes, key: seq<Byte>, insertions: U32, deletions: U32): (r: Changes)
    ensures r.Keys == changes.Keys + {key}
    ensures key !in changes ==> r[key] == Change(insertions, deletions)
    ensures key in changes ==>
      r[key] == Change(AddU32(changes[key].insertions, insertions), AddU32(changes[key].deletions, deletions))
    ensures forall k :: k in changes && k != key ==> r[k] == changes[k]
  {
    if key in changes then
      changes[key := Change(AddU32(changes[key].insertions, insertions), AddU32(changes[key].deletions, deletions))]
    else changes[key := Change(insertions, deletions)]
  }

  /**
   * What one record does to the totals: a rename gives its deletions to the
   * old path's key and its insertions to the new path's key.
   */
  function Apply(changes: Changes, rec: Record): Changes {
    match rec.paths
    case Single(p) => AddChange(changes, TopLevel(p), rec.insertions, rec.deletions)
    case Rename(a, b) => AddChange(AddChange(changes, TopLevel(a), 0, rec.deletions), TopLevel(b), rec.insertions, 0)
  }

  /** The paths of a record: after a NUL, two NUL-terminated paths; otherwise one. */
  function ReadPaths(input: seq<Byte>): (r: Option<(Paths, seq<Byte>)>)
    ensures r.Some? ==> |r.value.1| < |input|
  {
    if |input| > 0 && input[0] == NUL then
      match Until(input[1..], NUL)
      case None => None
      case Some((p1, r1)) =>
        match Until(r1, NUL)
        case None => None
        case Some((p2, r2)) => Some((Rename(p1, p2), r2))
    else
      match Until(input, NUL)
      case None => None
      case Some((p, r1)) => Some((Single(p), r1))
  }

  /**
   * One record of the input: two counts each ended by TAB, then its paths.
   */
  function NextRecord(input: seq<Byte>): (r: Option<(Record, seq<Byte>)>)
    ensures r.Some? ==> |r.value.1| < |input|
  {
    match ReadCount(input, TAB)
    case None => None
    case Some((ins, r1)) =>
      match ReadCount(r1, TAB)
      case None => None
      case Some((del, r2)) =>
        match ReadPaths(r2)
        case None => None
        case Some((paths, r3)) => Some((Record(ins, del, paths), r3))
  }

  /** The records of `input` applied to `acc` in order; `None` as soon as one is malformed. */
  function ParseFrom(input: seq<Byte>, acc: Changes): Option<Changes>
    decreases |input|
  {
    if input == [] then Some(acc)
    else
      match NextRecord(input)
      case None => None
      case Some((rec, rest)) => ParseFrom(rest, Apply(acc, rec))
  }

  /** `Changes::parse`. */
  function ParseSpec(input: seq<Byte>): Option<Changes> {
    ParseFrom(input, map[])
  }

  // ---------------------------------------------------------------------
  // The parser as written: a cursor over the input
  // ---------------------------------------------------------------------

  /** `memchr`: a scan for the first `needle`. */
  method Memchr(needle: Byte, haystack: seq<Byte>) returns (r: Option<nat>)
    ensures r == IndexOf(haystack, needle)
  {
    var i := 0;
    while i < |haystack|
      invariant 0 <= i <= |haystack|
      invariant needle !in haystack[..i]
    {
      if haystack[i] == needle {
        IndexOfUnique(haystack, needle, i);
        return Some(i);
      }
      assert haystack[..i + 1] == haystack[..i] + [haystack[i]];
      i := i + 1;
    }
    assert haystack[..i] == haystack;
    return None;
  }

  /** `until!`: splits the input at the first `delim`, consuming it. */
  method SplitAt(input: seq<Byte>, delim: Byte) returns (r: Option<(seq<Byte>, seq<Byte>)>)
    ensures r == Until(input, delim)
  {
    var l := Memchr(delim, input);
    if l.None? {
      return None;
    }
    r := Some((input[..l.value], input[l.value + 1..]));
  }

  /** `path!`: the next NUL-terminated path, cut at its first `/`. */
  method ReadPath(input: seq<Byte>) returns (r: Option<(seq<Byte>, seq<Byte>)>)
    ensures r.None? <==> Until(input, NUL).None?
    ensures r.Some? ==> r.value == (TopLevel(Until(input, NUL).value.0), Until(input, NUL).value.1)
  {
    var split := SplitAt(input, NUL);
    if split.None? {
      return None;
    }
    var (path, rest) := split.value;
    var slash := Memchr(SLASH, path);
    var key := if slash.Some? then path[0..slash.value] else path;
    return Some((key, rest));
  }

  /**
   * `Changes::parse`, as the loop that moves the `input` cursor past each
   * record and updates the map in place.
   */
  method Parse(input0: seq<Byte>) returns (r: Option<Changes>)
    ensures r == ParseSpec(input0)
  {
    var input := input0;
    var changes: Changes := map[];
    while input != []
      invariant ParseFrom(input, changes) == ParseSpec(input0)
      decreases |input|
    {
      var next := ParseRecord(input, changes);
      if next.None? { return None; }
      input, changes := next.value.0, next.value.1;
    }
    return Some(changes);
  }

  /**
   * One round of the loop in `Changes::parse`: the two counts, then one path
   * or the two paths of a rename, each added to the map as soon as it is read.
   */
  method ParseRecord(input: seq<Byte>, changes: Changes) returns (r: Option<(seq<Byte>, Changes)>)
    ensures r.None? <==> NextRecord(input).None?
    ensures r.Some? ==> r.value == (NextRecord(input).value.1, Apply(changes, NextRecord(input).value.0))
  {
    var insertions := ReadCountAt(input, TAB);
    if insertions.None? { return None; }
    var deletions := ReadCountAt(insertions.value.1, TAB);
    if deletions.None? { return None; }
    r := ApplyPaths(deletions.value.1, insertions.value.0, deletions.value.0, changes);
  }

  /** `until!` and `parse_count!`: a count ended by `delim`, and the input after it. */
  method ReadCountAt(input: seq<Byte>, delim: Byte) returns (r: Option<(U32, seq<Byte>)>)
    ensures r == ReadCount(input, delim)
  {
    var field := SplitAt(input, delim);
    if field.None? { return None; }
    var n := ParseCount(field.value.0);
    if n.None? { return None; }
    return Some((n.value, field.value.1));
  }

  /** The paths of a record read with `path!`, each key updated as soon as its path is read. */
  method ApplyPaths(input: seq<Byte>, insertions: U32, deletions: U32, changes: Changes)
    returns (r: Option<(seq<Byte>, Changes)>)
    ensures r.None? <==> ReadPaths(input).None?
    ensures r.Some? ==>
      r.value == (ReadPaths(input).value.1, Apply(changes, Record(insertions, deletions, ReadPaths(input).value.0)))
  {
    if |input| > 0 && input[0] == NUL {
      var oldPath := ReadPath(input[1..]);
      if oldPath.None? { return None; }
      var updated := AddChange(changes, oldPath.value.0, 0, deletions);
      var newPath := ReadPath(oldPath.value.1);
      if newPath.None? { return None; }
      updated := AddChange(updated, newPath.value.0, insertions, 0);
      return Some((newPath.value.1, updated));
    } else {
      var path := ReadPath(input);
      if path.None? { return None; }
      return Some((path.value.1, AddChange(changes, path.value.0, insertions, deletions)));
    }
  }

  // ---------------------------------------------------------------------
  // Properties
  // ---------------------------------------------------------------------

  /** Records consumed by `ParseFrom` in order, without the map. */
  function ApplyAll(acc: Changes, recs: seq<Record>): Changes
    decreases |recs|
  {
    if recs == [] then acc else ApplyAll(Apply(acc, recs[0]), recs[1..])
  }

  /** A count as git writes it: a decimal number, or `-` for a binary file. */
  datatype Count = Number(n: U32) | Binary

  function CountValue(c: Count): U32 {
    if c.Number? then c.n else 0
  }

  function EncodeCount(c: Count): seq<Byte> {
    match c
    case Number(n) => DecimalBytes(n)
    case Binary => [DASH]
  }

  /** One numstat line as git prints it with `-z`. */
  datatype Line = Line(insertions: Count, deletions: Count, paths: Paths)

  function EncodePaths(p: Paths): seq<Byte> {
    match p
    case Single(path) => path + [NUL]
    case Rename(a, b) => [NUL] + a + [NUL] + b + [NUL]
  }

  function EncodeLine(l: Line): seq<Byte> {
    EncodeCount(l.insertions) + [TAB] + EncodeCount(l.deletions) + [TAB] + EncodePaths(l.paths)
  }

  function EncodeLines(ls: seq<Line>): seq<Byte>
    decreases |ls|
  {
    if ls == [] then [] else EncodeLine(ls[0]) + EncodeLines(ls[1..])
  }

  /** Paths git can print: no NUL inside, and a single path is not empty. */
  predicate WellFormed(l: Line) {
    WellFormedPaths(l.paths)
  }

  function RecordOf(l: Line): Record {
    Record(CountValue(l.insertions), CountValue(l.deletions), l.paths)
  }

  function RecordsOf(ls: seq<Line>): (rs: seq<Record>)
    ensures |rs| == |ls|
    ensures forall i :: 0 <= i < |ls| ==> rs[i] == RecordOf(ls[i])
  {
    if ls == [] then [] else [RecordOf(ls[0])] + RecordsOf(ls[1..])
  }

  lemma ParseCountEncoded(c: Count)
    ensures ParseCount(EncodeCount(c)) == Some(CountValue(c))
  {
    match c
    case Binary =>
      Utf8.DecodeAscii([DASH]);
      assert Utf8.Decode([DASH]).value == "-";
    case Number(n) =>
      var bs := DecimalBytes(n);
      assert forall i :: 0 <= i < |bs| ==> bs[i] < 0x80 by {
        forall i | 0 <= i < |bs| ensures bs[i] < 0x80 {
          assert IsAsciiDigit(bs[i]);
        }
      }
      Utf8.DecodeAscii(bs);
      var s := Utf8.Decode(bs).value;
      assert IsAsciiDigit(bs[0]);
      assert s[0] as int == bs[0];
      assert s != "-";
      assert bs != [DASH];
      DecimalBytesValue(n);
      assert bs[0] != PLUS by {
        assert IsAsciiDigit(bs[0]);
      }
  }

  lemma UntilPrefix(a: seq<Byte>, delim: Byte, rest: seq<Byte>)
    requires delim !in a
    ensures Until(a + [delim] + rest, delim) == Some((a, rest))
  {
    var s := a + [delim] + rest;
    assert s[..|a|] == a;
    IndexOfUnique(s, delim, |a|);
    assert s[|a| + 1..] == rest;
  }

  lemma NoTabInCount(c: Count)
    ensures TAB !in EncodeCount(c)
  {
    if c.Number? {
      var bs := DecimalBytes(c.n);
      forall i | 0 <= i < |bs|
        ensures bs[i] != TAB
      {
        assert IsAsciiDigit(bs[i]);
      }
    }
  }

  lemma ReadCountEncoded(c: Count, rest: seq<Byte>)
    ensures ReadCount(EncodeCount(c) + [TAB] + rest, TAB) == Some((CountValue(c), rest))
  {
    NoTabInCount(c);
    ParseCountEncoded(c);
    UntilPrefix(EncodeCount(c), TAB, rest);
  }

  predicate WellFormedPaths(p: Paths) {
    match p
    case Single(path) => |path| > 0 && NUL !in path
    case Rename(a, b) => NUL !in a && NUL !in b
  }

  lemma ReadPathsEncoded(p: Paths, rest: seq<Byte>)
    requires WellFormedPaths(p)
    ensures ReadPaths(EncodePaths(p) + rest) == Some((p, rest))
  {
    match p
    case Single(path) => ReadSingleEncoded(path, rest);
    case Rename(a, b) => ReadRenameEncoded(a, b, rest);
  }

  lemma ReadSingleEncoded(path: seq<Byte>, rest: seq<Byte>)
    requires |path| > 0 && NUL !in path
    ensures ReadPaths(path + [NUL] + rest) == Some((Single(path), rest))
  {
    var input := path + [NUL] + rest;
    assert input[0] == path[0];
    UntilPrefix(path, NUL, rest);
  }

  lemma ReadRenameEncoded(a: seq<Byte>, b: seq<Byte>, rest: seq<Byte>)
    requires NUL !in a && NUL !in b
    ensures ReadPaths([NUL] + a + [NUL] + b + [NUL] + rest) == Some((Rename(a, b), rest))
  {
    var input := [NUL] + a + [NUL] + b + [NUL] + rest;
    assert input[0] == NUL;
    assert input[1..] == a + [NUL] + (b + [NUL] + rest);
    UntilPrefix(a, NUL, b + [NUL] + rest);
    UntilPrefix(b, NUL, rest);
  }

  /** A well-formed line is read back as exactly its own record, whatever follows it. */
  lemma NextRecordEncoded(l: Line, rest: seq<Byte>)
    requires WellFormed(l)
    ensures NextRecord(EncodeLine(l) + rest) == Some((RecordOf(l), rest))
  {
    var c1 := EncodeCount(l.insertions);
    var c2 := EncodeCount(l.deletions);
    var tail := EncodePaths(l.paths) + rest;
    var input := EncodeLine(l) + rest;
    assert input == c1 + [TAB] + (c2 + [TAB] + tail);
    ReadCountEncoded(l.insertions, c2 + [TAB] + tail);
    ReadCountEncoded(l.deletions, tail);
    ReadPathsEncoded(l.paths, rest);
    NextRecordOf(input, c2 + [TAB] + tail, tail, CountValue(l.insertions), CountValue(l.deletions), l.paths, rest);
  }

  /** A record is its two counts and its paths, read one after the other. */
  lemma NextRecordOf(input: seq<Byte>, afterFirst: seq<Byte>, afterCounts: seq<Byte>,
                     insertions: U32, deletions: U32, paths: Paths, rest: seq<Byte>)
    requires ReadCount(input, TAB) == Some((insertions, afterFirst))
    requires ReadCount(afterFirst, TAB) == Some((deletions, afterCounts))
    requires ReadPaths(afterCounts) == Some((paths, rest))
    ensures NextRecord(input) == Some((Record(insertions, deletions, paths), rest))
  {
  }

  /** `input` starts with the records `recs`, one after the other, followed by `rest`. */
  ghost predicate Reads(input: seq<Byte>, recs: seq<Record>, rest: seq<Byte>)
    decreases |recs|
  {
    if recs == [] then input == rest
    else
      input != [] && NextRecord(input).Some? && NextRecord(input).value.0 == recs[0]
      && Reads(NextRecord(input).value.1, recs[1..], rest)
  }

  /** Records read one after the other are applied in order. */
  lemma {:induction false} ParseFromReads(input: seq<Byte>, recs: seq<Record>, rest: seq<Byte>, acc: Changes)
    requires Reads(input, recs, rest)
    ensures ParseFrom(input, acc) == ParseFrom(rest, ApplyAll(acc, recs))
    decreases |recs|
  {
    if recs != [] {
      ParseFromReads(NextRecord(input).value.1, recs[1..], rest, Apply(acc, recs[0]));
    }
  }

  lemma ConcatAssociative(a: seq<Byte>, b: seq<Byte>, c: seq<Byte>)
    ensures (a + b) + c == a + (b + c)
  {
  }

  /** Well-formed lines, followed by anything, are read back as their own records. */
  lemma {:induction false} ReadsEncoded(ls: seq<Line>, rest: seq<Byte>)
    requires forall i :: 0 <= i < |ls| ==> WellFormed(ls[i])
    ensures Reads(EncodeLines(ls) + rest, RecordsOf(ls), rest)
    decreases |ls|
  {
    if ls == [] {
      assert EncodeLines(ls) + rest == rest;
    } else {
      var head, lines := EncodeLine(ls[0]), EncodeLines(ls[1..]);
      assert EncodeLines(ls) == head + lines;
      ConcatAssociative(head, lines, rest);
      NextRecordEncoded(ls[0], lines + rest);
      ReadsEncoded(ls[1..], rest);
      var recs := RecordsOf(ls);
      assert recs[0] == RecordOf(ls[0]) && recs[1..] == RecordsOf(ls[1..]);
    }
  }

  /** Round trip: the records of well-formed lines, followed by anything, are applied in order. */
  lemma ParseFromEncoded(ls: seq<Line>, rest: seq<Byte>, acc: Changes)
    requires forall i :: 0 <= i < |ls| ==> WellFormed(ls[i])
    ensures ParseFrom(EncodeLines(ls) + rest, acc) == ParseFrom(rest, ApplyAll(acc, RecordsOf(ls)))
  {
    ReadsEncoded(ls, rest);
    ParseFromReads(EncodeLines(ls) + rest, RecordsOf(ls), rest, acc);
  }

  /** Parsing the output of well-formed lines gives the totals of their records. */
  lemma ParseEncoded(ls: seq<Line>)
    requires forall i :: 0 <= i < |ls| ==> WellFormed(ls[i])
    ensures ParseSpec(EncodeLines(ls)) == Some(ApplyAll(map[], RecordsOf(ls)))
  {
    ParseFromEncoded(ls, [], map[]);
    assert EncodeLines(ls) + [] == EncodeLines(ls);
  }

  /**
   * The first record of the unit test on its own: one plain record whose
   * path has no directory gives a map with exactly that path, holding its
   * counts.
   */
  lemma SingleRecord(name: seq<Byte>)
    requires |name| > 0 && NUL !in name && SLASH !in name
    ensures ParseSpec(EncodeLine(Line(Number(10), Number(0), Single(name)))) == Some(map[name := Change(10, 0)])
  {
    var l := Line(Number(10), Number(0), Single(name));
    ParseEncoded([l]);
    assert [l][1..] == [];
    assert EncodeLines([l]) == EncodeLine(l);
    TopLevelWhole(name);
    var m := ApplyAll(map[], RecordsOf([l]));
    assert m == Apply(map[], Record(10, 0, Single(name)));
  }

  /** A malformed record anywhere makes the whole result `None`, whatever came before it. */
  lemma ParseMalformedTail(ls: seq<Line>, rest: seq<Byte>)
    requires forall i :: 0 <= i < |ls| ==> WellFormed(ls[i])
    requires rest != [] && NextRecord(rest).None?
    ensures ParseSpec(EncodeLines(ls) + rest) == None
  {
    ParseFromEncoded(ls, rest, map[]);
  }

  /** Input with no TAB at all is not a numstat stream. */
  lemma ParseWithoutTab(input: seq<Byte>, acc: Changes)
    requires input != [] && TAB !in input
    ensures ParseFrom(input, acc) == None
  {
  }

  lemma ParseEmpty()
    ensures ParseSpec([]) == Some(map[])
  {
  }

  lemma TopLevelWhole(path: seq<Byte>)
    requires SLASH !in path
    ensures TopLevel(path) == path
  {
  }

  lemma TopLevelFirst(dir: seq<Byte>, rest: seq<Byte>)
    requires SLASH !in dir
    ensures TopLevel(dir + [SLASH] + rest) == dir
  {
    UntilPrefix(dir, SLASH, rest);
  }

  /** Component-wise wrapping addition of two changes. */
  function AddChanges(a: Change, b: Change): Change {
    Change(AddU32(a.insertions, b.insertions), AddU32(a.deletions, b.deletions))
  }

  /** What `rec` adds to the entry of `key`. */
  function Contribution(rec: Record, key: seq<Byte>): Change {
    match rec.paths
    case Single(p) => if TopLevel(p) == key then Change(rec.insertions, rec.deletions) else Change(0, 0)
    case Rename(a, b) =>
      Change(if TopLevel(b) == key then rec.insertions else 0, if TopLevel(a) == key then rec.deletions else 0)
  }

  /** Whether `rec` names a path under `key`, so that `key` gets an entry. */
  predicate Touches(rec: Record, key: seq<Byte>) {
    match rec.paths
    case Single(p) => TopLevel(p) == key
    case Rename(a, b) => TopLevel(a) == key || TopLevel(b) == key
  }

  /** The contributions of `recs` to `key`, added one by one to `start`. */
  function KeyTotal(start: Change, recs: seq<Record>, key: seq<Byte>): Change
    decreases |recs|
  {
    if recs == [] then start else KeyTotal(AddChanges(start, Contribution(recs[0], key)), recs[1..], key)
  }

  function Lookup(changes: Changes, key: seq<Byte>): Change {
    if key in changes then changes[key] else Change(0, 0)
  }

  lemma ApplyKey(acc: Changes, rec: Record, key: seq<Byte>)
    ensures key in Apply(acc, rec) <==> key in acc || Touches(rec, key)
    ensures key in Apply(acc, rec) ==> Apply(acc, rec)[key] == AddChanges(Lookup(acc, key), Contribution(rec, key))
  {
    var l := Lookup(acc, key);
    assert AddChanges(l, Change(0, 0)) == l;
    match rec.paths
    case Single(p) =>
      if TopLevel(p) == key {
        assert AddChanges(Change(0, 0), Change(rec.insertions, rec.deletions)) == Change(rec.insertions, rec.deletions);
      }
    case Rename(a, b) =>
      var mid := AddChange(acc, TopLevel(a), 0, rec.deletions);
      assert key in mid ==> mid[key] == AddChanges(l, Change(0, if TopLevel(a) == key then rec.deletions else 0));
  }

  /**
   * Records with the same key accumulate independently: a key has an entry
   * exactly when some record names a path under it, and its entry is the
   * wrapping sum of what each record contributes to it, in order.
   */
  lemma {:induction false} ApplyAllKey(acc: Changes, recs: seq<Record>, key: seq<Byte>)
    ensures key in ApplyAll(acc, recs) <==> key in acc || exists i :: 0 <= i < |recs| && Touches(recs[i], key)
    ensures key in ApplyAll(acc, recs) ==> ApplyAll(acc, recs)[key] == KeyTotal(Lookup(acc, key), recs, key)
    decreases |recs|
  {
    if recs != [] {
      var next := Apply(acc, recs[0]);
      ApplyKey(acc, recs[0], key);
      ApplyAllKey(next, recs[1..], key);
      if key in next {
        assert Lookup(next, key) == AddChanges(Lookup(acc, key), Contribution(recs[0], key));
      } else {
        assert Contribution(recs[0], key) == Change(0, 0);
        assert AddChanges(Lookup(acc, key), Change(0, 0)) == Lookup(acc, key);
      }
      if exists i :: 0 <= i < |recs| && Touches(recs[i], key) {
        var i :| 0 <= i < |recs| && Touches(recs[i], key);
        if i > 0 {
          assert Touches(recs[1..][i - 1], key);
        }
      }
      if exists i :: 0 <= i < |recs[1..]| && Touches(recs[1..][i], key) {
        var i :| 0 <= i < |recs[1..]| && Touches(recs[1..][i], key);
        assert Touches(recs[i + 1], key);
      }
    }
  }

  /** `KeyTotal` over six records, written out. */
  lemma KeyTotalSix(recs: seq<Record>, key: seq<Byte>)
    requires |recs| == 6
    ensures KeyTotal(Change(0, 0), recs, key) ==
      AddChanges(AddChanges(AddChanges(AddChanges(AddChanges(AddChanges(Change(0, 0),
        Contribution(recs[0], key)), Contribution(recs[1], key)), Contribution(recs[2], key)),
        Contribution(recs[3], key)), Contribution(recs[4], key)), Contribution(recs[5], key))
  {
    var z := Change(0, 0);
    var s1 := AddChanges(z, Contribution(recs[0], key));
    var s2 := AddChanges(s1, Contribution(recs[1], key));
    var s3 := AddChanges(s2, Contribution(recs[2], key));
    var s4 := AddChanges(s3, Contribution(recs[3], key));
    var s5 := AddChanges(s4, Contribution(recs[4], key));
    assert KeyTotal(s5, recs[5..], key) == AddChanges(s5, Contribution(recs[5], key));
    assert KeyTotal(s4, recs[4..], key) == KeyTotal(s5, recs[5..], key) by { assert recs[4..][1..] == recs[5..]; }
    assert KeyTotal(s3, recs[3..], key) == KeyTotal(s4, recs[4..], key) by { assert recs[3..][1..] == recs[4..]; }
    assert KeyTotal(s2, recs[2..], key) == KeyTotal(s3, recs[3..], key) by { assert recs[2..][1..] == recs[3..]; }
    assert KeyTotal(s1, recs[1..], key) == KeyTotal(s2, recs[2..], key) by { assert recs[1..][1..] == recs[2..]; }
  }

  /**
   * The stream of the unit test of the parser, over any names with its shape:
   * two plain records, two renames, a rename of a binary file, and a path
   * nested under the directory of the first rename.
   */
  function TestStream(changelog: seq<Byte>, readme: seq<Byte>, src: seq<Byte>, abc: seq<Byte>, def: seq<Byte>,
                      imgs: seq<Byte>, images: seq<Byte>, file: seq<Byte>): seq<Line>
  {
    [ Line(Number(10), Number(0), Single(changelog)),
      Line(Number(14), Number(3), Single(readme)),
      Line(Number(10), Number(1), Rename(src + [SLASH] + file, src + [SLASH] + file)),
      Line(Number(5), Number(7), Rename(abc + [SLASH] + file, def + [SLASH] + file)),
      Line(Binary, Binary, Rename(imgs + [SLASH] + file, images + [SLASH] + file)),
      Line(Number(1), Number(3), Single(src + [SLASH] + file)) ]
  }

  /** The names of the test stream: top-level names, pairwise distinct. */
  ghost predicate TestNames(changelog: seq<Byte>, readme: seq<Byte>, src: seq<Byte>, abc: seq<Byte>, def: seq<Byte>,
                            imgs: seq<Byte>, images: seq<Byte>, file: seq<Byte>)
  {
    && SLASH !in changelog && SLASH !in readme && SLASH !in src && SLASH !in abc && SLASH !in def
    && SLASH !in imgs && SLASH !in images
    && changelog != readme && changelog != src && changelog != abc && changelog != def
    && changelog != imgs && changelog != images
    && readme != src && readme != abc && readme != def && readme != imgs && readme != images
    && src != abc && src != def && src != imgs && src != images
    && abc != def && abc != imgs && abc != images
    && def != imgs && def != images && imgs != images
  }

  lemma TestStreamPlain(changelog: seq<Byte>, readme: seq<Byte>, src: seq<Byte>, abc: seq<Byte>, def: seq<Byte>,
                        imgs: seq<Byte>, images: seq<Byte>, file: seq<Byte>)
    requires TestNames(changelog, readme, src, abc, def, imgs, images, file)
    ensures
      var m := ApplyAll(map[], RecordsOf(TestStream(changelog, readme, src, abc, def, imgs, images, file)));
      && changelog in m && m[changelog] == Change(10, 0)
      && readme in m && m[readme] == Change(14, 3)
  {
    var recs := RecordsOf(TestStream(changelog, readme, src, abc, def, imgs, images, file));
    TopLevelWhole(changelog);
    TopLevelWhole(readme);
    TopLevelFirst(src, file);
    TopLevelFirst(abc, file);
    TopLevelFirst(def, file);
    TopLevelFirst(imgs, file);
    TopLevelFirst(images, file);
    forall key | key in {changelog, readme}
      ensures key in ApplyAll(map[], recs)
      ensures ApplyAll(map[], recs)[key] == KeyTotal(Change(0, 0), recs, key)
    {
      assert Touches(recs[0], changelog) && Touches(recs[1], readme) && Touches(recs[2], src);
      assert Touches(recs[3], abc) && Touches(recs[3], def) && Touches(recs[4], imgs) && Touches(recs[4], images);
      ApplyAllKey(map[], recs, key);
    }
    KeyTotalSix(recs, changelog);
    KeyTotalSix(recs, readme);
  }

  lemma TestStreamSrc(changelog: seq<Byte>, readme: seq<Byte>, src: seq<Byte>, abc: seq<Byte>, def: seq<Byte>,
                        imgs: seq<Byte>, images: seq<Byte>, file: seq<Byte>)
    requires TestNames(changelog, readme, src, abc, def, imgs, images, file)
    ensures
      var m := ApplyAll(map[], RecordsOf(TestStream(changelog, readme, src, abc, def, imgs, images, file)));
      && src in m && m[src] == Change(11, 4)
  {
    var recs := RecordsOf(TestStream(changelog, readme, src, abc, def, imgs, images, file));
    SrcContributions(changelog, readme, src, abc, def, imgs, images, file);
    ApplyAllKey(map[], recs, src);
    KeyTotalSix(recs, src);
  }

  lemma SrcContributions(changelog: seq<Byte>, readme: seq<Byte>, src: seq<Byte>, abc: seq<Byte>, def: seq<Byte>,
                         imgs: seq<Byte>, images: seq<Byte>, file: seq<Byte>)
    requires TestNames(changelog, readme, src, abc, def, imgs, images, file)
    ensures var recs := RecordsOf(TestStream(changelog, readme, src, abc, def, imgs, images, file));
      && Touches(recs[2], src)
      && Contribution(recs[0], src) == Change(0, 0) && Contribution(recs[1], src) == Change(0, 0)
      && Contribution(recs[2], src) == Change(10, 1) && Contribution(recs[3], src) == Change(0, 0)
      && Contribution(recs[4], src) == Change(0, 0) && Contribution(recs[5], src) == Change(1, 3)
  {
    TopLevelWhole(changelog);
    TopLevelWhole(readme);
    TopLevelFirst(src, file);
    TopLevelFirst(abc, file);
    TopLevelFirst(def, file);
    TopLevelFirst(imgs, file);
    TopLevelFirst(images, file);
  }

  lemma TestStreamRenames(changelog: seq<Byte>, readme: seq<Byte>, src: seq<Byte>, abc: seq<Byte>, def: seq<Byte>,
                        imgs: seq<Byte>, images: seq<Byte>, file: seq<Byte>)
    requires TestNames(changelog, readme, src, abc, def, imgs, images, file)
    ensures
      var m := ApplyAll(map[], RecordsOf(TestStream(changelog, readme, src, abc, def, imgs, images, file)));
      && abc in m && m[abc] == Change(0, 7)
      && def in m && m[def] == Change(5, 0)
      && imgs in m && m[imgs] == Change(0, 0)
      && images in m && m[images] == Change(0, 0)
  {
    var recs := RecordsOf(TestStream(changelog, readme, src, abc, def, imgs, images, file));
    TopLevelWhole(changelog);
    TopLevelWhole(readme);
    TopLevelFirst(src, file);
    TopLevelFirst(abc, file);
    TopLevelFirst(def, file);
    TopLevelFirst(imgs, file);
    TopLevelFirst(images, file);
    forall key | key in {abc, def, imgs, images}
      ensures key in ApplyAll(map[], recs)
      ensures ApplyAll(map[], recs)[key] == KeyTotal(Change(0, 0), recs, key)
    {
      assert Touches(recs[0], changelog) && Touches(recs[1], readme) && Touches(recs[2], src);
      assert Touches(recs[3], abc) && Touches(recs[3], def) && Touches(recs[4], imgs) && Touches(recs[4], images);
      ApplyAllKey(map[], recs, key);
    }
    KeyTotalSix(recs, abc);
    KeyTotalSix(recs, def);
    KeyTotalSix(recs, imgs);
    KeyTotalSix(recs, images);
    assert Contribution(recs[3], abc) == Change(0, 7) && Contribution(recs[3], def) == Change(5, 0);
    assert Contribution(recs[4], imgs) == Change(0, 0) && Contribution(recs[4], images) == Change(0, 0);
  }

  /**
   * The totals the unit test of the parser expects, key by key (the parser
   * returns these totals for the encoded stream, by `ParseEncoded`): `10 0
   * CHANGELOG.md`, `14 3 README.md`, a rename inside `src`, a rename from
   * `abc` to `def`, a binary rename from `imgs` to `images`, then `1 3` in
   * `src` again.
   */
  lemma TestStreamTotals(changelog: seq<Byte>, readme: seq<Byte>, src: seq<Byte>, abc: seq<Byte>, def: seq<Byte>,
                        imgs: seq<Byte>, images: seq<Byte>, file: seq<Byte>)
    requires TestNames(changelog, readme, src, abc, def, imgs, images, file)
    ensures
      var m := ApplyAll(map[], RecordsOf(TestStream(changelog, readme, src, abc, def, imgs, images, file)));
      && changelog in m && m[changelog] == Change(10, 0)
      && readme in m && m[readme] == Change(14, 3)
      && src in m && m[src] == Change(11, 4)
      && abc in m && m[abc] == Change(0, 7)
      && def in m && m[def] == Change(5, 0)
      && imgs in m && m[imgs] == Change(0, 0)
      && images in m && m[images] == Change(0, 0)
  {
    TestStreamPlain(changelog, readme, src, abc, def, imgs, images, file);
    TestStreamSrc(changelog, readme, src, abc, def, imgs, images, file);
    TestStreamRenames(changelog, readme, src, abc, def, imgs, images, file);
  }

  // ---------------------------------------------------------------------
  // The collector
  // ---------------------------------------------------------------------

  /** How the `git` child process ended, when it could be started. */
  datatype GitRun = SpawnFailed | Finished(success: bool, stdout: seq<Byte>)

  /**
   * `collect`. `arrivedInTime` is the outcome of `recv_timeout`: whether the
   * worker thread's message came before the configured timeout. Without a
   * timeout the receive waits, and the worker always sends.
   */
  function Collect(collector: Config.Collector, run: GitRun, arrivedInTime: bool): (r: Option<Changes>)
    ensures r.None? <==> !collector.gitDiff || run.SpawnFailed? || (collector.timeout.Some? && !arrivedInTime)
    ensures r.Some? && !run.success ==> r.value == map[]
    ensures r.Some? && run.success && ParseSpec(run.stdout).None? ==> r.value == map[]
    ensures r.Some? && run.success && ParseSpec(run.stdout).Some? ==> r == ParseSpec(run.stdout)
  {
    if !collector.gitDiff then None
    else if run.SpawnFailed? then None
    else
      var sent := if run.success then ParseSpec(run.stdout).GetOr(map[]) else map[];
      if collector.timeout.Some? && !arrivedInTime then None else Some(sent)
  }
}
