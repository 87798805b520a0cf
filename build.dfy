/**
 * The build script that generates `MimeType::from_extension`.
 *
 * It reads the `shared-mime-info` XML document, collects for each MIME type
 * name (the part before `/`) the extensions of its simple `*.ext` globs,
 * each extension going to the first type that lists it, then stores the
 * extensions in a byte trie and turns the trie into nested `match`
 * expressions over the bytes of a file extension.
 *
 * The document is given already parsed (reading and decompressing the file
 * is left out), and the generated code is a `Code` value with an evaluator
 * in place of the token stream.
 */
module Build {
  import opened Common
  import Utf8

  /** An XML node: elements are known by their local name. */
  datatype Node =
    | Text(text: string)
    | Element(name: string, attributes: map<string, string>, children: seq<Node>)

  datatype Outcome<T> = Ok(value: T) | Err(message: string)

  /** The extensions of every MIME type name. */
  type MimeTypes = map<string, seq<string>>

  /**
   * `char::is_alphanumeric`: ASCII letters and digits; beyond ASCII, the
   * Unicode `Alphabetic` and `Numeric` properties, given as `unicode`.
   */
  predicate IsAlphanumeric(c: char, unicode: char -> bool) {
    if c as int < 0x80 then 'a' <= c <= 'z' || 'A' <= c <= 'Z' || '0' <= c <= '9' else unicode(c)
  }

  predicate AllAlphanumeric(s: string, unicode: char -> bool) {
    forall i :: 0 <= i < |s| ==> IsAlphanumeric(s[i], unicode)
  }

  /**
   * `parse_glob_elem`: the extension of a `<glob>` element whose pattern is
   * `*.` followed by alphanumeric characters only (possibly none).
   */
  function ParseGlobElem(node: Node, unicode: char -> bool): (ext: Option<string>)
    ensures ext.Some? <==>
      && node.Element? && node.name == "glob" && "pattern" in node.attributes
      && |node.attributes["pattern"]| >= 2 && node.attributes["pattern"][..2] == "*."
      && AllAlphanumeric(node.attributes["pattern"][2..], unicode)
    ensures ext.Some? ==> node.attributes["pattern"] == "*." + ext.value && AllAlphanumeric(ext.value, unicode)
  {
    if !node.Element? || node.name != "glob" || "pattern" !in node.attributes then None
    else
      var pattern := node.attributes["pattern"];
      if |pattern| >= 2 && pattern[..2] == "*." && AllAlphanumeric(pattern[2..], unicode) then Some(pattern[2..])
      else None
  }

  /** `split('/').next()`: the text before the first `/`, or all of it. */
  function FirstSegment(s: string): (r: string)
    ensures |r| <= |s| && r == s[..|r|]
    ensures forall i :: 0 <= i < |r| ==> r[i] != '/'
    ensures |r| < |s| ==> s[|r|] == '/'
  {
    if s == [] || s[0] == '/' then "" else [s[0]] + FirstSegment(s[1..])
  }

  /** The name of a `<mime-type>` element: its `type` before the first `/`, kept only if alphanumeric. */
  function MimeName(elem: Node, unicode: char -> bool): (name: Option<string>)
    requires elem.Element?
    ensures name.Some? <==> "type" in elem.attributes && AllAlphanumeric(FirstSegment(elem.attributes["type"]), unicode)
    ensures name.Some? ==> name.value == FirstSegment(elem.attributes["type"])
  {
    if "type" in elem.attributes && AllAlphanumeric(FirstSegment(elem.attributes["type"]), unicode)
    then Some(FirstSegment(elem.attributes["type"]))
    else None
  }

  /** The (type, extension) pairs the globs among `nodes` give, in document order. */
  function GlobPairs(mimeType: string, nodes: seq<Node>, unicode: char -> bool): seq<(string, string)> {
    if nodes == [] then []
    else
      var ext := ParseGlobElem(nodes[|nodes| - 1], unicode);
      GlobPairs(mimeType, nodes[..|nodes| - 1], unicode) + (if ext.Some? then [(mimeType, ext.value)] else [])
  }

  /** The (type, extension) pairs of every `<mime-type>` among `nodes` that has a usable name. */
  function Pairs(nodes: seq<Node>, unicode: char -> bool): seq<(string, string)> {
    if nodes == [] then []
    else
      var elem := nodes[|nodes| - 1];
      Pairs(nodes[..|nodes| - 1], unicode) + MimeTypePairs(elem, unicode)
  }

  function MimeTypePairs(elem: Node, unicode: char -> bool): seq<(string, string)> {
    if elem.Element? && elem.name == "mime-type" && MimeName(elem, unicode).Some?
    then GlobPairs(MimeName(elem, unicode).value, elem.children, unicode)
    else []
  }

  lemma GlobPairsSnoc(mimeType: string, nodes: seq<Node>, j: nat, unicode: char -> bool)
    requires j < |nodes|
    ensures var ext := ParseGlobElem(nodes[j], unicode);
      GlobPairs(mimeType, nodes[..j + 1], unicode)
        == GlobPairs(mimeType, nodes[..j], unicode) + (if ext.Some? then [(mimeType, ext.value)] else [])
  {
    assert nodes[..j + 1][..j] == nodes[..j];
  }

  lemma PairsSnoc(nodes: seq<Node>, i: nat, unicode: char -> bool)
    requires i < |nodes|
    ensures Pairs(nodes[..i + 1], unicode) == Pairs(nodes[..i], unicode) + MimeTypePairs(nodes[i], unicode)
  {
    assert nodes[..i + 1][..i] == nodes[..i];
  }

  /** Every extension of the pairs is alphanumeric. */
  predicate AlphanumericPairs(ps: seq<(string, string)>, unicode: char -> bool) {
    forall i :: 0 <= i < |ps| ==> AllAlphanumeric(ps[i].1, unicode)
  }

  lemma AlphanumericConcat(a: seq<(string, string)>, b: seq<(string, string)>, unicode: char -> bool)
    requires AlphanumericPairs(a, unicode) && AlphanumericPairs(b, unicode)
    ensures AlphanumericPairs(a + b, unicode)
  {
    forall i | 0 <= i < |a + b|
      ensures AllAlphanumeric((a + b)[i].1, unicode)
    {
      if i < |a| {
        assert (a + b)[i] == a[i];
      } else {
        assert (a + b)[i] == b[i - |a|];
      }
    }
  }

  /** Only alphanumeric extensions are collected. */
  lemma {:induction false} PairsAlphanumeric(nodes: seq<Node>, unicode: char -> bool)
    ensures AlphanumericPairs(Pairs(nodes, unicode), unicode)
  {
    if nodes != [] {
      var init := nodes[..|nodes| - 1];
      PairsAlphanumeric(init, unicode);
      var elem := nodes[|nodes| - 1];
      if elem.Element? && elem.name == "mime-type" && MimeName(elem, unicode).Some? {
        GlobPairsAlphanumeric(MimeName(elem, unicode).value, elem.children, unicode);
      }
      AlphanumericConcat(Pairs(init, unicode), MimeTypePairs(elem, unicode), unicode);
    }
  }

  lemma {:induction false} GlobPairsAlphanumeric(mimeType: string, nodes: seq<Node>, unicode: char -> bool)
    ensures AlphanumericPairs(GlobPairs(mimeType, nodes, unicode), unicode)
  {
    if nodes != [] {
      var init := nodes[..|nodes| - 1];
      GlobPairsAlphanumeric(mimeType, init, unicode);
      var ext := ParseGlobElem(nodes[|nodes| - 1], unicode);
      var last := if ext.Some? then [(mimeType, ext.value)] else [];
      AlphanumericConcat(GlobPairs(mimeType, init, unicode), last, unicode);
    }
  }

  /** The extensions seen so far, and the extensions of each type. */
  datatype Collected = Collected(found: set<string>, mimeTypes: MimeTypes)

  /** One glob: the extension goes to the type unless an earlier type has it. */
  function Assign(c: Collected, pair: (string, string)): Collected {
    var (mimeType, ext) := pair;
    if ext in c.found then c
    else
      var exts := if mimeType in c.mimeTypes then c.mimeTypes[mimeType] else [];
      Collected(c.found + {ext}, c.mimeTypes[mimeType := exts + [ext]])
  }

  lemma AssignUnfold(c: Collected, mimeType: string, ext: string)
    ensures Assign(c, (mimeType, ext))
      == if ext in c.found then c
         else Collected(c.found + {ext}, c.mimeTypes[mimeType := (if mimeType in c.mimeTypes then c.mimeTypes[mimeType] else []) + [ext]])
  {
  }

  function AssignAll(pairs: seq<(string, string)>): Collected {
    if pairs == [] then Collected({}, map[]) else Assign(AssignAll(pairs[..|pairs| - 1]), pairs[|pairs| - 1])
  }

  /** `parse_mime_data` once the document is read. */
  function MimeData(root: Node, unicode: char -> bool): (r: Outcome<MimeTypes>)
    ensures r.Err? <==> !(root.Element? && root.name == "mime-info")
  {
    if !(root.Element? && root.name == "mime-info") then Err("Expected <mime-info> as the root element")
    else Ok(AssignAll(Pairs(root.children, unicode)).mimeTypes)
  }

  /** The type of the first pair that carries `ext`. */
  function FirstOwner(pairs: seq<(string, string)>, ext: string): Option<string> {
    if pairs == [] then None
    else
      var owner := FirstOwner(pairs[..|pairs| - 1], ext);
      if owner.Some? then owner
      else if pairs[|pairs| - 1].1 == ext then Some(pairs[|pairs| - 1].0)
      else None
  }

  /** No extension is listed twice, whether under one type or two. */
  predicate Distinct(m: MimeTypes) {
    forall t1, t2, i, j ::
      t1 in m && t2 in m && 0 <= i < |m[t1]| && 0 <= j < |m[t2]| && m[t1][i] == m[t2][j]
      ==> t1 == t2 && i == j
  }

  /** What the collection keeps true after each glob. */
  ghost predicate Collects(c: Collected, pairs: seq<(string, string)>) {
    && (forall ext :: ext in c.found <==> FirstOwner(pairs, ext).Some?)
    && (forall t, i :: t in c.mimeTypes && 0 <= i < |c.mimeTypes[t]| ==> FirstOwner(pairs, c.mimeTypes[t][i]) == Some(t))
    && (forall ext :: FirstOwner(pairs, ext).Some? ==>
          var t := FirstOwner(pairs, ext).value; t in c.mimeTypes && ext in c.mimeTypes[t])
    && Distinct(c.mimeTypes)
  }

  lemma {:induction false} AssignAllCollects(pairs: seq<(string, string)>)
    ensures Collects(AssignAll(pairs), pairs)
  {
    if pairs != [] {
      var init := pairs[..|pairs| - 1];
      AssignAllCollects(init);
      AssignCollects(AssignAll(init), init, pairs[|pairs| - 1]);
      assert init + [pairs[|pairs| - 1]] == pairs;
    }
  }

  lemma AssignCollects(c: Collected, init: seq<(string, string)>, pair: (string, string))
    requires Collects(c, init)
    ensures Collects(Assign(c, pair), init + [pair])
  {
    var pairs := init + [pair];
    assert pairs[..|pairs| - 1] == init;
    var (mimeType, ext) := pair;
    if ext !in c.found {
      var prev := if mimeType in c.mimeTypes then c.mimeTypes[mimeType] else [];
      var m := c.mimeTypes[mimeType := prev + [ext]];
      assert FirstOwner(pairs, ext) == Some(mimeType);
      forall t, i | t in m && 0 <= i < |m[t]|
        ensures FirstOwner(pairs, m[t][i]) == Some(t)
      {
        if t == mimeType && i == |prev| {
        } else {
          assert m[t][i] == c.mimeTypes[t][i];
        }
      }
      forall t1, t2, i, j | t1 in m && t2 in m && 0 <= i < |m[t1]| && 0 <= j < |m[t2]| && m[t1][i] == m[t2][j]
        ensures t1 == t2 && i == j
      {
        var last1 := t1 == mimeType && i == |prev|;
        var last2 := t2 == mimeType && j == |prev|;
        if !last1 {
          assert m[t1][i] == c.mimeTypes[t1][i];
        }
        if !last2 {
          assert m[t2][j] == c.mimeTypes[t2][j];
        }
      }
    }
  }

  /**
   * Each extension is listed under exactly one type, the one of the first
   * glob that carries it, and no extension is listed twice.
   */
  lemma MimeDataOwners(root: Node, unicode: char -> bool)
    requires MimeData(root, unicode).Ok?
    ensures var m := MimeData(root, unicode).value;
      var pairs := Pairs(root.children, unicode);
      && (forall t, ext :: t in m && ext in m[t] <==> FirstOwner(pairs, ext) == Some(t))
      && Distinct(m)
  {
    var pairs := Pairs(root.children, unicode);
    AssignAllCollects(pairs);
    var m := MimeData(root, unicode).value;
    forall t, ext | t in m && ext in m[t]
      ensures FirstOwner(pairs, ext) == Some(t)
    {
      var i :| 0 <= i < |m[t]| && m[t][i] == ext;
    }
  }

  /** Every collected extension is alphanumeric, so none holds a NUL character. */
  lemma MimeDataAlphanumeric(root: Node, unicode: char -> bool)
    requires MimeData(root, unicode).Ok?
    ensures var m := MimeData(root, unicode).value;
      forall t, i :: t in m && 0 <= i < |m[t]| ==> AllAlphanumeric(m[t][i], unicode)
  {
    var pairs := Pairs(root.children, unicode);
    AssignAllCollects(pairs);
    PairsAlphanumeric(root.children, unicode);
    var m := MimeData(root, unicode).value;
    forall t, i | t in m && 0 <= i < |m[t]|
      ensures AllAlphanumeric(m[t][i], unicode)
    {
      FirstOwnerIn(pairs, m[t][i]);
    }
  }

  /** The first owner is the type of some pair with that extension. */
  lemma {:induction false} FirstOwnerIn(pairs: seq<(string, string)>, ext: string)
    ensures FirstOwner(pairs, ext).Some? ==> exists i :: 0 <= i < |pairs| && pairs[i] == (FirstOwner(pairs, ext).value, ext)
  {
    if pairs != [] {
      var init := pairs[..|pairs| - 1];
      FirstOwnerIn(init, ext);
      if FirstOwner(init, ext).Some? {
        var i :| 0 <= i < |init| && init[i] == (FirstOwner(init, ext).value, ext);
        assert pairs[i] == init[i];
      }
    }
  }

  /** `parse_mime_data`: the root check, then every glob of every named `<mime-type>`, in order. */
  method ParseMimeData(root: Node, unicode: char -> bool) returns (r: Outcome<MimeTypes>)
    ensures r == MimeData(root, unicode)
  {
    if !(root.Element? && root.name == "mime-info") {
      return Err("Expected <mime-info> as the root element");
    }

    var nodes := root.children;
    var c := Collected({}, map[]);
    var i := 0;
    while i < |nodes|
      invariant i <= |nodes|
      invariant c == AssignAll(Pairs(nodes[..i], unicode))
    {
      PairsSnoc(nodes, i, unicode);
      AssignAllConcat(Pairs(nodes[..i], unicode), MimeTypePairs(nodes[i], unicode));
      c := CollectMimeType(c, nodes[i], unicode);
      i := i + 1;
    }
    assert nodes[..i] == nodes;
    return Ok(c.mimeTypes);
  }

  /** One child of the root: the globs of a `<mime-type>` with a usable name, or nothing. */
  method CollectMimeType(c0: Collected, elem: Node, unicode: char -> bool) returns (c: Collected)
    ensures c == AssignFrom(c0, MimeTypePairs(elem, unicode))
  {
    c := c0;
    if elem.Element? && elem.name == "mime-type" {
      var mimeType := MimeName(elem, unicode);
      if mimeType.Some? {
        c := CollectGlobs(c, mimeType.value, elem.children, unicode);
      }
    }
  }

  /** The inner loop of `parse_mime_data`: the globs of one `<mime-type>`. */
  method CollectGlobs(c0: Collected, mimeType: string, nodes: seq<Node>, unicode: char -> bool) returns (c: Collected)
    ensures c == AssignFrom(c0, GlobPairs(mimeType, nodes, unicode))
  {
    c := c0;
    var found := c.found;
    var mimeTypes := c.mimeTypes;
    var j := 0;
    while j < |nodes|
      invariant j <= |nodes|
      invariant Collected(found, mimeTypes) == AssignFrom(c0, GlobPairs(mimeType, nodes[..j], unicode))
    {
      GlobPairsSnoc(mimeType, nodes, j, unicode);
      var ext := ParseGlobElem(nodes[j], unicode);
      if ext.None? {
        assert GlobPairs(mimeType, nodes[..j + 1], unicode) == GlobPairs(mimeType, nodes[..j], unicode);
      } else {
        AssignFromSnoc(c0, GlobPairs(mimeType, nodes[..j], unicode), (mimeType, ext.value));
        AssignUnfold(Collected(found, mimeTypes), mimeType, ext.value);
        if ext.value !in found {
          found := found + {ext.value};
          var exts := if mimeType in mimeTypes then mimeTypes[mimeType] else [];
          mimeTypes := mimeTypes[mimeType := exts + [ext.value]];
        }
      }
      j := j + 1;
    }
    assert nodes[..j] == nodes;
    c := Collected(found, mimeTypes);
  }

  /** The collection continued from `c` over more pairs. */
  function AssignFrom(c: Collected, pairs: seq<(string, string)>): Collected {
    if pairs == [] then c else Assign(AssignFrom(c, pairs[..|pairs| - 1]), pairs[|pairs| - 1])
  }

  lemma AssignFromSnoc(c: Collected, pairs: seq<(string, string)>, pair: (string, string))
    ensures AssignFrom(c, pairs + [pair]) == Assign(AssignFrom(c, pairs), pair)
  {
    assert (pairs + [pair])[..|pairs|] == pairs;
  }

  /** Collecting over two runs of pairs is collecting over the first, then continuing over the second. */
  lemma {:induction false} AssignAllConcat(a: seq<(string, string)>, b: seq<(string, string)>)
    ensures AssignAll(a + b) == AssignFrom(AssignAll(a), b)
  {
    if b == [] {
      assert a + b == a;
    } else {
      var init := b[..|b| - 1];
      AssignAllConcat(a, init);
      assert (a + b)[..|a + b| - 1] == a + init;
    }
  }

  /**
   * The values tree (`ValuesTree`): every node, named by the byte path from
   * the root, with the MIME type stored at it. The type of an extension is
   * kept at the key-0 child below its bytes.
   */
  type Tree = map<seq<Byte>, Option<string>>

  /** The node for every byte of the path in turn: `entry(byte).or_default()` keeps a node that is there. */
  function Walk(tree: Tree, path: seq<Byte>): Tree {
    if path == [] then tree
    else
      var w := Walk(tree, path[..|path| - 1]);
      if path in w then w else w[path := None]
  }

  /** One extension: its path, then the type at the key-0 child; a type already there is the duplicate panic. */
  function InsertExt(tree: Tree, mimeType: string, bytes: seq<Byte>): Option<Tree> {
    var w := Walk(tree, bytes);
    var leaf := bytes + [0];
    if leaf in w && w[leaf].Some? then None else Some(w[leaf := Some(mimeType)])
  }

  /** The extensions of one type, in order. */
  function InsertAll(tree: Tree, mimeType: string, exts: seq<string>): Option<Tree> {
    if exts == [] then Some(tree)
    else
      var prev := InsertAll(tree, mimeType, exts[..|exts| - 1]);
      if prev.None? then None else InsertExt(prev.value, mimeType, Utf8.EncodeString(exts[|exts| - 1]))
  }

  /** `order` lists every type once: the order in which the map of types is iterated. */
  predicate IsOrder(mimeTypes: MimeTypes, order: seq<string>) {
    && (forall i :: 0 <= i < |order| ==> order[i] in mimeTypes)
    && (forall t :: t in mimeTypes ==> t in order)
    && (forall i, j :: 0 <= i < j < |order| ==> order[i] != order[j])
  }

  /** `build_values_tree`, visiting the types in `order`; `None` is the duplicate panic. */
  function BuildTree(mimeTypes: MimeTypes, order: seq<string>): Option<Tree>
    requires forall i :: 0 <= i < |order| ==> order[i] in mimeTypes
  {
    if order == [] then Some(map[])
    else
      var prev := BuildTree(mimeTypes, order[..|order| - 1]);
      if prev.None? then None else InsertAll(prev.value, order[|order| - 1], mimeTypes[order[|order| - 1]])
  }

  /** `build_values_tree`. */
  method BuildValuesTree(mimeTypes: MimeTypes, order: seq<string>) returns (r: Option<Tree>)
    requires IsOrder(mimeTypes, order)
    ensures r == BuildTree(mimeTypes, order)
  {
    var tree: Tree := map[];
    var i := 0;
    while i < |order|
      invariant i <= |order|
      invariant BuildTree(mimeTypes, order[..i]) == Some(tree)
    {
      assert order[..i + 1][..i] == order[..i];
      var next := InsertExtensions(tree, order[i], mimeTypes[order[i]]);
      if next.None? {
        BuildTreeNone(mimeTypes, order, i + 1);
        return None;
      }
      tree := next.value;
      i := i + 1;
    }
    assert order[..i] == order;
    return Some(tree);
  }

  /** The inner loop of `build_values_tree`: the extensions of one type. */
  method InsertExtensions(tree0: Tree, mimeType: string, exts: seq<string>) returns (r: Option<Tree>)
    ensures r == InsertAll(tree0, mimeType, exts)
  {
    var tree := tree0;
    var j := 0;
    while j < |exts|
      invariant j <= |exts|
      invariant InsertAll(tree0, mimeType, exts[..j]) == Some(tree)
    {
      assert exts[..j + 1][..j] == exts[..j];
      var next := InsertExtension(tree, mimeType, exts[j]);
      if next.None? {
        InsertAllNone(tree0, mimeType, exts, j + 1);
        return None;
      }
      tree := next.value;
      j := j + 1;
    }
    assert exts[..j] == exts;
    return Some(tree);
  }

  /** One extension: a node for each of its bytes, then the type at the key-0 child. */
  method InsertExtension(tree: Tree, mimeType: string, ext: string) returns (r: Option<Tree>)
    ensures r == InsertExt(tree, mimeType, Utf8.EncodeString(ext))
  {
    var bytes := Utf8.EncodeString(ext);
    var node := tree;
    var k := 0;
    while k < |bytes|
      invariant k <= |bytes|
      invariant node == Walk(tree, bytes[..k])
    {
      assert bytes[..k + 1][..k] == bytes[..k];
      var path := bytes[..k + 1];
      if path !in node {
        node := node[path := None];
      }
      k := k + 1;
    }
    assert bytes[..k] == bytes;
    var leaf := bytes + [0];
    if leaf in node && node[leaf].Some? {
      return None;
    }
    return Some(node[leaf := Some(mimeType)]);
  }

  /** Once an extension panics, the whole type does. */
  lemma {:induction false} InsertAllNone(tree: Tree, mimeType: string, exts: seq<string>, j: nat)
    requires j <= |exts| && InsertAll(tree, mimeType, exts[..j]).None?
    ensures InsertAll(tree, mimeType, exts).None?
    decreases |exts| - j
  {
    if j < |exts| {
      assert exts[..j + 1][..j] == exts[..j];
      InsertAllNone(tree, mimeType, exts, j + 1);
    } else {
      assert exts[..j] == exts;
    }
  }

  /** Once a type panics, the whole build does. */
  lemma {:induction false} BuildTreeNone(mimeTypes: MimeTypes, order: seq<string>, i: nat)
    requires forall k :: 0 <= k < |order| ==> order[k] in mimeTypes
    requires i <= |order| && BuildTree(mimeTypes, order[..i]).None?
    ensures BuildTree(mimeTypes, order).None?
    decreases |order| - i
  {
    if i < |order| {
      assert order[..i + 1][..i] == order[..i];
      BuildTreeNone(mimeTypes, order, i + 1);
    } else {
      assert order[..i] == order;
    }
  }

  predicate ZeroFree(bytes: seq<Byte>) {
    forall i :: 0 <= i < |bytes| ==> bytes[i] != 0
  }

  /** Paths are not empty, and exactly the paths a 0 byte ends hold a type. */
  ghost predicate TypedAtZero(tree: Tree) {
    forall q :: q in tree ==> q != [] && (tree[q].Some? <==> q[|q| - 1] == 0)
  }

  /** The parent of every node is there. */
  ghost predicate ParentsIn(tree: Tree) {
    forall q :: q in tree && |q| > 1 ==> q[..|q| - 1] in tree
  }

  /** A 0 byte only ends a path. */
  ghost predicate ZeroOnlyLast(tree: Tree) {
    forall q, i :: q in tree && 0 <= i < |q| - 1 ==> q[i] != 0
  }

  /** Every type in the tree is a stored pair ... */
  ghost predicate TypesStored(tree: Tree, stored: set<(string, seq<Byte>)>) {
    forall q :: q in tree && q != [] && tree[q].Some? ==> (tree[q].value, q[..|q| - 1]) in stored
  }

  /** ... and every stored pair is in the tree. */
  ghost predicate StoredInTree(tree: Tree, stored: set<(string, seq<Byte>)>) {
    forall p :: p in stored ==> p.1 + [0] in tree && tree[p.1 + [0]] == Some(p.0)
  }

  /**
   * The shape the builder keeps: paths are not empty and every parent is
   * there; a 0 byte only ends a path, and exactly the paths it ends hold a
   * type; those are the stored pairs of type and extension bytes.
   */
  ghost predicate TreeInv(tree: Tree, stored: set<(string, seq<Byte>)>) {
    && TypedAtZero(tree)
    && ParentsIn(tree)
    && ZeroOnlyLast(tree)
    && TypesStored(tree, stored)
    && StoredInTree(tree, stored)
  }

  /** A new node that respects the shape keeps it, and a type stored at it is one more stored pair. */
  lemma AddNode(tree: Tree, stored: set<(string, seq<Byte>)>, q: seq<Byte>, v: Option<string>)
    requires TreeInv(tree, stored)
    requires q !in tree && q != []
    requires |q| > 1 ==> q[..|q| - 1] in tree
    requires ZeroFree(q[..|q| - 1])
    requires v.Some? <==> q[|q| - 1] == 0
    ensures TreeInv(tree[q := v], stored + (if v.Some? then {(v.value, q[..|q| - 1])} else {}))
  {
    var t := tree[q := v];
    var s := stored + (if v.Some? then {(v.value, q[..|q| - 1])} else {});
    AddTyped(tree, q, v);
    AddParents(tree, q, v);
    AddZero(tree, q, v);
    AddTypesStored(tree, stored, q, v);
    AddStoredInTree(tree, stored, q, v);
  }

  lemma AddTyped(tree: Tree, q: seq<Byte>, v: Option<string>)
    requires TypedAtZero(tree) && q != [] && (v.Some? <==> q[|q| - 1] == 0)
    ensures TypedAtZero(tree[q := v])
  {
    var t := tree[q := v];
    forall r | r in t
      ensures r != [] && (t[r].Some? <==> r[|r| - 1] == 0)
    {
      if r != q {
        assert r in tree && t[r] == tree[r];
      }
    }
  }

  lemma AddParents(tree: Tree, q: seq<Byte>, v: Option<string>)
    requires ParentsIn(tree) && (|q| > 1 ==> q[..|q| - 1] in tree)
    ensures ParentsIn(tree[q := v])
  {
    var t := tree[q := v];
    forall r | r in t && |r| > 1
      ensures r[..|r| - 1] in t
    {
      if r != q {
        assert r in tree;
      }
    }
  }

  lemma AddZero(tree: Tree, q: seq<Byte>, v: Option<string>)
    requires ZeroOnlyLast(tree) && ZeroFree(q[..Max(|q|, 1) - 1])
    ensures ZeroOnlyLast(tree[q := v])
  {
    var t := tree[q := v];
    forall r, i | r in t && 0 <= i < |r| - 1
      ensures r[i] != 0
    {
      if r == q {
        assert r[i] == q[..|q| - 1][i];
      }
    }
  }

  lemma AddTypesStored(tree: Tree, stored: set<(string, seq<Byte>)>, q: seq<Byte>, v: Option<string>)
    requires TypesStored(tree, stored) && q != []
    ensures TypesStored(tree[q := v], stored + (if v.Some? then {(v.value, q[..|q| - 1])} else {}))
  {
  }

  lemma AddStoredInTree(tree: Tree, stored: set<(string, seq<Byte>)>, q: seq<Byte>, v: Option<string>)
    requires StoredInTree(tree, stored) && q !in tree && q != [] && (v.Some? ==> q[|q| - 1] == 0)
    ensures StoredInTree(tree[q := v], stored + (if v.Some? then {(v.value, q[..|q| - 1])} else {}))
  {
    var t := tree[q := v];
    if v.Some? {
      assert q[..|q| - 1] + [0] == q;
    }
    forall p | p in stored
      ensures p.1 + [0] in t && t[p.1 + [0]] == Some(p.0)
    {
      assert p.1 + [0] in tree;
    }
  }

  /** Walking a path without 0 bytes keeps the shape and makes every node of the path. */
  lemma {:induction false} WalkInv(tree: Tree, stored: set<(string, seq<Byte>)>, path: seq<Byte>)
    requires TreeInv(tree, stored) && ZeroFree(path)
    ensures TreeInv(Walk(tree, path), stored)
    ensures path != [] ==> path in Walk(tree, path)
  {
    if path != [] {
      var init := path[..|path| - 1];
      WalkInv(tree, stored, init);
      var w := Walk(tree, init);
      if path !in w {
        AddNode(w, stored, path, None);
        assert stored + {} == stored;
      }
    }
  }

  /** Bytes not stored yet go in without the panic, as one more stored pair. */
  lemma InsertExtInv(tree: Tree, stored: set<(string, seq<Byte>)>, mimeType: string, bytes: seq<Byte>)
    requires TreeInv(tree, stored) && ZeroFree(bytes)
    requires forall p :: p in stored ==> p.1 != bytes
    ensures InsertExt(tree, mimeType, bytes).Some?
    ensures TreeInv(InsertExt(tree, mimeType, bytes).value, stored + {(mimeType, bytes)})
  {
    WalkInv(tree, stored, bytes);
    var w := Walk(tree, bytes);
    var leaf := bytes + [0];
    assert leaf[..|leaf| - 1] == bytes;
    assert leaf !in w;
    AddNode(w, stored, leaf, Some(mimeType));
  }

  /** The encoding of strings is one to one. */
  lemma EncodeInjective(a: string, b: string)
    requires a != b
    ensures Utf8.EncodeString(a) != Utf8.EncodeString(b)
  {
    Utf8.DecodeEncodeString(a);
    Utf8.DecodeEncodeString(b);
  }

  predicate NoNul(s: string) {
    forall i :: 0 <= i < |s| ==> s[i] != '\0'
  }

  /** The stored pairs the extensions of one type give. */
  ghost function Tagged(mimeType: string, exts: seq<string>): set<(string, seq<Byte>)> {
    set e | e in exts :: (mimeType, Utf8.EncodeString(e))
  }

  lemma TaggedMember(mimeType: string, exts: seq<string>, e: string)
    requires e in exts
    ensures (mimeType, Utf8.EncodeString(e)) in Tagged(mimeType, exts)
  {
  }

  lemma TaggedSnoc(mimeType: string, exts: seq<string>)
    requires exts != []
    ensures Tagged(mimeType, exts)
      == Tagged(mimeType, exts[..|exts| - 1]) + {(mimeType, Utf8.EncodeString(exts[|exts| - 1]))}
  {
    var init := exts[..|exts| - 1];
    assert exts == init + [exts[|exts| - 1]];
  }

  /** An extension not earlier in the list has bytes that no earlier extension has. */
  lemma FreshBytes(stored: set<(string, seq<Byte>)>, mimeType: string, exts: seq<string>)
    requires exts != []
    requires forall i, j :: 0 <= i < j < |exts| ==> exts[i] != exts[j]
    requires forall p, i :: p in stored && 0 <= i < |exts| ==> p.1 != Utf8.EncodeString(exts[i])
    ensures forall p :: p in stored + Tagged(mimeType, exts[..|exts| - 1]) ==> p.1 != Utf8.EncodeString(exts[|exts| - 1])
  {
    var init := exts[..|exts| - 1];
    var last := exts[|exts| - 1];
    forall p | p in stored + Tagged(mimeType, init)
      ensures p.1 != Utf8.EncodeString(last)
    {
      if p !in stored {
        var e :| e in init && p == (mimeType, Utf8.EncodeString(e));
        var i :| 0 <= i < |init| && init[i] == e;
        assert exts[i] == e;
        EncodeInjective(e, last);
      } else {
        assert p.1 != Utf8.EncodeString(exts[|exts| - 1]);
      }
    }
  }

  /** Distinct extensions without NUL, none stored yet, go in without the panic. */
  lemma {:induction false} InsertAllInv(tree: Tree, stored: set<(string, seq<Byte>)>, mimeType: string, exts: seq<string>)
    requires TreeInv(tree, stored)
    requires forall i :: 0 <= i < |exts| ==> NoNul(exts[i])
    requires forall i, j :: 0 <= i < j < |exts| ==> exts[i] != exts[j]
    requires forall p, i :: p in stored && 0 <= i < |exts| ==> p.1 != Utf8.EncodeString(exts[i])
    ensures InsertAll(tree, mimeType, exts).Some?
    ensures TreeInv(InsertAll(tree, mimeType, exts).value, stored + Tagged(mimeType, exts))
  {
    if exts != [] {
      var init := exts[..|exts| - 1];
      var last := exts[|exts| - 1];
      InsertAllInv(tree, stored, mimeType, init);
      var t1 := InsertAll(tree, mimeType, init).value;
      var s1 := stored + Tagged(mimeType, init);
      var bytes := Utf8.EncodeString(last);
      Utf8.EncodeStringHasNoZero(last);
      FreshBytes(stored, mimeType, exts);
      InsertExtInv(t1, s1, mimeType, bytes);
      TaggedSnoc(mimeType, exts);
      assert s1 + {(mimeType, bytes)} == stored + Tagged(mimeType, exts);
    }
  }

  /** No extension holds a NUL character. */
  predicate NoNulExtensions(m: MimeTypes) {
    forall t, i :: t in m && 0 <= i < |m[t]| ==> NoNul(m[t][i])
  }

  /** The stored pairs of the types of `order`. */
  ghost function Entries(m: MimeTypes, order: seq<string>): set<(string, seq<Byte>)>
    requires forall i :: 0 <= i < |order| ==> order[i] in m
  {
    if order == [] then {}
    else Entries(m, order[..|order| - 1]) + Tagged(order[|order| - 1], m[order[|order| - 1]])
  }

  lemma {:induction false} EntriesMember(m: MimeTypes, order: seq<string>, p: (string, seq<Byte>))
    requires forall i :: 0 <= i < |order| ==> order[i] in m
    ensures p in Entries(m, order) <==>
      exists k, e :: 0 <= k < |order| && e in m[order[k]] && p == (order[k], Utf8.EncodeString(e))
  {
    if p in Entries(m, order) {
      EntriesSound(m, order, p);
    }
    if exists k, e :: 0 <= k < |order| && e in m[order[k]] && p == (order[k], Utf8.EncodeString(e)) {
      var k, e :| 0 <= k < |order| && e in m[order[k]] && p == (order[k], Utf8.EncodeString(e));
      EntriesComplete(m, order, k, e);
    }
  }

  lemma {:induction false} EntriesSound(m: MimeTypes, order: seq<string>, p: (string, seq<Byte>))
    requires forall i :: 0 <= i < |order| ==> order[i] in m
    requires p in Entries(m, order)
    ensures exists k, e :: 0 <= k < |order| && e in m[order[k]] && p == (order[k], Utf8.EncodeString(e))
  {
    var init := order[..|order| - 1];
    var n := |order| - 1;
    if p in Entries(m, init) {
      EntriesSound(m, init, p);
      var k, e :| 0 <= k < |init| && e in m[init[k]] && p == (init[k], Utf8.EncodeString(e));
      assert order[k] == init[k];
    } else {
      var e :| e in m[order[n]] && p == (order[n], Utf8.EncodeString(e));
    }
  }

  lemma {:induction false} EntriesComplete(m: MimeTypes, order: seq<string>, k: nat, e: string)
    requires forall i :: 0 <= i < |order| ==> order[i] in m
    requires k < |order| && e in m[order[k]]
    ensures (order[k], Utf8.EncodeString(e)) in Entries(m, order)
    decreases |order|
  {
    var init := order[..|order| - 1];
    var n := |order| - 1;
    if k < n {
      assert init[k] == order[k];
      EntriesComplete(m, init, k, e);
    } else {
      TaggedMember(order[n], m[order[n]], e);
    }
  }

  /**
   * With no extension listed twice and none holding NUL, the build never
   * panics, and it stores exactly each type with the bytes of each of its
   * extensions.
   */
  lemma {:induction false} BuildTreeInv(m: MimeTypes, order: seq<string>)
    requires forall i :: 0 <= i < |order| ==> order[i] in m
    requires forall i, j :: 0 <= i < j < |order| ==> order[i] != order[j]
    requires Distinct(m) && NoNulExtensions(m)
    ensures BuildTree(m, order).Some?
    ensures TreeInv(BuildTree(m, order).value, Entries(m, order))
  {
    if order != [] {
      var init := order[..|order| - 1];
      var t := order[|order| - 1];
      BuildTreeInv(m, init);
      var exts := m[t];
      forall p, i | p in Entries(m, init) && 0 <= i < |exts|
        ensures p.1 != Utf8.EncodeString(exts[i])
      {
        EntriesMember(m, init, p);
        var k, e :| 0 <= k < |init| && e in m[init[k]] && p == (init[k], Utf8.EncodeString(e));
        var j :| 0 <= j < |m[init[k]]| && m[init[k]][j] == e;
        assert init[k] == order[k] != t;
        assert m[init[k]][j] != m[t][i];
        EncodeInjective(e, exts[i]);
      }
      InsertAllInv(BuildTree(m, init).value, Entries(m, init), t, exts);
    }
  }

  /** The generated code: a `match` on the next byte, with an arm per child in ascending byte order. */
  datatype Code = Match(arms: seq<Arm>)

  /** `None => Some(type)` for the key-0 child, `Some(byte) => { ... }` for the others. */
  datatype Arm = End(mimeType: string) | Next(byte: Byte, code: Code)

  /** The type of the first `None` arm. */
  function EndOf(arms: seq<Arm>): Option<string> {
    if arms == [] then None
    else if arms[0].End? then Some(arms[0].mimeType)
    else EndOf(arms[1..])
  }

  /** The code of the first `Some(byte)` arm for `b`. */
  function NextOf(arms: seq<Arm>, b: Byte): Option<Code> {
    if arms == [] then None
    else if arms[0].Next? && arms[0].byte == b then Some(arms[0].code)
    else NextOf(arms[1..], b)
  }

  /** `from_extension` running the generated code: the `_ => None` arm catches every other case. */
  function Eval(code: Code, bytes: seq<Byte>): Option<string>
    decreases |bytes|
  {
    if bytes == [] then EndOf(code.arms)
    else
      var next := NextOf(code.arms, bytes[0]);
      if next.None? then None else Eval(next.value, bytes[1..])
  }

  /** The longest path. */
  ghost function Depth(paths: set<seq<Byte>>): (d: nat)
    ensures forall q :: q in paths ==> |q| <= d
  {
    if paths == {} then 0
    else
      var q :| q in paths;
      Max(|q|, Depth(paths - {q}))
  }

  /** Every key-0 node holds a type: `unwrap` never fails. */
  predicate LeavesTyped(tree: Tree) {
    forall q :: q in tree ==> q != [] && (q[|q| - 1] == 0 ==> tree[q].Some?)
  }

  /** `parser_tree`: the arms for the children of `path` from byte `b` on, in ascending order. */
  function Arms(tree: Tree, path: seq<Byte>, b: nat): seq<Arm>
    requires b <= 256 && LeavesTyped(tree) && |path| <= Depth(tree.Keys)
    decreases Depth(tree.Keys) - |path|, 256 - b
  {
    if b == 256 then []
    else
      var key := path + [b as Byte];
      if key !in tree then Arms(tree, path, b + 1)
      else if b == 0 then [End(tree[key].value)] + Arms(tree, path, 1)
      else [Next(b, Match(Arms(tree, key, 0)))] + Arms(tree, path, b + 1)
  }

  /** The code generated for the whole tree. */
  function ParserTree(tree: Tree): Code
    requires LeavesTyped(tree)
  {
    Match(Arms(tree, [], 0))
  }

  function ArmKey(arm: Arm): Byte {
    if arm.End? then 0 else arm.byte
  }

  /** The arms come in strictly ascending byte order, and only the key-0 child gives a `None` arm. */
  lemma {:induction false} ArmsSorted(tree: Tree, path: seq<Byte>, b: nat)
    requires b <= 256 && LeavesTyped(tree) && |path| <= Depth(tree.Keys)
    ensures ArmsOrdered(tree, path, b, Arms(tree, path, b))
    decreases 256 - b
  {
    if b < 256 {
      ArmsSorted(tree, path, b + 1);
      var arms := Arms(tree, path, b);
      var rest := Arms(tree, path, b + 1);
      var key := path + [b as Byte];
      if key in tree {
        assert arms == [arms[0]] + rest;
        ConsOrdered(tree, path, b, arms[0], rest);
      }
    }
  }

  lemma ConsOrdered(tree: Tree, path: seq<Byte>, b: nat, arm: Arm, rest: seq<Arm>)
    requires ArmsOrdered(tree, path, b + 1, rest)
    requires ArmKey(arm) == b && (arm.End? <==> b == 0) && path + [ArmKey(arm)] in tree
    ensures ArmsOrdered(tree, path, b, [arm] + rest)
  {
    var arms := [arm] + rest;
    assert forall i :: 1 <= i < |arms| ==> arms[i] == rest[i - 1];
  }

  predicate ArmsOrdered(tree: Tree, path: seq<Byte>, b: nat, arms: seq<Arm>) {
    && (forall i :: 0 <= i < |arms| ==> b <= ArmKey(arms[i]) && (arms[i].End? <==> ArmKey(arms[i]) == 0))
    && (forall i, j :: 0 <= i < j < |arms| ==> ArmKey(arms[i]) < ArmKey(arms[j]))
    && (forall i :: 0 <= i < |arms| ==> path + [ArmKey(arms[i])] in tree)
  }

  /** Only the arm for byte 0 at the start can be a `None` arm. */
  lemma {:induction false} ArmsEnd(tree: Tree, path: seq<Byte>, b: nat)
    requires b <= 256 && LeavesTyped(tree) && |path| <= Depth(tree.Keys)
    ensures EndOf(Arms(tree, path, b)) == if b == 0 && path + [0] in tree then tree[path + [0]] else None
    decreases 256 - b
  {
    if b < 256 {
      ArmsEnd(tree, path, b + 1);
    }
  }

  /** The `Some(c)` arm leads to the code of the child `c`, when there is one; there is none for 0. */
  lemma {:induction false} ArmsNext(tree: Tree, path: seq<Byte>, b: nat, c: Byte)
    requires b <= 256 && LeavesTyped(tree) && |path| <= Depth(tree.Keys)
    ensures NextOf(Arms(tree, path, b), c)
      == if c != 0 && b <= c && path + [c] in tree then Some(Match(Arms(tree, path + [c], 0))) else None
    decreases 256 - b
  {
    if b < 256 {
      ArmsNext(tree, path, b + 1, c);
    }
  }

  /** What the generated code should answer for the bytes `q`: the type at the key-0 child below them. */
  function Lookup(tree: Tree, q: seq<Byte>): Option<string> {
    if ZeroFree(q) && q + [0] in tree then tree[q + [0]] else None
  }

  /** Every prefix of a node is a node. */
  lemma {:induction false} PrefixIn(tree: Tree, q: seq<Byte>)
    requires ParentsIn(tree)
    ensures q in tree ==> forall k :: 1 <= k <= |q| ==> q[..k] in tree
  {
    if |q| > 1 {
      var parent := q[..|q| - 1];
      PrefixIn(tree, parent);
      assert forall k :: 1 <= k < |q| ==> parent[..k] == q[..k];
    }
    assert q[..|q|] == q;
  }

  /**
   * Running the code generated below `path` on the rest of the bytes
   * answers the type stored for `path` followed by them.
   */
  lemma {:induction false} EvalArms(tree: Tree, path: seq<Byte>, rest: seq<Byte>)
    requires LeavesTyped(tree) && ParentsIn(tree) && ZeroOnlyLast(tree)
    requires ZeroFree(path) && |path| <= Depth(tree.Keys)
    ensures Eval(Match(Arms(tree, path, 0)), rest) == Lookup(tree, path + rest)
    decreases |rest|
  {
    if rest == [] {
      ArmsEnd(tree, path, 0);
      assert path + rest == path;
    } else {
      var c := rest[0];
      ArmsNext(tree, path, 0, c);
      if c != 0 && path + [c] in tree {
        EvalArms(tree, path + [c], rest[1..]);
        assert path + [c] + rest[1..] == path + rest;
      } else {
        LookupBlocked(tree, path, rest);
      }
    }
  }

  /** No type is stored below a 0 byte or below a child that is not there. */
  lemma LookupBlocked(tree: Tree, path: seq<Byte>, rest: seq<Byte>)
    requires ParentsIn(tree) && rest != [] && (rest[0] == 0 || path + [rest[0]] !in tree)
    ensures Lookup(tree, path + rest) == None
  {
    var q := path + rest;
    assert q[|path|] == rest[0];
    PrefixIn(tree, q + [0]);
    assert (q + [0])[..|path| + 1] == path + [rest[0]];
  }

  /** The code generated for a tree the builder made answers exactly the stored pairs. */
  lemma LookupStored(tree: Tree, stored: set<(string, seq<Byte>)>, bytes: seq<Byte>, t: string)
    requires TreeInv(tree, stored)
    ensures LeavesTyped(tree)
    ensures Eval(ParserTree(tree), bytes) == Some(t) <==> (t, bytes) in stored
  {
    EvalArms(tree, [], bytes);
    assert [] + bytes == bytes;
    var leaf := bytes + [0];
    assert leaf[..|leaf| - 1] == bytes;
    assert forall i :: 0 <= i < |bytes| ==> leaf[i] == bytes[i];
  }

  /**
   * With no extension listed twice and none holding NUL, the build never
   * panics, and the generated `from_extension` answers `t` exactly for the
   * bytes of an extension of `t`: a proper prefix or a longer sequence
   * answers only if it is an extension itself.
   */
  lemma FromExtension(m: MimeTypes, order: seq<string>, bytes: seq<Byte>, t: string)
    requires IsOrder(m, order) && Distinct(m) && NoNulExtensions(m)
    ensures BuildTree(m, order).Some? && LeavesTyped(BuildTree(m, order).value)
    ensures Eval(ParserTree(BuildTree(m, order).value), bytes) == Some(t)
      <==> t in m && exists e :: e in m[t] && Utf8.EncodeString(e) == bytes
  {
    BuildTreeInv(m, order);
    var tree := BuildTree(m, order).value;
    LookupStored(tree, Entries(m, order), bytes, t);
    EntriesMember(m, order, (t, bytes));
    if t in m {
      var k :| 0 <= k < |order| && order[k] == t;
    }
  }

  /**
   * The whole build: the `from_extension` generated from a document
   * answers `t` exactly for the bytes of an extension collected for `t`.
   */
  lemma MimeLookup(root: Node, unicode: char -> bool, order: seq<string>, bytes: seq<Byte>, t: string)
    requires MimeData(root, unicode).Ok? && IsOrder(MimeData(root, unicode).value, order)
    ensures var m := MimeData(root, unicode).value;
      && BuildTree(m, order).Some? && LeavesTyped(BuildTree(m, order).value)
      && ((Eval(ParserTree(BuildTree(m, order).value), bytes) == Some(t))
          <==> (t in m && exists e :: e in m[t] && Utf8.EncodeString(e) == bytes))
  {
    var m := MimeData(root, unicode).value;
    MimeDataOwners(root, unicode);
    MimeDataAlphanumeric(root, unicode);
    forall t', i | t' in m && 0 <= i < |m[t']|
      ensures NoNul(m[t'][i])
    {
      assert forall k :: 0 <= k < |m[t'][i]| ==> IsAlphanumeric(m[t'][i][k], unicode);
    }
    FromExtension(m, order, bytes, t);
  }
}
