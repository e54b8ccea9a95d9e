/**
 The plugin tree digest: the byte stream hashed over the files of a plugin directory. Proves that
 the stream determines the files, so that installed and source plugins compare equal exactly where
 they hold the same files. The hash itself is taken as the stream it is given.
 */
module PluginDigest {
  import opened Outcome
  import opened Utf8

  /** A path below the plugin root, part by part; file names are their UTF-8 bytes. */
  type Path = seq<Text>

  const SLASH: byte := 0x2F
  const DOT: byte := 0x2E
  const FRAME_LIMIT: nat := 0x1_0000_0000_0000_0000

  /** `content` is missing where the file cannot be read. */
  datatype Node = File(content: Option<Text>) | LinkToFile | Other

  type Tree = map<Path, Node>

  // ---------- Which files count ----------

  const PYCACHE: Text := Bytes("__pycache__")
  const PYC: Text := Bytes(".pyc")
  const PYO: Text := Bytes(".pyo")

  /** The position of the last dot, or the length where there is none. */
  function LastDot(name: Text, n: nat): (i: nat)
    requires n <= |name|
    ensures i < n ==> name[i] == DOT
    ensures forall k :: (if i < n then i < k else 0 <= k) && k < n ==> name[k] != DOT
    ensures i < n || i == |name|
  {
    if n == 0 then |name| else if name[n - 1] == DOT then n - 1 else LastDot(name, n - 1)
  }

  /** The suffix `pathlib` sees: none for a name that starts or ends with its last dot. */
  function Suffix(name: Text): Text {
    var i := LastDot(name, |name|);
    if 0 < i < |name| - 1 then name[i..] else []
  }

  /** Every part of the absolute path is looked at, those of the root among them. */
  predicate Counted(root: Path, path: Path) {
    path != [] && PYCACHE !in root + path && Suffix(path[|path| - 1]) !in {PYC, PYO}
  }

  predicate Included(root: Path, tree: Tree, path: Path) {
    path in tree && (tree[path].File? || tree[path].LinkToFile?) && Counted(root, path)
  }

  /** What the digest is to stand for: the contents of the files that count. */
  function Contents(root: Path, tree: Tree): map<Path, Text> {
    map path | path in tree && Included(root, tree, path) && tree[path].File? && tree[path].content.Some? ::
      tree[path].content.value
  }

  /** All the files that count are regular and can be read. */
  predicate Hashable(root: Path, tree: Tree) {
    forall path :: path in tree && Included(root, tree, path) ==> tree[path].File? && tree[path].content.Some?
  }

  /** File names are not empty and hold no slash; names and files are shorter than 2^64 bytes. */
  predicate Sound(tree: Tree) {
    forall path :: path in tree ==>
      && (forall part :: part in path ==> part != [] && SLASH !in part)
      && |Posix(path)| < FRAME_LIMIT
      && (tree[path].File? && tree[path].content.Some? ==> |tree[path].content.value| < FRAME_LIMIT)
  }

  function Posix(path: Path): Text {
    if path == [] then [] else if |path| == 1 then path[0] else path[0] + [SLASH] + Posix(path[1..])
  }

  lemma {:induction false} PosixInjective(a: Path, b: Path)
    requires a != [] && b != []
    requires forall part :: part in a ==> SLASH !in part
    requires forall part :: part in b ==> SLASH !in part
    requires Posix(a) == Posix(b)
    ensures a == b
    decreases |a|
  {
    var s := Posix(a);
    assert SLASH !in a[0] && SLASH !in b[0];
    assert |a[0]| <= |s| && s[..|a[0]|] == a[0];
    assert |b[0]| <= |s| && s[..|b[0]|] == b[0];
    assert |a| > 1 ==> |a[0]| < |s| && s[|a[0]|] == SLASH && s[|a[0]| + 1..] == Posix(a[1..]);
    assert |b| > 1 ==> |b[0]| < |s| && s[|b[0]|] == SLASH && s[|b[0]| + 1..] == Posix(b[1..]);
    assert |a| == 1 ==> |a[0]| == |s|;
    assert |b| == 1 ==> |b[0]| == |s|;
    HeadsAgree(s, |a[0]|, |b[0]|);
    assert a[0] == b[0];
    if |a| > 1 {
      PosixInjective(a[1..], b[1..]);
      assert a == [a[0]] + a[1..] && b == [b[0]] + b[1..];
    } else {
      assert a == [a[0]] && b == [b[0]];
    }
  }

  /** The parts of a path are joined by slashes. */
  lemma {:induction false} PosixJoined(a: Path, b: Path)
    requires a != [] && b != []
    ensures Posix(a + b) == Posix(a) + [47] + Posix(b)
    ensures |a| == 1 ==> Posix(a) == a[0]
    decreases |a|
  {
    assert (a + b)[1..] == a[1..] + b;
    if |a| > 1 { PosixJoined(a[1..], b); } else { assert a[1..] + b == b; }
  }

  /** Two slash-free heads of one text, each up to a slash or the end, are as long as each other. */
  lemma HeadsAgree(s: Text, n: nat, m: nat)
    requires n <= |s| && m <= |s|
    requires SLASH !in s[..n] && SLASH !in s[..m]
    requires (n == |s| || s[n] == SLASH) && (m == |s| || s[m] == SLASH)
    ensures n == m
  {
  }

  // ---------- The order of the files ----------

  predicate NameLess(a: Text, b: Text) {
    b != [] && (a == [] || a[0] < b[0] || (a[0] == b[0] && NameLess(a[1..], b[1..])))
  }

  predicate PathLess(a: Path, b: Path) {
    b != [] && (a == [] || NameLess(a[0], b[0]) || (a[0] == b[0] && PathLess(a[1..], b[1..])))
  }

  lemma {:induction false} NameOrder(a: Text, b: Text)
    ensures a == b || NameLess(a, b) || NameLess(b, a)
    ensures !(NameLess(a, b) && NameLess(b, a)) && !NameLess(a, a)
    decreases |a|
  {
    if a != [] {
      NameOrder(a[1..], a[1..]);
      if b != [] {
        NameOrder(a[1..], b[1..]);
        assert a == [a[0]] + a[1..] && b == [b[0]] + b[1..];
      }
    }
  }

  /** The first difference decides, and a name in front of a longer one that begins with it. */
  predicate DiffersAt(a: Text, b: Text, k: nat) {
    k <= |a| && k < |b| && a[..k] == b[..k] && (k == |a| || a[k] < b[k])
  }

  predicate PartsDifferAt(a: Path, b: Path, k: nat) {
    k <= |a| && k < |b| && a[..k] == b[..k] && (k == |a| || exists i :: 0 <= i <= |a[k]| && DiffersAt(a[k], b[k], i))
  }

  lemma SameStart<T>(a: seq<T>, b: seq<T>, k: nat)
    ensures 0 < k <= |a| && k <= |b| && a[..k] == b[..k] ==> a[0] == b[0]
  {
    if 0 < k <= |a| && k <= |b| { assert a[..k][0] == a[0] && b[..k][0] == b[0]; }
  }

  /** Names are ordered by their bytes, paths by their parts. */
  lemma {:induction false} NameLessExactly(a: Text, b: Text)
    ensures NameLess(a, b) <==> exists k :: 0 <= k <= |a| && DiffersAt(a, b, k)
    decreases |a|
  {
    if a == [] || b == [] || a[0] != b[0] {
      if NameLess(a, b) { assert DiffersAt(a, b, 0); }
      if k :| 0 <= k <= |a| && DiffersAt(a, b, k) { SameStart(a, b, k); }
    } else {
      NameLessExactly(a[1..], b[1..]);
      if k :| 0 <= k <= |a[1..]| && DiffersAt(a[1..], b[1..], k) {
        assert a[..k + 1] == [a[0]] + a[1..][..k] && b[..k + 1] == [b[0]] + b[1..][..k];
        assert DiffersAt(a, b, k + 1);
      }
      if k :| 0 <= k <= |a| && DiffersAt(a, b, k) {
        assert k > 0 && a[1..][..k - 1] == a[..k][1..] == b[..k][1..] == b[1..][..k - 1];
        assert DiffersAt(a[1..], b[1..], k - 1);
      }
    }
  }

  lemma {:induction false} PathLessExactly(a: Path, b: Path)
    ensures PathLess(a, b) <==> exists k :: 0 <= k <= |a| && PartsDifferAt(a, b, k)
    decreases |a|
  {
    hide NameLess, DiffersAt;
    if a != [] && b != [] { NameLessExactly(a[0], b[0]); }
    if a == [] || b == [] || a[0] != b[0] {
      if PathLess(a, b) { assert PartsDifferAt(a, b, 0); }
      if k :| 0 <= k <= |a| && PartsDifferAt(a, b, k) { SameStart(a, b, k); }
    } else {
      NameOrder(a[0], a[0]);
      PathLessExactly(a[1..], b[1..]);
      if k :| 0 <= k <= |a[1..]| && PartsDifferAt(a[1..], b[1..], k) {
        assert a[..k + 1] == [a[0]] + a[1..][..k] && b[..k + 1] == [b[0]] + b[1..][..k];
        assert PartsDifferAt(a, b, k + 1);
      }
      if k :| 0 <= k <= |a| && PartsDifferAt(a, b, k) {
        if k > 0 {
          assert a[1..][..k - 1] == a[..k][1..] == b[..k][1..] == b[1..][..k - 1];
          assert PartsDifferAt(a[1..], b[1..], k - 1);
        }
      }
    }
  }

  lemma {:induction false} NameTransitive(a: Text, b: Text, c: Text)
    requires NameLess(a, b) && NameLess(b, c)
    ensures NameLess(a, c)
    decreases |a|
  {
    if a != [] && a[0] == b[0] == c[0] { NameTransitive(a[1..], b[1..], c[1..]); }
  }

  lemma {:induction false} PathOrder(a: Path, b: Path)
    ensures a == b || PathLess(a, b) || PathLess(b, a)
    ensures !(PathLess(a, b) && PathLess(b, a)) && !PathLess(a, a)
    decreases |a|
  {
    hide NameLess;
    if a != [] {
      PathOrder(a[1..], a[1..]);
      NameOrder(a[0], a[0]);
      if b != [] {
        NameOrder(a[0], b[0]);
        PathOrder(a[1..], b[1..]);
        assert a == [a[0]] + a[1..] && b == [b[0]] + b[1..];
      }
    }
  }

  lemma {:induction false} PathTransitive(a: Path, b: Path, c: Path)
    requires PathLess(a, b) && PathLess(b, c)
    ensures PathLess(a, c)
    decreases |a|
  {
    hide NameLess;
    if a != [] {
      if NameLess(a[0], b[0]) && NameLess(b[0], c[0]) { NameTransitive(a[0], b[0], c[0]); }
      if a[0] == b[0] == c[0] && PathLess(a[1..], b[1..]) && PathLess(b[1..], c[1..]) {
        PathTransitive(a[1..], b[1..], c[1..]);
      }
    }
  }

  predicate Ascending(paths: seq<Path>) {
    forall i, j :: 0 <= i < j < |paths| ==> PathLess(paths[i], paths[j])
  }

  function Insert(path: Path, paths: seq<Path>): (r: seq<Path>) {
    if paths == [] || PathLess(path, paths[0]) then [path] + paths else [paths[0]] + Insert(path, paths[1..])
  }

  /** `sorted`, on paths without duplicates. */
  function Sorted(paths: seq<Path>): seq<Path> {
    if paths == [] then [] else Insert(paths[0], Sorted(paths[1..]))
  }

  lemma {:induction false} InsertAscending(path: Path, paths: seq<Path>)
    requires Ascending(paths) && path !in paths
    ensures Ascending(Insert(path, paths))
    ensures forall p :: p in Insert(path, paths) <==> p == path || p in paths
    decreases |paths|
  {
    hide PathLess;
    var r := Insert(path, paths);
    if paths == [] || PathLess(path, paths[0]) {
      forall i, j | 0 <= i < j < |r| ensures PathLess(r[i], r[j]) {
        if i == 0 && j > 1 { PathTransitive(path, paths[0], paths[j - 1]); }
      }
    } else {
      var rest := Insert(path, paths[1..]);
      PathOrder(path, paths[0]);
      assert paths[0] in paths;
      InsertAscending(path, paths[1..]);
      forall i, j | 0 <= i < j < |r| ensures PathLess(r[i], r[j]) {
        if i == 0 { assert rest[j - 1] in rest; }
      }
    }
  }

  lemma {:induction false} SortedAscending(paths: seq<Path>)
    requires forall i, j :: 0 <= i < j < |paths| ==> paths[i] != paths[j]
    ensures Ascending(Sorted(paths))
    ensures forall p :: p in Sorted(paths) <==> p in paths
    decreases |paths|
  {
    hide PathLess, Insert;
    if paths != [] {
      SortedAscending(paths[1..]);
      InsertAscending(paths[0], Sorted(paths[1..]));
    }
  }

  /** A set of paths has one ascending listing. */
  lemma {:induction false} OneListing(a: seq<Path>, b: seq<Path>)
    requires Ascending(a) && Ascending(b) && forall p :: p in a <==> p in b
    ensures a == b
    decreases |a|
  {
    hide PathLess;
    assert b == [] || b[0] in b;
    if a != [] {
      assert a[0] in a && a[0] in b;
      assert b[0] in b && b[0] in a;
      PathOrder(a[0], b[0]);
      var i :| 0 <= i < |b| && b[i] == a[0];
      var j :| 0 <= j < |a| && a[j] == b[0];
      assert a[0] == b[0];
      forall p ensures p in a[1..] <==> p in b[1..] {
        NotFirst(a, p);
        NotFirst(b, p);
      }
      OneListing(a[1..], b[1..]);
      assert a == [a[0]] + a[1..] && b == [b[0]] + b[1..];
    }
  }

  lemma NotFirst(a: seq<Path>, p: Path)
    requires Ascending(a) && a != []
    ensures p in a[1..] <==> p in a && p != a[0]
  {
    hide PathLess;
    if p in a[1..] {
      var i :| 0 <= i < |a[1..]| && a[1..][i] == p;
      assert PathLess(a[0], a[i + 1]);
      PathOrder(a[0], a[0]);
    }
  }

  // ---------- The stream ----------

  function BigEndian(n: nat, width: nat): (bytes: Text)
    ensures |bytes| == width
    decreases width
  {
    if width == 0 then [] else BigEndian(n / 256, width - 1) + [n % 256]
  }

  function Range(width: nat): nat {
    if width == 0 then 1 else 256 * Range(width - 1)
  }

  lemma {:induction false} BigEndianInjective(n: nat, m: nat, width: nat)
    requires n < Range(width) && m < Range(width)
    requires BigEndian(n, width) == BigEndian(m, width)
    ensures n == m
    decreases width
  {
    if width > 0 {
      var a, b := BigEndian(n / 256, width - 1), BigEndian(m / 256, width - 1);
      var x, y := a + [n % 256], b + [m % 256];
      assert a == x[..width - 1] == y[..width - 1] == b;
      assert n % 256 == x[width - 1] == y[width - 1] == m % 256;
      BigEndianInjective(n / 256, m / 256, width - 1);
    }
  }

  lemma EightBytes()
    ensures Range(8) == FRAME_LIMIT
  {
    assert Range(1) == 256 && Range(2) == 0x1_0000 && Range(3) == 0x100_0000 && Range(4) == 0x1_0000_0000;
    assert Range(5) == 0x100_0000_0000 && Range(6) == 0x1_0000_0000_0000 && Range(7) == 0x100_0000_0000_0000;
  }

  /** Eight bytes of length, and the bytes. */
  function Framed(bytes: Text): Text {
    BigEndian(|bytes|, 8) + bytes
  }

  /** The number bytes denote, the most significant first. */
  function Weighed(bytes: Text): nat {
    if bytes == [] then 0 else Weighed(bytes[..|bytes| - 1]) * 256 + bytes[|bytes| - 1]
  }

  lemma {:induction false} BigEndianWeighed(n: nat, width: nat)
    requires n < Range(width)
    ensures Weighed(BigEndian(n, width)) == n
    decreases width
  {
    if width > 0 {
      BigEndianWeighed(n / 256, width - 1);
      assert BigEndian(n, width)[..width - 1] == BigEndian(n / 256, width - 1);
    }
  }

  /** A frame is the length in eight bytes, the most significant first, and the text. */
  lemma FrameSays(bytes: Text)
    requires |bytes| < 0x1_0000_0000_0000_0000
    ensures Weighed(Framed(bytes)[..8]) == |bytes| && Framed(bytes)[8..] == bytes
  {
    hide BigEndian, Weighed, Range;
    EightBytes();
    BigEndianWeighed(|bytes|, 8);
    assert Framed(bytes)[..8] == BigEndian(|bytes|, 8);
  }

  /** A framed text is found at the start of whatever it is followed by. */
  lemma FramePrefix(a: Text, x: Text, b: Text, y: Text)
    requires |a| < FRAME_LIMIT && |b| < FRAME_LIMIT
    requires Framed(a) + x == Framed(b) + y
    ensures a == b && x == y
  {
    hide BigEndian, Range;
    var s, t := Framed(a) + x, Framed(b) + y;
    assert BigEndian(|a|, 8) == s[..8] == t[..8] == BigEndian(|b|, 8);
    EightBytes();
    BigEndianInjective(|a|, |b|, 8);
    var n := 8 + |a|;
    assert a == s[8..n] == t[8..n] == b;
    assert x == s[n..] == t[n..] == y;
  }

  datatype FileBytes = FileBytes(path: Text, content: Text)

  function Stream(files: seq<FileBytes>): Text {
    if files == [] then []
    else Framed(files[0].path) + (Framed(files[0].content) + Stream(files[1..]))
  }

  predicate Framable(files: seq<FileBytes>) {
    forall i :: 0 <= i < |files| ==> |files[i].path| < FRAME_LIMIT && |files[i].content| < FRAME_LIMIT
  }

  /** Two lists of files with equal streams are the same list. */
  lemma {:induction false} StreamInjective(f: seq<FileBytes>, g: seq<FileBytes>)
    requires Framable(f) && Framable(g) && Stream(f) == Stream(g)
    ensures f == g
    decreases |f|
  {
    hide Framed, BigEndian;
    if f == [] || g == [] {
      EmptyStream(f);
      EmptyStream(g);
    } else {
      var x, y := Framed(f[0].content) + Stream(f[1..]), Framed(g[0].content) + Stream(g[1..]);
      FramePrefix(f[0].path, x, g[0].path, y);
      FramePrefix(f[0].content, Stream(f[1..]), g[0].content, Stream(g[1..]));
      StreamInjective(f[1..], g[1..]);
      assert f == [f[0]] + f[1..] && g == [g[0]] + g[1..];
    }
  }

  lemma EmptyStream(files: seq<FileBytes>)
    ensures Stream(files) == [] <==> files == []
  {
    if files != [] { assert |Framed(files[0].path)| >= 8; }
  }

  lemma {:induction false} StreamAppend(files: seq<FileBytes>, file: FileBytes)
    ensures Stream(files + [file]) == Stream(files) + Framed(file.path) + Framed(file.content)
    decreases |files|
  {
    hide Framed, Stream;
    FirstFramed(files, file);
    if files != [] {
      StreamAppend(files[1..], file);
      Regrouped(Framed(files[0].path), Framed(files[0].content), Stream(files[1..]), Framed(file.path),
                Framed(file.content));
    }
  }

  lemma FirstFramed(files: seq<FileBytes>, file: FileBytes)
    ensures files == [] ==>
      Stream(files) == [] && Stream(files + [file]) == Stream(files) + Framed(file.path) + Framed(file.content)
    ensures files != [] ==>
      && Stream(files) == Framed(files[0].path) + (Framed(files[0].content) + Stream(files[1..]))
      && Stream(files + [file])
         == Framed(files[0].path) + (Framed(files[0].content) + Stream(files[1..] + [file]))
  {
    hide Framed;
    var all := files + [file];
    if files == [] {
      assert all[1..] == [] && all[0] == file;
      assert Framed(file.content) + Stream([]) == Framed(file.content);
      assert Stream([]) + Framed(file.path) == Framed(file.path);
    } else {
      assert all[1..] == files[1..] + [file];
    }
  }

  lemma Regrouped(a: Text, b: Text, c: Text, d: Text, e: Text)
    ensures a + (b + (c + d + e)) == a + (b + c) + d + e
  {
  }

  // ---------- The digest ----------

  /** A walk finds every path of the tree once, in any order. */
  ghost predicate Walk(tree: Tree, found: seq<Path>) {
    && (forall p :: p in found <==> p in tree)
    && (forall i, j :: 0 <= i < j < |found| ==> found[i] != found[j])
  }

  /** The ascending listing of the files that count. */
  ghost predicate Lists(root: Path, tree: Tree, files: seq<Path>) {
    && Ascending(files)
    && (forall p :: p in files <==> p in tree && Included(root, tree, p))
  }

  function FilesOf(contents: map<Path, Text>, files: seq<Path>): (list: seq<FileBytes>)
    requires forall p :: p in files ==> p in contents
    ensures |list| == |files|
    ensures forall i :: 0 <= i < |files| ==> list[i] == FileBytes(Posix(files[i]), contents[files[i]])
  {
    seq(|files|, i requires 0 <= i < |files| =>
      assert files[i] in files; FileBytes(Posix(files[i]), contents[files[i]]))
  }

  lemma ListsContents(root: Path, tree: Tree, files: seq<Path>)
    requires Lists(root, tree, files) && Hashable(root, tree)
    ensures forall p :: p in files <==> p in Contents(root, tree)
  {
    hide Counted, Ascending;
  }

  /** The files that count, out of a walk. */
  method CollectFiles(root: Path, tree: Tree, found: seq<Path>) returns (files: seq<Path>)
    requires Walk(tree, found)
    ensures Lists(root, tree, files)
  {
    hide Counted, Ascending, Sorted;
    var kept: seq<Path> := [];
    for i := 0 to |found|
      invariant forall p :: p in kept <==> p in found[..i] && Included(root, tree, p)
      invariant forall k, l :: 0 <= k < l < |kept| ==> kept[k] != kept[l]
    {
      assert found[..i + 1] == found[..i] + [found[i]];
      assert found[i] !in found[..i];
      assert found[i] in found;
      if Included(root, tree, found[i]) {
        kept := kept + [found[i]];
      }
    }
    assert found[..|found|] == found;
    SortedAscending(kept);
    files := Sorted(kept);
  }

  /** The bytes hashed for a plugin tree; none where the root is no directory, or a file that
      counts is a link or cannot be read. */
  method PluginTreeDigest(root: Path, tree: Option<Tree>, found: seq<Path>) returns (digest: Option<Text>)
    requires tree.Some? ==> Walk(tree.value, found)
    ensures digest.Some? <==> tree.Some? && Hashable(root, tree.value)
    ensures digest.Some? ==> exists files :: Digests(root, tree.value, files, digest.value)
  {
    hide Counted, Ascending, Stream, Framed, Posix, Lists;
    if tree.None? {
      return None;
    }
    var files := CollectFiles(root, tree.value, found);
    var stream: Text := [];
    ghost var done: seq<FileBytes> := [];
    EmptyStream(done);
    ListedIsIncluded(root, tree.value, files);
    for i := 0 to |files|
      invariant forall k :: 0 <= k < i ==> tree.value[files[k]].File? && tree.value[files[k]].content.Some?
      invariant |done| == i && stream == Stream(done)
      invariant forall k :: 0 <= k < i ==> done[k] == FileBytes(Posix(files[k]), tree.value[files[k]].content.value)
    {
      assert files[i] in files;
      var node := tree.value[files[i]];
      if node.LinkToFile? || node.content.None? {
        return None;
      }
      StreamAppend(done, FileBytes(Posix(files[i]), node.content.value));
      stream := stream + Framed(Posix(files[i]));
      stream := stream + Framed(node.content.value);
      done := done + [FileBytes(Posix(files[i]), node.content.value)];
    }
    AllRead(root, tree.value, files);
    ListsContents(root, tree.value, files);
    assert done == FilesOf(Contents(root, tree.value), files);
    assert Digests(root, tree.value, files, stream);
    digest := Some(stream);
  }

  lemma ListedIsIncluded(root: Path, tree: Tree, files: seq<Path>)
    requires Lists(root, tree, files)
    ensures forall p :: p in files <==> p in tree && Included(root, tree, p)
  {
  }

  lemma AllRead(root: Path, tree: Tree, files: seq<Path>)
    requires Lists(root, tree, files)
    requires forall k :: 0 <= k < |files| ==> files[k] in tree && tree[files[k]].File? && tree[files[k]].content.Some?
    ensures Hashable(root, tree)
  {
    hide Counted, Ascending;
    forall p | p in tree && Included(root, tree, p) ensures tree[p].File? && tree[p].content.Some? {
      assert p in files;
    }
  }

  /** `stream` is what hashing the files that count, in order, hashes. */
  ghost predicate Digests(root: Path, tree: Tree, files: seq<Path>, stream: Text) {
    && Lists(root, tree, files)
    && (forall p :: p in files <==> p in Contents(root, tree))
    && stream == Stream(FilesOf(Contents(root, tree), files))
  }

  // ---------- What equal digests mean ----------

  /** The name of compiled Python: something in front of ".pyc" or ".pyo". */
  predicate Compiled(name: Text) {
    |name| > 4 && (name[|name| - 4..] == Bytes(".pyc") || name[|name| - 4..] == Bytes(".pyo"))
  }

  /** The tree's own readable files that are no caches, wherever the tree stands. */
  function OwnContents(tree: Tree): map<Path, Text> {
    map path | path in tree && path != [] && tree[path].File? && tree[path].content.Some?
               && Bytes("__pycache__") !in path && !Compiled(path[|path| - 1])
            :: tree[path].content.value
  }

  /** What Python takes for the suffix decides just that. */
  lemma CompiledExactly(name: Text)
    ensures Suffix(name) in {PYC, PYO} <==> Compiled(name)
  {
    hide PYC, PYO, LastDot;
    EndsInDot();
    var n := |name|;
    if n > 4 {
      var end := name[n - 4..];
      assert end[0] == name[n - 4] && end[1] == name[n - 3] && end[2] == name[n - 2] && end[3] == name[n - 1];
      if end == PYC || end == PYO { DotAt(name, n - 4); }
    }
  }

  /** A dot, and three characters that are none. */
  lemma EndsInDot()
    ensures PYC == Bytes(".pyc") && PYO == Bytes(".pyo") && |PYC| == |PYO| == 4 && PYC[0] == PYO[0] == DOT
    ensures forall k :: 0 < k < 4 ==> PYC[k] != DOT && PYO[k] != DOT
  {
  }

  lemma DotAt(name: Text, i: nat)
    requires i < |name| && name[i] == DOT && forall k :: i < k < |name| ==> name[k] != DOT
    ensures LastDot(name, |name|) == i
  {
  }

  lemma OwnAreContents(tree: Tree)
    ensures OwnContents(tree) == Contents([], tree)
  {
    hide Suffix, Compiled;
    forall path: Path | path in tree && path != []
      ensures [] + path == path && (Suffix(path[|path| - 1]) in {PYC, PYO} <==> Compiled(path[|path| - 1]))
    {
      CompiledExactly(path[|path| - 1]);
    }
  }

  /** Every file of its own counts, unless the tree stands below a directory named `__pycache__`:
      then none does. */
  lemma ContentsBelow(root: Path, tree: Tree)
    ensures Contents(root, tree) == if PYCACHE in root then map[] else OwnContents(tree)
    ensures Contents(root, tree) == OwnContents(tree) <==> PYCACHE !in root || OwnContents(tree) == map[]
  {
    hide Suffix, PYCACHE, PYC, PYO, OwnContents;
    OwnAreContents(tree);
    forall p: Path ensures PYCACHE in root + p <==> PYCACHE in root || PYCACHE in p {
    }
    forall p: Path ensures [] + p == p {
    }
  }

  /** Two trees are hashed alike exactly when the same files count in both, with the same contents. */
  lemma StreamsAgree(root: Path, tree: Tree, files: seq<Path>, stream: Text,
                     root': Path, tree': Tree, files': seq<Path>, stream': Text)
    requires Sound(tree) && Sound(tree')
    requires Digests(root, tree, files, stream) && Digests(root', tree', files', stream')
    ensures stream == stream' <==> Contents(root, tree) == Contents(root', tree')
  {
    hide Stream, Posix, Included, Ascending;
    var c, c' := Contents(root, tree), Contents(root', tree');
    var f, f' := FilesOf(c, files), FilesOf(c', files');
    if c == c' {
      OneListing(files, files');
    }
    if stream == stream' {
      SoundFrames(root, tree, files);
      SoundFrames(root', tree', files');
      StreamInjective(f, f');
      SamePaths(c, files, c', files');
    }
  }

  /** Two trees are hashed alike exactly when they hold the same files, with the same contents,
      where a tree below a directory named `__pycache__` passes for an empty one. */
  lemma DigestsAgree(root: Path, tree: Tree, files: seq<Path>, stream: Text,
                     root': Path, tree': Tree, files': seq<Path>, stream': Text)
    requires Sound(tree) && Sound(tree')
    requires Digests(root, tree, files, stream) && Digests(root', tree', files', stream')
    ensures PYCACHE !in root && PYCACHE !in root' ==> (stream == stream' <==> OwnContents(tree) == OwnContents(tree'))
    ensures PYCACHE in root && PYCACHE in root' ==> stream == stream'
    ensures PYCACHE in root && PYCACHE !in root' ==> (stream == stream' <==> OwnContents(tree') == map[])
    ensures PYCACHE !in root && PYCACHE in root' ==> (stream == stream' <==> OwnContents(tree) == map[])
  {
    hide Digests, Contents, OwnContents, PYCACHE, Sound;
    StreamsAgree(root, tree, files, stream, root', tree', files', stream');
    ContentsBelow(root, tree);
    ContentsBelow(root', tree');
  }

  /** Comparing digests below the two roots tells the files of any two trees apart. */
  ghost predicate ComparesFiles(root: Path, root': Path) {
    forall tree, files, stream, tree', files', stream' ::
      Sound(tree) && Sound(tree') && Digests(root, tree, files, stream) && Digests(root', tree', files', stream')
      ==> (stream == stream' <==> OwnContents(tree) == OwnContents(tree'))
  }

  /** The comparison is right for all trees exactly where neither root stands below such a
      directory. */
  lemma ComparesFilesExactly(root: Path, root': Path)
    ensures ComparesFiles(root, root') <==> PYCACHE !in root && PYCACHE !in root'
  {
    hide Digests, OwnContents, PYCACHE, Sound, Contents;
    if PYCACHE !in root && PYCACHE !in root' {
      forall tree, files, stream, tree', files', stream' |
        Sound(tree) && Sound(tree') && Digests(root, tree, files, stream) && Digests(root', tree', files', stream')
        ensures stream == stream' <==> OwnContents(tree) == OwnContents(tree')
      {
        DigestsAgree(root, tree, files, stream, root', tree', files', stream');
      }
    }
    if PYCACHE in root { HashedAsEmpty(root, root'); }
    if PYCACHE in root' { HashedAsEmpty(root', root); }
  }

  /** A tree of one file, and below a cache directory the stream of no file. */
  const ONE_FILE: Tree := map[[Bytes("a")] := File(Some([]))]

  /** The input on which the comparison fails: one file below such a root, none below the other. */
  lemma HashedAsEmpty(root: Path, root': Path)
    requires PYCACHE in root
    ensures Sound(ONE_FILE) && Sound(map[])
    ensures Digests(root, ONE_FILE, [], []) && Digests(root', map[], [], [])
    ensures OwnContents(ONE_FILE) != OwnContents(map[])
    ensures !ComparesFiles(root, root') && !ComparesFiles(root', root)
  {
    hide PYCACHE, Stream, Sound, OwnContents;
    CacheRootCountsNothing(root, ONE_FILE);
    EmptyStream([]);
    NoFileListed(root, ONE_FILE);
    OneFileIsOwn();
  }

  lemma NoFileListed(root: Path, tree: Tree)
    requires PYCACHE in root
    ensures forall p :: !Included(root, tree, p)
  {
    hide Suffix, PYCACHE, PYC, PYO;
    forall p ensures !Counted(root, p) {
      assert PYCACHE in root + p;
    }
  }

  lemma OneFileIsOwn()
    ensures Sound(ONE_FILE) && Sound(map[])
    ensures [Bytes("a")] in OwnContents(ONE_FILE) && OwnContents(map[]) == map[]
  {
    var name := Bytes("a");
    assert name == [0x61];
    assert |Bytes("__pycache__")| == 11 && Bytes("__pycache__") !in [name];
  }

  lemma SoundFrames(root: Path, tree: Tree, files: seq<Path>)
    requires Sound(tree) && forall p :: p in files <==> p in Contents(root, tree)
    ensures Framable(FilesOf(Contents(root, tree), files))
    ensures forall p :: p in files ==> p != [] && forall part :: part in p ==> SLASH !in part
  {
    hide Posix;
    forall i | 0 <= i < |files|
      ensures |Posix(files[i])| < FRAME_LIMIT && |Contents(root, tree)[files[i]]| < FRAME_LIMIT
    {
      assert files[i] in files;
    }
  }

  lemma SamePaths(c: map<Path, Text>, files: seq<Path>, c': map<Path, Text>, files': seq<Path>)
    requires (forall p :: p in files <==> p in c) && (forall p :: p in files' <==> p in c')
    requires forall p :: p in files || p in files' ==> p != [] && forall part :: part in p ==> SLASH !in part
    requires FilesOf(c, files) == FilesOf(c', files')
    ensures c == c'
  {
    hide Posix;
    var f, f' := FilesOf(c, files), FilesOf(c', files');
    forall i | 0 <= i < |files| ensures files[i] == files'[i] && c[files[i]] == c'[files'[i]] {
      assert f[i] == f'[i] && files[i] in files && files'[i] in files';
      PosixInjective(files[i], files'[i]);
    }
    assert files == files';
    forall p | p in c ensures p in c' && c[p] == c'[p] {
      var i :| 0 <= i < |files| && files[i] == p;
    }
    forall p | p in c' ensures p in c {
      assert p in files';
    }
  }

  /** Below a directory named `__pycache__` no file counts: any two trees there are hashed alike. */
  lemma CacheRootCountsNothing(root: Path, tree: Tree)
    requires PYCACHE in root
    ensures Hashable(root, tree) && Contents(root, tree) == map[]
  {
    hide Suffix, PYCACHE, PYC, PYO;
    forall p ensures !Counted(root, p) {
      assert PYCACHE in root + p;
    }
  }

  // ---------- The check of the installed plugin ----------

  datatype Installed = NoSourceVersion | NotInstalled | DoesNotValidate | NotHashed | Stale | Matches

  /** `digest` and `installed` are the bytes hashed for the source and the installed plugin. */
  function CheckInstalledPlugin(hasVersion: bool, hasCache: bool, validates: bool,
                                digest: Option<Text>, installed: Option<Text>): Installed
  {
    if !hasVersion then NoSourceVersion
    else if !hasCache then NotInstalled
    else if !validates then DoesNotValidate
    else if digest.None? || installed.None? then NotHashed
    else if digest != installed then Stale
    else Matches
  }

  /** The installed plugin passes exactly when it validates and holds the files of the source; a
      checkout or a home below a directory named `__pycache__` hides the files it holds. */
  lemma MatchesExactly(hasVersion: bool, hasCache: bool, validates: bool,
                       root: Path, tree: Tree, files: seq<Path>, stream: Text,
                       root': Path, tree': Tree, files': seq<Path>, stream': Text)
    requires Sound(tree) && Sound(tree')
    requires Digests(root, tree, files, stream) && Digests(root', tree', files', stream')
    ensures PYCACHE !in root && PYCACHE !in root' ==>
      (CheckInstalledPlugin(hasVersion, hasCache, validates, Some(stream), Some(stream')).Matches? <==>
         hasVersion && hasCache && validates && OwnContents(tree) == OwnContents(tree'))
    ensures CheckInstalledPlugin(hasVersion, hasCache, validates, Some(stream), Some(stream')).Matches? <==>
      && hasVersion && hasCache && validates
      && (if PYCACHE in root then map[] else OwnContents(tree))
         == (if PYCACHE in root' then map[] else OwnContents(tree'))
  {
    hide Digests, Contents, OwnContents, PYCACHE, Sound;
    DigestsAgree(root, tree, files, stream, root', tree', files', stream');
  }
}
