/** The repository walk of the code-analysis page (src/pages/Githubchat.tsx):
    `fetchFileContents` turns a listing into a flat list of path/content
    pairs, isolating every failed fetch, and the `reduce` in `fetchRepoData`
    writes those pairs into the path-to-content dictionary that the overview
    prompt reads its first five files from. */
module RepoFetch {
  import opened Wrappers
  import opened Text

  /** An entry of a directory listing, together with the outcome of fetching
      it: a file's decoded content (`None` when the content request or its
      base64 decoding failed), a directory's own listing (or `UnreadableDir`
      when that listing request failed), or an entry of another type
      (`symlink`, `submodule`). */
  datatype Node =
    | File(name: string, content: Option<string>)
    | Dir(name: string, children: seq<Node>)
    | UnreadableDir(name: string)
    | Other(name: string, kind: string)

  /** `{ name: fullPath, content }`. */
  datatype FileEntry = FileEntry(name: string, content: string)

  /** `path ? `${path}/${file.name}` : file.name`. */
  function JoinPath(path: string, name: string): string {
    if path == "" then name else path + "/" + name
  }

  // ---------------------------------------------------------------------
  // fetchFileContents

  /** `fetchFileContents(files, owner, repo, path)`: the entries of every
      listed node in listing order, flattened, with failures dropped. */
  function FetchAll(ns: seq<Node>, path: string): seq<FileEntry>
    decreases ns
  {
    if ns == [] then [] else FetchNode(ns[0], path) + FetchAll(ns[1..], path)
  }

  /** What one listed node contributes: the file itself, or everything below
      the directory, or nothing when its request failed or its type is
      neither `file` nor `dir`. */
  function FetchNode(n: Node, path: string): (r: seq<FileEntry>)
    ensures n.File? && n.content.None? ==> r == []
    ensures n.UnreadableDir? || n.Other? ==> r == []
    ensures n.File? && n.content.Some? ==> r == [FileEntry(JoinPath(path, n.name), n.content.value)]
    decreases n
  {
    match n
    case File(name, content) =>
      if content.Some? then [FileEntry(JoinPath(path, name), content.value)] else []
    case Dir(name, cs) => FetchAll(cs, JoinPath(path, name))
    case UnreadableDir(_) => []
    case Other(_, _) => []
  }

  /** The walk of a listing is the walk of its parts, one after the other. */
  lemma {:induction false} FetchAllAppend(a: seq<Node>, b: seq<Node>, path: string)
    ensures FetchAll(a + b, path) == FetchAll(a, path) + FetchAll(b, path)
    decreases |a|
  {
    if a == [] {
      assert a + b == b;
    } else {
      assert (a + b)[0] == a[0];
      assert (a + b)[1..] == a[1..] + b;
      FetchAllAppend(a[1..], b, path);
    }
  }

  /** Failure isolation: a node contributes its own entries in its own place
      and nothing else; a failed file, an unreadable directory or an entry of
      another type drops out without disturbing its siblings. */
  lemma FetchAllIsolates(a: seq<Node>, n: Node, b: seq<Node>, path: string)
    ensures FetchAll(a + [n] + b, path) == FetchAll(a, path) + FetchNode(n, path) + FetchAll(b, path)
    ensures (n.File? && n.content.None?) || n.UnreadableDir? || n.Other? ==>
              FetchAll(a + [n] + b, path) == FetchAll(a + b, path)
  {
    var fa, fn, fb := FetchAll(a, path), FetchNode(n, path), FetchAll(b, path);
    FetchAllAppend(a + [n], b, path);
    FetchAllAppend(a, [n], path);
    FetchAllSingleton(n, path);
    assert FetchAll(a + [n] + b, path) == fa + fn + fb;
    if (n.File? && n.content.None?) || n.UnreadableDir? || n.Other? {
      FetchAllAppend(a, b, path);
      assert fn == [];
      assert fa + fn + fb == fa + fb;
    }
  }

  lemma FetchAllSingleton(n: Node, path: string)
    ensures FetchAll([n], path) == FetchNode(n, path)
  {
    assert [n][1..] == [];
  }

  // ---------------------------------------------------------------------
  // counting

  /** The number of files in a listing, counting failed ones and those below
      readable directories. */
  function FileCount(ns: seq<Node>): nat
    decreases ns
  {
    if ns == [] then 0 else NodeFileCount(ns[0]) + FileCount(ns[1..])
  }

  function NodeFileCount(n: Node): nat
    decreases n
  {
    match n
    case File(_, _) => 1
    case Dir(_, cs) => FileCount(cs)
    case _ => 0
  }

  /** Every file fetch succeeded and every directory listing could be read. */
  predicate AllFetched(ns: seq<Node>)
    decreases ns
  {
    ns == [] || (NodeFetched(ns[0]) && AllFetched(ns[1..]))
  }

  predicate NodeFetched(n: Node)
    decreases n
  {
    match n
    case File(_, content) => content.Some?
    case Dir(_, cs) => AllFetched(cs)
    case UnreadableDir(_) => false
    case Other(_, _) => true
  }

  /** The walk yields at most one entry per file, and exactly one per file
      when nothing fails. */
  lemma {:induction false} FetchAllCount(ns: seq<Node>, path: string)
    ensures |FetchAll(ns, path)| <= FileCount(ns)
    ensures AllFetched(ns) ==> |FetchAll(ns, path)| == FileCount(ns)
    decreases ns
  {
    if ns != [] {
      FetchNodeCount(ns[0], path);
      FetchAllCount(ns[1..], path);
    }
  }

  lemma {:induction false} FetchNodeCount(n: Node, path: string)
    ensures |FetchNode(n, path)| <= NodeFileCount(n)
    ensures NodeFetched(n) ==> |FetchNode(n, path)| == NodeFileCount(n)
    decreases n
  {
    if n.Dir? {
      FetchAllCount(n.children, JoinPath(path, n.name));
    }
  }

  // ---------------------------------------------------------------------
  // keys

  /** A key lies below `path`: at the root every key does; elsewhere it
      starts with the path and a slash. */
  predicate UnderPath(key: string, path: string) {
    path == "" || (|key| > |path| && key[..|path| + 1] == path + "/")
  }

  /** The part of a key below `path`. */
  function Relative(key: string, path: string): string
    requires UnderPath(key, path)
  {
    if path == "" then key else key[|path| + 1..]
  }

  /** The first segment of a relative path: everything before the first
      slash. */
  function Head(t: string): (r: string)
    ensures '/' !in r
  {
    match FirstIndex(t, '/')
    case None => t
    case Some(i) => t[..i]
  }

  /** A listing entry name GitHub can return: nonempty, without a slash. */
  predicate ValidName(name: string) {
    name != [] && '/' !in name
  }

  /** Sibling names are valid and pairwise different, at every level. */
  predicate WellFormed(ns: seq<Node>)
    decreases ns
  {
    && (forall i :: 0 <= i < |ns| ==> ValidName(ns[i].name))
    && (forall i, j :: 0 <= i < j < |ns| ==> ns[i].name != ns[j].name)
    && (ns != [] ==> WellFormedNode(ns[0]) && WellFormed(ns[1..]))
  }

  predicate WellFormedNode(n: Node)
    decreases n
  {
    n.Dir? ==> WellFormed(n.children)
  }

  /** A name followed by nothing or by a slash has that name as its head. */
  lemma HeadOfName(name: string, rest: string)
    requires '/' !in name
    requires rest == [] || rest[0] == '/'
    ensures Head(name + rest) == name
  {
    var t := name + rest;
    assert forall k :: 0 <= k < |name| ==> t[k] == name[k];
    if rest != [] {
      assert t[|name|] == '/';
      assert FirstIndex(t, '/') == Some(|name|);
      assert t[..|name|] == name;
    } else {
      assert t == name;
    }
  }

  /** Every key the walk produces lies below the path it started from. */
  lemma {:induction false} FetchAllUnder(ns: seq<Node>, path: string)
    ensures forall e :: e in FetchAll(ns, path) ==> UnderPath(e.name, path)
    decreases ns
  {
    if ns != [] {
      FetchNodeUnder(ns[0], path);
      FetchAllUnder(ns[1..], path);
    }
  }

  lemma {:induction false} FetchNodeUnder(n: Node, path: string)
    ensures forall e :: e in FetchNode(n, path) ==> UnderPath(e.name, path)
    decreases n
  {
    if n.Dir? {
      var q := JoinPath(path, n.name);
      FetchAllUnder(n.children, q);
      forall e | e in FetchNode(n, path) ensures UnderPath(e.name, path) {
        if path != "" {
          assert UnderPath(e.name, q);
          if q != "" {
            assert e.name[..|q| + 1] == q + "/";
            assert e.name[..|path| + 1] == (q + "/")[..|path| + 1];
          }
        }
      }
    }
  }

  /** Below `path`, every key of a node's entries starts with that node's
      own name. */
  lemma FetchNodeHead(n: Node, path: string)
    requires ValidName(n.name)
    ensures forall e :: e in FetchNode(n, path) ==>
              UnderPath(e.name, path) && Head(Relative(e.name, path)) == n.name
  {
    FetchNodeUnder(n, path);
    var q := JoinPath(path, n.name);
    if n.Dir? {
      FetchAllUnder(n.children, q);
    }
    forall e | e in FetchNode(n, path) ensures Head(Relative(e.name, path)) == n.name {
      if n.File? {
        assert e.name == q;
        assert Relative(e.name, path) == n.name + [];
        HeadOfName(n.name, []);
      } else {
        HeadBelowDir(e.name, path, n.name);
      }
    }
  }

  /** A key below the directory `path/name` lies below `path`, and its first
      component there is `name`. */
  lemma HeadBelowDir(key: string, path: string, name: string)
    requires ValidName(name)
    requires UnderPath(key, JoinPath(path, name))
    ensures UnderPath(key, path) && Head(Relative(key, path)) == name
  {
    var q := JoinPath(path, name);
    assert key[..|q| + 1] == q + "/";
    if path != "" {
      assert key[..|path| + 1] == (q + "/")[..|path| + 1];
    }
    var rel := Relative(key, path);
    assert rel[..|name| + 1] == name + "/" by {
      if path == "" {
        assert rel[..|name| + 1] == key[..|q| + 1];
      } else {
        assert rel[..|name| + 1] == key[|path| + 1..|q| + 1];
        assert key[|path| + 1..|q| + 1] == (q + "/")[|path| + 1..];
      }
    }
    assert rel == name + rel[|name|..] by {
      assert rel[..|name|] == (name + "/")[..|name|];
    }
    var rest := rel[|name|..];
    assert rest[0] == '/' by {
      assert rest[0] == rel[..|name| + 1][|name|];
    }
    HeadOfName(name, rest);
  }

  /** The head of every key of a listing's walk is the name of one of the
      listed nodes. */
  lemma {:induction false} FetchAllHeads(ns: seq<Node>, path: string)
    requires forall i :: 0 <= i < |ns| ==> ValidName(ns[i].name)
    ensures forall e :: e in FetchAll(ns, path) ==>
              UnderPath(e.name, path) && exists i :: 0 <= i < |ns| && Head(Relative(e.name, path)) == ns[i].name
    decreases ns
  {
    if ns != [] {
      FetchNodeHead(ns[0], path);
      FetchAllHeads(ns[1..], path);
      forall e | e in FetchAll(ns, path)
        ensures UnderPath(e.name, path) && exists i :: 0 <= i < |ns| && Head(Relative(e.name, path)) == ns[i].name
      {
        if e in FetchNode(ns[0], path) {
          assert Head(Relative(e.name, path)) == ns[0].name;
        } else {
          assert e in FetchAll(ns[1..], path);
          var i :| 0 <= i < |ns[1..]| && Head(Relative(e.name, path)) == ns[1..][i].name;
          assert ns[1..][i] == ns[i + 1];
        }
      }
    }
  }

  /** No two entries share a key. */
  predicate DistinctKeys(es: seq<FileEntry>) {
    forall i, j :: 0 <= i < j < |es| ==> es[i].name != es[j].name
  }

  /** In a well-formed tree no two files share a key: same-named files in
      different directories get different paths. */
  lemma {:induction false} FetchAllDistinct(ns: seq<Node>, path: string)
    requires WellFormed(ns)
    ensures DistinctKeys(FetchAll(ns, path))
    decreases ns
  {
    if ns != [] {
      var a := FetchNode(ns[0], path);
      var b := FetchAll(ns[1..], path);
      FetchNodeDistinct(ns[0], path);
      FetchAllDistinct(ns[1..], path);
      FetchNodeHead(ns[0], path);
      FetchAllHeads(ns[1..], path);
      forall x, y | x in a && y in b ensures x.name != y.name {
        var i :| 0 <= i < |ns[1..]| && Head(Relative(y.name, path)) == ns[1..][i].name;
        assert ns[1..][i] == ns[i + 1];
      }
      var ab := a + b;
      forall i, j | 0 <= i < j < |ab| ensures ab[i].name != ab[j].name {
        if i < |a| && j >= |a| {
          assert ab[i] in a && ab[j] in b;
        }
      }
    }
  }

  lemma {:induction false} FetchNodeDistinct(n: Node, path: string)
    requires WellFormedNode(n)
    ensures DistinctKeys(FetchNode(n, path))
    decreases n
  {
    if n.Dir? {
      FetchAllDistinct(n.children, JoinPath(path, n.name));
    }
  }

  // ---------------------------------------------------------------------
  // the contentsMap reduce

  /** The one key a plain `{}` does not store: writing it calls the setter
      inherited from `Object.prototype`, which ignores a string value, so no
      own property appears. */
  const ProtoKey := "__proto__"

  /** The dictionary `acc` after the `reduce` has written every entry of
      `files`: a later entry with the same key overwrites an earlier one, and
      an entry keyed `__proto__` leaves it as it was. */
  function ContentsOf(files: seq<FileEntry>): map<string, string>
    decreases |files|
  {
    if files == [] then map[]
    else
      var front := ContentsOf(files[..|files| - 1]);
      var f := files[|files| - 1];
      if f.name == ProtoKey then front else front[f.name := f.content]
  }

  /** The order in which the dictionary's keys were first inserted. */
  function KeyOrder(files: seq<FileEntry>): seq<string>
    decreases |files|
  {
    if files == [] then []
    else
      var ks := KeyOrder(files[..|files| - 1]);
      var f := files[|files| - 1];
      if f.name == ProtoKey || f.name in ks then ks else ks + [f.name]
  }

  /** Some entry carries the key `k`. */
  predicate Named(files: seq<FileEntry>, k: string) {
    exists i :: 0 <= i < |files| && files[i].name == k
  }

  /** The keys of the dictionary, in insertion order, each listed once: the
      names of the files, except `__proto__`. */
  lemma {:induction false} KeyOrderMatchesContents(files: seq<FileEntry>)
    ensures forall k :: k in KeyOrder(files) <==> k in ContentsOf(files)
    ensures forall k :: k in ContentsOf(files) <==> k != ProtoKey && Named(files, k)
    ensures forall i, j :: 0 <= i < j < |KeyOrder(files)| ==> KeyOrder(files)[i] != KeyOrder(files)[j]
    decreases |files|
  {
    if files != [] {
      var front := files[..|files| - 1];
      var f := files[|files| - 1];
      KeyOrderMatchesContents(front);
      assert forall i :: 0 <= i < |front| ==> front[i] == files[i];
      assert forall k :: Named(files, k) <==> Named(front, k) || k == f.name by {
        forall k | Named(files, k) ensures Named(front, k) || k == f.name {
          var i :| 0 <= i < |files| && files[i].name == k;
          if i < |front| { assert front[i].name == k; }
        }
      }
    }
  }

  /** Each stored key holds the content of the last entry with that key. */
  lemma {:induction false} ContentsOfLastWins(files: seq<FileEntry>, i: nat)
    requires i < |files|
    requires forall j :: i < j < |files| ==> files[j].name != files[i].name
    ensures files[i].name != ProtoKey ==>
              files[i].name in ContentsOf(files) && ContentsOf(files)[files[i].name] == files[i].content
    decreases |files|
  {
    if i < |files| - 1 {
      var front := files[..|files| - 1];
      assert front[i] == files[i];
      ContentsOfLastWins(front, i);
    }
  }

  /** With distinct keys the dictionary holds every entry not keyed
      `__proto__`; when no entry is, its keys come in the order of the
      entries. */
  lemma DistinctContents(files: seq<FileEntry>)
    requires DistinctKeys(files)
    ensures forall i :: 0 <= i < |files| && files[i].name != ProtoKey ==>
              files[i].name in ContentsOf(files) && ContentsOf(files)[files[i].name] == files[i].content
    ensures (forall i :: 0 <= i < |files| ==> files[i].name != ProtoKey) ==>
              KeyOrder(files) == seq(|files|, i requires 0 <= i < |files| => files[i].name)
  {
    forall i | 0 <= i < |files| && files[i].name != ProtoKey
      ensures files[i].name in ContentsOf(files) && ContentsOf(files)[files[i].name] == files[i].content
    {
      ContentsOfLastWins(files, i);
    }
    if forall i :: 0 <= i < |files| ==> files[i].name != ProtoKey {
      DistinctKeyOrder(files);
    }
  }

  /** With distinct keys, none of them `__proto__`, every entry inserts a
      new key. */
  lemma {:induction false} DistinctKeyOrder(files: seq<FileEntry>)
    requires DistinctKeys(files)
    requires forall i :: 0 <= i < |files| ==> files[i].name != ProtoKey
    ensures KeyOrder(files) == seq(|files|, i requires 0 <= i < |files| => files[i].name)
    decreases |files|
  {
    if files != [] {
      var front := files[..|files| - 1];
      var f := files[|files| - 1];
      assert DistinctKeys(front) by {
        forall i, j | 0 <= i < j < |front| ensures front[i].name != front[j].name {
          assert front[i] == files[i] && front[j] == files[j];
        }
      }
      DistinctKeyOrder(front);
      var names := KeyOrder(front);
      assert f.name !in names by {
        forall i | 0 <= i < |names| ensures names[i] != f.name {
          assert names[i] == files[i].name;
        }
      }
      assert KeyOrder(files) == names + [f.name];
    }
  }

  /** The `reduce` over the fetched entries: a loop writing one key per
      entry into the dictionary, recording keys in insertion order; the
      write of `__proto__` stores nothing. */
  method BuildContentsMap(files: seq<FileEntry>) returns (keys: seq<string>, contents: map<string, string>)
    ensures keys == KeyOrder(files)
    ensures contents == ContentsOf(files)
  {
    keys := [];
    contents := map[];
    var i := 0;
    while i < |files|
      invariant 0 <= i <= |files|
      invariant keys == KeyOrder(files[..i])
      invariant contents == ContentsOf(files[..i])
    {
      var f := files[i];
      assert files[..i + 1][..i] == files[..i];
      KeyOrderMatchesContents(files[..i]);
      if f.name != ProtoKey {
        if f.name !in contents {
          keys := keys + [f.name];
        }
        contents := contents[f.name := f.content];
      }
      i := i + 1;
    }
    assert files[..i] == files;
  }

  /** Only a root-level entry can be keyed `__proto__`: every deeper key
      holds a slash. */
  lemma ProtoKeyNeedsRootName(ns: seq<Node>)
    requires forall i :: 0 <= i < |ns| ==> ValidName(ns[i].name)
    ensures forall e :: e in FetchAll(ns, "") && e.name == ProtoKey ==>
              exists i :: 0 <= i < |ns| && ns[i].name == ProtoKey
  {
    FetchAllHeads(ns, "");
    HeadOfName(ProtoKey, []);
    assert ProtoKey + [] == ProtoKey;
  }

  /** Walking a well-formed tree and building the dictionary keeps every
      fetched file under its own path, except a root file named
      `__proto__`; without such a root entry there is one key per file. */
  lemma WalkIntoContents(ns: seq<Node>)
    requires WellFormed(ns)
    ensures forall e :: e in FetchAll(ns, "") && e.name != ProtoKey ==>
              e.name in ContentsOf(FetchAll(ns, "")) && ContentsOf(FetchAll(ns, ""))[e.name] == e.content
    ensures ProtoKey !in ContentsOf(FetchAll(ns, ""))
    ensures (forall i :: 0 <= i < |ns| ==> ns[i].name != ProtoKey) ==>
              |KeyOrder(FetchAll(ns, ""))| == |FetchAll(ns, "")|
  {
    var files := FetchAll(ns, "");
    FetchAllDistinct(ns, "");
    DistinctContents(files);
    KeyOrderMatchesContents(files);
    ProtoKeyNeedsRootName(ns);
    forall e | e in files && e.name != ProtoKey
      ensures e.name in ContentsOf(files) && ContentsOf(files)[e.name] == e.content
    {
      var i :| 0 <= i < |files| && files[i] == e;
    }
    if forall i :: 0 <= i < |ns| ==> ns[i].name != ProtoKey {
      forall i | 0 <= i < |files| ensures files[i].name != ProtoKey {
        assert files[i] in files;
      }
    }
  }

  // ---------------------------------------------------------------------
  // the overview prompt's file list

  /** `Object.keys(fileContents).slice(0, 5)`. */
  function OverviewFiles(keys: seq<string>): (r: seq<string>)
    ensures |r| <= 5 && |r| <= |keys|
    ensures r == keys[..|r|]
    ensures |r| == 5 || r == keys
  {
    if |keys| <= 5 then keys else keys[..5]
  }

  /** One file's block of the overview prompt. */
  function FileBlock(name: string, contents: map<string, string>): string
    requires name in contents
  {
    "File: " + name + "\nContent:\n" + contents[name]
  }

  function Blocks(names: seq<string>, contents: map<string, string>): (r: seq<string>)
    requires forall k :: k in names ==> k in contents
    ensures |r| == |names|
    ensures forall i :: 0 <= i < |r| ==> r[i] == FileBlock(names[i], contents)
    decreases |names|
  {
    if names == [] then [] else [FileBlock(names[0], contents)] + Blocks(names[1..], contents)
  }

  /** The files part of the overview prompt: the blocks of the first five
      keys, separated by blank lines. */
  function OverviewText(keys: seq<string>, contents: map<string, string>): string
    requires forall k :: k in keys ==> k in contents
  {
    Join(Blocks(OverviewFiles(keys), contents), "\n\n")
  }

  /** The overview prompt shows exactly the first five files (all of them
      when there are fewer), each block in key order. */
  lemma OverviewShowsFirstFive(keys: seq<string>, contents: map<string, string>)
    requires forall k :: k in keys ==> k in contents
    ensures var bs := Blocks(OverviewFiles(keys), contents);
            && |bs| == (if |keys| < 5 then |keys| else 5)
            && forall i :: 0 <= i < |bs| ==> bs[i] == FileBlock(keys[i], contents)
    ensures |keys| > 5 ==> OverviewText(keys, contents) == OverviewText(keys[..5], contents)
  {
    var r := OverviewFiles(keys);
    assert forall i :: 0 <= i < |r| ==> r[i] == keys[i];
    if |keys| > 5 {
      assert keys[..5][..5] == keys[..5];
    }
  }
}
