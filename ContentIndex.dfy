/**
 * getFilesInFolder of scripts/roadmap-content.cjs: a walk over the roadmap's
 * content folder that registers every regular file under its topic URL in
 * one shared URL-to-path dictionary.
 *
 * The folder is given as a tree of entries in the order the directory
 * listing returns them; a path is its folder's path, a `/` and the entry's
 * name.
 */
module ContentIndex {
  import opened Strings
  import opened TopicUrl

  /** A directory entry: a folder with its listing, a regular file, or anything else (a socket, a device). */
  datatype Entry =
    | Dir(name: string, children: seq<Entry>)
    | File(name: string)
    | Other(name: string)

  /** The path of an entry inside a folder. */
  function ChildPath(folder: string, name: string): string {
    folder + "/" + name
  }

  /** The paths of the regular files under a listing, in the order the walk visits them. */
  function FilePaths(folder: string, entries: seq<Entry>): seq<string>
    decreases entries
  {
    if entries == [] then []
    else EntryPaths(folder, entries[0]) + FilePaths(folder, entries[1..])
  }

  function EntryPaths(folder: string, e: Entry): seq<string>
    decreases e
  {
    match e
    case Dir(name, children) => FilePaths(ChildPath(folder, name), children)
    case File(name) => [ChildPath(folder, name)]
    case Other(_) => []
  }

  /** The paths of the folders under a listing. */
  function DirPaths(folder: string, entries: seq<Entry>): seq<string>
    decreases entries
  {
    if entries == [] then []
    else EntryDirPaths(folder, entries[0]) + DirPaths(folder, entries[1..])
  }

  function EntryDirPaths(folder: string, e: Entry): seq<string>
    decreases e
  {
    match e
    case Dir(name, children) => [ChildPath(folder, name)] + DirPaths(ChildPath(folder, name), children)
    case File(_) => []
    case Other(_) => []
  }

  /** `fileList[fileUrl] = filePath` for each path in turn. */
  function Register(m: map<string, string>, contentRoot: string, paths: seq<string>): map<string, string>
    decreases |paths|
  {
    if paths == [] then m
    else Register(m[ContentUrl(contentRoot, paths[0]) := paths[0]], contentRoot, paths[1..])
  }

  // ---------------------------------------------------------------------
  // The walk, one entry at a time

  lemma {:induction false} FilePathsAppend(folder: string, entries: seq<Entry>, i: nat)
    requires i < |entries|
    ensures FilePaths(folder, entries[..i + 1]) == FilePaths(folder, entries[..i]) + EntryPaths(folder, entries[i])
  {
    if i == 0 {
      assert entries[..1][1..] == [];
    } else {
      var tail := entries[1..];
      assert entries[..i + 1][1..] == tail[..i];
      assert entries[..i][1..] == tail[..i - 1];
      FilePathsAppend(folder, tail, i - 1);
    }
  }

  lemma {:induction false} RegisterAppend(m: map<string, string>, contentRoot: string, a: seq<string>, b: seq<string>)
    ensures Register(m, contentRoot, a + b) == Register(Register(m, contentRoot, a), contentRoot, b)
    decreases |a|
  {
    if a != [] {
      assert (a + b)[1..] == a[1..] + b;
      RegisterAppend(m[ContentUrl(contentRoot, a[0]) := a[0]], contentRoot, a[1..], b);
    } else {
      assert a + b == b;
    }
  }

  lemma RegisterOne(m: map<string, string>, contentRoot: string, path: string)
    ensures Register(m, contentRoot, [path]) == m[ContentUrl(contentRoot, path) := path]
  {
  }

  /** Registering one more entry's files extends the walk by that entry. */
  lemma WalkStep(m: map<string, string>, contentRoot: string, folder: string, entries: seq<Entry>, i: nat,
                 before: map<string, string>, after: map<string, string>)
    requires i < |entries|
    requires before == Register(m, contentRoot, FilePaths(folder, entries[..i]))
    requires after == Register(before, contentRoot, EntryPaths(folder, entries[i]))
    ensures after == Register(m, contentRoot, FilePaths(folder, entries[..i + 1]))
  {
    FilePathsAppend(folder, entries, i);
    RegisterAppend(m, contentRoot, FilePaths(folder, entries[..i]), EntryPaths(folder, entries[i]));
  }

  // ---------------------------------------------------------------------
  // What the dictionary holds

  /** The topic URLs of a list of paths. */
  function Urls(contentRoot: string, paths: seq<string>): set<string> {
    set i | 0 <= i < |paths| :: ContentUrl(contentRoot, paths[i])
  }

  lemma UrlsCons(contentRoot: string, paths: seq<string>)
    requires paths != []
    ensures Urls(contentRoot, paths) == {ContentUrl(contentRoot, paths[0])} + Urls(contentRoot, paths[1..])
  {
    var urls, rest := Urls(contentRoot, paths), Urls(contentRoot, paths[1..]);
    forall u | u in urls ensures u in {ContentUrl(contentRoot, paths[0])} + rest {
      var i :| 0 <= i < |paths| && ContentUrl(contentRoot, paths[i]) == u;
      if i > 0 {
        assert paths[1..][i - 1] == paths[i];
      }
    }
    forall u | u in rest ensures u in urls {
      var i :| 0 <= i < |paths| - 1 && ContentUrl(contentRoot, paths[1..][i]) == u;
      assert paths[1..][i] == paths[i + 1];
    }
  }

  /** The keys are the keys there were and the URLs of the registered paths, and nothing else. */
  lemma {:induction false} RegisterKeys(m: map<string, string>, contentRoot: string, paths: seq<string>)
    ensures Register(m, contentRoot, paths).Keys == m.Keys + Urls(contentRoot, paths)
    decreases |paths|
  {
    if paths != [] {
      RegisterKeys(m[ContentUrl(contentRoot, paths[0]) := paths[0]], contentRoot, paths[1..]);
      UrlsCons(contentRoot, paths);
    }
  }

  /** A URL no path normalises to keeps whatever it had. */
  lemma {:induction false} RegisterElsewhere(m: map<string, string>, contentRoot: string, paths: seq<string>, url: string)
    requires forall i :: 0 <= i < |paths| ==> ContentUrl(contentRoot, paths[i]) != url
    ensures url in Register(m, contentRoot, paths) <==> url in m
    ensures url in m ==> Register(m, contentRoot, paths)[url] == m[url]
    decreases |paths|
  {
    if paths != [] {
      assert ContentUrl(contentRoot, paths[0]) != url;
      forall i | 0 <= i < |paths| - 1 ensures ContentUrl(contentRoot, paths[1..][i]) != url {
        assert paths[1..][i] == paths[i + 1];
      }
      RegisterElsewhere(m[ContentUrl(contentRoot, paths[0]) := paths[0]], contentRoot, paths[1..], url);
    }
  }

  /** On a collision the path registered last wins. */
  lemma {:induction false} RegisterLastWins(m: map<string, string>, contentRoot: string, paths: seq<string>, j: nat)
    requires j < |paths|
    requires forall i :: j < i < |paths| ==> ContentUrl(contentRoot, paths[i]) != ContentUrl(contentRoot, paths[j])
    ensures ContentUrl(contentRoot, paths[j]) in Register(m, contentRoot, paths)
    ensures Register(m, contentRoot, paths)[ContentUrl(contentRoot, paths[j])] == paths[j]
    decreases |paths|
  {
    var url := ContentUrl(contentRoot, paths[j]);
    var m' := m[ContentUrl(contentRoot, paths[0]) := paths[0]];
    if j == 0 {
      forall i | 0 <= i < |paths| - 1 ensures ContentUrl(contentRoot, paths[1..][i]) != url {
        assert paths[1..][i] == paths[i + 1];
      }
      RegisterElsewhere(m', contentRoot, paths[1..], url);
    } else {
      forall i | j - 1 < i < |paths| - 1
        ensures ContentUrl(contentRoot, paths[1..][i]) != ContentUrl(contentRoot, paths[1..][j - 1])
      {
        assert paths[1..][i] == paths[i + 1];
      }
      RegisterLastWins(m', contentRoot, paths[1..], j - 1);
    }
  }

  /** Every path registered is looked up under its own URL, or came from the old dictionary. */
  lemma {:induction false} RegisterValues(m: map<string, string>, contentRoot: string, paths: seq<string>, url: string)
    requires url in Register(m, contentRoot, paths)
    ensures var p := Register(m, contentRoot, paths)[url];
      || (p in paths && ContentUrl(contentRoot, p) == url)
      || (url in m && p == m[url])
    decreases |paths|
  {
    if paths != [] {
      var m' := m[ContentUrl(contentRoot, paths[0]) := paths[0]];
      RegisterValues(m', contentRoot, paths[1..], url);
    }
  }

  /** The index of one walk from an empty dictionary. */
  function IndexOf(contentRoot: string, entries: seq<Entry>): map<string, string> {
    Register(map[], contentRoot, FilePaths(contentRoot, entries))
  }

  /**
   * The keys of the index are exactly the topic URLs of the regular files
   * in the tree, and each key leads back to a file with that URL.
   */
  lemma IndexContents(contentRoot: string, entries: seq<Entry>)
    ensures var files := FilePaths(contentRoot, entries);
      && IndexOf(contentRoot, entries).Keys == (set i | 0 <= i < |files| :: ContentUrl(contentRoot, files[i]))
      && forall url :: url in IndexOf(contentRoot, entries) ==>
           IndexOf(contentRoot, entries)[url] in files && ContentUrl(contentRoot, IndexOf(contentRoot, entries)[url]) == url
  {
    var files := FilePaths(contentRoot, entries);
    RegisterKeys(map[], contentRoot, files);
    forall url | url in IndexOf(contentRoot, entries)
      ensures IndexOf(contentRoot, entries)[url] in files
      ensures ContentUrl(contentRoot, IndexOf(contentRoot, entries)[url]) == url
    {
      RegisterValues(map[], contentRoot, files, url);
    }
  }

  /** `…/n.md` is registered under `/n` when n has no ordering prefix. */
  lemma LeafFileUrl(contentRoot: string, n: string)
    requires n != [] && !IsDigit(n[0]) && '/' !in n && n != "index"
    ensures ContentUrl(contentRoot, ChildPath(contentRoot, n + ".md")) == "/" + n
  {
    var rel := "/" + (n + ".md");
    ConcatAssociative(contentRoot, "/", n + ".md");
    ContentUrlOf(contentRoot, ChildPath(contentRoot, n + ".md"), rel);
    PlainSegmentKept(n + ".md");
    LeafSuffix(n);
  }

  lemma LeafSuffix(n: string)
    requires '/' !in n && n != "index"
    ensures StripSuffixes("/" + (n + ".md")) == "/" + n
  {
    LeafUrl([n]);
    assert "/" + Join([n], '/') + ".md" == "/" + (n + ".md");
  }

  lemma PlainSegmentKept(seg: string)
    requires seg != [] && !IsDigit(seg[0]) && '/' !in seg
    ensures StripOrdering("/" + seg) == "/" + seg
  {
    OrderingDigitsZero(seg);
    StripOneSegment(seg, seg);
  }

  /** `…/n/index.md` is registered under `/n` too. */
  lemma FolderIndexUrl(contentRoot: string, n: string)
    requires n != [] && !IsDigit(n[0]) && '/' !in n && !EndsWith(n, ".md")
    ensures ContentUrl(contentRoot, ChildPath(ChildPath(contentRoot, n), "index.md")) == "/" + n
  {
    PlainSegmentKept(n);
    FolderNotMarkdown("", n);
    assert "" + "/" + n == "/" + n;
    IndexPathShape(contentRoot, n);
    ContentUrlOfIndexFile(contentRoot, "/" + n);
  }

  lemma IndexPathShape(contentRoot: string, n: string)
    ensures ChildPath(ChildPath(contentRoot, n), "index.md") == contentRoot + ("/" + n + "/index.md")
  {
  }

  /**
   * `n.md` and `n/index.md` side by side both stand for the topic `/n`; the
   * walk visits the folder later, so its index file is the one kept.
   */
  lemma CollisionKeepsLater(contentRoot: string, n: string)
    requires n != [] && !IsDigit(n[0]) && '/' !in n && n != "index" && !EndsWith(n, ".md")
    ensures var entries := [File(n + ".md"), Dir(n, [File("index.md")])];
      IndexOf(contentRoot, entries) == map["/" + n := ChildPath(ChildPath(contentRoot, n), "index.md")]
  {
    var leaf, index := ChildPath(contentRoot, n + ".md"), ChildPath(ChildPath(contentRoot, n), "index.md");
    CollisionPaths(contentRoot, n);
    LeafFileUrl(contentRoot, n);
    FolderIndexUrl(contentRoot, n);
    RegisterSameUrl(contentRoot, leaf, index, "/" + n);
  }

  lemma CollisionPaths(contentRoot: string, n: string)
    ensures FilePaths(contentRoot, [File(n + ".md"), Dir(n, [File("index.md")])])
         == [ChildPath(contentRoot, n + ".md"), ChildPath(ChildPath(contentRoot, n), "index.md")]
  {
    var entries := [File(n + ".md"), Dir(n, [File("index.md")])];
    var index := ChildPath(ChildPath(contentRoot, n), "index.md");
    assert FilePaths(ChildPath(contentRoot, n), [File("index.md")]) == [index];
    assert FilePaths(contentRoot, entries[1..]) == [index];
  }

  /** Two paths with one URL, registered in turn into an empty dictionary, leave the second. */
  lemma RegisterSameUrl(contentRoot: string, first: string, second: string, url: string)
    requires ContentUrl(contentRoot, first) == url && ContentUrl(contentRoot, second) == url
    ensures Register(map[], contentRoot, [first, second]) == map[url := second]
  {
    RegisterTwo(map[], contentRoot, first, second);
    assert map[url := first][url := second] == map[url := second];
  }

  lemma RegisterTwo(m: map<string, string>, contentRoot: string, first: string, second: string)
    ensures Register(m, contentRoot, [first, second])
         == m[ContentUrl(contentRoot, first) := first][ContentUrl(contentRoot, second) := second]
  {
    assert [first, second][1..] == [second];
    RegisterOne(m[ContentUrl(contentRoot, first) := first], contentRoot, second);
  }

  // ---------------------------------------------------------------------
  // Folders are never registered

  /**
   * A listing as a file system gives it: names without `/`, and no two
   * entries of one folder with the same name.
   */
  predicate WellFormed(entries: seq<Entry>)
    decreases entries
  {
    && (forall k :: 0 <= k < |entries| ==> '/' !in entries[k].name)
    && (forall k1, k2 :: 0 <= k1 < k2 < |entries| ==> entries[k1].name != entries[k2].name)
    && (forall k :: 0 <= k < |entries| ==> entries[k].Dir? ==> WellFormed(entries[k].children))
  }

  /** The length of the stretch before the first `/` of s. */
  function SlashFreeRun(s: string): (n: nat)
    ensures n <= |s|
    ensures forall i :: 0 <= i < n ==> s[i] != '/'
    ensures n < |s| ==> s[n] == '/'
  {
    if s == [] || s[0] == '/' then 0 else 1 + SlashFreeRun(s[1..])
  }

  lemma SlashFreeRunIs(s: string, n: nat)
    requires n <= |s|
    requires forall i :: 0 <= i < n ==> s[i] != '/'
    requires n < |s| ==> s[n] == '/'
    ensures SlashFreeRun(s) == n
  {
  }

  /** p is the path d itself, or a path inside the folder d. */
  predicate Under(p: string, d: string) {
    p == d || StartsWith(p, d + "/")
  }

  /** The segment after `folder/` in a path under `folder/name` is the name. */
  lemma UnderName(p: string, folder: string, name: string)
    requires '/' !in name && Under(p, ChildPath(folder, name))
    ensures |folder| + 1 <= |p|
    ensures var rest := p[|folder| + 1..];
      SlashFreeRun(rest) == |name| && rest[..|name|] == name
  {
    var d := ChildPath(folder, name);
    var rest := p[|folder| + 1..];
    assert p[..|d|] == d;
    assert rest[..|name|] == d[|folder| + 1..];
    if p != d {
      assert p[|d|] == (d + "/")[|d|];
    }
    SlashFreeRunIs(rest, |name|);
  }

  lemma StartsWithChild(p: string, folder: string, name: string)
    requires Under(p, ChildPath(folder, name))
    ensures StartsWith(p, folder + "/")
  {
    assert p[..|folder| + 1] == ChildPath(folder, name)[..|folder| + 1];
  }

  lemma {:induction false} FilePathsUnder(folder: string, entries: seq<Entry>)
    ensures forall p :: p in FilePaths(folder, entries) ==> StartsWith(p, folder + "/")
    decreases entries
  {
    if entries != [] {
      EntryPathsUnder(folder, entries[0]);
      FilePathsUnder(folder, entries[1..]);
      forall p | p in EntryPaths(folder, entries[0]) ensures StartsWith(p, folder + "/") {
        StartsWithChild(p, folder, entries[0].name);
      }
    }
  }

  lemma {:induction false} EntryPathsUnder(folder: string, e: Entry)
    ensures forall p :: p in EntryPaths(folder, e) ==> Under(p, ChildPath(folder, e.name))
    decreases e
  {
    if e.Dir? {
      FilePathsUnder(ChildPath(folder, e.name), e.children);
    }
  }

  lemma {:induction false} DirPathsUnder(folder: string, entries: seq<Entry>)
    ensures forall p :: p in DirPaths(folder, entries) ==> StartsWith(p, folder + "/")
    decreases entries
  {
    if entries != [] {
      EntryDirPathsUnder(folder, entries[0]);
      DirPathsUnder(folder, entries[1..]);
      forall p | p in EntryDirPaths(folder, entries[0]) ensures StartsWith(p, folder + "/") {
        StartsWithChild(p, folder, entries[0].name);
      }
    }
  }

  lemma {:induction false} EntryDirPathsUnder(folder: string, e: Entry)
    ensures forall p :: p in EntryDirPaths(folder, e) ==> Under(p, ChildPath(folder, e.name))
    decreases e
  {
    if e.Dir? {
      DirPathsUnder(ChildPath(folder, e.name), e.children);
    }
  }

  lemma {:induction false} FilePathsMember(folder: string, entries: seq<Entry>, p: string) returns (k: nat)
    requires p in FilePaths(folder, entries)
    ensures k < |entries| && p in EntryPaths(folder, entries[k])
    decreases entries
  {
    if p in EntryPaths(folder, entries[0]) {
      k := 0;
    } else {
      var j := FilePathsMember(folder, entries[1..], p);
      k := j + 1;
    }
  }

  lemma {:induction false} DirPathsMember(folder: string, entries: seq<Entry>, p: string) returns (k: nat)
    requires p in DirPaths(folder, entries)
    ensures k < |entries| && p in EntryDirPaths(folder, entries[k])
    decreases entries
  {
    if p in EntryDirPaths(folder, entries[0]) {
      k := 0;
    } else {
      var j := DirPathsMember(folder, entries[1..], p);
      k := j + 1;
    }
  }

  /** In a well-formed tree no regular file has the path of a folder. */
  lemma {:induction false} FilesAreNotDirs(folder: string, entries: seq<Entry>, p: string)
    requires WellFormed(entries) && p in FilePaths(folder, entries)
    ensures p !in DirPaths(folder, entries)
    decreases entries
  {
    if p in DirPaths(folder, entries) {
      var k1 := FilePathsMember(folder, entries, p);
      var k2 := DirPathsMember(folder, entries, p);
      EntryPathsUnder(folder, entries[k1]);
      EntryDirPathsUnder(folder, entries[k2]);
      UnderName(p, folder, entries[k1].name);
      UnderName(p, folder, entries[k2].name);
      assert entries[k1].name == entries[k2].name;
      assert k1 == k2;
      var e := entries[k1];
      assert e.Dir?;
      var d := ChildPath(folder, e.name);
      FilePathsUnder(d, e.children);
      assert p != d;
      assert p in DirPaths(d, e.children);
      FilesAreNotDirs(d, e.children, p);
    }
  }

  /** Each value of the index is the path of a regular file of the tree and never that of a folder. */
  lemma IndexValuesAreFiles(contentRoot: string, entries: seq<Entry>)
    requires WellFormed(entries)
    ensures forall url :: url in IndexOf(contentRoot, entries) ==>
      && IndexOf(contentRoot, entries)[url] in FilePaths(contentRoot, entries)
      && IndexOf(contentRoot, entries)[url] !in DirPaths(contentRoot, entries)
  {
    forall url | url in IndexOf(contentRoot, entries)
      ensures IndexOf(contentRoot, entries)[url] in FilePaths(contentRoot, entries)
      ensures IndexOf(contentRoot, entries)[url] !in DirPaths(contentRoot, entries)
    {
      IndexContents(contentRoot, entries);
      FilesAreNotDirs(contentRoot, entries, IndexOf(contentRoot, entries)[url]);
    }
  }

  // ---------------------------------------------------------------------
  // The walk as the source runs it: one dictionary, updated in place

  class TopicIndex {
    /** ROADMAP_CONTENT_DIR, the prefix each path loses first. */
    const contentRoot: string
    /** The shared `fileList` dictionary: topic URL to content-file path. */
    var fileList: map<string, string>

    constructor (contentRoot: string)
      ensures this.contentRoot == contentRoot && fileList == map[]
    {
      this.contentRoot := contentRoot;
      fileList := map[];
    }

    /**
     * `getFilesInFolder(folderPath, fileList)`: visit the listing in order
     * with the same dictionary throughout.
     */
    method GetFilesInFolder(folderPath: string, files: seq<Entry>)
      modifies this
      ensures fileList == Register(old(fileList), contentRoot, FilePaths(folderPath, files))
      decreases files
    {
      var i := 0;
      while i < |files|
        invariant 0 <= i <= |files|
        invariant fileList == Register(old(fileList), contentRoot, FilePaths(folderPath, files[..i]))
        decreases |files| - i
      {
        ghost var before := fileList;
        VisitEntry(folderPath, files[i]);
        WalkStep(old(fileList), contentRoot, folderPath, files, i, before, fileList);
        i := i + 1;
      }
      assert files[..|files|] == files;
    }

    /**
     * The `forEach` callback: descend into a folder, register a regular
     * file under its topic URL, and pass over anything else.
     */
    method VisitEntry(folderPath: string, file: Entry)
      modifies this
      ensures fileList == Register(old(fileList), contentRoot, EntryPaths(folderPath, file))
      decreases file
    {
      var filePath := ChildPath(folderPath, file.name);
      match file {
        case Dir(_, children) =>
          GetFilesInFolder(filePath, children);
        case File(_) =>
          fileList := fileList[ContentUrl(contentRoot, filePath) := filePath];
          RegisterOne(old(fileList), contentRoot, filePath);
        case Other(_) =>
      }
    }
  }

  /** `getFilesInFolder(ROADMAP_CONTENT_DIR)` with the default empty dictionary. */
  method BuildIndex(contentRoot: string, entries: seq<Entry>) returns (mapping: map<string, string>)
    ensures mapping == IndexOf(contentRoot, entries)
  {
    var index := new TopicIndex(contentRoot);
    index.GetFilesInFolder(contentRoot, entries);
    mapping := index.fileList;
  }
}
