/**
 * The source-control side of the file index: the blob entries of a
 * repository tree with their base names, the cleaning of a file path before
 * its content is requested, and the text report over several files.
 */
module GitHubFiles {
  import opened Wrappers
  import opened JsValue
  import JsString
  import Batching

  /** A file of the tree: its path and its base name without extension. */
  datatype FileEntry = FileEntry(path: string, basename: string)

  /** The index of the last occurrence of c in s, or -1. */
  function LastIndexOf(s: string, c: char): (r: int)
    ensures -1 <= r < |s|
    ensures r >= 0 ==> s[r] == c
    ensures forall i :: r < i < |s| ==> s[i] != c
    decreases |s|
  {
    if s == [] then -1
    else if s[|s| - 1] == c then |s| - 1
    else LastIndexOf(s[..|s| - 1], c)
  }

  /** The last segment of a slash-separated path. */
  function Segment(p: string): (seg: string)
    ensures '/' !in seg
    ensures |seg| <= |p| && seg == p[|p| - |seg|..]
    ensures |seg| < |p| ==> p[|p| - |seg| - 1] == '/'
  {
    var k := LastIndexOf(p, '/') + 1;
    assert forall i :: 0 <= i < |p[k..]| ==> p[k..][i] == p[k + i];
    p[k..]
  }

  /**
   * path.extname on one segment: from the last dot to the end, or nothing
   * when there is no dot, when the dot is the segment's first character
   * (".gitignore"), or when the segment is "..".
   */
  function Ext(seg: string): (e: string)
    ensures |e| <= |seg| && e == seg[|seg| - |e|..]
    ensures e != [] ==> e[0] == '.' && |e| < |seg|
  {
    var k := LastIndexOf(seg, '.');
    if k <= 0 || seg == ".." then "" else seg[k..]
  }

  /** path.basename(p, path.extname(p)): the last segment without its extension. */
  function BaseName(p: string): (b: string)
    ensures b + Ext(Segment(p)) == Segment(p)
  {
    var seg := Segment(p);
    var e := Ext(seg);
    var m := |seg| - |e|;
    SuffixSplit(seg, e);
    seg[..m]
  }

  /** A string is its prefix followed by a suffix it ends with. */
  lemma SuffixSplit(s: string, e: string)
    requires |e| <= |s| && e == s[|s| - |e|..]
    ensures s[..|s| - |e|] + e == s
  {
    assert s == s[..|s| - |e|] + s[|s| - |e|..];
  }

  /** The items whose `type` is "blob", in order. */
  function BlobFilter(items: seq<Json>): (r: seq<Json>)
    ensures forall x :: x in r <==> x in items && GetOpt(x, "type") == Str("blob")
    ensures |r| <= |items|
  {
    if items == [] then []
    else
      assert forall x :: x in items <==> x == items[0] || x in items[1..];
      (if GetOpt(items[0], "type") == Str("blob") then [items[0]] else []) + BlobFilter(items[1..])
  }

  /**
   * `tree.filter(item => item.type === 'blob')`: reading `type` of an item
   * that is null or undefined throws a TypeError; otherwise the blobs.
   */
  function Blobs(items: seq<Json>): Result<seq<Json>, Error> {
    if exists i :: 0 <= i < |items| && (items[i].Null? || items[i].Undefined?) then Failure(TypeError)
    else Success(BlobFilter(items))
  }

  /** `.map(item => ({ path, basename }))`: a TypeError when a path is not a string, as path.extname demands. */
  function Entries(blobs: seq<Json>): (r: Result<seq<FileEntry>, Error>)
    ensures r.Failure? <==> exists i :: 0 <= i < |blobs| && !GetOpt(blobs[i], "path").Str?
    ensures r.Success? ==> |r.value| == |blobs| && forall i :: 0 <= i < |blobs| ==>
      r.value[i] == FileEntry(GetOpt(blobs[i], "path").s, BaseName(GetOpt(blobs[i], "path").s))
  {
    if exists i :: 0 <= i < |blobs| && !GetOpt(blobs[i], "path").Str? then Failure(TypeError)
    else Success(seq(|blobs|, i requires 0 <= i < |blobs| =>
      FileEntry(GetOpt(blobs[i], "path").s, BaseName(GetOpt(blobs[i], "path").s))))
  }

  /**
   * fetchGitHubFilesRecursive, after the request: the blob entries of the
   * response's tree, in order; an error when the tree is missing ("No tree
   * found in response"), is not an array, or holds a malformed item.
   */
  function FilesOfTree(data: Json): (r: Result<seq<FileEntry>, Error>)
    ensures !Truthy(GetOpt(data, "tree")) && !(data.Null? || data.Undefined?) ==> r == Failure(NoTree)
    ensures r.Success? ==> GetOpt(data, "tree").Arr?
  {
    match Get(data, "tree")
    case Failure(e) => Failure(e)
    case Success(tree) =>
      if !Truthy(tree) then Failure(NoTree)
      else if !tree.Arr? then Failure(TypeError)
      else
        match Blobs(tree.items)
        case Failure(e) => Failure(e)
        case Success(blobs) => Entries(blobs)
  }

  /** The blob filter keeps order: it distributes over concatenation. */
  lemma {:induction false} BlobFilterConcat(a: seq<Json>, b: seq<Json>)
    ensures BlobFilter(a + b) == BlobFilter(a) + BlobFilter(b)
    decreases |a|
  {
    if a == [] {
      assert a + b == b;
    } else {
      assert (a + b)[1..] == a[1..] + b;
      assert (a + b)[0] == a[0];
      var keep := if GetOpt(a[0], "type") == Str("blob") then [a[0]] else [];
      BlobFilterConcat(a[1..], b);
      assert keep + (BlobFilter(a[1..]) + BlobFilter(b)) == (keep + BlobFilter(a[1..])) + BlobFilter(b);
    }
  }

  const BuildRootPrefix := "MyCableTVNew/MyCableTV/MyCableTV/"
  const PackagePrefix := "obj/Release/Package/PackageTmp/"

  /** `s.replace(/^prefix/, '')`: the prefix removed once, when s starts with it. */
  function StripPrefix(s: string, prefix: string): (r: string)
    ensures JsString.StartsWith(s, prefix) ==> s == prefix + r
    ensures !JsString.StartsWith(s, prefix) ==> r == s
  {
    if JsString.StartsWith(s, prefix) then s[|prefix|..] else s
  }

  /** `s.replace(/^\/+/, '')`: every leading slash removed. */
  function StripSlashes(s: string): (r: string)
    ensures r == [] || r[0] != '/'
    ensures exists k :: 0 <= k <= |s| && r == s[k..] && forall i :: 0 <= i < k ==> s[i] == '/'
    decreases |s|
  {
    if s != [] && s[0] == '/' then
      var r := StripSlashes(s[1..]);
      var k :| 0 <= k <= |s[1..]| && r == s[1..][k..] && forall i :: 0 <= i < k ==> s[1..][i] == '/';
      assert r == s[k + 1..];
      assert forall i :: 0 <= i < k + 1 ==> s[i] == '/' by {
        forall i | 0 <= i < k + 1 ensures s[i] == '/' {
          if i > 0 { assert s[i] == s[1..][i - 1]; }
        }
      }
      r
    else
      assert s[0..] == s;
      s
  }

  /** The path whose content is requested: fetchGitHubFileContent's three replacements, in order. */
  method CleanPath(filePath: string) returns (cleanPath: string)
    ensures cleanPath == [] || cleanPath[0] != '/'
    ensures cleanPath == Cleaned(filePath)
  {
    cleanPath := filePath;
    cleanPath := StripPrefix(cleanPath, BuildRootPrefix);
    cleanPath := StripPrefix(cleanPath, PackagePrefix);
    cleanPath := StripSlashes(cleanPath);
  }

  /** What CleanPath returns, as a function for the specifications below. */
  function Cleaned(filePath: string): string {
    StripSlashes(StripPrefix(StripPrefix(filePath, BuildRootPrefix), PackagePrefix))
  }

  /** The cleaned path is what is left of the path after a removed prefix. */
  lemma CleanedIsSuffix(filePath: string)
    ensures exists k :: 0 <= k <= |filePath| && Cleaned(filePath) == filePath[k..]
  {
    var p1 := StripPrefix(filePath, BuildRootPrefix);
    var p2 := StripPrefix(p1, PackagePrefix);
    var k1 := |filePath| - |p1|;
    assert p1 == filePath[k1..];
    var k2 := |p1| - |p2|;
    assert p2 == p1[k2..];
    var r := StripSlashes(p2);
    var k3 :| 0 <= k3 <= |p2| && r == p2[k3..] && forall i :: 0 <= i < k3 ==> p2[i] == '/';
    assert r == filePath[k1 + k2 + k3..];
  }

  /** Both prefixes are removed, once each, in that order. */
  lemma BothPrefixesRemoved(rest: string)
    requires rest == [] || rest[0] != '/'
    ensures Cleaned(BuildRootPrefix + PackagePrefix + rest) == rest
  {
    assert BuildRootPrefix + PackagePrefix + rest == BuildRootPrefix + (PackagePrefix + rest);
    PrefixStripped(BuildRootPrefix, PackagePrefix + rest);
    PrefixStripped(PackagePrefix, rest);
    assert rest[0..] == rest;
  }

  lemma PrefixStripped(prefix: string, rest: string)
    ensures StripPrefix(prefix + rest, prefix) == rest
  {
    assert (prefix + rest)[..|prefix|] == prefix;
  }

  /**
   * The prefixes are matched before the slashes are removed, so a build
   * prefix behind a leading slash is kept.
   */
  lemma PrefixBehindSlashKept(rest: string)
    ensures Cleaned("/" + BuildRootPrefix + rest) == BuildRootPrefix + rest
  {
    var p := "/" + BuildRootPrefix + rest;
    assert !JsString.StartsWith(p, BuildRootPrefix) by { assert p[0] == '/'; }
    assert !JsString.StartsWith(p, PackagePrefix) by { assert p[0] == '/'; }
    assert p[1..] == BuildRootPrefix + rest;
    assert (BuildRootPrefix + rest)[0] == 'M';
  }

  const NotFound := "[Could not fetch file or file not found]"
  const NotText := "[Binary or non-text file]"
  const ContentLimit: nat := 1000

  /** The header that opens a file's part of the report. */
  function Header(filePath: string): string {
    "\n--- File: " + filePath + " ---\n"
  }

  /** What follows a file's header: its first 1000 characters, or a note when it is not text or was not fetched. */
  function Body(content: Json): (b: string)
    ensures Truthy(content) && content.Str? ==> b == content.s[..Batching.Min(ContentLimit, |content.s|)]
    ensures Truthy(content) && !content.Str? ==> b == NotText
    ensures !Truthy(content) ==> b == NotFound
    ensures |b| <= ContentLimit
  {
    if Truthy(content) then
      if content.Str? then content.s[..Batching.Min(ContentLimit, |content.s|)] else NotText
    else NotFound
  }

  /** One file's part of the report: its header, then its body. */
  function Part(filePath: string, content: Json): string {
    Header(filePath) + Body(content)
  }

  /** The parts, one after the other. */
  function Concat(parts: seq<string>): string
    decreases |parts|
  {
    if parts == [] then "" else Concat(parts[..|parts| - 1]) + parts[|parts| - 1]
  }

  /** The report over the paths, given the content fetched for each (null for a failed request). */
  function Report(paths: seq<string>, contents: seq<Json>): string
    requires |paths| == |contents|
  {
    Concat(seq(|paths|, i requires 0 <= i < |paths| => Part(paths[i], contents[i])))
  }

  lemma {:induction false} ConcatAppend(a: seq<string>, b: seq<string>)
    ensures Concat(a + b) == Concat(a) + Concat(b)
    decreases |b|
  {
    if b == [] {
      assert a + b == a;
    } else {
      var n := |b| - 1;
      DropLastConcat(a, b);
      ConcatAppend(a, b[..n]);
      Associative(Concat(a), Concat(b[..n]), b[n]);
    }
  }

  /** The report of two runs of files is the two reports, one after the other. */
  lemma ReportConcat(p1: seq<string>, c1: seq<Json>, p2: seq<string>, c2: seq<Json>)
    requires |p1| == |c1| && |p2| == |c2|
    ensures Report(p1 + p2, c1 + c2) == Report(p1, c1) + Report(p2, c2)
  {
    var a := seq(|p1|, i requires 0 <= i < |p1| => Part(p1[i], c1[i]));
    var b := seq(|p2|, i requires 0 <= i < |p2| => Part(p2[i], c2[i]));
    var ps, cs := p1 + p2, c1 + c2;
    assert seq(|ps|, i requires 0 <= i < |ps| => Part(ps[i], cs[i])) == a + b;
    ConcatAppend(a, b);
  }

  /** Appending one more part: the loop's step. */
  lemma ConcatSnoc(parts: seq<string>, i: nat)
    requires i < |parts|
    ensures Concat(parts[..i + 1]) == Concat(parts[..i]) + parts[i]
  {
    assert parts[..i + 1][..i] == parts[..i];
  }

  lemma DropLastConcat<T>(a: seq<T>, b: seq<T>)
    requires b != []
    ensures (a + b)[..|a + b| - 1] == a + b[..|b| - 1]
    ensures (a + b)[|a + b| - 1] == b[|b| - 1]
  {
  }

  lemma Associative(a: string, b: string, c: string)
    ensures a + b + c == a + (b + c)
  {
  }

  /** One file's part of the report, on its own. */
  lemma ReportOne(path: string, content: Json)
    ensures Report([path], [content]) == Header(path) + Body(content)
  {
    var parts := [Part(path, content)];
    assert seq(1, i requires 0 <= i < 1 => Part([path][i], [content][i])) == parts;
    assert parts[..0] == [];
    assert Concat(parts) == Concat([]) + parts[0];
    assert "" + parts[0] == parts[0];
  }

  /**
   * fetchGitHubFiles: for each path in order, its header and the start of
   * its content, requested under the cleaned path; `fetch` stands for the
   * content request and gives null when it fails.
   */
  method FetchGitHubFiles(fileNames: seq<string>, fetch: string -> Json)
    returns (plainEnglishDescription: string)
    ensures plainEnglishDescription == Report(fileNames, seq(|fileNames|, i requires 0 <= i < |fileNames| => fetch(Cleaned(fileNames[i]))))
  {
    ghost var contents := seq(|fileNames|, i requires 0 <= i < |fileNames| => fetch(Cleaned(fileNames[i])));
    ghost var parts := seq(|fileNames|, i requires 0 <= i < |fileNames| => Part(fileNames[i], contents[i]));
    plainEnglishDescription := "";
    for i := 0 to |fileNames|
      invariant plainEnglishDescription == Concat(parts[..i])
    {
      var filePath := fileNames[i];
      var cleanPath := CleanPath(filePath);
      var content := fetch(cleanPath);
      assert content == contents[i];
      ConcatSnoc(parts, i);
      ghost var before := plainEnglishDescription;
      if Truthy(content) {
        plainEnglishDescription := plainEnglishDescription + Header(filePath);
        var text := if content.Str? then content.s[..Batching.Min(ContentLimit, |content.s|)] else NotText;
        plainEnglishDescription := plainEnglishDescription + text;
        Associative(before, Header(filePath), text);
      } else {
        plainEnglishDescription := plainEnglishDescription + Header(filePath) + NotFound;
        Associative(before, Header(filePath), NotFound);
      }
    }
    assert parts[..|fileNames|] == parts;
  }
}
