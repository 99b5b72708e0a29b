/**
 * createStoreEmbeddings: the indexing run. Every repository named in the
 * panel table, once each and in first-occurrence order, gets a collection
 * "<repo>_files" and one point per file of its tree, embedded from the
 * file's base name.
 *
 * The tree request and the embedding request are oracles; a failed tree
 * request or a malformed tree ends the run with its error.
 */
module Indexer {
  import opened Wrappers
  import opened JsValue
  import VectorStore
  import GitHubFiles

  /** The panel table, in declaration order: which repository holds each panel's code. */
  const PanelToRepo: seq<(string, string)> := [
    ("LCO Panel", "OnnetWeb-OnNetSinglePlay"),
    ("Admin Panel", "OnnetWeb-AdminPanelConsole"),
    ("MyCableTv Web", "MycableTVWithPayTV"),
    ("MyCableTv AndroidApp", "MycableTVWithPayTV"),
    ("MyCableTv iOS App", "MycableTVWithPayTV"),
    ("PayTvSelfCare Web", "MycableTVWithPayTV"),
    ("PayTvSelfCare Android Native", "MycableTVWithPayTV"),
    ("PayTvSelfCare iOS Native", "MycableTVWithPayTV"),
    ("Collection App", "Collection-Application-New"),
    ("LCO Android App", "LcoAppNew"),
    ("MyCableTv React", "MYCABLETVREACT")
  ]

  /** `Object.values`: the second components, in order. */
  function Values(table: seq<(string, string)>): (r: seq<string>)
    ensures |r| == |table| && forall i :: 0 <= i < |table| ==> r[i] == table[i].1
  {
    seq(|table|, i requires 0 <= i < |table| => table[i].1)
  }

  predicate NoDuplicates<T(==)>(xs: seq<T>) {
    forall i, j :: 0 <= i < j < |xs| ==> xs[i] != xs[j]
  }

  /** `[...new Set(xs)]`: each element once, at its first occurrence. */
  function Dedup<T(==,!new)>(xs: seq<T>): (r: seq<T>)
    ensures forall x :: x in r <==> x in xs
    ensures NoDuplicates(r)
    ensures |r| <= |xs|
    decreases |xs|
  {
    if xs == [] then []
    else
      var r := Dedup(xs[..|xs| - 1]);
      var x := xs[|xs| - 1];
      assert forall y :: y in xs <==> y in xs[..|xs| - 1] || y == x;
      if x in r then r else r + [x]
  }

  /** A list without duplicates is its own set, in its own order. */
  lemma {:induction false} DedupDistinct<T(!new)>(xs: seq<T>)
    requires NoDuplicates(xs)
    ensures Dedup(xs) == xs
    decreases |xs|
  {
    if xs != [] {
      var n := |xs| - 1;
      assert NoDuplicates(xs[..n]);
      DedupDistinct(xs[..n]);
      assert xs[n] !in xs[..n];
      assert xs[..n] + [xs[n]] == xs;
    }
  }

  /** Making a set of a set changes nothing. */
  lemma DedupIdempotent<T(!new)>(xs: seq<T>)
    ensures Dedup(Dedup(xs)) == Dedup(xs)
  {
    DedupDistinct(Dedup(xs));
  }

  /** The first occurrences are kept in order: appending elements already seen changes nothing. */
  lemma {:induction false} DedupSeen<T(!new)>(xs: seq<T>, ys: seq<T>)
    requires forall y :: y in ys ==> y in xs
    ensures Dedup(xs + ys) == Dedup(xs)
    decreases |ys|
  {
    if ys == [] {
      assert xs + ys == xs;
    } else {
      var n := |ys| - 1;
      assert (xs + ys)[..|xs + ys| - 1] == xs + ys[..n];
      assert (xs + ys)[|xs + ys| - 1] == ys[n];
      DedupSeen(xs, ys[..n]);
    }
  }

  /** The repositories the run visits. */
  function UniqueRepos(): seq<string> {
    Dedup(Values(PanelToRepo))
  }

  const FirstRepos: seq<string> := ["OnnetWeb-OnNetSinglePlay", "OnnetWeb-AdminPanelConsole", "MycableTVWithPayTV"]
  const LaterRepos: seq<string> := ["Collection-Application-New", "LcoAppNew", "MYCABLETVREACT"]

  /** The table's values: three repositories, the third four times more, then three others. */
  lemma TableValues()
    ensures Values(PanelToRepo) == FirstRepos + seq(5, _ => "MycableTVWithPayTV") + LaterRepos
  {
  }

  /** Six repositories, in the order they first appear in the table. */
  lemma UniqueReposValue()
    ensures UniqueRepos() == FirstRepos + LaterRepos
  {
    var seen := seq(5, _ => "MycableTVWithPayTV");
    TableValues();
    RepoNamesDistinct();
    DedupDistinct(FirstRepos);
    DedupSeen(FirstRepos, seen);
    DedupAppendFresh(FirstRepos + seen, LaterRepos);
  }

  lemma RepoNamesDistinct()
    ensures NoDuplicates(FirstRepos) && NoDuplicates(LaterRepos)
    ensures "MycableTVWithPayTV" in FirstRepos
    ensures forall y :: y in LaterRepos ==> y !in FirstRepos + seq(5, _ => "MycableTVWithPayTV")
  {
    assert FirstRepos[2] == "MycableTVWithPayTV";
    forall y | y in LaterRepos ensures y !in FirstRepos + seq(5, _ => "MycableTVWithPayTV") {
      assert y[0] != 'O' && y != "MycableTVWithPayTV";
    }
  }

  /** Appending elements not seen before, once each, appends them as they are. */
  lemma {:induction false} DedupAppendFresh<T(!new)>(xs: seq<T>, ys: seq<T>)
    requires NoDuplicates(ys) && forall y :: y in ys ==> y !in xs
    ensures Dedup(xs + ys) == Dedup(xs) + ys
    decreases |ys|
  {
    if ys == [] {
      assert xs + ys == xs;
      assert Dedup(xs) + ys == Dedup(xs);
    } else {
      var n := |ys| - 1;
      assert (xs + ys)[..|xs + ys| - 1] == xs + ys[..n];
      assert (xs + ys)[|xs + ys| - 1] == ys[n];
      assert NoDuplicates(ys[..n]);
      DedupAppendFresh(xs, ys[..n]);
      assert ys[n] !in xs + ys[..n];
      assert Dedup(xs) + ys[..n] + [ys[n]] == Dedup(xs) + ys;
    }
  }

  /** The collection of a repository. */
  function CollectionName(repo: string): string {
    repo + "_files"
  }

  /** The files of a repository's tree, or the error the tree request or the tree raises. */
  function Files(tree: string -> Option<Json>, repo: string): Result<seq<GitHubFiles.FileEntry>, Error> {
    match tree(repo)
    case None => Failure(HttpError)
    case Some(data) => GitHubFiles.FilesOfTree(data)
  }

  /** The point stored for a file, if its embedding request succeeds. */
  function FilePoint(file: GitHubFiles.FileEntry, embed: string -> Option<seq<real>>, now: nat): Option<VectorStore.Point> {
    match embed(file.basename)
    case None => None
    case Some(v) =>
      Some(VectorStore.Point(VectorStore.PointId("github-" + file.basename, now),
                             VectorStore.PadOrTruncate(v, 0.0),
                             VectorStore.Payload(file.basename, file.path, "github")))
  }

  type Collections = map<string, map<nat, VectorStore.Point>>

  /** The collections after the file's point, if any, is stored in the named collection. */
  function StoreFile(c: Collections, name: string, file: GitHubFiles.FileEntry,
                     embed: string -> Option<seq<real>>, now: nat): Collections
    requires name in c
  {
    match FilePoint(file, embed, now)
    case None => c
    case Some(p) => c[name := VectorStore.Inserted(c[name], [p])]
  }

  /** The collections after the files' points are stored, in order, in the named collection. */
  function StoreFiles(c: Collections, name: string, files: seq<GitHubFiles.FileEntry>,
                      embed: string -> Option<seq<real>>, now: nat): (r: Collections)
    requires name in c
    ensures r.Keys == c.Keys
    ensures forall n :: n in c && n != name ==> r[n] == c[n]
    decreases |files|
  {
    if files == [] then c
    else
      var before := StoreFiles(c, name, files[..|files| - 1], embed, now);
      StoreFile(before, name, files[|files| - 1], embed, now)
  }

  /** The points of the files whose embedding succeeded, in file order. */
  function FilePoints(files: seq<GitHubFiles.FileEntry>, embed: string -> Option<seq<real>>, now: nat): (r: seq<VectorStore.Point>)
    ensures |r| <= |files|
    ensures forall p :: p in r ==> exists i :: 0 <= i < |files| && FilePoint(files[i], embed, now) == Some(p)
    decreases |files|
  {
    if files == [] then []
    else
      var init := FilePoints(files[..|files| - 1], embed, now);
      assert forall i :: 0 <= i < |files| - 1 ==> files[..|files| - 1][i] == files[i];
      match FilePoint(files[|files| - 1], embed, now)
      case None => init
      case Some(p) => init + [p]
  }

  /**
   * What a repository's collection holds after its files are stored: its
   * earlier points upserted with the files' points in file order, so the
   * ids are the old ones and the new points', and a file whose point comes
   * last under its id is the one stored.
   */
  lemma {:induction false} StoredPoints(c: Collections, name: string, files: seq<GitHubFiles.FileEntry>,
                                        embed: string -> Option<seq<real>>, now: nat)
    requires name in c
    ensures StoreFiles(c, name, files, embed, now)[name] == VectorStore.Inserted(c[name], FilePoints(files, embed, now))
    decreases |files|
  {
    if files != [] {
      var init := files[..|files| - 1];
      StoredPoints(c, name, init, embed, now);
      var before := StoreFiles(c, name, init, embed, now);
      match FilePoint(files[|files| - 1], embed, now)
      case None =>
      case Some(p) =>
        VectorStore.InsertedConcat(c[name], FilePoints(init, embed, now), [p]);
    }
  }

  /** The last file's point, when its embedding succeeds, is what its id holds afterwards. */
  lemma LastFileStored(c: Collections, name: string, files: seq<GitHubFiles.FileEntry>,
                       embed: string -> Option<seq<real>>, now: nat)
    requires name in c && files != []
    requires FilePoint(files[|files| - 1], embed, now).Some?
    ensures var p := FilePoint(files[|files| - 1], embed, now).value;
      var stored := StoreFiles(c, name, files, embed, now)[name];
      p.id in stored && stored[p.id] == p
  {
    var p := FilePoint(files[|files| - 1], embed, now).value;
    StoredPoints(c, name, files, embed, now);
    VectorStore.LastPointWins(c[name], FilePoints(files, embed, now), p);
  }

  /** setupQdrantCollection on the collections: the named one created, empty, if absent. */
  function Setup(c: Collections, name: string): (r: Collections)
    ensures name in r && r.Keys == c.Keys + {name}
    ensures forall n :: n in c ==> n in r && r[n] == c[n]
  {
    if name in c then c else c[name := map[]]
  }

  /** How a run ends: its error, if any, the collections and the number of repositories completed. */
  datatype Outcome = Outcome(err: Option<Error>, collections: Collections, count: nat)

  /** The run over the repositories, from the collections c, having completed `count` repositories. */
  function Indexed(c: Collections, repos: seq<string>, tree: string -> Option<Json>,
                   embed: string -> Option<seq<real>>, now: nat, count: nat): Outcome
    decreases |repos|
  {
    if repos == [] then Outcome(None, c, count)
    else
      var name := CollectionName(repos[0]);
      var c1 := Setup(c, name);
      match Files(tree, repos[0])
      case Failure(e) => Outcome(Some(e), c1, count)
      case Success(files) => Indexed(StoreFiles(c1, name, files, embed, now), repos[1..], tree, embed, now, count + 1)
  }

  /** The store's state after one more file: the point the store reports is the one FilePoint gives. */
  lemma StoreFileStep(o: Collections, after: Collections, name: string, file: GitHubFiles.FileEntry,
                      embed: string -> Option<seq<real>>, now: nat, points: seq<VectorStore.Point>)
    requires name in o
    requires embed(file.basename).None? ==> points == [] && after == o
    requires embed(file.basename).Some? ==> (
      && |points| == 1
      && points[0].vector == VectorStore.PadOrTruncate(embed(file.basename).value, 0.0)
      && points[0].payload == VectorStore.Payload(file.basename, file.path, "github")
      && points[0].id == VectorStore.PointId("github" + "-" + file.basename, now))
    requires points != [] ==> after == o[name := VectorStore.Inserted(o[name], points)]
    ensures after == StoreFile(o, name, file, embed, now)
  {
    if embed(file.basename).Some? {
      assert "github" + "-" + file.basename == "github-" + file.basename;
      assert points == [FilePoint(file, embed, now).value];
    }
  }

  /** The inner loop of createStoreEmbeddings: each file's embedding stored, in order, in an existing collection. */
  method StoreFilesOf(store: VectorStore.Store, name: string, files: seq<GitHubFiles.FileEntry>,
                      embed: string -> Option<seq<real>>, now: nat)
    requires store.Valid() && name in store.collections
    modifies store
    ensures store.Valid()
    ensures name in old(store.collections)
    ensures store.collections == StoreFiles(old(store.collections), name, files, embed, now)
  {
    ghost var c1 := store.collections;
    for j := 0 to |files|
      invariant store.Valid()
      invariant store.collections == StoreFiles(c1, name, files[..j], embed, now)
    {
      var file := files[j];
      ghost var before := store.collections;
      var e, points := store.StoreEmbeddings(name, file.basename, file.path, "github", embed, now);
      assert e.None?;
      StoreFileStep(before, store.collections, name, file, embed, now, points);
      assert files[..j + 1][..j] == files[..j];
    }
    assert files[..|files|] == files;
  }

  /** One repository of the run: set up, then failed or completed. */
  lemma IndexedStep(c: Collections, repos: seq<string>, k: nat, tree: string -> Option<Json>,
                    embed: string -> Option<seq<real>>, now: nat, count: nat)
    requires k < |repos|
    ensures var name := CollectionName(repos[k]);
      var o := Indexed(c, repos[k..], tree, embed, now, count);
      && (Files(tree, repos[k]).Failure? ==> o == Outcome(Some(Files(tree, repos[k]).error), Setup(c, name), count))
      && (Files(tree, repos[k]).Success? ==>
            o == Indexed(StoreFiles(Setup(c, name), name, Files(tree, repos[k]).value, embed, now), repos[k + 1..], tree, embed, now, count + 1))
  {
    assert repos[k..][0] == repos[k] && repos[k..][1..] == repos[k + 1..];
  }

  /**
   * createStoreEmbeddings: for each repository, its collection set up, its
   * tree listed and each file's embedding stored; the count of repositories
   * completed is returned with the error that ended the run, if any.
   */
  method CreateStoreEmbeddings(store: VectorStore.Store, tree: string -> Option<Json>,
                               embed: string -> Option<seq<real>>, now: nat)
    returns (err: Option<Error>, count: nat)
    requires store.Valid()
    modifies store
    ensures store.Valid()
    ensures Outcome(err, store.collections, count) == Indexed(old(store.collections), UniqueRepos(), tree, embed, now, 0)
  {
    var uniqueRepoNames := UniqueRepos();
    count := 0;
    err := None;
    assert uniqueRepoNames[0..] == uniqueRepoNames;
    for k := 0 to |uniqueRepoNames|
      invariant store.Valid()
      invariant count == k
      invariant Indexed(old(store.collections), uniqueRepoNames, tree, embed, now, 0)
        == Indexed(store.collections, uniqueRepoNames[k..], tree, embed, now, count)
    {
      var repoName := uniqueRepoNames[k];
      var name := CollectionName(repoName);
      IndexedStep(store.collections, uniqueRepoNames, k, tree, embed, now, count);
      store.SetupCollection(name);
      var files := Files(tree, repoName);
      if files.Failure? {
        return Some(files.error), count;
      }
      StoreFilesOf(store, name, files.value, embed, now);
      count := count + 1;
    }
  }

  /** The run removes no collection and changes none that is not one of its repositories'. */
  lemma {:induction false} IndexedKeepsOthers(c: Collections, repos: seq<string>, tree: string -> Option<Json>,
                                              embed: string -> Option<seq<real>>, now: nat, count: nat)
    ensures var r := Indexed(c, repos, tree, embed, now, count).collections;
      && c.Keys <= r.Keys
      && forall n :: n in c && (forall repo :: repo in repos ==> n != CollectionName(repo)) ==> r[n] == c[n]
    decreases |repos|
  {
    if repos != [] {
      var name := CollectionName(repos[0]);
      var c1 := Setup(c, name);
      if Files(tree, repos[0]).Success? {
        var files := Files(tree, repos[0]).value;
        IndexedKeepsOthers(StoreFiles(c1, name, files, embed, now), repos[1..], tree, embed, now, count + 1);
        assert forall repo :: repo in repos[1..] ==> repo in repos;
      }
    }
  }

  /**
   * The run succeeds exactly when every repository's tree can be listed;
   * then it completes every repository and each has its collection.
   */
  lemma {:induction false} IndexedSuccess(c: Collections, repos: seq<string>, tree: string -> Option<Json>,
                                          embed: string -> Option<seq<real>>, now: nat, count: nat)
    ensures var o := Indexed(c, repos, tree, embed, now, count);
      && (o.err.None? <==> forall repo :: repo in repos ==> Files(tree, repo).Success?)
      && (o.err.None? ==> o.count == count + |repos|)
      && (o.err.Some? ==> count <= o.count < count + |repos|)
      && (o.err.None? ==> forall repo :: repo in repos ==> CollectionName(repo) in o.collections)
    decreases |repos|
  {
    if repos != [] {
      var name := CollectionName(repos[0]);
      var c1 := Setup(c, name);
      assert forall repo :: repo in repos <==> repo == repos[0] || repo in repos[1..];
      if Files(tree, repos[0]).Success? {
        var files := Files(tree, repos[0]).value;
        var c2 := StoreFiles(c1, name, files, embed, now);
        IndexedSuccess(c2, repos[1..], tree, embed, now, count + 1);
        IndexedKeepsOthers(c2, repos[1..], tree, embed, now, count + 1);
      }
    }
  }

  /** A run over the panel table that lists every tree completes all six repositories. */
  lemma SixRepositories(c: Collections, tree: string -> Option<Json>, embed: string -> Option<seq<real>>, now: nat)
    requires forall repo :: repo in UniqueRepos() ==> Files(tree, repo).Success?
    ensures Indexed(c, UniqueRepos(), tree, embed, now, 0).count == 6
  {
    UniqueReposValue();
    IndexedSuccess(c, UniqueRepos(), tree, embed, now, 0);
  }
}
