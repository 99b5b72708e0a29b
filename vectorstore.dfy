/**
 * The vector store side of the file index: embeddings padded or cut to the
 * store's 3072 dimensions, collections created when absent, points upserted
 * in batches of 100, and the paths of the closest files read back.
 *
 * The store is a class whose state is the map from collection names to the
 * points they hold. The embedding model and the similarity search are oracles.
 */
module VectorStore {
  import opened Wrappers
  import opened JsValue
  import Batching
  import StringHash

  /** The dimension of "text-embedding-3-large" and of every collection. */
  const Dimension: nat := 3072

  const UpsertBatchSize: nat := 100

  /** The embedding fitted to the store: padded with `zero` when short, cut when long. */
  function PadOrTruncate<T>(v: seq<T>, zero: T): (r: seq<T>)
    ensures |r| == Dimension
    ensures |v| < Dimension ==> r[..|v|] == v && forall i :: |v| <= i < Dimension ==> r[i] == zero
    ensures |v| >= Dimension ==> r == v[..Dimension]
  {
    if |v| < Dimension then v + seq(Dimension - |v|, _ => zero) else v[..Dimension]
  }

  /** A fitted vector is left as it is, so fitting twice is fitting once. */
  lemma PadOrTruncateIdempotent<T>(v: seq<T>, zero: T)
    ensures PadOrTruncate(PadOrTruncate(v, zero), zero) == PadOrTruncate(v, zero)
  {
    var r := PadOrTruncate(v, zero);
    assert r[..Dimension] == r;
  }

  /** Every coordinate the model returned within the dimension is kept, in place. */
  lemma PadOrTruncateKeepsPrefix<T>(v: seq<T>, zero: T, i: nat)
    requires i < |v| && i < Dimension
    ensures PadOrTruncate(v, zero)[i] == v[i]
  {
    if |v| < Dimension {
      assert PadOrTruncate(v, zero)[..|v|][i] == v[i];
    }
  }

  datatype Payload = Payload(baseName: string, path: string, source: string)

  datatype Point = Point(id: nat, vector: seq<real>, payload: Payload)

  /** A collection after upserting the points in order: each point replaces the one with its id. */
  function Inserted(m: map<nat, Point>, points: seq<Point>): (r: map<nat, Point>)
    ensures r.Keys == m.Keys + set p | p in points :: p.id
    decreases |points|
  {
    if points == [] then m
    else
      var r := Inserted(m[points[0].id := points[0]], points[1..]);
      assert forall p :: p in points <==> p == points[0] || p in points[1..];
      r
  }

  /** Upserting two runs of points one after the other is upserting them together. */
  lemma {:induction false} InsertedConcat(m: map<nat, Point>, a: seq<Point>, b: seq<Point>)
    ensures Inserted(m, a + b) == Inserted(Inserted(m, a), b)
    decreases |a|
  {
    if a == [] {
      assert a + b == b;
    } else {
      assert (a + b)[1..] == a[1..] + b;
      InsertedConcat(m[a[0].id := a[0]], a[1..], b);
    }
  }

  /** The last point upserted with a given id is the one stored under it. */
  lemma {:induction false} LastPointWins(m: map<nat, Point>, points: seq<Point>, p: Point)
    requires points != [] && points[|points| - 1] == p
    ensures p.id in Inserted(m, points) && Inserted(m, points)[p.id] == p
  {
    var init := points[..|points| - 1];
    assert points == init + [p];
    InsertedConcat(m, init, [p]);
  }

  /** Every point of the collection is stored under its own id and has the store's dimension. */
  ghost predicate WellFormed(c: map<nat, Point>) {
    forall id :: id in c ==> c[id].id == id && |c[id].vector| == Dimension
  }

  predicate Fits(points: seq<Point>) {
    forall i :: 0 <= i < |points| ==> |points[i].vector| == Dimension
  }

  lemma {:induction false} InsertedWellFormed(m: map<nat, Point>, points: seq<Point>)
    requires WellFormed(m) && Fits(points)
    ensures WellFormed(Inserted(m, points))
    decreases |points|
  {
    if points != [] {
      assert Fits(points[1..]) by {
        forall i | 0 <= i < |points[1..]| ensures |points[1..][i].vector| == Dimension {
          assert points[1..][i] == points[i + 1];
        }
      }
      InsertedWellFormed(m[points[0].id := points[0]], points[1..]);
    }
  }

  /** What the upsert loop leaves: the error that stopped it, the collections, and the batches sent. */
  datatype Upserted = Upserted(err: Option<Error>, collections: map<string, map<nat, Point>>, sent: seq<seq<Point>>)

  /**
   * The upsert loop over the batches `bs`, after the batches `acc` were sent:
   * each batch is sent in order, and the first refused one is the last sent.
   */
  function UpsertAll(c: map<string, map<nat, Point>>, name: string, bs: seq<seq<Point>>, acc: seq<seq<Point>>): (r: Upserted)
    ensures |acc| <= |r.sent| <= |acc| + |bs|
    ensures r.err.Some? ==> |r.sent| > |acc|
    decreases |bs|
  {
    if bs == [] then Upserted(None, c, acc)
    else if name !in c || !Fits(bs[0]) then Upserted(Some(UpsertRejected), c, acc + [bs[0]])
    else UpsertAll(c[name := Inserted(c[name], bs[0])], name, bs[1..], acc + [bs[0]])
  }

  /** The batches sent after `acc` are the first ones of `bs`, and all of them when nothing is refused. */
  lemma {:induction false} UpsertAllSent(c: map<string, map<nat, Point>>, name: string, bs: seq<seq<Point>>, acc: seq<seq<Point>>)
    ensures var r := UpsertAll(c, name, bs, acc);
      && r.sent == acc + bs[..|r.sent| - |acc|]
      && (r.err.None? ==> |r.sent| == |acc| + |bs|)
    decreases |bs|
  {
    if bs == [] {
      assert acc + bs[..0] == acc;
    } else if name !in c || !Fits(bs[0]) {
      assert bs[..1] == [bs[0]];
    } else {
      var c1 := c[name := Inserted(c[name], bs[0])];
      var acc1 := acc + [bs[0]];
      var r := UpsertAll(c1, name, bs[1..], acc1);
      UpsertAllSent(c1, name, bs[1..], acc1);
      var k := |r.sent| - |acc1|;
      Batching.TakeCons(bs, k);
      Batching.AppendAssoc(acc, bs[0], bs[1..][..k]);
    }
  }

  /** Into an existing collection, the upsert loop succeeds exactly when every batch fits. */
  lemma {:induction false} UpsertAllSucceeds(c: map<string, map<nat, Point>>, name: string, bs: seq<seq<Point>>, acc: seq<seq<Point>>)
    requires name in c
    ensures UpsertAll(c, name, bs, acc).err.None? <==> forall j :: 0 <= j < |bs| ==> Fits(bs[j])
    decreases |bs|
  {
    if bs != [] && Fits(bs[0]) {
      var c1 := c[name := Inserted(c[name], bs[0])];
      UpsertAllSucceeds(c1, name, bs[1..], acc + [bs[0]]);
      forall j | 1 <= j < |bs| ensures bs[j] == bs[1..][j - 1] { }
    }
  }

  /**
   * Into an existing collection, the upsert loop stores every batch when none
   * is refused, and otherwise exactly the batches before the refused one.
   */
  lemma {:induction false} UpsertAllStored(c: map<string, map<nat, Point>>, name: string, bs: seq<seq<Point>>, acc: seq<seq<Point>>)
    requires name in c
    ensures var r := UpsertAll(c, name, bs, acc);
      && (r.err.None? ==> r.collections == c[name := Inserted(c[name], Batching.Flatten(bs))])
      && (r.err.Some? ==> r.collections == c[name := Inserted(c[name], Batching.Flatten(bs[..|r.sent| - |acc| - 1]))])
    decreases |bs|
  {
    if bs == [] || !Fits(bs[0]) {
      assert bs[..0] == [];
      assert c[name := Inserted(c[name], [])] == c;
    } else {
      var c1 := c[name := Inserted(c[name], bs[0])];
      var acc1 := acc + [bs[0]];
      var r := UpsertAll(c1, name, bs[1..], acc1);
      UpsertAllStored(c1, name, bs[1..], acc1);
      if r.err.None? {
        StoredAfterFirst(c, name, bs[0], bs[1..]);
        assert bs == [bs[0]] + bs[1..];
      } else {
        var k := |r.sent| - |acc1| - 1;
        StoredAfterFirst(c, name, bs[0], bs[1..][..k]);
        Batching.TakeCons(bs, k);
      }
    }
  }

  /** One pass of the upsert loop: the batch sent, then the loop over the batches after it. */
  lemma UpsertStep(before: map<string, map<nat, Point>>, after: map<string, map<nat, Point>>, name: string,
                   batch: seq<Point>, rest: seq<seq<Point>>, sent: seq<seq<Point>>, err: Option<Error>)
    requires err.None? <==> name in before && Fits(batch)
    requires err.Some? ==> err == Some(UpsertRejected) && after == before
    requires err.None? ==> after == before[name := Inserted(before[name], batch)]
    ensures err.Some? ==> UpsertAll(before, name, [batch] + rest, sent) == Upserted(err, after, sent + [batch])
    ensures err.None? ==> UpsertAll(before, name, [batch] + rest, sent) == UpsertAll(after, name, rest, sent + [batch])
  {
    assert ([batch] + rest)[0] == batch && ([batch] + rest)[1..] == rest;
  }

  /** Storing one batch and then the batches `done` is storing all of them at once. */
  lemma StoredAfterFirst(c: map<string, map<nat, Point>>, name: string, b: seq<Point>, done: seq<seq<Point>>)
    requires name in c
    ensures var c1 := c[name := Inserted(c[name], b)];
      c1[name := Inserted(c1[name], Batching.Flatten(done))] == c[name := Inserted(c[name], Batching.Flatten([b] + done))]
  {
    InsertedConcat(c[name], b, Batching.Flatten(done));
    assert ([b] + done)[1..] == done;
  }

  /** A run of points fits exactly when each batch cut from it fits. */
  lemma {:induction false} FitsFlatten(bs: seq<seq<Point>>)
    ensures Fits(Batching.Flatten(bs)) <==> forall j :: 0 <= j < |bs| ==> Fits(bs[j])
    decreases |bs|
  {
    if bs != [] {
      FitsFlatten(bs[1..]);
      FitsConcat(bs[0], Batching.Flatten(bs[1..]));
      forall j | 1 <= j < |bs| ensures bs[j] == bs[1..][j - 1] { }
    }
  }

  /**
   * The upsert loop over the batches of `points` sends its batches in order;
   * it succeeds exactly when there is nothing to send or the collection exists
   * and every vector fits, and then every batch was sent.
   */
  lemma BatchedUpsert(c: map<string, map<nat, Point>>, name: string, points: seq<Point>)
    ensures var r := UpsertAll(c, name, Batching.Batches(points, UpsertBatchSize), []);
      && r.sent <= Batching.Batches(points, UpsertBatchSize)
      && (r.err.None? ==> r.sent == Batching.Batches(points, UpsertBatchSize))
      && (r.err.None? <==> points == [] || (name in c && Fits(points)))
      && (r.err.Some? ==> r.sent != [])
  {
    var bs := Batching.Batches(points, UpsertBatchSize);
    var r := UpsertAll(c, name, bs, []);
    UpsertAllSent(c, name, bs, []);
    assert r.sent == bs[..|r.sent|];
    if name in c {
      Batching.BatchesCover(points, UpsertBatchSize);
      FitsFlatten(bs);
      UpsertAllSucceeds(c, name, bs, []);
    }
  }

  /**
   * What the upsert loop over the batches of `points` stores: every point on
   * success, the batches before the refused one on a refusal, and nothing in
   * a missing collection.
   */
  lemma BatchedUpsertStored(c: map<string, map<nat, Point>>, name: string, points: seq<Point>)
    ensures var r := UpsertAll(c, name, Batching.Batches(points, UpsertBatchSize), []);
      && (r.err.None? && points != [] ==> r.collections == c[name := Inserted(c[name], points)])
      && (points == [] ==> r.collections == c)
      && (r.err.Some? && name in c ==> r.collections == c[name := Inserted(c[name], Batching.Flatten(r.sent[..|r.sent| - 1]))])
      && (r.err.Some? && name !in c ==> r.collections == c)
  {
    var bs := Batching.Batches(points, UpsertBatchSize);
    var r := UpsertAll(c, name, bs, []);
    if name in c {
      UpsertAllStored(c, name, bs, []);
      if r.err.None? {
        Batching.BatchesCover(points, UpsertBatchSize);
      } else {
        UpsertAllSent(c, name, bs, []);
        assert r.sent[..|r.sent| - 1] == bs[..|r.sent| - 1];
      }
    }
  }

  class Store {
    /** The collections by name, each a map from point ids to points. */
    var collections: map<string, map<nat, Point>>

    ghost predicate Valid()
      reads this
    {
      forall name :: name in collections ==> WellFormed(collections[name])
    }

    constructor ()
      ensures collections == map[] && Valid()
    {
      collections := map[];
    }

    /** setupQdrantCollection: create the collection, empty, only if no collection has that name. */
    method SetupCollection(name: string)
      requires Valid()
      modifies this
      ensures Valid()
      ensures name in collections
      ensures name in old(collections) ==> collections == old(collections)
      ensures name !in old(collections) ==> collections == old(collections)[name := map[]]
    {
      var present := name in collections;
      if !present {
        collections := collections[name := map[]];
      }
    }

    /** One upsert request: refused when the collection is missing or a vector has the wrong dimension. */
    method Upsert(name: string, points: seq<Point>) returns (err: Option<Error>)
      requires Valid()
      modifies this
      ensures Valid()
      ensures err.None? <==> name in old(collections) && Fits(points)
      ensures err.Some? ==> err == Some(UpsertRejected)
      ensures err.None? ==> collections == old(collections)[name := Inserted(old(collections)[name], points)]
      ensures err.Some? ==> collections == old(collections)
    {
      if name !in collections || !Fits(points) {
        return Some(UpsertRejected);
      }
      InsertedWellFormed(collections[name], points);
      collections := collections[name := Inserted(collections[name], points)];
      err := None;
    }

    /**
     * The upsert loop: batches of at most 100 points, in order, stopping at
     * the first refused batch; the batches before it stay stored.
     */
    method UpsertInBatches(name: string, points: seq<Point>) returns (err: Option<Error>, sent: seq<seq<Point>>)
      requires Valid()
      modifies this
      ensures Valid()
      ensures Upserted(err, collections, sent) == UpsertAll(old(collections), name, Batching.Batches(points, UpsertBatchSize), [])
    {
      sent := [];
      err := None;
      var i := 0;
      while i < |points|
        invariant Valid() && err.None?
        invariant UpsertAll(old(collections), name, Batching.Batches(points, UpsertBatchSize), [])
          == UpsertAll(collections, name, Batching.Batches(Batching.Rest(points, i), UpsertBatchSize), sent)
        decreases |points| - i
      {
        var batch := points[i..Batching.Min(i + UpsertBatchSize, |points|)];
        ghost var rest := Batching.Batches(Batching.Rest(points, i + UpsertBatchSize), UpsertBatchSize);
        Batching.BatchesOfRest(points, i, UpsertBatchSize);
        ghost var before := collections;
        err := Upsert(name, batch);
        UpsertStep(before, collections, name, batch, rest, sent, err);
        sent := sent + [batch];
        if err.Some? {
          return;
        }
        i := i + UpsertBatchSize;
      }
      assert Batching.Rest(points, i) == [];
    }

    /**
     * storeEmbeddingsInQdrant: at most one point, for the file's base name,
     * built only if the embedding request succeeds, then upserted in batches;
     * a refused upsert is passed on to the caller.
     */
    method StoreEmbeddings(name: string, baseName: string, pathStr: string, source: string,
                           embed: string -> Option<seq<real>>, now: nat)
      returns (err: Option<Error>, points: seq<Point>)
      requires Valid()
      modifies this
      ensures Valid()
      ensures embed(baseName).None? ==> points == [] && err.None? && collections == old(collections)
      ensures embed(baseName).Some? ==> (
        && |points| == 1
        && points[0].vector == PadOrTruncate(embed(baseName).value, 0.0)
        && points[0].payload == Payload(baseName, pathStr, source)
        && points[0].id == PointId(source + "-" + baseName, now))
      ensures err.None? <==> points == [] || name in old(collections)
      ensures err.None? && points != [] ==> collections == old(collections)[name := Inserted(old(collections)[name], points)]
      ensures err.Some? ==> collections == old(collections)
    {
      points := [];
      var embedding := embed(baseName);
      if embedding.Some? {
        var padded := PadOrTruncate(embedding.value, 0.0);
        var hash := StringHash.StringHashCode(source + "-" + baseName);
        var id := if hash != 0 then hash else now;
        points := points + [Point(id, padded, Payload(baseName, pathStr, source))];
      }
      assert Fits(points);
      ghost var before := collections;
      var sent;
      err, sent := UpsertInBatches(name, points);
      BatchedUpsert(before, name, points);
      BatchedUpsertStored(before, name, points);
      if points != [] && err.Some? {
        assert |Batching.Batches(points, UpsertBatchSize)| == 1;
        assert sent[..|sent| - 1] == [];
      }
    }
  }

  /** A point's id: the hash of "<source>-<baseName>", or the clock reading `now` when that hash is 0. */
  function PointId(key: string, now: nat): (id: nat)
    ensures StringHash.Abs(StringHash.JavaHash(key)) != 0 ==> id == StringHash.Abs(StringHash.JavaHash(key))
  {
    var h := StringHash.Abs(StringHash.JavaHash(key));
    if h != 0 then h else now
  }

  /** `r.payload?.path` of a result that is neither null nor undefined. */
  function PathOf(result: Json): Json {
    GetOpt(GetOpt(result, "payload"), "path")
  }

  /** `results.map(r => r.payload?.path)`: a TypeError when some result is null or undefined. */
  function PayloadPaths(results: seq<Json>): (r: Result<seq<Json>, Error>)
    ensures r.Failure? <==> exists i :: 0 <= i < |results| && Get(results[i], "payload").Failure?
    ensures r.Success? ==> |r.value| == |results|
    ensures r.Success? ==> forall i :: 0 <= i < |results| ==> r.value[i] == PathOf(results[i])
  {
    if exists i :: 0 <= i < |results| && Get(results[i], "payload").Failure? then Failure(TypeError)
    else Success(seq(|results|, i requires 0 <= i < |results| => PathOf(results[i])))
  }

  /** `.filter(Boolean)`: the truthy values, in order. */
  function Truthies(vs: seq<Json>): (r: seq<Json>)
    ensures |r| <= |vs|
    ensures forall v :: v in r <==> v in vs && Truthy(v)
  {
    if vs == [] then []
    else
      assert forall v :: v in vs <==> v == vs[0] || v in vs[1..];
      (if Truthy(vs[0]) then [vs[0]] else []) + Truthies(vs[1..])
  }

  lemma {:induction false} TruthiesConcat(a: seq<Json>, b: seq<Json>)
    ensures Truthies(a + b) == Truthies(a) + Truthies(b)
  {
    if a == [] {
      assert a + b == b;
    } else {
      assert (a + b)[1..] == a[1..] + b;
      TruthiesConcat(a[1..], b);
    }
  }

  type Search = (string, seq<real>, nat) -> Option<seq<Json>>

  /**
   * searchSimilarFiles: the paths stored with the closest points, in the
   * order the store ranks them, falsy paths dropped; nothing at all when the
   * embedding, the search or the mapping fails.
   */
  function SearchSimilarFiles(queryText: string, name: string, limit: nat,
                              embed: string -> Option<seq<real>>, search: Search): (r: seq<Json>)
    ensures forall p :: p in r ==> Truthy(p)
    ensures embed(queryText).None? ==> r == []
    ensures r != [] ==> (
      && embed(queryText).Some?
      && var results := search(name, PadOrTruncate(embed(queryText).value, 0.0), limit);
      && results.Some?
      && forall p :: p in r ==> exists i :: 0 <= i < |results.value| && PathOf(results.value[i]) == p)
    ensures embed(queryText).Some? ==>
      var results := search(name, PadOrTruncate(embed(queryText).value, 0.0), limit);
      && (results.None? ==> r == [])
      && (results.Some? && PayloadPaths(results.value).Failure? ==> r == [])
      && (results.Some? && PayloadPaths(results.value).Success? ==> r == Truthies(PayloadPaths(results.value).value))
  {
    match embed(queryText)
    case None => []
    case Some(e) =>
      match search(name, PadOrTruncate(e, 0.0), limit)
      case None => []
      case Some(results) =>
        match PayloadPaths(results)
        case Failure(_) => []
        case Success(paths) => Truthies(paths)
  }

  /**
   * What a successful search answers: each result's truthy path, in the
   * store's order. A truthy path of any result is returned, and two results
   * keep their relative order.
   */
  lemma SearchedPaths(queryText: string, name: string, limit: nat,
                      embed: string -> Option<seq<real>>, search: Search, i: nat, j: nat)
    requires embed(queryText).Some?
    requires search(name, PadOrTruncate(embed(queryText).value, 0.0), limit).Some?
    requires var results := search(name, PadOrTruncate(embed(queryText).value, 0.0), limit).value;
      && (forall k :: 0 <= k < |results| ==> !(results[k].Null? || results[k].Undefined?))
      && i < j < |results|
    ensures var results := search(name, PadOrTruncate(embed(queryText).value, 0.0), limit).value;
      var r := SearchSimilarFiles(queryText, name, limit, embed, search);
      && (Truthy(PathOf(results[i])) ==> PathOf(results[i]) in r)
      && (Truthy(PathOf(results[i])) && Truthy(PathOf(results[j])) ==>
            exists a, b :: 0 <= a < b < |r| && r[a] == PathOf(results[i]) && r[b] == PathOf(results[j]))
  {
    var results := search(name, PadOrTruncate(embed(queryText).value, 0.0), limit).value;
    var ps := PayloadPaths(results).value;
    assert ps[i] == PathOf(results[i]) && ps[j] == PathOf(results[j]);
    if Truthy(ps[i]) && Truthy(ps[j]) {
      TruthiesKeepsOrder(ps, i, j);
    }
  }

  /** Two truthy values keep their relative order through the filter. */
  lemma TruthiesKeepsOrder(vs: seq<Json>, i: nat, j: nat)
    requires i < j < |vs| && Truthy(vs[i]) && Truthy(vs[j])
    ensures exists a, b :: 0 <= a < b < |Truthies(vs)| && Truthies(vs)[a] == vs[i] && Truthies(vs)[b] == vs[j]
  {
    TruthiesAt(vs, i);
    TruthiesAt(vs, j);
    TruthiesPrefixGrows(vs, i, j);
    var a, b := |Truthies(vs[..i])|, |Truthies(vs[..j])|;
    assert 0 <= a < b < |Truthies(vs)| && Truthies(vs)[a] == vs[i] && Truthies(vs)[b] == vs[j];
  }

  /** A truthy value lands in the filtered list right after the truthy values before it. */
  lemma TruthiesAt(vs: seq<Json>, j: nat)
    requires j < |vs| && Truthy(vs[j])
    ensures |Truthies(vs[..j])| < |Truthies(vs)|
    ensures Truthies(vs)[|Truthies(vs[..j])|] == vs[j]
  {
    var front, back := vs[..j], vs[j + 1..];
    assert vs == front + ([vs[j]] + back);
    TruthiesConcat(front, [vs[j]] + back);
    TruthiesConcat([vs[j]], back);
    assert Truthies([vs[j]]) == [vs[j]];
  }

  /** A truthy value between two cut points adds to the filtered prefix. */
  lemma TruthiesPrefixGrows(vs: seq<Json>, i: nat, j: nat)
    requires i < j <= |vs| && Truthy(vs[i])
    ensures |Truthies(vs[..i])| < |Truthies(vs[..j])|
  {
    assert vs[..j] == vs[..i] + vs[i..j];
    TruthiesConcat(vs[..i], vs[i..j]);
    assert vs[i..j][0] == vs[i];
  }

  lemma FitsConcat(a: seq<Point>, b: seq<Point>)
    ensures Fits(a + b) <==> Fits(a) && Fits(b)
  {
    forall i | 0 <= i < |a + b| ensures (a + b)[i] == if i < |a| then a[i] else b[i - |a|] { }
    if Fits(a + b) {
      forall i | 0 <= i < |b| ensures |b[i].vector| == Dimension {
        assert (a + b)[|a| + i] == b[i];
      }
    }
  }
}
