/** The two phases of the SSD-backed runner: offline, fill the disk cache of every sample or stop with
    an error; online, score the samples that have a cache. The same check guards both phases. */
module CachePhases {
  import opened Options
  import opened Strings

  const PACKED_KV_FORMAT := "sgblend_kv_packed_v1"
  const QUERY_CACHE_FORMAT := "sgblend_query_cache_v1"
  const DIGEST_INDEX_VERSION := 8
  const DIGEST_INDEX_METHOD := "kvzip"
  const CONTEXT_N_SINK := 4

  // ---- The disk ----

  /** The chunk cache of a sample: its data file, and the format its metadata names. */
  datatype ChunkDir = ChunkDir(bin: bool, meta: Option<Option<string>>)

  /** The metadata of a query cache. A field that is missing, or not convertible to a number, is None. */
  datatype QueryMeta = QueryMeta(
    format: Option<string>,
    digestIndexVersion: Option<int>,
    materializedDigest: Option<bool>,
    digestRatio: Option<real>,
    criticalLayers: seq<int>,
    qcomputeEnd: Option<int>,
    contextNSink: map<string, Option<int>>,
    digestNumLayers: Option<int>,
    criticalLayerIds: seq<int>)

  datatype QueryDir = QueryDir(bin: bool, meta: Option<QueryMeta>)

  /** The directories that exist, by path. */
  datatype Disk = Disk(chunks: map<string, ChunkDir>, queries: map<string, QueryDir>)

  function SamplePath(dir: string, idx: nat): string { dir + "/sample_" + Decimal(idx) }

  /** Samples have directories of their own. */
  lemma PathsDiffer(dir: string, i: nat, j: nat)
    ensures SamplePath(dir, i) == SamplePath(dir, j) <==> i == j
  {
    DecimalInjective(i, j);
    var prefix := dir + "/sample_";
    assert SamplePath(dir, i)[|prefix|..] == Decimal(i) && SamplePath(dir, j)[|prefix|..] == Decimal(j);
  }

  // ---- The check ----

  datatype Baseline = FullComp | Ours | FuseRag | ProphetKv

  /** The settings that the check looks at. */
  datatype Settings = Settings(
    contextEnhance: bool,
    contextCacheSource: string,
    digestRatio: real,
    criticalLayers: Option<seq<int>>,
    defaultLayers: seq<int>)
  {
    predicate RequiresQueryCache() {
      contextEnhance && contextCacheSource == "query"
    }

    /** The explicit layers if there are any, else the model's default. */
    function OfflineQueryCriticalLayers(): seq<int> {
      if criticalLayers.Some? && criticalLayers.value != [] then criticalLayers.value else defaultLayers
    }
  }

  predicate HasPackedCache(disk: Disk, path: string) {
    path in disk.chunks && disk.chunks[path].bin && disk.chunks[path].meta == Some(Some(PACKED_KV_FORMAT))
  }

  predicate HasQueryFormat(disk: Disk, path: string) {
    && path in disk.queries && disk.queries[path].bin && disk.queries[path].meta.Some?
    && disk.queries[path].meta.value.format == Some(QUERY_CACHE_FORMAT)
  }

  function MaxOf(xs: seq<int>): int
    requires xs != []
  {
    if |xs| == 1 then xs[0]
    else
      var m := MaxOf(xs[..|xs| - 1]);
      if m < xs[|xs| - 1] then xs[|xs| - 1] else m
  }

  predicate RatioMatches(ratio: Option<real>, expected: real) {
    ratio.Some? && -0.000000001 < ratio.value - expected < 0.000000001
  }

  predicate MetaMatches(meta: QueryMeta, layers: seq<int>, digestRatio: real)
    requires layers != []
  {
    && meta.digestIndexVersion == Some(DIGEST_INDEX_VERSION)
    && meta.materializedDigest == Some(true)
    && RatioMatches(meta.digestRatio, digestRatio)
    && meta.criticalLayers == layers
    && meta.qcomputeEnd == Some(MaxOf(layers) + 1)
    && meta.digestNumLayers == Some(MaxOf(layers) + 1)
    && DIGEST_INDEX_METHOD in meta.contextNSink && meta.contextNSink[DIGEST_INDEX_METHOD] == Some(CONTEXT_N_SINK)
    && forall l :: l in layers ==> l in meta.criticalLayerIds
  }

  /** Without a query to check, or without layers to check it for, a chunk cache is enough. */
  predicate HasCache(s: Settings, disk: Disk, chunkPath: string, queryPath: string, requireQuery: bool,
                     queryLayers: Option<seq<int>>)
  {
    var layers := if queryLayers.Some? then queryLayers else s.criticalLayers;
    && HasPackedCache(disk, chunkPath)
    && (requireQuery && layers.Some? && layers.value != [] ==>
          HasQueryFormat(disk, queryPath) && MetaMatches(disk.queries[queryPath].meta.value, layers.value, s.digestRatio))
  }

  lemma {:induction false} MaxIs(xs: seq<int>)
    requires xs != []
    ensures MaxOf(xs) in xs && forall x :: x in xs ==> x <= MaxOf(xs)
  {
    var n := |xs| - 1;
    assert xs == xs[..n] + [xs[n]];
    if n > 0 { MaxIs(xs[..n]); }
  }

  /** Exactly which directories are accepted when a query cache is asked for and there are layers to check:
      both data files and both metadata files are there in the known formats, and the query cache records
      the digest index, the ratio within the tolerance, the layers in their order, the end of the
      computation and the number of digest layers behind the last of them, and the context sink. */
  lemma AcceptedIff(s: Settings, disk: Disk, chunkPath: string, queryPath: string, layers: seq<int>, end: int)
    requires layers != [] && end - 1 in layers && forall l :: l in layers ==> l < end
    ensures HasCache(s, disk, chunkPath, queryPath, true, Some(layers)) <==>
              && chunkPath in disk.chunks && disk.chunks[chunkPath] == ChunkDir(true, Some(Some("sgblend_kv_packed_v1")))
              && queryPath in disk.queries && disk.queries[queryPath].bin && disk.queries[queryPath].meta.Some?
              && var meta := disk.queries[queryPath].meta.value;
                 && meta.format == Some("sgblend_query_cache_v1")
                 && meta.digestIndexVersion == Some(8) && meta.materializedDigest == Some(true)
                 && meta.digestRatio.Some?
                 && (var d := meta.digestRatio.value - s.digestRatio; if d < 0.0 then -d else d) < 0.000000001
                 && meta.criticalLayers == layers && meta.qcomputeEnd == Some(end) && meta.digestNumLayers == Some(end)
                 && "kvzip" in meta.contextNSink && meta.contextNSink["kvzip"] == Some(4)
                 && forall l :: l in layers ==> l in meta.criticalLayerIds
  {
    MaxIs(layers);
    assert MaxOf(layers) == end - 1;
    hide MaxOf;
  }

  /** Which caches the phases ask for: the offline phase always asks for the explicit layers, or the model's
      if there are none; the online phase asks for a query cache only if the context comes from one. */
  lemma AskedFor(s: Settings)
    ensures s.RequiresQueryCache() <==> s.contextEnhance && s.contextCacheSource == "query"
    ensures s.criticalLayers == None || s.criticalLayers == Some([]) ==> s.OfflineQueryCriticalLayers() == s.defaultLayers
    ensures forall layers: seq<int> :: layers != [] && s.criticalLayers == Some(layers) ==> s.OfflineQueryCriticalLayers() == layers
  {
  }

  /** What the offline phase accepts, the online phase finds. */
  lemma OfflineCovers(s: Settings, disk: Disk, chunkPath: string, queryPath: string)
    requires HasCache(s, disk, chunkPath, queryPath, true, Some(s.OfflineQueryCriticalLayers()))
    ensures HasCache(s, disk, chunkPath, queryPath, s.RequiresQueryCache(), None)
  {
    hide MetaMatches;
  }

  /** The other direction holds exactly when the online phase looks at the query cache, for layers that
      are set explicitly, or the offline phase has no layers to check. */
  lemma OnlineCoversIff(s: Settings)
    ensures (forall disk, chunkPath, queryPath :: HasCache(s, disk, chunkPath, queryPath, s.RequiresQueryCache(), None) ==>
               HasCache(s, disk, chunkPath, queryPath, true, Some(s.OfflineQueryCriticalLayers())))
            <==> s.OfflineQueryCriticalLayers() == []
                 || (s.RequiresQueryCache() && s.criticalLayers.Some? && s.criticalLayers.value != [])
  {
    hide MetaMatches;
    if s.OfflineQueryCriticalLayers() != [] && !(s.RequiresQueryCache() && s.criticalLayers.Some? && s.criticalLayers.value != []) {
      var disk := Disk(map["c" := ChunkDir(true, Some(Some(PACKED_KV_FORMAT)))], map[]);
      assert HasPackedCache(disk, "c") && !HasQueryFormat(disk, "q");
      assert HasCache(s, disk, "c", "q", s.RequiresQueryCache(), None);
      assert !HasCache(s, disk, "c", "q", true, Some(s.OfflineQueryCriticalLayers()));
    }
  }

  // ---- Baselines ----

  function BaselineDigestRatio(b: Baseline): real
    requires !b.FullComp?
  {
    match b
    case Ours => 0.1
    case FuseRag => 0.0
    case ProphetKv => 1.0
  }

  function BaselineLayers(b: Baseline, numLayers: nat, topLayers: seq<int>): seq<int> {
    match b
    case Ours => topLayers
    case FuseRag => [numLayers - 1]
    case ProphetKv => seq(numLayers, i => i)
    case FullComp => []
  }

  /** The settings of a run, as the command line makes them. */
  function Configured(b: Baseline, numLayers: nat, topLayers: seq<int>): Settings {
    if b.FullComp? then Settings(false, "none", 0.1, None, topLayers)
    else Settings(true, "query", BaselineDigestRatio(b), Some(BaselineLayers(b, numLayers, topLayers)), topLayers)
  }

  /** A query cache is needed exactly for the blend baselines. Ours checks the model's top layers at one tenth,
      FuseRag the last layer at nothing, ProphetKv every layer at the whole. */
  lemma BaselineSettings(b: Baseline, numLayers: nat, topLayers: seq<int>)
    requires numLayers > 0 && topLayers != []
    ensures var s := Configured(b, numLayers, topLayers);
            && (s.RequiresQueryCache() <==> b != FullComp)
            && (b == FullComp ==> !s.contextEnhance && s.contextCacheSource == "none" && s.digestRatio == 0.1
                                  && s.OfflineQueryCriticalLayers() == topLayers)
            && (b == Ours ==> s.digestRatio == 0.1 && s.OfflineQueryCriticalLayers() == topLayers)
            && (b == FuseRag ==> s.digestRatio == 0.0 && s.OfflineQueryCriticalLayers() == [numLayers - 1])
            && (b == ProphetKv ==> s.digestRatio == 1.0 && |s.OfflineQueryCriticalLayers()| == numLayers
                                   && forall l :: 0 <= l < numLayers ==> s.OfflineQueryCriticalLayers()[l] == l)
  {
  }

  /** A cache directory that is accepted for one blend baseline is not accepted for another: the
      recorded digest ratio can match only one of them. */
  lemma BaselinesDoNotShare(a: Baseline, b: Baseline, numLayers: nat, topLayers: seq<int>, disk: Disk, chunkPath: string,
                            queryPath: string)
    requires !a.FullComp? && !b.FullComp? && numLayers > 0 && topLayers != []
    ensures var s, t := Configured(a, numLayers, topLayers), Configured(b, numLayers, topLayers);
            (HasCache(s, disk, chunkPath, queryPath, s.RequiresQueryCache(), None)
             && HasCache(t, disk, chunkPath, queryPath, t.RequiresQueryCache(), None)) ==> a == b
  {
  }

  // ---- The phases ----

  datatype Offline = Returned | QueryIncomplete(idx: nat) | NotGenerated(idx: nat)

  /** What saving a sample leaves in its two directories, given the disk before. */
  datatype Saved = Saved(chunk: Option<ChunkDir>, query: Option<QueryDir>)

  function Written(disk: Disk, chunkPath: string, queryPath: string, saved: Saved): Disk {
    Disk(if saved.chunk.Some? then disk.chunks[chunkPath := saved.chunk.value] else disk.chunks - {chunkPath},
         if saved.query.Some? then disk.queries[queryPath := saved.query.value] else disk.queries - {queryPath})
  }

  class SSDPipelineEngine {
    const baseline: Baseline
    const settings: Settings
    const chunkDir: string
    const queryDir: string
    var disk: Disk

    constructor (baseline: Baseline, numLayers: nat, topLayers: seq<int>, chunkDir: string, queryDir: string, disk: Disk)
      ensures this.baseline == baseline && settings == Configured(baseline, numLayers, topLayers)
      ensures this.chunkDir == chunkDir && this.queryDir == queryDir && this.disk == disk
    {
      this.baseline, this.settings := baseline, Configured(baseline, numLayers, topLayers);
      this.chunkDir, this.queryDir, this.disk := chunkDir, queryDir, disk;
    }

    /** The first style is offline computation for every blend baseline. */
    predicate ComputesOffline() { !baseline.FullComp? }

    predicate OfflineHas(d: Disk, idx: nat) {
      HasCache(settings, d, SamplePath(chunkDir, idx), SamplePath(queryDir, idx), true, Some(settings.OfflineQueryCriticalLayers()))
    }

    predicate OnlineHas(d: Disk, idx: nat) {
      HasCache(settings, d, SamplePath(chunkDir, idx), SamplePath(queryDir, idx), settings.RequiresQueryCache(), None)
    }

    /** The two directories of a sample. */
    function DirsOf(d: Disk, idx: nat): (Option<ChunkDir>, Option<QueryDir>) {
      var c, q := SamplePath(chunkDir, idx), SamplePath(queryDir, idx);
      (if c in d.chunks then Some(d.chunks[c]) else None, if q in d.queries then Some(d.queries[q]) else None)
    }

    lemma OfflineReadsOwn(d: Disk, d': Disk, idx: nat)
      requires DirsOf(d, idx) == DirsOf(d', idx)
      ensures OfflineHas(d, idx) == OfflineHas(d', idx)
    {
      hide MetaMatches, SamplePath;
    }

    /** Saving a sample leaves in its directories what was saved. */
    lemma OwnWritten(idx: nat, saved: Saved)
      ensures DirsOf(Written(disk, SamplePath(chunkDir, idx), SamplePath(queryDir, idx), saved), idx) == (saved.chunk, saved.query)
    {
      hide SamplePath;
    }

    lemma OthersKept(idx: nat, saved: Saved, j: nat)
      requires j != idx
      ensures DirsOf(Written(disk, SamplePath(chunkDir, idx), SamplePath(queryDir, idx), saved), j) == DirsOf(disk, j)
    {
      hide SamplePath;
      PathsDiffer(chunkDir, idx, j);
      PathsDiffer(queryDir, idx, j);
    }

    /** The directories of a sample hold what saving it on some disk leaves. */
    ghost predicate SavedAs(save: (nat, Disk) -> Saved, idx: nat, dirs: (Option<ChunkDir>, Option<QueryDir>)) {
      exists d :: dirs == (save(idx, d).chunk, save(idx, d).query)
    }

    /** Offline: compute the samples that have no cache. It returns exactly when every sample then has
        one; samples that had one, and other directories, are left alone. */
    method Phase1Offline(samples: nat, save: (nat, Disk) -> Saved) returns (r: Offline)
      modifies this`disk
      ensures r.Returned? && ComputesOffline() ==> forall i: nat :: i < samples ==> OfflineHas(disk, i)
      ensures !ComputesOffline() ==> r.Returned? && disk == old(disk)
      ensures !r.Returned? ==>
                && r.idx < samples && !OfflineHas(disk, r.idx) && !OfflineHas(old(disk), r.idx)
                && (forall i: nat :: i < r.idx ==> OfflineHas(disk, i))
                && (r.QueryIncomplete? <==> HasPackedCache(disk, SamplePath(chunkDir, r.idx)))
      ensures forall i: nat :: i >= samples || OfflineHas(old(disk), i) ==> DirsOf(disk, i) == DirsOf(old(disk), i)
      ensures ComputesOffline() ==> forall i: nat :: i < (if r.Returned? then samples else r.idx + 1) && !OfflineHas(old(disk), i) ==>
                SavedAs(save, i, DirsOf(disk, i))
    {
      hide HasCache, MetaMatches, SamplePath, Written, DirsOf, OfflineHas;
      if !ComputesOffline() { return Returned; }
      ghost var before := disk;
      var idx := 0;
      while idx < samples
        invariant idx <= samples && forall i: nat :: i < idx ==> OfflineHas(disk, i)
        invariant forall i: nat :: i >= idx || OfflineHas(before, i) ==> DirsOf(disk, i) == DirsOf(before, i)
        invariant forall i: nat :: i < idx && !OfflineHas(before, i) ==> SavedAs(save, i, DirsOf(disk, i))
      {
        OfflineReadsOwn(before, disk, idx);
        if !OfflineHas(disk, idx) {
          ghost var was := disk;
          var saved := save(idx, disk);
          forall j: nat | j != idx ensures DirsOf(Written(was, SamplePath(chunkDir, idx), SamplePath(queryDir, idx), saved), j) == DirsOf(was, j) {
            OthersKept(idx, saved, j);
          }
          OwnWritten(idx, saved);
          disk := Written(disk, SamplePath(chunkDir, idx), SamplePath(queryDir, idx), saved);
          forall i: nat | i < idx ensures OfflineHas(disk, i) { OfflineReadsOwn(was, disk, i); }
          if !OfflineHas(disk, idx) {
            PackedOnly(settings, disk, SamplePath(chunkDir, idx), SamplePath(queryDir, idx));
            if HasCache(settings, disk, SamplePath(chunkDir, idx), SamplePath(queryDir, idx), false, None) {
              return QueryIncomplete(idx);
            }
            return NotGenerated(idx);
          }
        }
        idx := idx + 1;
      }
      return Returned;
    }

    /** Online: score the samples that have a cache, or all of them when nothing is blended. */
    method Phase2Online(samples: nat, score: nat -> real) returns (metric: seq<real>, scored: seq<nat>)
      ensures |metric| == |scored| && forall k :: 0 <= k < |scored| ==> metric[k] == score(scored[k])
      ensures forall a, b :: 0 <= a < b < |scored| ==> scored[a] < scored[b]
      ensures forall i: nat :: i in scored <==> i < samples && (baseline.FullComp? || OnlineHas(disk, i))
    {
      hide HasCache, SamplePath;
      metric, scored := [], [];
      var i := 0;
      while i < samples
        invariant i <= samples && |metric| == |scored|
        invariant forall k :: 0 <= k < |scored| ==> metric[k] == score(scored[k])
        invariant forall a, b :: 0 <= a < b < |scored| ==> scored[a] < scored[b]
        invariant forall j: nat :: j in scored <==> j < i && (baseline.FullComp? || OnlineHas(disk, j))
      {
        if baseline.FullComp? || OnlineHas(disk, i) {
          forall a | 0 <= a < |scored| ensures scored[a] < i { assert scored[a] in scored; }
          metric, scored := metric + [score(i)], scored + [i];
        }
        i := i + 1;
      }
    }

    /** A whole run: if the offline phase returns, from whatever was on the disk, the online phase
        scores every sample, in order. */
    method Run(samples: nat, save: (nat, Disk) -> Saved, score: nat -> real) returns (r: Offline, metric: seq<real>)
      modifies this`disk
      ensures r.Returned? ==> |metric| == samples && forall i :: 0 <= i < samples ==> metric[i] == score(i)
      ensures !r.Returned? ==> metric == []
    {
      hide HasCache, SamplePath;
      metric := [];
      r := Phase1Offline(samples, save);
      if r.Returned? {
        var scored;
        metric, scored := Phase2Online(samples, score);
        forall i: nat | i < samples ensures i in scored {
          if !baseline.FullComp? {
            assert OfflineHas(disk, i);
            OfflineCovers(settings, disk, SamplePath(chunkDir, i), SamplePath(queryDir, i));
          }
        }
        AllInOrder(scored, samples);
      }
    }
  }

  lemma PackedOnly(s: Settings, disk: Disk, chunkPath: string, queryPath: string)
    ensures HasCache(s, disk, chunkPath, queryPath, false, None) <==> HasPackedCache(disk, chunkPath)
  {
  }

  /** An increasing list of exactly the numbers below n. */
  lemma {:induction false} AllInOrder(s: seq<nat>, n: nat)
    requires forall a, b :: 0 <= a < b < |s| ==> s[a] < s[b]
    requires forall i: nat :: i in s <==> i < n
    ensures |s| == n && forall i :: 0 <= i < n ==> s[i] == i
    decreases n
  {
    assert s != [] ==> s[0] in s;
    assert forall a :: 0 <= a < |s| ==> s[a] in s;
    if n > 0 {
      var last: nat := n - 1;
      assert last in s;
      var k :| 0 <= k < |s| && s[k] == last;
      assert s[|s| - 1] < n;
      assert k == |s| - 1;
      var rest := s[..k];
      forall i: nat ensures i in rest <==> i < n - 1 {
        if i < n - 1 {
          assert i in s;
          var a :| 0 <= a < |s| && s[a] == i;
          assert rest[a] == i;
        }
      }
      AllInOrder(rest, n - 1);
    }
  }
}
