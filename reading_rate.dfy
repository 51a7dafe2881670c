/**
 * The per-image loop of the benchmark tool's reading-rate mode
 * (src/bin/qrtool.rs, `reading_rate_for_images`): labelled images are
 * counted, their hits summed, their runtimes collected, their detector
 * telemetry accumulated, and images on which nothing was read are grouped
 * into failure clusters by signature.
 *
 * The file system and the detector are parameters: each image comes with
 * what its label file holds and, when it loaded, what the detector
 * reported on it.
 */
module ReadingRate {
  import opened Wrappers
  import opened Telemetry
  import opened FailureClusters
  import opened Tools

  /** The label file next to an image: missing, present but unreadable, or its lines. */
  datatype Label = NoLabelFile | Unreadable | LabelLines(lines: seq<string>)

  /**
   * What the detector reports on an image that loaded: the telemetry and
   * the number of codes of `detect_with_telemetry`, the number of codes
   * `detect_qr` finds on the same pixels, and the elapsed milliseconds.
   */
  datatype Detection = Detection(tel: DetectionTelemetry, results: nat, fallback: nat, elapsedMs: real)

  /** One image of the dataset: its path, its label file, and the detection when the image loaded. */
  datatype ImageRun = ImageRun(path: string, labelFile: Label, load: Option<Detection>)

  /** `ReadingRateStats`. */
  datatype Stats = Stats(
    hits: nat,
    totalExpected: nat,
    imagesWithLabels: nat,
    stageTelemetry: StageTelemetry,
    runtimeSamplesMs: seq<real>,
    failureClusters: map<string, Cluster>)

  /** The number of codes the label file announces; 0 when there is none or it cannot be read. */
  function Expected(img: ImageRun): nat
  {
    match img.labelFile
    case NoLabelFile => 0
    case Unreadable => 0
    case LabelLines(lines) => ExpectedQrCount(lines)
  }

  /** The codes counted as decoded: the telemetry run's, or `detect_qr`'s when that finds more and the first fell short. */
  function Decoded(d: Detection, expected: nat): (n: nat)
  {
    if d.results < expected then Max(d.results, d.fallback) else d.results
  }

  /** The codes an image contributes to the hits: what was decoded, up to what was expected. */
  function ImageHits(img: ImageRun): (n: nat)
    ensures n <= Expected(img)
  {
    if Expected(img) == 0 || img.load.None? then 0
    else Min(Decoded(img.load.value, Expected(img)), Expected(img))
  }

  /** The fallback only ever improves the score: an image's hits are the better of both detectors, capped by the label. */
  lemma ImageHitsBestOfBoth(img: ImageRun)
    requires Expected(img) > 0 && img.load.Some?
    ensures ImageHits(img) == Min(Max(img.load.value.results, img.load.value.fallback), Expected(img))
  {
  }

  function Hits(images: seq<ImageRun>): nat
  {
    if |images| == 0 then 0 else Hits(images[..|images| - 1]) + ImageHits(images[|images| - 1])
  }

  function TotalExpected(images: seq<ImageRun>): nat
  {
    if |images| == 0 then 0 else TotalExpected(images[..|images| - 1]) + Expected(images[|images| - 1])
  }

  /** The number of images whose label announces at least one code. */
  function Labelled(images: seq<ImageRun>): nat
  {
    if |images| == 0 then 0
    else Labelled(images[..|images| - 1]) + if Expected(images[|images| - 1]) > 0 then 1 else 0
  }

  /** The runtime of each labelled image that loaded, in order. */
  function Samples(images: seq<ImageRun>): seq<real>
  {
    if |images| == 0 then []
    else
      var img := images[|images| - 1];
      Samples(images[..|images| - 1]) + if Expected(img) > 0 && img.load.Some? then [img.load.value.elapsedMs] else []
  }

  /** What of a labelled image the stage counters see: its telemetry and decoded count when it loaded. */
  function Outcome(img: ImageRun): Option<(DetectionTelemetry, nat)>
  {
    match img.load
    case None => None
    case Some(d) => Some((d.tel, Decoded(d, Expected(img))))
  }

  /** The stage counters over the labelled images, one `CountImage` each. */
  function TelemetryOf(images: seq<ImageRun>): StageTelemetry
  {
    if |images| == 0 then Zero()
    else
      var img := images[|images| - 1];
      var t := TelemetryOf(images[..|images| - 1]);
      if Expected(img) > 0 then CountImage(t, Outcome(img)) else t
  }

  /** A labelled image that loaded and on which no code was read, under its failure signature. */
  function MissOf(img: ImageRun): Option<(string, MissedImage)>
  {
    if Expected(img) > 0 && img.load.Some? && ImageHits(img) == 0
    then Some((Name(ClassifyFailureSignature(img.load.value.tel)), MissedImage(img.path, Expected(img))))
    else None
  }

  /** The missed images filed under signature `name`, in order. */
  function Misses(images: seq<ImageRun>, name: string): seq<MissedImage>
  {
    if |images| == 0 then []
    else
      var miss := MissOf(images[|images| - 1]);
      Misses(images[..|images| - 1], name) + if miss.Some? && miss.value.0 == name then [miss.value.1] else []
  }

  /**
   * `s` is what the loop holds after `done`: the sums and counts over the
   * images so far, their runtimes, their stage counters, and for each
   * signature with a miss the cluster of its misses, and no other entry.
   */
  ghost predicate Summarises(s: Stats, done: seq<ImageRun>)
  {
    && s.hits == Hits(done)
    && s.totalExpected == TotalExpected(done)
    && s.imagesWithLabels == Labelled(done)
    && s.runtimeSamplesMs == Samples(done)
    && s.stageTelemetry == TelemetryOf(done)
    && Clustered(s.failureClusters, done)
  }

  /** For each signature with a miss among `done`, the cluster of its misses, and no other entry. */
  ghost predicate Clustered(clusters: map<string, Cluster>, done: seq<ImageRun>)
  {
    && (forall k :: k in clusters <==> |Misses(done, k)| > 0)
    && (forall k :: k in clusters ==> clusters[k] == ClusterOf(Misses(done, k)))
  }

  /** The miss list of one signature after one more image. */
  lemma MissesStep(done: seq<ImageRun>, img: ImageRun, k: string)
    ensures MissOf(img).Some? && MissOf(img).value.0 == k ==> Misses(done + [img], k) == Misses(done, k) + [MissOf(img).value.1]
    ensures !(MissOf(img).Some? && MissOf(img).value.0 == k) ==> Misses(done + [img], k) == Misses(done, k)
  {
    assert (done + [img])[..|done|] == done;
    assert Misses(done, k) + [] == Misses(done, k);
  }

  /** The statistics before the first image. */
  function Empty(): Stats
  {
    Stats(0, 0, 0, Zero(), [], map[])
  }

  lemma EmptySummarises(done: seq<ImageRun>)
    requires |done| == 0
    ensures Summarises(Empty(), done)
  {
  }

  /** An image that does not count leaves the statistics as they are. */
  lemma SkipStep(s: Stats, done: seq<ImageRun>, img: ImageRun)
    requires Summarises(s, done) && Expected(img) == 0
    ensures Summarises(s, done + [img])
  {
    assert (done + [img])[..|done|] == done;
    forall k
      ensures Misses(done + [img], k) == Misses(done, k)
    {
      MissesStep(done, img, k);
    }
  }

  /** The statistics after one labelled image, from what it adds to each of them. */
  lemma LabelledStep(s: Stats, done: seq<ImageRun>, img: ImageRun, next: Stats)
    requires Summarises(s, done) && Expected(img) > 0
    requires next.hits == s.hits + ImageHits(img)
    requires next.totalExpected == s.totalExpected + Expected(img)
    requires next.imagesWithLabels == s.imagesWithLabels + 1
    requires next.runtimeSamplesMs == s.runtimeSamplesMs + if img.load.Some? then [img.load.value.elapsedMs] else []
    requires next.stageTelemetry == CountImage(s.stageTelemetry, Outcome(img))
    requires Clustered(next.failureClusters, done + [img])
    ensures Summarises(next, done + [img])
  {
    assert (done + [img])[..|done|] == done;
  }

  /** The update of a cluster map for one image, as lines 1173-1188 make it. */
  method FileMiss(clusters: map<string, Cluster>, signature: string, path: string, expected: nat) returns (r: map<string, Cluster>)
    ensures r == clusters[signature := AddMiss(Entry(clusters, signature), MissedImage(path, expected))]
  {
    var row := if signature in clusters then clusters[signature] else Cluster(0, 0, []);
    row := row.(count := row.count + 1, qrWeight := row.qrWeight + expected);
    if |row.examples| < 3 {
      row := row.(examples := row.examples + [path]);
    }
    r := clusters[signature := row];
  }

  /** Filing a miss keeps every entry the cluster of its misses. */
  lemma FileMissStep(s: Stats, done: seq<ImageRun>, img: ImageRun, clusters: map<string, Cluster>)
    requires Summarises(s, done)
    requires MissOf(img).Some?
    requires clusters == s.failureClusters[MissOf(img).value.0 := AddMiss(Entry(s.failureClusters, MissOf(img).value.0), MissOf(img).value.1)]
    ensures Clustered(clusters, done + [img])
  {
    forall k
      ensures k in clusters <==> |Misses(done + [img], k)| > 0
      ensures k in clusters ==> clusters[k] == ClusterOf(Misses(done + [img], k))
    {
      FileMissAt(s.failureClusters, done, img, clusters, k);
    }
  }

  /** The entry of one signature after a miss was filed. */
  lemma FileMissAt(old_clusters: map<string, Cluster>, done: seq<ImageRun>, img: ImageRun, clusters: map<string, Cluster>, k: string)
    requires k in old_clusters <==> |Misses(done, k)| > 0
    requires k in old_clusters ==> old_clusters[k] == ClusterOf(Misses(done, k))
    requires MissOf(img).Some?
    requires clusters == old_clusters[MissOf(img).value.0 := AddMiss(Entry(old_clusters, MissOf(img).value.0), MissOf(img).value.1)]
    ensures k in clusters <==> |Misses(done + [img], k)| > 0
    ensures k in clusters ==> clusters[k] == ClusterOf(Misses(done + [img], k))
  {
    MissesStep(done, img, k);
    if k == MissOf(img).value.0 {
      FiledEntry(Entry(old_clusters, k), Misses(done, k), MissOf(img).value.1);
    }
  }

  /** The entry a miss is filed under: the empty cluster when it had no misses before, then one more. */
  lemma FiledEntry(entry: Cluster, ms: seq<MissedImage>, m: MissedImage)
    requires |ms| > 0 ==> entry == ClusterOf(ms)
    requires |ms| == 0 ==> entry == Cluster(0, 0, [])
    ensures AddMiss(entry, m) == ClusterOf(ms + [m])
  {
    AddMissSummary(ms, m);
  }

  /** Nothing changes the cluster map of an image that was read or did not load. */
  lemma NoMissStep(s: Stats, done: seq<ImageRun>, img: ImageRun)
    requires Summarises(s, done)
    requires MissOf(img).None?
    ensures Clustered(s.failureClusters, done + [img])
  {
    forall k
      ensures Misses(done + [img], k) == Misses(done, k)
    {
      MissesStep(done, img, k);
    }
  }

  /** The body of the loop over the images: lines 1057-1188 for one image. */
  method RecordImage(stats: Stats, img: ImageRun, ghost done: seq<ImageRun>) returns (next: Stats)
    requires Summarises(stats, done)
    ensures Summarises(next, done + [img])
  {
    if img.labelFile.NoLabelFile? {
      SkipStep(stats, done, img);
      return stats;
    }
    var expected := ParseExpectedQrCount(if img.labelFile.Unreadable? then None else Some(img.labelFile.lines));
    if expected == 0 {
      SkipStep(stats, done, img);
      return stats;
    }
    next := RecordLabelled(stats, img, expected);
    if MissOf(img).Some? {
      FileMissStep(stats, done, img, next.failureClusters);
    } else {
      NoMissStep(stats, done, img);
    }
    LabelledStep(stats, done, img, next);
  }

  /**
   * Lines 1065-1188: a labelled image is counted; when it loaded, its hits,
   * runtime and telemetry are recorded, and when nothing was read on it,
   * it is filed under its failure signature.
   */
  method RecordLabelled(stats: Stats, img: ImageRun, expected: nat) returns (next: Stats)
    requires expected == Expected(img) > 0
    ensures next.hits == stats.hits + ImageHits(img)
    ensures next.totalExpected == stats.totalExpected + expected
    ensures next.imagesWithLabels == stats.imagesWithLabels + 1
    ensures next.runtimeSamplesMs == stats.runtimeSamplesMs + if img.load.Some? then [img.load.value.elapsedMs] else []
    ensures next.stageTelemetry == CountImage(stats.stageTelemetry, Outcome(img))
    ensures MissOf(img).None? ==> next.failureClusters == stats.failureClusters
    ensures MissOf(img).Some? ==>
      next.failureClusters == stats.failureClusters[MissOf(img).value.0 := AddMiss(Entry(stats.failureClusters, MissOf(img).value.0), MissOf(img).value.1)]
  {
    var hits := stats.hits;
    var samples := stats.runtimeSamplesMs;
    var clusters := stats.failureClusters;
    var outcome: Option<(DetectionTelemetry, nat)> := None;
    if img.load.Some? {
      var d := img.load.value;
      var decoded := d.results;
      if decoded < expected {
        decoded := Max(decoded, d.fallback);
      }
      var imageHits := Min(decoded, expected);
      hits := hits + imageHits;
      samples := samples + [d.elapsedMs];
      outcome := Some((d.tel, decoded));
      if imageHits == 0 {
        var signature := Name(ClassifyFailureSignature(d.tel));
        clusters := FileMiss(clusters, signature, img.path, expected);
      }
    }
    var telemetry := CountImage(stats.stageTelemetry, outcome);
    next := Stats(hits, stats.totalExpected + expected, stats.imagesWithLabels + 1, telemetry, samples, clusters);
  }

  /** `reading_rate_for_images`: the statistics over all images, in the order given. */
  method ReadingRateForImages(images: seq<ImageRun>) returns (stats: Stats)
    ensures Summarises(stats, images)
  {
    stats := Empty();
    EmptySummarises(images[..0]);
    for i := 0 to |images|
      invariant Summarises(stats, images[..i])
    {
      PrefixSnoc(images, i);
      stats := RecordImage(stats, images[i], images[..i]);
    }
    assert images[..|images|] == images;
  }

  /** Every image scores at most what it announces, so the hits never exceed the expected total. */
  lemma {:induction false} HitsAtMostExpected(images: seq<ImageRun>)
    ensures Hits(images) <= TotalExpected(images)
  {
    if |images| > 0 {
      HitsAtMostExpected(images[..|images| - 1]);
    }
  }

  /** Every miss weighs at least one code, so every cluster is well formed. */
  lemma {:induction false} MissesExpectSome(images: seq<ImageRun>, name: string)
    ensures forall i :: 0 <= i < |Misses(images, name)| ==> Misses(images, name)[i].expected >= 1
  {
    if |images| > 0 {
      MissesExpectSome(images[..|images| - 1], name);
    }
  }

  lemma ClustersWellFormed(s: Stats, images: seq<ImageRun>)
    requires Summarises(s, images)
    ensures forall k :: k in s.failureClusters ==> WellFormed(s.failureClusters[k])
  {
    forall k | k in s.failureClusters
      ensures WellFormed(s.failureClusters[k])
    {
      MissesExpectSome(images, k);
      ClusterOfWellFormed(Misses(images, k));
    }
  }

  /**
   * The stage counters count every labelled image in `total` and record
   * one decode for every one that loaded, each with one runtime sample.
   */
  lemma {:induction false} TelemetryCounts(images: seq<ImageRun>)
    ensures TelemetryOf(images).total == Labelled(images)
    ensures Loaded(TelemetryOf(images)) == |Samples(images)|
    ensures Consistent(TelemetryOf(images))
  {
    if |images| > 0 {
      var front := images[..|images| - 1];
      TelemetryCounts(front);
      if Expected(images[|images| - 1]) > 0 {
        CountImageConsistent(TelemetryOf(front), Outcome(images[|images| - 1]));
      }
    }
  }

  /** Only labelled images are sampled, so there are at most as many samples as labelled images. */
  lemma SamplesAtMostLabelled(images: seq<ImageRun>)
    ensures |Samples(images)| <= Labelled(images)
  {
    TelemetryCounts(images);
  }
}
