/**
 * How the benchmark tool groups the images it failed on
 * (src/bin/qrtool.rs): the failure signature of a missed image, the
 * cluster of misses each signature collects, how the clusters of several
 * categories are merged, and the order the artifact lists them in.
 */
module FailureClusters {
  import opened Wrappers
  import opened Sorting
  import opened Ranking
  import opened Telemetry

  /** The eight failure signatures. */
  datatype Signature =
    | OverBudgetSkip
    | NoFinders
    | NoGroups
    | TransformFail
    | FormatFail
    | RsFail
    | PayloadFail
    | UnknownFail

  /** The signature as the artifact spells it. */
  function Name(s: Signature): string
  {
    match s
    case OverBudgetSkip => "over-budget-skip"
    case NoFinders => "no-finders"
    case NoGroups => "no-groups"
    case TransformFail => "transform-fail"
    case FormatFail => "format-fail"
    case RsFail => "rs-fail"
    case PayloadFail => "payload-fail"
    case UnknownFail => "unknown-fail"
  }

  /** Different signatures are spelt differently, so they fall in different clusters. */
  lemma NamesDistinct(a: Signature, b: Signature)
    requires Name(a) == Name(b)
    ensures a == b
  {
    assert |Name(a)| == |Name(b)| && Name(a)[0] == Name(b)[0];
    if |Name(a)| == 10 {
      assert Name(a)[3] == Name(b)[3];
    } else if |Name(a)| == 12 {
      assert Name(a)[1] == Name(b)[1];
    } else if |Name(a)| == 14 {
      assert Name(a)[3] == Name(b)[3];
    }
  }

  /** `classify_failure_signature`: the first stage that produced nothing, skipped budgets first. */
  function ClassifyFailureSignature(tel: DetectionTelemetry): (s: Signature)
    ensures s == OverBudgetSkip <==> tel.budgetSkips > 0 && tel.payloadDecoded == 0
  {
    if tel.budgetSkips > 0 && tel.payloadDecoded == 0 then OverBudgetSkip
    else if tel.finderPatternsFound == 0 then NoFinders
    else if tel.groupsFound == 0 then NoGroups
    else if tel.transformsBuilt == 0 then TransformFail
    else if tel.formatExtracted == 0 then FormatFail
    else if tel.rsDecodeOk == 0 then RsFail
    else if tel.payloadDecoded == 0 then PayloadFail
    else UnknownFail
  }

  /** The pipeline stages in order, and the signature of a failure at each. */
  const StageFailures: seq<Signature> := [NoFinders, NoGroups, TransformFail, FormatFail, RsFail, PayloadFail]

  /** How many results each stage produced. */
  function StageCounts(tel: DetectionTelemetry): (r: seq<nat>)
    ensures |r| == |StageFailures|
  {
    [tel.finderPatternsFound, tel.groupsFound, tel.transformsBuilt, tel.formatExtracted, tel.rsDecodeOk, tel.payloadDecoded]
  }

  /**
   * Without a budget skip, the signature names the first stage that
   * produced nothing, and `unknown-fail` means every stage produced something.
   */
  lemma ClassifyIsFirstFailedStage(tel: DetectionTelemetry)
    requires !(tel.budgetSkips > 0 && tel.payloadDecoded == 0)
    ensures ClassifyFailureSignature(tel) == UnknownFail <==> forall i :: 0 <= i < 6 ==> StageCounts(tel)[i] > 0
    ensures ClassifyFailureSignature(tel) != UnknownFail ==>
      exists i :: 0 <= i < 6 && StageCounts(tel)[i] == 0 && ClassifyFailureSignature(tel) == StageFailures[i] &&
        forall j :: 0 <= j < i ==> StageCounts(tel)[j] > 0
  {
    var c := StageCounts(tel);
    var s := ClassifyFailureSignature(tel);
    if s == NoFinders {
      assert c[0] == 0 && s == StageFailures[0];
    } else if s == NoGroups {
      assert c[1] == 0 && s == StageFailures[1];
    } else if s == TransformFail {
      assert c[2] == 0 && s == StageFailures[2];
    } else if s == FormatFail {
      assert c[3] == 0 && s == StageFailures[3];
    } else if s == RsFail {
      assert c[4] == 0 && s == StageFailures[4];
    } else if s == PayloadFail {
      assert c[5] == 0 && s == StageFailures[5];
    }
  }

  /** A budget skip is reported only when no payload was decoded. */
  lemma BudgetSkipNeedsNoPayload(tel: DetectionTelemetry)
    requires tel.payloadDecoded > 0
    ensures ClassifyFailureSignature(tel) != OverBudgetSkip
  {
  }

  /** `FailureCluster`: how many images missed, their expected QR codes, and up to three of their paths. */
  datatype Cluster = Cluster(count: nat, qrWeight: nat, examples: seq<string>)

  /** A labelled image on which nothing was decoded. */
  datatype MissedImage = MissedImage(path: string, expected: nat)

  function Weight(ms: seq<MissedImage>): nat
  {
    if |ms| == 0 then 0 else Weight(ms[..|ms| - 1]) + ms[|ms| - 1].expected
  }

  function Paths(ms: seq<MissedImage>): (r: seq<string>)
    ensures |r| == |ms| && forall i :: 0 <= i < |ms| ==> r[i] == ms[i].path
  {
    seq(|ms|, i requires 0 <= i < |ms| => ms[i].path)
  }

  /** The cluster the missed images of one signature make: their number, their weight, the first three paths. */
  function ClusterOf(ms: seq<MissedImage>): Cluster
  {
    Cluster(|ms|, Weight(ms), Paths(ms)[..Min(3, |ms|)])
  }

  /** What missing one more image does to its cluster: lines 1177-1187 applied to an entry. */
  function AddMiss(c: Cluster, m: MissedImage): (r: Cluster)
    ensures r.count == c.count + 1 && r.qrWeight == c.qrWeight + m.expected
  {
    Cluster(c.count + 1, c.qrWeight + m.expected, if |c.examples| < 3 then c.examples + [m.path] else c.examples)
  }

  /** The update of an entry keeps it the summary of its misses. */
  lemma AddMissSummary(ms: seq<MissedImage>, m: MissedImage)
    ensures AddMiss(ClusterOf(ms), m) == ClusterOf(ms + [m])
  {
    var all := ms + [m];
    assert all[..|all| - 1] == ms;
    if |ms| < 3 {
      assert Paths(all)[..|all|] == Paths(ms)[..|ms|] + [m.path];
    } else {
      assert Paths(all)[..3] == Paths(ms)[..3];
    }
  }

  /** A cluster whose examples are at most three of at most `count` images, each weighing at least one code. */
  predicate WellFormed(c: Cluster)
  {
    |c.examples| <= 3 && |c.examples| <= c.count <= c.qrWeight
  }

  lemma {:induction false} WeightAtLeastCount(ms: seq<MissedImage>)
    requires forall i :: 0 <= i < |ms| ==> ms[i].expected >= 1
    ensures Weight(ms) >= |ms|
  {
    if |ms| > 0 {
      WeightAtLeastCount(ms[..|ms| - 1]);
    }
  }

  /** The cluster of images that each expected at least one code is well formed. */
  lemma ClusterOfWellFormed(ms: seq<MissedImage>)
    requires forall i :: 0 <= i < |ms| ==> ms[i].expected >= 1
    ensures WellFormed(ClusterOf(ms))
  {
    WeightAtLeastCount(ms);
  }

  /** The examples after the global merge's inner loop: each new one joins while fewer than three are kept and it is not among them. */
  function MergeExamples(kept: seq<string>, incoming: seq<string>): seq<string>
  {
    if |incoming| == 0 then kept
    else
      var acc := MergeExamples(kept, incoming[..|incoming| - 1]);
      var ex := incoming[|incoming| - 1];
      if |acc| < 3 && ex !in acc then acc + [ex] else acc
  }

  /**
   * The merge keeps what was kept first, in order, adds only incoming
   * examples, never grows past three, adds no duplicate, and while fewer
   * than three are kept, leaves out no incoming example.
   */
  lemma {:induction false} MergeExamplesProperties(kept: seq<string>, incoming: seq<string>)
    ensures var r := MergeExamples(kept, incoming);
      && kept <= r
      && (forall x :: x in r ==> x in kept || x in incoming)
      && (|kept| <= 3 ==> |r| <= 3)
      && (Distinct(kept) ==> Distinct(r))
      && (|r| < 3 ==> forall x :: x in incoming ==> x in r)
  {
    if |incoming| > 0 {
      var init := incoming[..|incoming| - 1];
      MergeExamplesProperties(kept, init);
      var acc := MergeExamples(kept, init);
      var ex := incoming[|incoming| - 1];
      assert incoming == init + [ex];
      if |acc| < 3 && ex !in acc {
        assert (acc + [ex])[..|acc|] == acc;
      }
    }
  }

  /** The inner loop of the global merge (lines 450-454). */
  method MergeExampleList(kept: seq<string>, incoming: seq<string>) returns (r: seq<string>)
    ensures r == MergeExamples(kept, incoming)
  {
    r := kept;
    for i := 0 to |incoming|
      invariant r == MergeExamples(kept, incoming[..i])
    {
      var ex := incoming[i];
      assert incoming[..i + 1][..i] == incoming[..i];
      if |r| < 3 && ex !in r {
        r := r + [ex];
      }
    }
    assert incoming[..|incoming|] == incoming;
  }

  /** The global entry after one category's cluster of the same signature is merged into it. */
  function MergeCluster(g: Cluster, l: Cluster): (r: Cluster)
    ensures r.count == g.count + l.count && r.qrWeight == g.qrWeight + l.qrWeight
  {
    Cluster(g.count + l.count, g.qrWeight + l.qrWeight, MergeExamples(g.examples, l.examples))
  }

  /** Merging well-formed clusters gives a well-formed cluster. */
  lemma MergeClusterWellFormed(g: Cluster, l: Cluster)
    requires WellFormed(g) && WellFormed(l)
    ensures WellFormed(MergeCluster(g, l))
  {
    MergeExamplesProperties(g.examples, l.examples);
    MergeExamplesLength(g.examples, l.examples);
  }

  lemma {:induction false} MergeExamplesLength(kept: seq<string>, incoming: seq<string>)
    ensures |MergeExamples(kept, incoming)| <= |kept| + |incoming|
  {
    if |incoming| > 0 {
      MergeExamplesLength(kept, incoming[..|incoming| - 1]);
    }
  }

  /** The global entry a signature gets, or the empty cluster `or_insert` starts from. */
  function Entry(m: map<string, Cluster>, k: string): Cluster
  {
    if k in m then m[k] else Cluster(0, 0, [])
  }

  /** The global map once the category clusters of `keys` have been merged into it, in that order. */
  function MergedOver(global: map<string, Cluster>, local: map<string, Cluster>, keys: seq<string>): map<string, Cluster>
    requires forall i :: 0 <= i < |keys| ==> keys[i] in local
  {
    if |keys| == 0 then global
    else
      var m := MergedOver(global, local, keys[..|keys| - 1]);
      var k := keys[|keys| - 1];
      m[k := MergeCluster(Entry(m, k), local[k])]
  }

  /**
   * Merging each signature once gives every merged signature its global
   * entry (empty when missing) combined with its category cluster, and
   * leaves every other entry as it was, whatever the order of the keys.
   */
  lemma {:induction false} MergedOverEntries(global: map<string, Cluster>, local: map<string, Cluster>, keys: seq<string>)
    requires forall i :: 0 <= i < |keys| ==> keys[i] in local
    requires Distinct(keys)
    ensures forall k :: k in MergedOver(global, local, keys) <==> k in global || k in keys
    ensures forall k :: k in keys ==> MergedOver(global, local, keys)[k] == MergeCluster(Entry(global, k), local[k])
    ensures forall k :: k in global && k !in keys ==> MergedOver(global, local, keys)[k] == global[k]
  {
    if |keys| > 0 {
      var front := keys[..|keys| - 1];
      var last := keys[|keys| - 1];
      assert Distinct(front);
      MergedOverEntries(global, local, front);
      assert last !in front;
      assert forall k :: k in keys <==> k in front || k == last;
    }
  }

  /**
   * The global merge (lines 440-455): every category cluster is merged into
   * the entry of its signature, in the map's key order.
   */
  method MergeClusters(global: map<string, Cluster>, local: map<string, Cluster>) returns (merged: map<string, Cluster>)
    ensures forall k :: k in merged <==> k in global || k in local
    ensures forall k :: k in local ==> merged[k] == MergeCluster(Entry(global, k), local[k])
    ensures forall k :: k in global && k !in local ==> merged[k] == global[k]
  {
    var keys := MapKeys(local);
    merged := global;
    for i := 0 to |keys|
      invariant merged == MergedOver(global, local, keys[..i])
    {
      assert keys[..i + 1][..i] == keys[..i];
      merged := MergeInto(merged, keys[i], local[keys[i]]);
    }
    assert keys[..|keys|] == keys;
    MergedOverEntries(global, local, keys);
  }

  /** One step of the global merge: the entry of `sig`, created empty when missing, absorbs `cluster`. */
  method MergeInto(merged: map<string, Cluster>, sig: string, cluster: Cluster) returns (m: map<string, Cluster>)
    ensures m == merged[sig := MergeCluster(Entry(merged, sig), cluster)]
  {
    var entry := if sig in merged then merged[sig] else Cluster(0, 0, []);
    var examples := MergeExampleList(entry.examples, cluster.examples);
    m := merged[sig := Cluster(entry.count + cluster.count, entry.qrWeight + cluster.qrWeight, examples)];
  }

  /** Merging keeps every entry well formed. */
  lemma MergeKeepsWellFormed(global: map<string, Cluster>, local: map<string, Cluster>, merged: map<string, Cluster>)
    requires forall k :: k in global ==> WellFormed(global[k])
    requires forall k :: k in local ==> WellFormed(local[k])
    requires forall k :: k in merged <==> k in global || k in local
    requires forall k :: k in local ==> merged[k] == MergeCluster(Entry(global, k), local[k])
    requires forall k :: k in global && k !in local ==> merged[k] == global[k]
    ensures forall k :: k in merged ==> WellFormed(merged[k])
  {
    forall k | k in local
      ensures WellFormed(merged[k])
    {
      MergeClusterWellFormed(Entry(global, k), local[k]);
    }
  }

  /** `FailureClusterRow`: one entry of the artifact's cluster list. */
  datatype ClusterRow = ClusterRow(signature: string, count: nat, qrWeight: nat, examples: seq<string>)

  function RowKey(r: ClusterRow): RankKey
  {
    RankKey(r.qrWeight, r.count, r.signature)
  }

  function RowOf(k: string, c: Cluster): ClusterRow
  {
    ClusterRow(k, c.count, c.qrWeight, c.examples)
  }

  /**
   * The artifact's cluster rows (lines 685-699): one row per signature, in
   * the ranking order.
   */
  method FailureRows(clusters: map<string, Cluster>) returns (rows: seq<ClusterRow>)
    ensures |rows| == |clusters|
    ensures SortedBy(rows, ByKey(RowKey))
    ensures forall i :: 0 <= i < |rows| ==> rows[i].signature in clusters && rows[i] == RowOf(rows[i].signature, clusters[rows[i].signature])
    ensures forall k :: k in clusters ==> exists i :: 0 <= i < |rows| && rows[i].signature == k
  {
    var keys := MapKeys(clusters);
    var unsorted := seq(|keys|, i requires 0 <= i < |keys| => RowOf(keys[i], clusters[keys[i]]));
    ByKeyPreorder(RowKey);
    rows := SortBy(unsorted, ByKey(RowKey));
    SameMembers(unsorted, rows);
    forall i | 0 <= i < |rows|
      ensures rows[i].signature in clusters && rows[i] == RowOf(rows[i].signature, clusters[rows[i].signature])
    {
      assert rows[i] in unsorted;
      var j :| 0 <= j < |keys| && unsorted[j] == rows[i];
      assert rows[i].signature == keys[j];
    }
    forall k | k in clusters
      ensures exists i :: 0 <= i < |rows| && rows[i].signature == k
    {
      var j :| 0 <= j < |keys| && keys[j] == k;
      assert unsorted[j] in rows;
    }
  }

  /** Sequences with the same multiset have the same members. */
  lemma SameMembers<T>(a: seq<T>, b: seq<T>)
    requires multiset(a) == multiset(b)
    ensures forall x :: x in a <==> x in b
  {
    forall x
      ensures x in a <==> x in b
    {
      assert x in a <==> x in multiset(a);
      assert x in b <==> x in multiset(b);
    }
  }

  /** Rows tie in the ranking only when they share their signature, so rows of distinct signatures are strictly ordered. */
  lemma RowTieSameSignature(a: ClusterRow, b: ClusterRow)
    requires ByKey(RowKey)(a, b) && ByKey(RowKey)(b, a)
    ensures a.signature == b.signature && a.count == b.count && a.qrWeight == b.qrWeight
  {
    ByKeyPreorder(RowKey);
    assert RowKey(a) == RowKey(b);
  }
}
