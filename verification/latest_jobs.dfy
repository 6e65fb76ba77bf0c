/** `filter_latest_slurm_jobs` of `supervisor_python/slurm.py`: reduce the
    accounting records to one record per job name, the one that ended last.

    The source keeps a dictionary from name to record and walks the input once;
    a record replaces the stored one only when its end time is strictly greater,
    and replacing a dictionary value keeps its key's position. The model keeps the
    dictionary's values as a sequence in insertion order (`Keep` is one loop
    iteration) and folds over the input from the left. */
module LatestJobs {
  import opened Slurm

  /** The names that occur in `s`. */
  function Names(s: seq<Job>): set<string>
  {
    set k | 0 <= k < |s| :: s[k].name
  }

  /** No name occurs twice in `s`. */
  predicate DistinctNames(s: seq<Job>)
  {
    forall a, b :: 0 <= a < b < |s| ==> s[a].name != s[b].name
  }

  /** Position of the first record named `name`, or `|s|` when there is none. */
  function IndexOfName(s: seq<Job>, name: string): (i: nat)
    ensures i <= |s|
    ensures i < |s| ==> s[i].name == name
    ensures forall k :: 0 <= k < i ==> s[k].name != name
    decreases |s|
  {
    if |s| == 0 then 0
    else if s[0].name == name then 0
    else 1 + IndexOfName(s[1..], name)
  }

  /** `jobs[k]` has the greatest end time among the records of its name, and
      every earlier record of that name ended strictly before it: it is the
      first-seen record of maximal end time. */
  ghost predicate LatestAt(jobs: seq<Job>, k: int)
    requires 0 <= k < |jobs|
  {
    && (forall m :: 0 <= m < |jobs| && jobs[m].name == jobs[k].name ==> jobs[m].endTime <= jobs[k].endTime)
    && (forall m :: 0 <= m < k && jobs[m].name == jobs[k].name ==> jobs[m].endTime < jobs[k].endTime)
  }

  /** `r` occurs in `jobs` at a position that is the latest for its name. */
  ghost predicate IsLatest(jobs: seq<Job>, r: Job)
  {
    exists k :: 0 <= k < |jobs| && jobs[k] == r && LatestAt(jobs, k)
  }

  /** Everything `filter_latest_slurm_jobs` promises of `latest` for input `jobs`. */
  ghost predicate Selects(jobs: seq<Job>, latest: seq<Job>)
  {
    && DistinctNames(latest)
    && Names(latest) == Names(jobs)
    && (forall i :: 0 <= i < |latest| ==> IsLatest(jobs, latest[i]))
    && (forall a, b :: 0 <= a < b < |latest| ==>
          IndexOfName(jobs, latest[a].name) < IndexOfName(jobs, latest[b].name))
  }

  /** One iteration of the loop: store `job` under its name if the name is new,
      replace the stored record if `job` ended strictly later, else do nothing. */
  function Keep(latest: seq<Job>, job: Job): seq<Job>
  {
    var i := IndexOfName(latest, job.name);
    if i == |latest| then latest + [job]
    else if job.endTime > latest[i].endTime then latest[i := job]
    else latest
  }

  /** `filter_latest_slurm_jobs`: one record per distinct name, the first-seen
      one with the greatest end time, listed in order of each name's first
      occurrence. */
  function FilterLatest(jobs: seq<Job>): (latest: seq<Job>)
    ensures DistinctNames(latest)
    ensures Names(latest) == Names(jobs)
    ensures forall i :: 0 <= i < |latest| ==> IsLatest(jobs, latest[i])
    ensures forall a, b :: 0 <= a < b < |latest| ==>
              IndexOfName(jobs, latest[a].name) < IndexOfName(jobs, latest[b].name)
    decreases |jobs|
  {
    if |jobs| == 0 then []
    else
      var prefix := jobs[..|jobs| - 1];
      var job := jobs[|jobs| - 1];
      var prev := FilterLatest(prefix);
      assert prefix + [job] == jobs;
      KeepPreserves(prefix, job, prev);
      var next := Keep(prev, job);
      assert Selects(jobs, next);
      next
  }

  // ----- facts about names -----

  lemma InNames(s: seq<Job>, k: int)
    requires 0 <= k < |s|
    ensures s[k].name in Names(s)
  {
  }

  lemma IndexOfNameFound(s: seq<Job>, name: string)
    ensures IndexOfName(s, name) < |s| <==> name in Names(s)
  {
    var i := IndexOfName(s, name);
    if i < |s| {
      InNames(s, i);
    }
  }

  lemma NamesAppend(s: seq<Job>, j: Job)
    ensures Names(s + [j]) == Names(s) + {j.name}
  {
    var t := s + [j];
    forall n | n in Names(t) ensures n in Names(s) + {j.name} {
      var k :| 0 <= k < |t| && t[k].name == n;
      if k < |s| { InNames(s, k); }
    }
    forall n | n in Names(s) + {j.name} ensures n in Names(t) {
      if n in Names(s) {
        var k :| 0 <= k < |s| && s[k].name == n;
        InNames(t, k);
      } else {
        InNames(t, |s|);
      }
    }
  }

  lemma NamesUpdate(s: seq<Job>, i: int, j: Job)
    requires 0 <= i < |s| && s[i].name == j.name
    ensures Names(s[i := j]) == Names(s)
  {
    var t := s[i := j];
    forall n | n in Names(t) ensures n in Names(s) {
      var k :| 0 <= k < |t| && t[k].name == n;
      InNames(s, k);
    }
    forall n | n in Names(s) ensures n in Names(t) {
      var k :| 0 <= k < |s| && s[k].name == n;
      InNames(t, k);
    }
  }

  lemma IndexOfNameAppend(s: seq<Job>, j: Job, name: string)
    ensures IndexOfName(s + [j], name) ==
              if name in Names(s) then IndexOfName(s, name)
              else if j.name == name then |s|
              else |s| + 1
  {
    IndexOfNameFound(s, name);
    var t := s + [j];
    assert forall k :: 0 <= k < |s| ==> t[k] == s[k];
    assert t[|s|] == j;
  }

  // ----- facts about the latest record of a name -----

  lemma LatestBound(jobs: seq<Job>, r: Job)
    requires IsLatest(jobs, r)
    ensures forall m :: 0 <= m < |jobs| && jobs[m].name == r.name ==> jobs[m].endTime <= r.endTime
  {
    var k :| 0 <= k < |jobs| && jobs[k] == r && LatestAt(jobs, k);
  }

  /** A latest record stays latest when a record of another name, or one that
      ended no later, is appended. */
  lemma LatestExtends(prefix: seq<Job>, job: Job, r: Job)
    requires IsLatest(prefix, r)
    requires r.name != job.name || job.endTime <= r.endTime
    ensures IsLatest(prefix + [job], r)
  {
    var k :| 0 <= k < |prefix| && prefix[k] == r && LatestAt(prefix, k);
    var jobs := prefix + [job];
    assert jobs[k] == r;
    assert LatestAt(jobs, k);
  }

  /** An appended record that ended strictly after every earlier record of its
      name is the latest of its name. */
  lemma LatestNewcomer(prefix: seq<Job>, job: Job)
    requires forall m :: 0 <= m < |prefix| && prefix[m].name == job.name ==> prefix[m].endTime < job.endTime
    ensures IsLatest(prefix + [job], job)
  {
    var jobs := prefix + [job];
    assert jobs[|prefix|] == job;
    assert LatestAt(jobs, |prefix|);
  }

  /** The facts shared by the three cases of one loop iteration: names that
      were already present keep their first position. */
  lemma KeepCommon(prefix: seq<Job>, job: Job, prev: seq<Job>)
    requires Selects(prefix, prev)
    ensures Names(prefix + [job]) == Names(prefix) + {job.name}
    ensures forall n :: n in Names(prefix) ==>
              IndexOfName(prefix + [job], n) == IndexOfName(prefix, n) < |prefix|
    ensures forall k :: 0 <= k < |prev| ==> prev[k].name in Names(prefix)
  {
    NamesAppend(prefix, job);
    forall n | n in Names(prefix)
      ensures IndexOfName(prefix + [job], n) == IndexOfName(prefix, n) < |prefix|
    {
      IndexOfNameAppend(prefix, job, n);
      IndexOfNameFound(prefix, n);
    }
    forall k | 0 <= k < |prev| ensures prev[k].name in Names(prefix) {
      InNames(prev, k);
    }
  }

  /** A name seen for the first time is appended. */
  lemma KeepNew(prefix: seq<Job>, job: Job, prev: seq<Job>)
    requires Selects(prefix, prev)
    requires job.name !in Names(prev)
    ensures Selects(prefix + [job], prev + [job])
  {
    NamesAppend(prefix, job);
    NamesAppend(prev, job);
    KeepNewLatest(prefix, job, prev);
    KeepNewOrder(prefix, job, prev);
  }

  lemma KeepNewLatest(prefix: seq<Job>, job: Job, prev: seq<Job>)
    requires Selects(prefix, prev)
    requires job.name !in Names(prev)
    ensures var out := prev + [job]; forall k :: 0 <= k < |out| ==> IsLatest(prefix + [job], out[k])
  {
    var jobs := prefix + [job];
    var out := prev + [job];
    forall m | 0 <= m < |prefix| ensures prefix[m].name != job.name {
      InNames(prefix, m);
    }
    LatestNewcomer(prefix, job);
    forall k | 0 <= k < |out| ensures IsLatest(jobs, out[k]) {
      if k < |prev| {
        LatestExtends(prefix, job, prev[k]);
      }
    }
  }

  lemma KeepNewOrder(prefix: seq<Job>, job: Job, prev: seq<Job>)
    requires Selects(prefix, prev)
    requires job.name !in Names(prev)
    ensures DistinctNames(prev + [job])
    ensures var out := prev + [job];
      forall a, b :: 0 <= a < b < |out| ==>
        IndexOfName(prefix + [job], out[a].name) < IndexOfName(prefix + [job], out[b].name)
  {
    var out := prev + [job];
    KeepCommon(prefix, job, prev);
    IndexOfNameAppend(prefix, job, job.name);
    forall a, b | 0 <= a < b < |out| ensures out[a].name != out[b].name {
      if b == |prev| {
        InNames(prev, a);
      }
    }
  }

  /** A record of a known name that ended strictly later replaces the stored one
      in place. */
  lemma KeepReplace(prefix: seq<Job>, job: Job, prev: seq<Job>, i: int)
    requires Selects(prefix, prev)
    requires 0 <= i < |prev| && prev[i].name == job.name && job.endTime > prev[i].endTime
    ensures Selects(prefix + [job], prev[i := job])
  {
    KeepReplaceNames(prefix, job, prev, i);
    KeepReplaceOrder(prefix, job, prev, i);
    KeepReplaceLatest(prefix, job, prev, i);
  }

  lemma KeepReplaceNames(prefix: seq<Job>, job: Job, prev: seq<Job>, i: int)
    requires Names(prev) == Names(prefix)
    requires 0 <= i < |prev| && prev[i].name == job.name
    ensures Names(prev[i := job]) == Names(prefix + [job])
  {
    NamesAppend(prefix, job);
    NamesUpdate(prev, i, job);
    InNames(prev, i);
  }

  lemma KeepReplaceOrder(prefix: seq<Job>, job: Job, prev: seq<Job>, i: int)
    requires Selects(prefix, prev)
    requires 0 <= i < |prev| && prev[i].name == job.name
    ensures DistinctNames(prev[i := job])
    ensures var out := prev[i := job];
      forall a, b :: 0 <= a < b < |out| ==>
        IndexOfName(prefix + [job], out[a].name) < IndexOfName(prefix + [job], out[b].name)
  {
    var out := prev[i := job];
    KeepCommon(prefix, job, prev);
    assert forall k :: 0 <= k < |out| ==> out[k].name == prev[k].name;
    SameNamesSameOrder(prefix + [job], prefix, prev, out);
  }

  /** Replacing records by records of the same names keeps names distinct and
      keeps their order, when first positions did not move. */
  lemma SameNamesSameOrder(jobs: seq<Job>, prefix: seq<Job>, prev: seq<Job>, out: seq<Job>)
    requires Selects(prefix, prev)
    requires |out| == |prev| && forall k :: 0 <= k < |out| ==> out[k].name == prev[k].name
    requires forall k :: 0 <= k < |prev| ==> IndexOfName(jobs, prev[k].name) == IndexOfName(prefix, prev[k].name)
    ensures DistinctNames(out)
    ensures forall a, b :: 0 <= a < b < |out| ==> IndexOfName(jobs, out[a].name) < IndexOfName(jobs, out[b].name)
  {
  }

  lemma KeepReplaceLatest(prefix: seq<Job>, job: Job, prev: seq<Job>, i: int)
    requires Selects(prefix, prev)
    requires 0 <= i < |prev| && prev[i].name == job.name && job.endTime > prev[i].endTime
    ensures var out := prev[i := job]; forall k :: 0 <= k < |out| ==> IsLatest(prefix + [job], out[k])
  {
    var jobs := prefix + [job];
    var out := prev[i := job];
    LatestBound(prefix, prev[i]);
    LatestNewcomer(prefix, job);
    forall k | 0 <= k < |out| ensures IsLatest(jobs, out[k]) {
      if k != i {
        assert prev[k].name != job.name;
        LatestExtends(prefix, job, prev[k]);
      }
    }
  }

  /** A record of a known name that ended no later is dropped. */
  lemma KeepStay(prefix: seq<Job>, job: Job, prev: seq<Job>, i: int)
    requires Selects(prefix, prev)
    requires 0 <= i < |prev| && prev[i].name == job.name && job.endTime <= prev[i].endTime
    ensures Selects(prefix + [job], prev)
  {
    var jobs := prefix + [job];
    KeepCommon(prefix, job, prev);
    InNames(prev, i);
    forall k | 0 <= k < |prev| ensures IsLatest(jobs, prev[k]) {
      LatestExtends(prefix, job, prev[k]);
    }
  }

  /** One loop iteration keeps the dictionary a faithful selection of the
      records seen so far. */
  lemma KeepPreserves(prefix: seq<Job>, job: Job, prev: seq<Job>)
    requires Selects(prefix, prev)
    ensures Selects(prefix + [job], Keep(prev, job))
  {
    var i := IndexOfName(prev, job.name);
    IndexOfNameFound(prev, job.name);
    if i == |prev| {
      KeepNew(prefix, job, prev);
    } else if job.endTime > prev[i].endTime {
      KeepReplace(prefix, job, prev, i);
    } else {
      KeepStay(prefix, job, prev, i);
    }
  }

  // ----- consequences -----

  /** Each name has one latest record: two latest records of the same name are
      the same record. So the per-name choice `FilterLatest` makes is fully
      determined by the input. */
  lemma LatestUnique(jobs: seq<Job>, a: Job, b: Job)
    requires IsLatest(jobs, a) && IsLatest(jobs, b) && a.name == b.name
    ensures a == b
  {
    var ka :| 0 <= ka < |jobs| && jobs[ka] == a && LatestAt(jobs, ka);
    var kb :| 0 <= kb < |jobs| && jobs[kb] == b && LatestAt(jobs, kb);
    assert jobs[ka].endTime == jobs[kb].endTime;
  }

  /** Every record `FilterLatest` returns is one of its input records. */
  lemma FilterLatestFromInput(jobs: seq<Job>)
    ensures forall r :: r in FilterLatest(jobs) ==> r in jobs
  {
    var latest := FilterLatest(jobs);
    forall r | r in latest ensures r in jobs {
      var i :| 0 <= i < |latest| && latest[i] == r;
      var k :| 0 <= k < |jobs| && jobs[k] == r && LatestAt(jobs, k);
    }
  }

  lemma {:induction false} DistinctNamesCount(s: seq<Job>)
    requires DistinctNames(s)
    ensures |Names(s)| == |s|
    decreases |s|
  {
    if |s| > 0 {
      var init := s[..|s| - 1];
      var last := s[|s| - 1];
      assert init + [last] == s;
      DistinctNamesCount(init);
      NamesAppend(init, last);
      IndexOfNameFound(init, last.name);
    }
  }

  /** One record per distinct input name; in particular no records in, none out. */
  lemma FilterLatestCount(jobs: seq<Job>)
    ensures |FilterLatest(jobs)| == |Names(jobs)|
    ensures FilterLatest(jobs) == [] <==> jobs == []
  {
    DistinctNamesCount(FilterLatest(jobs));
    if jobs != [] {
      InNames(jobs, 0);
    }
  }

  /** On records whose names are already distinct, `FilterLatest` changes nothing. */
  lemma {:induction false} FilterLatestOfDistinct(s: seq<Job>)
    requires DistinctNames(s)
    ensures FilterLatest(s) == s
    decreases |s|
  {
    if |s| > 0 {
      var init := s[..|s| - 1];
      var last := s[|s| - 1];
      assert init + [last] == s;
      FilterLatestOfDistinct(init);
      assert IndexOfName(init, last.name) == |init|;
    }
  }

  /** Deduplicating twice is deduplicating once. */
  lemma FilterLatestIdempotent(jobs: seq<Job>)
    ensures FilterLatest(FilterLatest(jobs)) == FilterLatest(jobs)
  {
    FilterLatestOfDistinct(FilterLatest(jobs));
  }

  /** Two records of one name with the same end time: the first one seen is
      kept, because a record replaces the stored one only when it ended
      strictly later. */
  lemma TieKeepsFirstSeen()
    ensures var first := Job("r1-a", [], ["FAILED"], 50);
            var second := Job("r1-a", [], ["COMPLETED"], 50);
            FilterLatest([first, second]) == [first]
  {
    var first := Job("r1-a", [], ["FAILED"], 50);
    var second := Job("r1-a", [], ["COMPLETED"], 50);
    assert [first, second][..1] == [first];
    assert [first][..0] == [];
  }
}
