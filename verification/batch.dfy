/** The dispatch loop of `main`: the input path is normalised, the directory
    listing is walked in order, and every selected entry becomes one job, the
    `(name, root)` pair that a worker passes to `addTimestampWaterMark`. */
module Batch {
  import opened Paths
  import opened Filter

  /** The arguments of one `addTimestampWaterMark(name, rootPath)` call. */
  datatype Job = Job(name: string, root: string)

  /** The jobs for a listing, in listing order. */
  function Jobs(root: string, entries: seq<DirEntry>): (jobs: seq<Job>)
    ensures |jobs| <= |entries|
    ensures forall k :: 0 <= k < |jobs| ==> jobs[k].root == root
    decreases |entries|
  {
    if entries == [] then []
    else
      var last := entries[|entries| - 1];
      var earlier := Jobs(root, entries[..|entries| - 1]);
      if Selected(root, last) then earlier + [Job(last.name, root)] else earlier
  }

  /** `main` up to the fan-out: normalise the path, then walk the listing
      and launch one job per selected entry. */
  method Dispatch(inputPath: string, entries: seq<DirEntry>) returns (root: string, jobs: seq<Job>)
    ensures root == NormalizeDir(inputPath)
    ensures jobs == Jobs(root, entries)
  {
    root := inputPath;
    if !EndsWithSlash(root) {
      root := root + "/";
    }
    jobs := [];
    var i := 0;
    while i < |entries|
      invariant 0 <= i <= |entries|
      invariant jobs == Jobs(root, entries[..i])
    {
      var file := entries[i];
      assert entries[..i + 1][..i] == entries[..i];
      if Selected(root, file) {
        jobs := jobs + [Job(file.name, root)];
      }
      i := i + 1;
    }
    assert entries[..i] == entries;
  }

  /** A single entry gives one job, with its own name, exactly when it passes
      the filter. */
  lemma JobsSingle(root: string, e: DirEntry)
    ensures Jobs(root, [e]) == if Selected(root, e) then [Job(e.name, root)] else []
  {
    assert [e][..0] == [];
  }

  /** The jobs of a listing split at any point are the jobs of the first part
      followed by those of the second: jobs come out in listing order. */
  lemma {:induction false} JobsAppend(root: string, a: seq<DirEntry>, b: seq<DirEntry>)
    ensures Jobs(root, a + b) == Jobs(root, a) + Jobs(root, b)
    decreases |b|
  {
    if b == [] {
      assert a + b == a;
    } else {
      var init, last := b[..|b| - 1], b[|b| - 1];
      assert (a + b)[..|a + b| - 1] == a + init;
      assert (a + b)[|a + b| - 1] == last;
      JobsAppend(root, a, init);
    }
  }

  /** A job is launched for a name exactly when some entry with that name
      passes the filter. */
  lemma {:induction false} JobsExactlySelected(root: string, entries: seq<DirEntry>, name: string)
    ensures Job(name, root) in Jobs(root, entries) <==>
      exists e :: e in entries && Selected(root, e) && e.name == name
    decreases |entries|
  {
    if entries != [] {
      var earlier := entries[..|entries| - 1];
      var last := entries[|entries| - 1];
      JobsExactlySelected(root, earlier, name);
      var job := Job(name, root);
      var earlierJobs := Jobs(root, earlier);
      assert job in Jobs(root, entries) <==>
        job in earlierJobs || (Selected(root, last) && last.name == name);
      if e :| e in entries && Selected(root, e) && e.name == name {
        if e != last {
          assert e in earlier by {
            var k :| 0 <= k < |entries| && entries[k] == e;
            assert earlier[k] == e;
          }
        }
      }
      if e :| e in earlier && Selected(root, e) && e.name == name {
        assert e in entries by {
          var k :| 0 <= k < |earlier| && earlier[k] == e;
          assert entries[k] == e;
        }
      }
    }
  }

  /** No job writes over an input file: each output path differs from every
      listed entry's path. */
  lemma OutputsAvoidInputs(root: string, entries: seq<DirEntry>, job: Job, e: DirEntry)
    requires job in Jobs(root, entries) && e in entries && '/' !in e.name
    ensures OutputPath(job.root, job.name) != root + e.name
  {
    var k :| 0 <= k < |Jobs(root, entries)| && Jobs(root, entries)[k] == job;
    OutputNeverAnInput(root, job.name, e.name);
  }

  /** Distinct names in the listing give distinct output files. */
  lemma OutputsDistinct(root: string, entries: seq<DirEntry>, j1: Job, j2: Job)
    requires j1 in Jobs(root, entries) && j2 in Jobs(root, entries) && j1.name != j2.name
    ensures OutputPath(j1.root, j1.name) != OutputPath(j2.root, j2.name)
  {
    var k1 :| 0 <= k1 < |Jobs(root, entries)| && Jobs(root, entries)[k1] == j1;
    var k2 :| 0 <= k2 < |Jobs(root, entries)| && Jobs(root, entries)[k2] == j2;
    if OutputPath(j1.root, j1.name) == OutputPath(j2.root, j2.name) {
      OutputPathInjective(root, j1.name, j2.name);
    }
  }
}
