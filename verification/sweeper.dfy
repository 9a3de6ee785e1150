/** The expiry sweeper of `cron.php`: behind a secret gate, it walks every
    configured temporary bucket and deletes the regular files older than
    the bucket's limit in hours, counting the files it looked at and the
    files it deleted. */
module Sweeper {
  import opened PhpStrings
  import opened FileStore

  /** The part of `config.php` the sweeper reads: `cron_secret_key`
      (`""` when absent) and `temp_buckets`, a list of bucket names with
      their limits in hours (`None` when absent or not an array). */
  datatype CronConfig = CronConfig(secret: string, tempBuckets: Option<seq<(string, int)>>)

  /** What the sweeper answers: 500 without a configuration file, 403 for
      a web request without the secret, otherwise the two counters (as
      XML on the web, as text on the command line). */
  datatype CronResult = ConfigurationMissing | AccessDenied | Report(scanned: nat, deleted: nat)

  function CronStatus(r: CronResult): int
  {
    match r
    case ConfigurationMissing => 500
    case AccessDenied => 403
    case Report(_, _) => 200
  }

  /** The gate: the command line passes; a web request passes only with a
      configured secret that is not empty in PHP's sense (`""` and `"0"`
      are) and that equals the request's `secret_key` exactly. */
  predicate Admitted(secret: string, isCli: bool, requestKey: string)
  {
    isCli || (!Falsy(secret) && requestKey == secret)
  }

  /** A file is expired when its age is strictly larger than the limit. */
  predicate Expired(mtime: int, hours: int, now: int)
  {
    now - mtime > hours * 3600
  }

  /** The regular files the recursive directory walk of a bucket visits. */
  function InBucket(files: map<string, FileEntry>, bucket: string): set<string>
  {
    set q | q in files && Below(bucket, q)
  }

  /** The visited files that are old enough to go. */
  function ExpiredIn(files: map<string, FileEntry>, bucket: string, hours: int, now: int): (r: set<string>)
    ensures r <= InBucket(files, bucket)
  {
    set q | q in files && Below(bucket, q) && Expired(files[q].mtime, hours, now)
  }

  /** The storage and the two counters as the sweep goes. */
  datatype Tally = Tally(files: map<string, FileEntry>, scanned: nat, deleted: nat)

  /** One bucket: skipped when it is not a directory; otherwise every
      visited file is counted and every expired one deleted. */
  function SweepOne(t: Tally, dirs: set<string>, bucket: string, hours: int, now: int): Tally
  {
    if bucket !in dirs then t
    else
      var e := ExpiredIn(t.files, bucket, hours, now);
      Tally(t.files - e, t.scanned + |InBucket(t.files, bucket)|, t.deleted + |e|)
  }

  /** The configured buckets in their order, each on what the earlier ones
      left. */
  function Swept(files: map<string, FileEntry>, dirs: set<string>, buckets: seq<(string, int)>, now: int): Tally
    decreases |buckets|
  {
    if buckets == [] then Tally(files, 0, 0)
    else
      var last := buckets[|buckets| - 1];
      SweepOne(Swept(files, dirs, buckets[..|buckets| - 1], now), dirs, last.0, last.1, now)
  }

  // ---------------------------------------------------------------------
  // What the sweep does
  // ---------------------------------------------------------------------

  lemma CardSubset(a: set<string>, b: set<string>)
    requires a <= b
    ensures |a| <= |b|
  {
    assert b == a + (b - a);
  }

  /** No more files are deleted than looked at. */
  lemma {:induction false} DeletedAtMostScanned(files: map<string, FileEntry>, dirs: set<string>,
                                                buckets: seq<(string, int)>, now: int)
    ensures Swept(files, dirs, buckets, now).deleted <= Swept(files, dirs, buckets, now).scanned
    decreases |buckets|
  {
    if buckets != [] {
      var t := Swept(files, dirs, buckets[..|buckets| - 1], now);
      DeletedAtMostScanned(files, dirs, buckets[..|buckets| - 1], now);
      var last := buckets[|buckets| - 1];
      CardSubset(ExpiredIn(t.files, last.0, last.1, now), InBucket(t.files, last.0));
    }
  }

  /** Some configured bucket that exists holds `q` and finds it expired. */
  predicate Condemned(q: string, mtime: int, dirs: set<string>, buckets: seq<(string, int)>, now: int)
  {
    exists i :: 0 <= i < |buckets| && buckets[i].0 in dirs && Below(buckets[i].0, q)
                && Expired(mtime, buckets[i].1, now)
  }

  /** A file is gone after the sweep exactly when some configured bucket
      that exists holds it and finds it expired; a file that stays keeps
      its bytes and its modification time. */
  lemma {:induction false} SweptFiles(files: map<string, FileEntry>, dirs: set<string>,
                                      buckets: seq<(string, int)>, now: int, q: string)
    requires q in files
    ensures q in Swept(files, dirs, buckets, now).files <==> !Condemned(q, files[q].mtime, dirs, buckets, now)
    ensures q in Swept(files, dirs, buckets, now).files ==> Swept(files, dirs, buckets, now).files[q] == files[q]
    decreases |buckets|
  {
    if buckets != [] {
      var init := buckets[..|buckets| - 1];
      var last := buckets[|buckets| - 1];
      SweptFiles(files, dirs, init, now, q);
      var m := files[q].mtime;
      if Condemned(q, m, dirs, init, now) {
        var i :| 0 <= i < |init| && init[i].0 in dirs && Below(init[i].0, q) && Expired(m, init[i].1, now);
        assert buckets[i] == init[i];
      }
      if !Condemned(q, m, dirs, buckets, now) {
        assert !(last.0 in dirs && Below(last.0, q) && Expired(m, last.1, now));
      }
    }
  }

  /** A file no older than the limit of any configured bucket that holds
      it is kept; in particular one exactly as old as the limit, since the
      comparison is strict. Limits of buckets that do not hold it play no
      part. */
  lemma BoundaryKept(files: map<string, FileEntry>, dirs: set<string>, buckets: seq<(string, int)>,
                     now: int, q: string)
    requires q in files
    requires forall i :: 0 <= i < |buckets| && Below(buckets[i].0, q) ==> now - files[q].mtime <= buckets[i].1 * 3600
    ensures q in Swept(files, dirs, buckets, now).files
  {
    SweptFiles(files, dirs, buckets, now, q);
  }

  /** A file outside every configured bucket is never touched. */
  lemma OutsideUntouched(files: map<string, FileEntry>, dirs: set<string>, buckets: seq<(string, int)>,
                         now: int, q: string)
    requires q in files
    requires forall i :: 0 <= i < |buckets| ==> !Below(buckets[i].0, q)
    ensures q in Swept(files, dirs, buckets, now).files
    ensures Swept(files, dirs, buckets, now).files[q] == files[q]
  {
    SweptFiles(files, dirs, buckets, now, q);
  }

  /** A configured bucket with no directory changes nothing and counts
      nothing. */
  lemma MissingBucketSkipped(files: map<string, FileEntry>, dirs: set<string>, buckets: seq<(string, int)>,
                             bucket: string, hours: int, now: int)
    requires bucket !in dirs
    ensures Swept(files, dirs, buckets + [(bucket, hours)], now) == Swept(files, dirs, buckets, now)
  {
    assert (buckets + [(bucket, hours)])[..|buckets|] == buckets;
  }

  // ---------------------------------------------------------------------
  // The loops
  // ---------------------------------------------------------------------

  /** One visited file: the state after it, from the state before it. */
  lemma VisitStep(files0: map<string, FileEntry>, found: set<string>, doomed: set<string>,
                  todo: set<string>, q: string, files: map<string, FileEntry>, gone: bool)
    requires doomed <= found && todo <= found && q in todo
    requires files == files0 - (doomed - todo)
    requires gone <==> q in doomed
    ensures (if gone then files - {q} else files) == files0 - (doomed - (todo - {q}))
    ensures |found - (todo - {q})| == |found - todo| + 1
    ensures |doomed - (todo - {q})| == |doomed - todo| + (if gone then 1 else 0)
  {
    assert found - (todo - {q}) == (found - todo) + {q};
    assert q !in found - todo;
    if gone {
      assert q !in doomed - todo;
      assert doomed - (todo - {q}) == (doomed - todo) + {q};
    } else {
      assert doomed - (todo - {q}) == doomed - todo;
    }
  }

  /** The body of the inner loop for one visited file: delete it when its
      age exceeds the limit, and say whether it went. */
  method VisitFile(fs: FileSystem, q: string, hours: int, now: int) returns (deleted: bool)
    requires fs.Valid() && q in fs.files
    modifies fs
    ensures fs.Valid()
    ensures fs.dirs == old(fs.dirs)
    ensures deleted <==> Expired(old(fs.files)[q].mtime, hours, now)
    ensures fs.files == if deleted then old(fs.files) - {q} else old(fs.files)
  {
    var age := now - fs.files[q].mtime;
    deleted := false;
    if age > hours * 3600 {
      deleted := fs.Unlink(q);
    }
  }

  /** The files of `found` whose age exceeds the limit. */
  function Doomed(files: map<string, FileEntry>, found: set<string>, hours: int, now: int): (r: set<string>)
    ensures r <= found
  {
    set q | q in found && q in files && Expired(files[q].mtime, hours, now)
  }

  lemma ExpiredInBucket(files: map<string, FileEntry>, bucket: string, hours: int, now: int)
    ensures ExpiredIn(files, bucket, hours, now) == Doomed(files, InBucket(files, bucket), hours, now)
  {
  }

  /** The loop over the files the walk found: count each, and delete and
      count the ones whose age exceeds the limit. */
  method SweepFiles(fs: FileSystem, found: set<string>, hours: int, now: int)
    returns (scanned: nat, deleted: nat)
    requires fs.Valid() && found <= fs.files.Keys
    modifies fs
    ensures fs.Valid()
    ensures fs.dirs == old(fs.dirs)
    ensures fs.files == old(fs.files) - Doomed(old(fs.files), found, hours, now)
    ensures scanned == |found| && deleted == |Doomed(old(fs.files), found, hours, now)|
  {
    ghost var files0 := fs.files;
    ghost var doomed := Doomed(files0, found, hours, now);
    var todo := found;
    scanned, deleted := 0, 0;
    while todo != {}
      invariant fs.Valid()
      invariant fs.dirs == old(fs.dirs)
      invariant todo <= found
      invariant fs.files == files0 - (doomed - todo)
      invariant scanned == |found - todo| && deleted == |doomed - todo|
      decreases |todo|
    {
      var q :| q in todo;
      assert q in fs.files && fs.files[q] == files0[q];
      ghost var before := fs.files;
      scanned := scanned + 1;
      var gone := VisitFile(fs, q, hours, now);
      assert gone <==> q in doomed;
      VisitStep(files0, found, doomed, todo, q, before, gone);
      if gone {
        deleted := deleted + 1;
      }
      todo := todo - {q};
    }
    assert found - todo == found && doomed - todo == doomed;
  }

  /** The walk of one existing bucket. */
  method SweepBucket(fs: FileSystem, bucket: string, hours: int, now: int)
    returns (scanned: nat, deleted: nat)
    requires fs.Valid()
    modifies fs
    ensures fs.Valid()
    ensures fs.dirs == old(fs.dirs)
    ensures fs.files == old(fs.files) - ExpiredIn(old(fs.files), bucket, hours, now)
    ensures scanned == |InBucket(old(fs.files), bucket)|
    ensures deleted == |ExpiredIn(old(fs.files), bucket, hours, now)|
  {
    var found := fs.FilesBelow(bucket);
    assert found == InBucket(fs.files, bucket);
    ExpiredInBucket(fs.files, bucket, hours, now);
    scanned, deleted := SweepFiles(fs, found, hours, now);
  }

  /** The outer loop over the configured buckets, skipping those that are
      not directories. */
  method SweepAll(fs: FileSystem, buckets: seq<(string, int)>, now: int)
    returns (scanned: nat, deleted: nat)
    requires fs.Valid()
    modifies fs
    ensures fs.Valid()
    ensures fs.dirs == old(fs.dirs)
    ensures Tally(fs.files, scanned, deleted) == Swept(old(fs.files), old(fs.dirs), buckets, now)
  {
    scanned, deleted := 0, 0;
    for i := 0 to |buckets|
      invariant fs.Valid()
      invariant fs.dirs == old(fs.dirs)
      invariant Tally(fs.files, scanned, deleted) == Swept(old(fs.files), old(fs.dirs), buckets[..i], now)
    {
      assert buckets[..i + 1][..i] == buckets[..i];
      var (bucket, hours) := buckets[i];
      if bucket in fs.dirs {
        var s, d := SweepBucket(fs, bucket, hours, now);
        scanned, deleted := scanned + s, deleted + d;
      }
    }
    assert buckets[..|buckets|] == buckets;
  }

  /** The whole run of `cron.php`: the configuration file, the gate, the
      sweep when `temp_buckets` is a list, and the report. */
  method Cron(fs: FileSystem, config: Option<CronConfig>, isCli: bool, requestKey: string, now: int)
    returns (result: CronResult)
    requires fs.Valid()
    modifies fs
    ensures fs.Valid()
    ensures fs.dirs == old(fs.dirs)
    ensures config.None? ==> result == ConfigurationMissing && fs.files == old(fs.files)
    ensures config.Some? && !Admitted(config.value.secret, isCli, requestKey)
            ==> result == AccessDenied && fs.files == old(fs.files)
    ensures config.Some? && Admitted(config.value.secret, isCli, requestKey) && config.value.tempBuckets.None?
            ==> result == Report(0, 0) && fs.files == old(fs.files)
    ensures config.Some? && Admitted(config.value.secret, isCli, requestKey) && config.value.tempBuckets.Some?
            ==> var t := Swept(old(fs.files), old(fs.dirs), config.value.tempBuckets.value, now);
                result == Report(t.scanned, t.deleted) && fs.files == t.files
  {
    if config.None? {
      return ConfigurationMissing;
    }
    var secret := config.value.secret;
    if !isCli {
      if Falsy(secret) || requestKey != secret {
        return AccessDenied;
      }
    }
    var scanned, deleted := 0, 0;
    if config.value.tempBuckets.Some? {
      scanned, deleted := SweepAll(fs, config.value.tempBuckets.value, now);
    }
    result := Report(scanned, deleted);
  }
}
