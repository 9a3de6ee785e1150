/** The bucket and object handlers of `index.php`: list the buckets, create
    and probe a bucket, list a bucket's objects, and put, get, probe and
    delete an object. Every handler works on the storage directory `fs`;
    what the script takes from outside itself (the clock, MD5, directory
    modification times) comes in an `Env`. */
module Objects {
  import opened PhpStrings
  import opened FileStore
  import opened Http
  import opened Routing
  import opened RangeStream

  /** Inputs from outside the script: the time of the request, `md5` of a
      file's bytes, and the modification time of a directory. */
  datatype Env = Env(now: int, md5: string -> string, dirTime: string -> int)

  /** The staging directory of multipart uploads, below the storage
      directory. */
  const Staging: string := ".multipart"

  /** A bucket name as the dispatcher hands it over: one non-empty path
      segment. */
  predicate BucketName(bucket: string)
  {
    bucket != "" && '/' !in bucket
  }

  /** `$bucketPath . '/' . $key`, relative to the storage directory. */
  function ObjectPath(bucket: string, key: string): string
  {
    bucket + "/" + key
  }

  /** The answer to a successful upload: no XML, an empty `text/plain` body
      and the MD5 of what was stored. */
  function Stored(etag: string): Response
  {
    Response(200, NoHeaders.(contentType := Some(Named("text/plain")), contentLength := Some(0),
                             etag := Some(etag)), Empty)
  }

  // ---------------------------------------------------------------------
  // List buckets
  // ---------------------------------------------------------------------

  /** `basename($b) === '.multipart'`. */
  predicate IsStagingName(d: string)
  {
    Name(d) == Staging
  }

  /** The directories a listing keeps: all but one named `.multipart`. */
  function Visible(found: set<string>): set<string>
  {
    set d | d in found && !IsStagingName(d)
  }

  /** The buckets of the bucket list: the directories `glob` finds directly
      in the storage directory, except one named `.multipart`. */
  function Buckets(fs: FileSystem): set<string>
    reads fs
  {
    Visible(fs.GlobDirs(Root))
  }

  /** `glob` already skips the staging directory, whose name begins with a
      dot: the name test of the listing loop is redundant. */
  lemma StagingNeverGlobbed(fs: FileSystem)
    ensures Buckets(fs) == fs.GlobDirs(Root)
    ensures Staging !in Buckets(fs)
  {
    forall d | d in fs.GlobDirs(Root)
      ensures Name(d) != Staging
    {
      assert !Hidden(d);
    }
  }

  /** One element taken from the set still to visit moves to the visited
      part of `kept` when it belongs there. */
  lemma TakeOne(kept: set<string>, todo: set<string>, listed: set<string>, d: string)
    requires listed == kept - todo && d in todo
    ensures d in kept ==> listed + {d} == kept - (todo - {d}) && |listed + {d}| == |listed| + 1
    ensures d !in kept ==> listed == kept - (todo - {d})
  {
    if d in kept {
      assert d !in listed;
    }
  }

  /** The entry of a bucket: its name and its directory's modification
      time. */
  function BucketEntryOf(d: string, env: Env): BucketEntry
  {
    BucketEntry(Name(d), env.dirTime(d))
  }

  /** The loop of the bucket list over what `glob` found: one entry per
      bucket, in no particular order. */
  method BucketEntries(found: set<string>, env: Env) returns (entries: seq<BucketEntry>)
    ensures forall e :: e in entries <==> exists d :: d in Visible(found) && e == BucketEntryOf(d, env)
    ensures |entries| == |Visible(found)|
  {
    var todo := found;
    ghost var listed: set<string> := {};
    entries := [];
    while todo != {}
      invariant todo <= found
      invariant listed == Visible(found) - todo
      invariant forall e :: e in entries <==> exists d :: d in listed && e == BucketEntryOf(d, env)
      invariant |entries| == |listed|
      decreases |todo|
    {
      var d :| d in todo;
      TakeOne(Visible(found), todo, listed, d);
      assert d in Visible(found) <==> !IsStagingName(d);
      todo := todo - {d};
      if !IsStagingName(d) {
        AddBucket(entries, listed, d, env);
        listed := listed + {d};
        entries := entries + [BucketEntryOf(d, env)];
      }
    }
  }

  lemma AddBucket(entries: seq<BucketEntry>, listed: set<string>, d: string, env: Env)
    requires forall e :: e in entries <==> exists x :: x in listed && e == BucketEntryOf(x, env)
    ensures forall e :: e in entries + [BucketEntryOf(d, env)] <==>
              exists x :: x in listed + {d} && e == BucketEntryOf(x, env)
  {
  }

  /** `GET /`: the bucket list, one entry per bucket directory. */
  method ListAllBuckets(fs: FileSystem, env: Env) returns (resp: Response)
    ensures resp.status == 200 && resp.body.BucketList?
    ensures forall e :: e in resp.body.buckets <==>
              exists d :: d in Buckets(fs) && e == BucketEntryOf(d, env)
    ensures |resp.body.buckets| == |Buckets(fs)|
  {
    var entries := BucketEntries(fs.GlobDirs(Root), env);
    resp := XmlResponse(BucketList(entries));
  }

  // ---------------------------------------------------------------------
  // Buckets
  // ---------------------------------------------------------------------

  /** `PUT /bucket`: creates the bucket directory when it is missing (a
      regular file of that name makes `mkdir` fail silently) and answers
      200 with the bucket's location in either case. */
  method CreateBucket(fs: FileSystem, bucket: string) returns (resp: Response)
    requires fs.Valid() && BucketName(bucket)
    modifies fs
    ensures fs.Valid()
    ensures fs.files == old(fs.files)
    ensures fs.dirs == if bucket in old(fs.files) then old(fs.dirs) else old(fs.dirs) + {bucket}
    ensures resp == BucketCreated(bucket)
  {
    PrefixesOfName(bucket);
    fs.EnsureDir(bucket);
    resp := BucketCreated(bucket);
  }

  /** The answer to `PUT /bucket`, whether or not `mkdir` succeeded: an
      empty `text/plain` body and the bucket's location. */
  function BucketCreated(bucket: string): Response
  {
    Response(200, NoHeaders.(contentType := Some(Named("text/plain")), contentLength := Some(0),
                             location := Some("/" + bucket)), Empty)
  }

  /** `HEAD /bucket`: 200 when the bucket directory exists, 404 otherwise. */
  function HeadBucket(fs: FileSystem, bucket: string): (resp: Response)
    reads fs
    ensures resp.status == 200 <==> fs.IsDir(bucket)
    ensures resp.status != 200 ==> resp.status == 404
    ensures resp.body == Empty
  {
    StatusOnly(if bucket in fs.dirs then 200 else 404)
  }

  // ---------------------------------------------------------------------
  // List objects
  // ---------------------------------------------------------------------

  /** The key under which a file below the bucket is listed: its path after
      `bucket/`, with every backslash turned into a slash. */
  function ListedKey(bucket: string, q: string): string
    requires |q| > |bucket|
  {
    ReplaceChar('\\', '/', q[|bucket| + 1..])
  }

  /** `strpos($fname, '.multipart') !== false`. */
  predicate MentionsStaging(key: string)
  {
    StrPos(key, Staging).Some?
  }

  /** The files of `found` a listing keeps: those whose key does not
      mention `.multipart`. */
  function Kept(bucket: string, found: set<string>): set<string>
  {
    set q | q in found && |q| > |bucket| && !MentionsStaging(ListedKey(bucket, q))
  }

  /** The files a bucket listing reports: every regular file anywhere below
      the bucket (hidden ones included) whose key does not contain
      `.multipart`. */
  function ListedFiles(fs: FileSystem, bucket: string): set<string>
    reads fs
  {
    Kept(bucket, fs.FilesBelow(bucket))
  }

  /** The `<Contents>` entry of a listed file. */
  function EntryOf(files: map<string, FileEntry>, bucket: string, q: string, env: Env): ObjectEntry
    requires q in files && |q| > |bucket|
  {
    var f := files[q];
    ObjectEntry(ListedKey(bucket, q), f.mtime, env.md5(f.data), |f.data|)
  }

  lemma AddObject(files: map<string, FileEntry>, bucket: string, contents: seq<ObjectEntry>,
                  listed: set<string>, q: string, env: Env)
    requires forall x :: x in listed ==> x in files && |x| > |bucket|
    requires q in files && |q| > |bucket|
    requires forall e :: e in contents <==> exists x :: x in listed && e == EntryOf(files, bucket, x, env)
    ensures forall e :: e in contents + [EntryOf(files, bucket, q, env)] <==>
              exists x :: x in listed + {q} && e == EntryOf(files, bucket, x, env)
  {
  }

  /** The loop of `GET /bucket` over the files found below the bucket: one
      entry per kept file, in no particular order. */
  method ObjectEntries(files: map<string, FileEntry>, bucket: string, found: set<string>, env: Env)
    returns (contents: seq<ObjectEntry>)
    requires found <= files.Keys
    ensures forall e :: e in contents <==>
              exists q :: q in Kept(bucket, found) && e == EntryOf(files, bucket, q, env)
    ensures |contents| == |Kept(bucket, found)|
  {
    var todo := found;
    ghost var listed: set<string> := {};
    contents := [];
    while todo != {}
      invariant todo <= found
      invariant listed == Kept(bucket, found) - todo
      invariant forall e :: e in contents <==> exists q :: q in listed && e == EntryOf(files, bucket, q, env)
      invariant |contents| == |listed|
      decreases |todo|
    {
      var q :| q in todo;
      TakeOne(Kept(bucket, found), todo, listed, q);
      assert q in Kept(bucket, found) <==> |q| > |bucket| && !MentionsStaging(ListedKey(bucket, q));
      todo := todo - {q};
      if |q| > |bucket| && !MentionsStaging(ListedKey(bucket, q)) {
        AddObject(files, bucket, contents, listed, q, env);
        listed := listed + {q};
        contents := contents + [EntryOf(files, bucket, q, env)];
      }
    }
  }

  /** `GET /bucket`: the bucket's listing, one entry per listed file. */
  method ListObjects(fs: FileSystem, bucket: string, env: Env) returns (resp: Response)
    ensures resp.status == 200 && resp.body.ObjectList? && resp.body.bucket == bucket
    ensures forall e :: e in resp.body.contents <==>
              exists q :: q in ListedFiles(fs, bucket) && e == EntryOf(fs.files, bucket, q, env)
    ensures |resp.body.contents| == |ListedFiles(fs, bucket)|
  {
    var contents := ObjectEntries(fs.files, bucket, fs.FilesBelow(bucket), env);
    resp := XmlResponse(ObjectList(bucket, contents));
  }

  // ---------------------------------------------------------------------
  // Objects
  // ---------------------------------------------------------------------

  /** The content type `getMimeType` gives a file. */
  function MediaOf(path: string): MediaType
  {
    match MimeType(path)
    case Some(name) => Named(name)
    case None => Sniffed
  }

  /** Whether a standard `PUT` (or a `Complete`) manages to open the
      object for writing after making sure of its directory. */
  predicate Writable(files: map<string, FileEntry>, dirs: set<string>, obj: string)
  {
    var dirs' := Prepared(files, dirs, Parent(obj));
    Parent(obj) in dirs' && obj !in dirs'
  }

  /** `PUT /bucket/key`: makes sure of the object's directory, then replaces
      the object with the request body; 500 when the file cannot be
      opened. */
  method PutObject(fs: FileSystem, bucket: string, key: string, data: string, env: Env)
    returns (resp: Response)
    requires fs.Valid()
    modifies fs
    ensures fs.Valid()
    ensures fs.dirs == Prepared(old(fs.files), old(fs.dirs), Parent(ObjectPath(bucket, key)))
    ensures Writable(old(fs.files), old(fs.dirs), ObjectPath(bucket, key))
            ==> fs.files == old(fs.files)[ObjectPath(bucket, key) := FileEntry(data, env.now)]
                && resp == Stored(env.md5(data))
    ensures !Writable(old(fs.files), old(fs.dirs), ObjectPath(bucket, key))
            ==> fs.files == old(fs.files) && resp == ErrorResponse(InternalError, key)
  {
    var obj := ObjectPath(bucket, key);
    fs.EnsureDir(Parent(obj));
    var ok := fs.WriteFile(obj, data, env.now);
    if ok {
      resp := Stored(env.md5(data));
    } else {
      resp := ErrorResponse(InternalError, key);
    }
  }

  /** The headers `GET` and `HEAD` share. */
  function ObjectHeaders(obj: string, f: FileEntry, env: Env): Headers
  {
    NoHeaders.(contentType := Some(MediaOf(obj)), lastModified := Some(f.mtime),
               etag := Some(env.md5(f.data)))
  }

  /** `GET` with a `Range` header the handler acts on: a truthy header
      whose unit is `bytes`. */
  function RangeOf(range: Option<string>, size: int): Option<ByteRange>
  {
    if range.Some? && !Falsy(range.value) then ParseRange(range.value, size) else None
  }

  /** The headers of a `GET` answer with the whole file. */
  function FullHeaders(obj: string, f: FileEntry, env: Env): Headers
  {
    ObjectHeaders(obj, f, env).(inlineName := Some(Basename(obj)), acceptRanges := true,
                                contentLength := Some(|f.data|))
  }

  /** The headers of a `GET` answer with a range: `Content-Range` and a
      `Content-Length` computed from the requested bounds alone. */
  function RangeHeaders(obj: string, f: FileEntry, env: Env, r: ByteRange): Headers
  {
    ObjectHeaders(obj, f, env).(inlineName := Some(Basename(obj)), acceptRanges := true,
                                contentRange := Some(ContentRange(r.first, r.last, |f.data|)),
                                contentLength := Some(r.last - r.first + 1))
  }

  /** `GET /bucket/key`: 404 when there is no such file; otherwise the
      whole file with status 200, or, for a range, status 206 with the
      announced range and the bytes the streaming loop sends. */
  method GetObject(fs: FileSystem, bucket: string, key: string, range: Option<string>, env: Env)
    returns (resp: Response)
    ensures ObjectPath(bucket, key) !in fs.files ==> resp == ErrorResponse(NoSuchKey, key)
    ensures ObjectPath(bucket, key) in fs.files ==>
              var obj := ObjectPath(bucket, key);
              var f := fs.files[obj];
              var r := RangeOf(range, |f.data|);
              && (r.None? ==> resp == Response(200, FullHeaders(obj, f, env), Content(f.data)))
              && (r.Some? ==> && resp.status == 206
                              && resp.headers == RangeHeaders(obj, f, env, r.value)
                              && resp.body.Chunks?
                              && Flatten(resp.body.chunks) == RangeBytes(f.data, r.value.first, r.value.last))
  {
    var obj := ObjectPath(bucket, key);
    if obj !in fs.files {
      return ErrorResponse(NoSuchKey, key);
    }
    var f := fs.files[obj];
    var r := RangeOf(range, |f.data|);
    if r.Some? {
      var first: nat := r.value.first;
      var chunks := StreamRange(f.data, first, r.value.last);
      resp := Response(206, RangeHeaders(obj, f, env, r.value), Chunks(chunks));
    } else {
      resp := Response(200, FullHeaders(obj, f, env), Content(f.data));
    }
  }

  /** `HEAD /bucket/key`: the headers of a whole-file `GET` (type, length,
      ETag, modification time) without `Accept-Ranges` and the inline file
      name, and no body; 404 when there is no such file. */
  function HeadObject(fs: FileSystem, bucket: string, key: string, env: Env): (resp: Response)
    reads fs
    ensures resp.status == 200 <==> ObjectPath(bucket, key) in fs.files
    ensures resp.status != 200 ==> resp == StatusOnly(404)
    ensures resp.body == Empty && !resp.headers.acceptRanges
    ensures resp.status == 200 ==>
              var obj := ObjectPath(bucket, key);
              resp.headers == FullHeaders(obj, fs.files[obj], env).(inlineName := None, acceptRanges := false)
  {
    var obj := ObjectPath(bucket, key);
    if obj !in fs.files then StatusOnly(404)
    else
      var f := fs.files[obj];
      Response(200, ObjectHeaders(obj, f, env).(contentLength := Some(|f.data|)), Empty)
  }

  /** `DELETE /bucket/key`: removes the file if there is one and answers
      204 either way. */
  method DeleteObject(fs: FileSystem, bucket: string, key: string) returns (resp: Response)
    requires fs.Valid()
    modifies fs
    ensures fs.Valid()
    ensures fs.files == old(fs.files) - {ObjectPath(bucket, key)}
    ensures fs.dirs == old(fs.dirs)
    ensures resp == StatusOnly(204)
  {
    var obj := ObjectPath(bucket, key);
    if obj in fs.files || obj in fs.dirs {
      var _ := fs.Unlink(obj);
    }
    resp := StatusOnly(204);
  }
}
