/** Whole exchanges with the gateway, from an empty storage directory:
    what a client sees when it stores and reads back an object, uploads
    the parts of a multipart upload out of order, aborts an upload, asks
    for a suffix range, or stores a key that mentions the staging
    directory; and the same store-and-read-back exchange sent through the
    whole request handler. */
module Scenarios {
  import opened PhpStrings
  import opened FileStore
  import opened Http
  import opened Routing
  import opened RangeStream
  import opened Objects
  import opened Multipart
  import opened Gateway

  // ---------------------------------------------------------------------
  // Shapes of staged paths
  // ---------------------------------------------------------------------

  lemma UploadIdShape(id: string)
    requires IsUploadId(id)
    ensures id != "" && '/' !in id
  {
  }

  /** The directories `mkdir` makes for an upload: the staging directory,
      its directory for the bucket, and the upload's own directory. */
  lemma UploadDirPrefixes(bucket: string, id: string)
    requires BucketName(bucket) && IsUploadId(id)
    ensures Prefixes(UploadDir(bucket, id)) == {Staging, Staging + "/" + bucket, UploadDir(bucket, id)}
  {
    UploadIdShape(id);
    var p := UploadDir(bucket, id);
    var n := |Staging|;
    var m := n + 1 + |bucket|;
    forall i | 0 < i < |p| && p[i] == '/' ensures i == n || i == m {
    }
    assert p[n] == '/' && p[..n] == Staging;
    assert p[m] == '/' && p[..m] == Staging + "/" + bucket;
  }

  /** A part file sits in the upload directory under a name `glob` sees. */
  lemma PartFile(bucket: string, id: string, part: string)
    requires '/' !in part && part != "" && part[0] != '.'
    ensures Parent(PartPath(bucket, id, part)) == UploadDir(bucket, id)
    ensures !Hidden(PartPath(bucket, id, part))
  {
    var name := part + ".part";
    assert PartPath(bucket, id, part) == UploadDir(bucket, id) + "/" + name;
    ParentOfChild(UploadDir(bucket, id), name);
    NameOfChild(UploadDir(bucket, id), name);
  }

  /** Different part numbers have different part files, and none of them
      is the key file. */
  lemma PartPathInjective(bucket: string, id: string, x: string, y: string)
    ensures PartPath(bucket, id, x) == PartPath(bucket, id, y) ==> x == y
    ensures KeyFile(bucket, id) != PartPath(bucket, id, x)
  {
    var mp := UploadDir(bucket, id);
    var px, py := PartPath(bucket, id, x), PartPath(bucket, id, y);
    assert px == mp + "/" + x + ".part" && py == mp + "/" + y + ".part";
    if px == py {
      assert |x| == |y|;
      assert x == px[|mp| + 1..|mp| + 1 + |x|];
      assert y == py[|mp| + 1..|mp| + 1 + |y|];
    }
    assert |KeyFile(bucket, id)| == |mp| + 4 && |px| >= |mp| + 6;
    if |x| == 0 {
      assert KeyFile(bucket, id)[|mp| + 1] == 'k' && px[|mp| + 1] == '.';
    }
  }

  /** Every directory of a fresh upload is at most as long as the upload's
      own directory. */
  lemma UploadDirsShort(id: string)
    ensures forall q :: q in UploadDirs(id) ==> |q| <= |UploadDir("b", id)|
  {
  }

  lemma KeyFileShape(bucket: string, id: string)
    ensures Parent(KeyFile(bucket, id)) == UploadDir(bucket, id)
    ensures !Hidden(KeyFile(bucket, id))
  {
    assert KeyFile(bucket, id) == UploadDir(bucket, id) + "/" + "key";
    ParentOfChild(UploadDir(bucket, id), "key");
    NameOfChild(UploadDir(bucket, id), "key");
  }

  // ---------------------------------------------------------------------
  // Exchanges
  // ---------------------------------------------------------------------

  lemma JpgIsLowerCase()
    ensures Lower("jpg") == "jpg"
  {
    var r := Lower("jpg");
    assert r[0] == 'j' && r[1] == 'p' && r[2] == 'g';
  }

  lemma JpgInTable()
    ensures "jpg" in MimeTypes && MimeTypes["jpg"] == "image/jpeg"
  {
  }

  /** `cat.jpg` is served as a JPEG image. */
  lemma CatIsJpeg()
    ensures MediaOf(ObjectPath("photos", "cat.jpg")) == Named("image/jpeg")
  {
    MimeTypeOfName("photos", "cat", "jpg");
    assert "photos" + "/" + "cat" + "." + "jpg" == ObjectPath("photos", "cat.jpg");
    JpgIsLowerCase();
    JpgInTable();
  }

  /** `PUT /bucket` on an empty storage directory, then `PUT /bucket/name`:
      the object holds the body. */
  method StoreOne(bucket: string, name: string, data: string, env: Env)
    returns (fs: FileSystem, put: Response)
    requires BucketName(bucket) && '/' !in name && name != ""
    ensures fs.Valid()
    ensures put == Stored(env.md5(data))
    ensures fs.files == map[ObjectPath(bucket, name) := FileEntry(data, env.now)]
    ensures fs.dirs == {Root, bucket}
  {
    fs := new FileSystem();
    var _ := Objects.CreateBucket(fs, bucket);
    ParentOfChild(bucket, name);
    assert |ObjectPath(bucket, name)| > |bucket|;
    put := Objects.PutObject(fs, bucket, name, data, env);
  }

  /** `PUT /photos` then `PUT /photos/cat.jpg` with a body, then `GET
      /photos/cat.jpg`: the body comes back whole, typed by its
      extension. */
  method PutThenGet(data: string, env: Env) returns (resp: Response)
    ensures resp.status == 200 && resp.body == Content(data)
    ensures resp.headers.contentType == Some(Named("image/jpeg"))
    ensures resp.headers.contentLength == Some(|data|)
  {
    var fs, _ := StoreOne("photos", "cat.jpg", data, env);
    CatIsJpeg();
    resp := Objects.GetObject(fs, "photos", "cat.jpg", None, env);
  }

  /** The request path `/photos` addresses the bucket alone. */
  lemma BucketPath()
    ensures ParsePath("/photos") == Target("photos", "")
  {
    ParsePathOfBucket("photos");
  }

  /** A request path `/bucket/name`, with a name that URL-decoding leaves
      alone, addresses that name in that bucket. */
  lemma PathOfName(bucket: string, name: string)
    requires bucket != "" && '/' !in bucket
    requires name != "" && '/' !in name && '%' !in name && '+' !in name
    ensures ParsePath("/" + bucket + "/" + name) == Target(bucket, name)
  {
    assert Implode('/', [name]) == name;
    ParsePathOfObject(bucket, [name]);
    UrlDecodePlain(name);
  }

  /** The request handler with the access key `AK`, and a header that
      carries it. */
  const Keyed := Config("AK")
  const KeyedAuth := "Credential=AK"

  lemma KeyedAuthPasses()
    ensures Authorized(Keyed, Request("", "", map[], KeyedAuth, None, None, "", None))
  {
    AnyHeaderWithCredentialPasses("", "AK", "");
    assert "" + "Credential=" + "AK" + "" == KeyedAuth;
  }

  /** `PUT /bucket` through the request handler, on an empty storage
      directory: the create-bucket branch makes the bucket. */
  method HandleCreate(bucket: string, id: string, env: Env) returns (fs: FileSystem)
    requires BucketName(bucket) && bucket != "0" && IsUploadId(id)
    ensures fresh(fs) && fs.Valid()
    ensures fs.files == map[] && fs.dirs == {Root, bucket}
  {
    KeyedAuthPasses();
    ParsePathOfBucket(bucket);
    fs := new FileSystem();
    var _ := Handle(fs, Keyed, Request("PUT", "/" + bucket, map[], KeyedAuth, None, None, "", None), id, env);
  }

  /** `PUT /bucket/name` through the request handler, with the bucket in
      place: the put-object branch stores the body. */
  method HandlePut(fs: FileSystem, bucket: string, name: string, data: string, id: string, env: Env)
    requires fs.Valid() && IsUploadId(id)
    requires BucketName(bucket) && bucket != "0"
    requires name != "" && name != "0" && '/' !in name && '%' !in name && '+' !in name
    requires fs.files == map[] && fs.dirs == {Root, bucket}
    modifies fs
    ensures fs.Valid()
    ensures fs.files == map[ObjectPath(bucket, name) := FileEntry(data, env.now)] && fs.dirs == {Root, bucket}
  {
    KeyedAuthPasses();
    PathOfName(bucket, name);
    ParentOfChild(bucket, name);
    assert |ObjectPath(bucket, name)| > |bucket|;
    var _ := Handle(fs, Keyed, Request("PUT", "/" + bucket + "/" + name, map[], KeyedAuth, None, None, data, None), id, env);
  }

  /** `GET /bucket/name` through the request handler, with the object
      stored: the whole body comes back. */
  method HandleGet(fs: FileSystem, bucket: string, name: string, data: string, id: string, env: Env)
    returns (resp: Response)
    requires fs.Valid() && IsUploadId(id)
    requires BucketName(bucket) && bucket != "0"
    requires name != "" && name != "0" && '/' !in name && '%' !in name && '+' !in name
    requires bucket in fs.dirs
    requires fs.files == map[ObjectPath(bucket, name) := FileEntry(data, env.now)]
    modifies fs
    ensures resp == Response(200, FullHeaders(ObjectPath(bucket, name), FileEntry(data, env.now), env), Content(data))
  {
    KeyedAuthPasses();
    PathOfName(bucket, name);
    resp := Handle(fs, Keyed, Request("GET", "/" + bucket + "/" + name, map[], KeyedAuth, None, None, "", None), id, env);
  }

  /** `PUT /photos`, `PUT /photos/cat.jpg` with a body, then `GET
      /photos/cat.jpg`, each sent through the request handler: the body
      comes back whole, typed by its extension. */
  method HandlePutThenGet(id: string, data: string, env: Env) returns (resp: Response)
    requires IsUploadId(id)
    ensures resp.status == 200 && resp.body == Content(data)
    ensures resp.headers.contentType == Some(Named("image/jpeg"))
    ensures resp.headers.contentLength == Some(|data|)
  {
    var fs := HandleCreate("photos", id, env);
    HandlePut(fs, "photos", "cat.jpg", data, id, env);
    CatIsJpeg();
    resp := HandleGet(fs, "photos", "cat.jpg", data, id, env);
  }

  /** The directories of a fresh upload `id` of bucket `b`. */
  function UploadDirs(id: string): set<string>
  {
    {Root, "b", Staging, Staging + "/" + "b", UploadDir("b", id)}
  }

  /** `PUT /b` then `POST /b/k?uploads` with the upload id `id`. */
  method StartUpload(id: string, env: Env) returns (fs: FileSystem)
    requires IsUploadId(id)
    ensures fresh(fs) && fs.Valid()
    ensures fs.files == map[KeyFile("b", id) := FileEntry("k", env.now)]
    ensures fs.dirs == UploadDirs(id)
  {
    fs := new FileSystem();
    var _ := Objects.CreateBucket(fs, "b");
    UploadDirPrefixes("b", id);
    assert UploadDir("b", id) !in fs.dirs;
    var _ := Initiate(fs, "b", "k", id, env);
    assert |KeyFile("b", id)| > |UploadDir("b", id)|;
  }

  /** Nothing keeps `rmdir` from removing `d` when no file in it is
      hidden and no directory is longer than `d`. */
  lemma NoResidue(files: map<string, FileEntry>, dirs: set<string>, d: string)
    requires forall q :: q in files && Parent(q) == d ==> !Hidden(q)
    requires forall q :: q in dirs ==> |q| <= |d|
    ensures !Residue(files, dirs, d)
  {
  }

  /** The parts 3, 1 and 2 of upload `id`, uploaded in that order. */
  method UploadThree(fs: FileSystem, id: string, d1: string, d2: string, d3: string, env: Env)
    requires IsUploadId(id) && fs.Valid()
    requires fs.files == map[KeyFile("b", id) := FileEntry("k", env.now)]
    requires fs.dirs == UploadDirs(id)
    modifies fs
    ensures fs.Valid() && fs.dirs == UploadDirs(id)
    ensures fs.files == map[KeyFile("b", id) := FileEntry("k", env.now),
                            PartPath("b", id, "3") := FileEntry(d3, env.now),
                            PartPath("b", id, "1") := FileEntry(d1, env.now),
                            PartPath("b", id, "2") := FileEntry(d2, env.now)]
  {
    UploadDirsShort(id);
    UploadOne(fs, id, "3", d3, env);
    UploadOne(fs, id, "1", d1, env);
    UploadOne(fs, id, "2", d2, env);
  }

  /** `PUT /b/k?uploadId=id&partNumber=part` into a fresh upload. */
  method UploadOne(fs: FileSystem, id: string, part: string, data: string, env: Env)
    requires fs.Valid() && fs.dirs == UploadDirs(id)
    requires '/' !in part && part != "" && part[0] != '.'
    modifies fs
    ensures fs.Valid() && fs.dirs == UploadDirs(id)
    ensures fs.files == old(fs.files)[PartPath("b", id, part) := FileEntry(data, env.now)]
  {
    PartFile("b", id, part);
    UploadDirsShort(id);
    assert |PartPath("b", id, part)| > |UploadDir("b", id)|;
    var _ := Multipart.UploadPart(fs, "b", "k", id, part, data, env);
  }

  /** Parts listed as 1, 2, 3 assemble in that order. */
  lemma AssembleThree(files: map<string, FileEntry>, id: string, d1: string, d2: string, d3: string)
    requires PartPath("b", id, "1") in files && files[PartPath("b", id, "1")].data == d1
    requires PartPath("b", id, "2") in files && files[PartPath("b", id, "2")].data == d2
    requires PartPath("b", id, "3") in files && files[PartPath("b", id, "3")].data == d3
    ensures Assemble(files, "b", id, ["1", "2", "3"]) == d1 + d2 + d3
  {
    assert ["1", "2", "3"][..2] == ["1", "2"] && ["1", "2"][..1] == ["1"] && ["1"][..0] == [];
  }

  /** The clean-up takes every file of four that sit, visible, in `d`,
      and none of them keeps `d` from being removed. */
  lemma StagedAll(files: map<string, FileEntry>, d: string, a: string, b: string, c: string, e: string)
    requires files.Keys == {a, b, c, e}
    requires Parent(a) == d && Parent(b) == d && Parent(c) == d && Parent(e) == d
    requires !Hidden(a) && !Hidden(b) && !Hidden(c) && !Hidden(e)
    ensures StagedFiles(files, d) == files.Keys
    ensures files - StagedFiles(files, d) == map[]
    ensures forall q :: q in files && Parent(q) == d ==> !Hidden(q)
  {
    forall q | q in files
      ensures Parent(q) == d && !Hidden(q)
    {
      assert q in {a, b, c, e};
    }
    assert files - files.Keys == map[];
  }

  /** The object `b/k` is none of the directories of a fresh upload. */
  lemma ObjectBesideUploadDirs(id: string)
    requires IsUploadId(id)
    ensures ObjectPath("b", "k") !in UploadDirs(id)
  {
    assert |ObjectPath("b", "k")| == 3;
    assert |Staging + "/" + "b"| == 12;
    assert |UploadDir("b", id)| == 45;
  }

  /** The object `b/k` of a fresh upload can be written in place: its
      directory is the bucket, which exists. */
  lemma ObjectWritable(files: map<string, FileEntry>, id: string)
    requires IsUploadId(id)
    ensures Prepared(files, UploadDirs(id), Parent(ObjectPath("b", "k"))) == UploadDirs(id)
    ensures Writable(files, UploadDirs(id), ObjectPath("b", "k"))
  {
    ParentOfChild("b", "k");
    ObjectBesideUploadDirs(id);
  }

  /** The four files of an upload holding the parts 1, 2 and 3. */
  lemma ThreePartsStored(files: map<string, FileEntry>, id: string, d1: string, d2: string, d3: string, now: int)
    requires files == map[KeyFile("b", id) := FileEntry("k", now),
                          PartPath("b", id, "3") := FileEntry(d3, now),
                          PartPath("b", id, "1") := FileEntry(d1, now),
                          PartPath("b", id, "2") := FileEntry(d2, now)]
    ensures files.Keys == {KeyFile("b", id), PartPath("b", id, "1"), PartPath("b", id, "2"), PartPath("b", id, "3")}
    ensures PartPath("b", id, "1") in files && files[PartPath("b", id, "1")].data == d1
    ensures PartPath("b", id, "2") in files && files[PartPath("b", id, "2")].data == d2
    ensures PartPath("b", id, "3") in files && files[PartPath("b", id, "3")].data == d3
  {
    PartPathInjective("b", id, "1", "2");
    PartPathInjective("b", id, "1", "3");
    PartPathInjective("b", id, "2", "3");
    PartPathInjective("b", id, "3", "3");
  }

  /** What `Complete` finds in a fresh upload holding the parts 1, 2 and
      3: every staged file goes and so does the upload's directory. */
  lemma ThreePartsComplete(files: map<string, FileEntry>, id: string, data: string, now: int)
    requires files.Keys == {KeyFile("b", id), PartPath("b", id, "1"), PartPath("b", id, "2"), PartPath("b", id, "3")}
    ensures (files - StagedFiles(files, UploadDir("b", id)))[ObjectPath("b", "k") := FileEntry(data, now)]
            == map[ObjectPath("b", "k") := FileEntry(data, now)]
    ensures !Residue(files, UploadDirs(id), UploadDir("b", id))
  {
    var mp := UploadDir("b", id);
    PartFile("b", id, "1");
    PartFile("b", id, "2");
    PartFile("b", id, "3");
    KeyFileShape("b", id);
    StagedAll(files, mp, KeyFile("b", id), PartPath("b", id, "1"), PartPath("b", id, "2"), PartPath("b", id, "3"));
    UploadDirsShort(id);
    NoResidue(files, UploadDirs(id), mp);
  }

  /** Parts uploaded as 3, 1, 2 and completed as 1, 2, 3 make the object
      `d1 + d2 + d3`; the staging directory of the upload is gone, and
      only the object remains as a file. */
  method PartsInAnyOrder(id: string, d1: string, d2: string, d3: string, env: Env)
    returns (fs: FileSystem, resp: Response)
    requires IsUploadId(id)
    ensures resp.status == 200 && resp.body.Completed?
    ensures fs.files == map[ObjectPath("b", "k") := FileEntry(d1 + d2 + d3, env.now)]
    ensures fs.dirs == UploadDirs(id) - {UploadDir("b", id)}
  {
    fs := StartUpload(id, env);
    UploadThree(fs, id, d1, d2, d3, env);
    ThreePartsStored(fs.files, id, d1, d2, d3, env.now);
    AssembleThree(fs.files, id, d1, d2, d3);
    ThreePartsComplete(fs.files, id, d1 + d2 + d3, env.now);
    ObjectWritable(fs.files, id);
    UploadDirsShort(id);
    resp := Complete(fs, "b", "k", id, Some(["1", "2", "3"]), None, env);
  }

  /** An aborted upload is gone: completing it afterwards is refused with
      `NoSuchUpload`. */
  method AbortThenComplete(id: string, env: Env) returns (resp: Response)
    requires IsUploadId(id)
    ensures resp == ErrorResponse(NoSuchUpload, id)
  {
    var fs := StartUpload(id, env);
    KeyFileShape("b", id);
    NoResidue(fs.files, fs.dirs, UploadDir("b", id));
    var _ := Abort(fs, "b", id);
    resp := Complete(fs, "b", "k", id, Some(["1"]), None, env);
  }

  /** The part numbered `""` of an upload is the hidden file `.part` in
      the upload's directory. */
  lemma EmptyPartHidden(id: string)
    ensures Parent(PartPath("b", id, "")) == UploadDir("b", id)
    ensures Hidden(PartPath("b", id, ""))
    ensures PartPath("b", id, "") != UploadDir("b", id)
  {
    var mp := UploadDir("b", id);
    assert PartPath("b", id, "") == mp + "/" + ".part";
    ParentOfChild(mp, ".part");
    NameOfChild(mp, ".part");
  }

  /** A hidden file directly in `d` survives the clean-up and keeps `d`. */
  lemma HiddenStays(files: map<string, FileEntry>, dirs: set<string>, d: string, q: string)
    requires q in files && Parent(q) == d && Hidden(q)
    ensures q !in StagedFiles(files, d)
    ensures Residue(files, dirs, d)
  {
  }

  /** A part numbered `""` is stored as the hidden file `.part`, which
      `glob` does not see: aborting leaves it, and the upload with it. */
  method HiddenPartSurvivesAbort(id: string, data: string, env: Env) returns (fs: FileSystem)
    requires IsUploadId(id)
    ensures UploadDir("b", id) in fs.dirs
    ensures PartPath("b", id, "") in fs.files && fs.files[PartPath("b", id, "")].data == data
  {
    fs := StartUpload(id, env);
    var hidden := PartPath("b", id, "");
    EmptyPartHidden(id);
    var _ := Multipart.UploadPart(fs, "b", "k", id, "", data, env);
    HiddenStays(fs.files, fs.dirs, UploadDir("b", id), hidden);
    var _ := Abort(fs, "b", id);
  }

  /** The header `bytes=-3` is acted on, as the range from 0 to 3. */
  lemma SuffixOfThree(size: int)
    ensures RangeOf(Some("bytes=-3"), size) == Some(ByteRange(0, 3))
  {
    ParseSuffixRange(3, size);
    assert Decimal(3) == "3";
    assert "bytes=-" + Decimal(3) == "bytes=-3";
  }

  /** `Range: bytes=-3` on a ten-byte object is read as the first four
      bytes, not the last three. */
  method SuffixRangeReadsFromStart(data: string, env: Env) returns (resp: Response)
    requires |data| == 10
    ensures resp.status == 206
    ensures resp.body.Chunks? && Flatten(resp.body.chunks) == data[..4]
    ensures resp.headers.contentRange == Some(ContentRange(0, 3, 10))
  {
    var fs, _ := StoreOne("b", "v", data, env);
    SuffixOfThree(|data|);
    resp := Objects.GetObject(fs, "b", "v", Some("bytes=-3"), env);
    assert RangeBytes(data, 0, 3) == data[..4];
  }

  /** An object whose key contains `.multipart` is stored but never
      listed. */
  method StagingKeyUnlisted(data: string, env: Env) returns (stored: Response, listed: Response)
    ensures stored.status == 200
    ensures listed.status == 200 && listed.body.ObjectList? && listed.body.contents == []
  {
    var key := "notes" + Staging + ".txt";
    assert '/' !in key;
    var fs;
    fs, stored := StoreOne("b", key, data, env);
    OccursInside("notes", Staging, ".txt");
    assert ListedKey("b", ObjectPath("b", key)) == key;
    listed := Objects.ListObjects(fs, "b", env);
    assert ListedFiles(fs, "b") == {};
  }
}
