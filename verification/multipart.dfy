/** The multipart upload handlers of `index.php`. An upload lives in the
    staging directory `.multipart/<bucket>/<uploadId>`: a file `key` with
    the object key and one file `<partNumber>.part` per uploaded part.
    Completing an upload concatenates the parts the client lists, in the
    order it lists them, into the object; completing and aborting both
    clear the staging directory with `glob`, `unlink` and `rmdir`. */
module Multipart {
  import opened PhpStrings
  import opened FileStore
  import opened Http
  import opened Objects

  /** `$dataDir . '/.multipart/' . $bucket . '/' . $uploadId`. */
  function UploadDir(bucket: string, id: string): string
  {
    Staging + "/" + bucket + "/" + id
  }

  /** `$mpDir . '/' . $partNumber . '.part'`. */
  function PartPath(bucket: string, id: string, part: string): string
  {
    UploadDir(bucket, id) + "/" + part + ".part"
  }

  /** `$mpDir . '/key'`, which records the key of the upload. */
  function KeyFile(bucket: string, id: string): string
  {
    UploadDir(bucket, id) + "/key"
  }

  /** What `bin2hex(random_bytes(16))` yields: 32 lower-case hex digits. */
  predicate IsUploadId(id: string)
  {
    |id| == 32 && forall i :: 0 <= i < |id| ==> '0' <= id[i] <= '9' || 'a' <= id[i] <= 'f'
  }

  // ---------------------------------------------------------------------
  // Where staged files live
  // ---------------------------------------------------------------------

  /** Every staged path lies below the staging directory. */
  lemma StagedPathsBelowStaging(bucket: string, id: string, rest: string)
    ensures Below(Staging, UploadDir(bucket, id) + rest)
  {
    var p := UploadDir(bucket, id) + rest;
    assert p[..|Staging|] == Staging && p[|Staging|] == '/';
  }

  /** A path that starts with a bucket directory other than `.multipart`
      is not below the staging directory. */
  lemma OutsideStaging(bucket: string, s: string)
    requires BucketName(bucket) && bucket != Staging
    requires |s| > |bucket| && s[..|bucket|] == bucket && s[|bucket|] == '/'
    ensures !Below(Staging, s)
  {
  }

  /** The directory of an object of a bucket other than `.multipart` is
      never a staging directory, and no part file is the object. */
  lemma ObjectNotStaged(bucket: string, key: string, id: string)
    requires BucketName(bucket) && bucket != Staging
    ensures Parent(ObjectPath(bucket, key)) != UploadDir(bucket, id)
    ensures forall part :: PartPath(bucket, id, part) != ObjectPath(bucket, key)
  {
    var obj := ObjectPath(bucket, key);
    assert obj[..|bucket|] == bucket && obj[|bucket|] == '/';
    OutsideStaging(bucket, obj);
    forall part ensures PartPath(bucket, id, part) != obj {
      StagedPathsBelowStaging(bucket, id, "/" + part + ".part");
      assert UploadDir(bucket, id) + ("/" + part + ".part") == PartPath(bucket, id, part);
    }
    var mp := UploadDir(bucket, id);
    StagedPathsBelowStaging(bucket, id, "");
    assert mp + "" == mp;
    var i := LastIndexOf('/', obj);
    assert i >= |bucket|;
    if i > |bucket| {
      var par := obj[..i];
      assert par[..|bucket|] == bucket && par[|bucket|] == '/';
      OutsideStaging(bucket, par);
    } else {
      assert Parent(obj) == bucket;
      assert mp[|Staging|] == '/';
    }
  }

  // ---------------------------------------------------------------------
  // Clearing a staging directory
  // ---------------------------------------------------------------------

  /** The files `glob over the upload directory` hands to `unlink`: the regular files
      directly in `d` whose names do not begin with a dot. */
  function StagedFiles(files: map<string, FileEntry>, d: string): set<string>
  {
    set q | q in files && Parent(q) == d && !Hidden(q)
  }

  /** What keeps `rmdir` from removing `d` after the unlinks: a hidden file
      or any directory directly in `d`. */
  predicate Residue(files: map<string, FileEntry>, dirs: set<string>, d: string)
  {
    || (exists q :: q in files && Parent(q) == d && Hidden(q))
    || (exists q :: q in dirs && q != Root && Parent(q) == d)
  }

  lemma DropOne(files: map<string, FileEntry>, found: set<string>, todo: set<string>, q: string)
    requires q in todo && todo <= found
    ensures (files - (found - todo)) - {q} == files - (found - (todo - {q}))
  {
  }

  /** `foreach ($files as $file) unlink($file);` over what `glob` found;
      directories among them stay, as `unlink` fails on them. */
  method UnlinkAll(fs: FileSystem, found: set<string>)
    requires fs.Valid()
    modifies fs
    ensures fs.Valid()
    ensures fs.files == old(fs.files) - found
    ensures fs.dirs == old(fs.dirs)
  {
    var todo := found;
    while todo != {}
      invariant fs.Valid()
      invariant todo <= found
      invariant fs.files == old(fs.files) - (found - todo)
      invariant fs.dirs == old(fs.dirs)
      decreases |todo|
    {
      var q :| q in todo;
      DropOne(old(fs.files), found, todo, q);
      var _ := fs.Unlink(q);
      todo := todo - {q};
    }
  }

  /** Unlinking what `glob` found removes exactly the staged files. */
  lemma GlobbedFiles(fs: FileSystem, d: string)
    requires fs.Valid()
    ensures fs.files - fs.Glob(d) == fs.files - StagedFiles(fs.files, d)
  {
    forall q | q in fs.files
      ensures q in fs.Glob(d) <==> q in StagedFiles(fs.files, d)
    {
      assert q != Root;
    }
  }

  /** After the unlinks, the files left directly in `d` are its hidden
      ones. */
  lemma HiddenLeft(files0: map<string, FileEntry>, files1: map<string, FileEntry>, d: string)
    requires files1 == files0 - StagedFiles(files0, d)
    ensures (exists q :: q in files1 && Parent(q) == d) <==> (exists q :: q in files0 && Parent(q) == d && Hidden(q))
  {
    forall q | q in files1 && Parent(q) == d
      ensures q in files0 && Hidden(q)
    {
      assert q !in StagedFiles(files0, d);
    }
    forall q | q in files0 && Parent(q) == d && Hidden(q)
      ensures q in files1
    {
      assert q !in StagedFiles(files0, d);
    }
  }

  /** After the unlinks, `d` still has entries exactly when there is a
      residue. */
  lemma LeftAfterUnlink(fs: FileSystem, files0: map<string, FileEntry>, d: string)
    requires fs.files == files0 - StagedFiles(files0, d)
    ensures fs.HasEntries(d) <==> Residue(files0, fs.dirs, d)
  {
    HiddenLeft(files0, fs.files, d);
  }

  /** The clean-up of `Complete` and `Abort`: unlink what `glob` finds in
      `d`, then `rmdir(d)`, which succeeds only when nothing is left. */
  method RemoveStaging(fs: FileSystem, d: string)
    requires fs.Valid()
    modifies fs
    ensures fs.Valid()
    ensures fs.files == old(fs.files) - StagedFiles(old(fs.files), d)
    ensures fs.dirs == if d in old(fs.dirs) && d != Root && !Residue(old(fs.files), old(fs.dirs), d)
                       then old(fs.dirs) - {d} else old(fs.dirs)
  {
    GlobbedFiles(fs, d);
    ghost var files0 := fs.files;
    UnlinkAll(fs, fs.Glob(d));
    LeftAfterUnlink(fs, files0, d);
    var _ := fs.Rmdir(d);
  }

  // ---------------------------------------------------------------------
  // Initiate, upload part, abort
  // ---------------------------------------------------------------------

  /** `POST /bucket/key?uploads`: makes sure of the upload's staging
      directory, records the key in it (silently skipped when the
      directory could not be made) and returns the new upload id. */
  method Initiate(fs: FileSystem, bucket: string, key: string, id: string, env: Env)
    returns (resp: Response)
    requires fs.Valid() && IsUploadId(id)
    modifies fs
    ensures fs.Valid()
    ensures fs.dirs == Prepared(old(fs.files), old(fs.dirs), UploadDir(bucket, id))
    ensures fs.files == if UploadDir(bucket, id) in fs.dirs && KeyFile(bucket, id) !in fs.dirs
                        then old(fs.files)[KeyFile(bucket, id) := FileEntry(key, env.now)]
                        else old(fs.files)
    ensures resp == XmlResponse(Initiated(bucket, key, id))
  {
    var mp := UploadDir(bucket, id);
    fs.EnsureDir(mp);
    ParentOfChild(mp, "key");
    assert KeyFile(bucket, id) == mp + "/" + "key";
    var _ := fs.WriteFile(KeyFile(bucket, id), key, env.now);
    resp := XmlResponse(Initiated(bucket, key, id));
  }

  /** `PUT /bucket/key?uploadId=..&partNumber=..`: 404 when the upload does
      not exist; otherwise stores the body as the part (replacing an
      earlier upload of the same part number), or 500 when the part file
      cannot be opened. */
  method UploadPart(fs: FileSystem, bucket: string, key: string, id: string, part: string,
                    data: string, env: Env)
    returns (resp: Response)
    requires fs.Valid()
    modifies fs
    ensures fs.Valid()
    ensures fs.dirs == old(fs.dirs)
    ensures UploadDir(bucket, id) !in old(fs.dirs)
            ==> fs.files == old(fs.files) && resp == ErrorResponse(NoSuchUpload, id)
    ensures UploadDir(bucket, id) in old(fs.dirs) ==>
              var pp := PartPath(bucket, id, part);
              if Parent(pp) in old(fs.dirs) && pp !in old(fs.dirs)
              then fs.files == old(fs.files)[pp := FileEntry(data, env.now)] && resp == Stored(env.md5(data))
              else fs.files == old(fs.files) && resp == ErrorResponse(InternalError, key)
  {
    if UploadDir(bucket, id) !in fs.dirs {
      return ErrorResponse(NoSuchUpload, id);
    }
    var ok := fs.WriteFile(PartPath(bucket, id, part), data, env.now);
    if ok {
      resp := Stored(env.md5(data));
    } else {
      resp := ErrorResponse(InternalError, key);
    }
  }

  /** `DELETE /bucket/key?uploadId=..`: clears the staging directory when
      there is one, and answers 204 either way. */
  method Abort(fs: FileSystem, bucket: string, id: string) returns (resp: Response)
    requires fs.Valid()
    modifies fs
    ensures fs.Valid()
    ensures UploadDir(bucket, id) !in old(fs.dirs) ==> fs.files == old(fs.files) && fs.dirs == old(fs.dirs)
    ensures UploadDir(bucket, id) in old(fs.dirs) ==>
              var mp := UploadDir(bucket, id);
              && fs.files == old(fs.files) - StagedFiles(old(fs.files), mp)
              && fs.dirs == if Residue(old(fs.files), old(fs.dirs), mp) then old(fs.dirs) else old(fs.dirs) - {mp}
    ensures resp == StatusOnly(204)
  {
    var mp := UploadDir(bucket, id);
    if mp in fs.dirs {
      RemoveStaging(fs, mp);
    }
    resp := StatusOnly(204);
  }

  // ---------------------------------------------------------------------
  // Complete
  // ---------------------------------------------------------------------

  /** The bytes a listed part contributes: the part file's bytes, nothing
      when the file is missing. */
  function PartData(files: map<string, FileEntry>, bucket: string, id: string, part: string): string
  {
    var pp := PartPath(bucket, id, part);
    if pp in files then files[pp].data else ""
  }

  /** The object `Complete` assembles: the listed parts, in the order of
      the request. */
  function Assemble(files: map<string, FileEntry>, bucket: string, id: string, parts: seq<string>): string
    decreases |parts|
  {
    if parts == [] then ""
    else Assemble(files, bucket, id, parts[..|parts| - 1]) + PartData(files, bucket, id, parts[|parts| - 1])
  }

  /** Assembling two lists one after the other is assembling their
      concatenation. */
  lemma {:induction false} AssembleAppend(files: map<string, FileEntry>, bucket: string, id: string,
                                          a: seq<string>, b: seq<string>)
    ensures Assemble(files, bucket, id, a + b) == Assemble(files, bucket, id, a) + Assemble(files, bucket, id, b)
    decreases |b|
  {
    if b == [] {
      assert a + b == a;
    } else {
      var b' := b[..|b| - 1];
      assert (a + b)[..|a + b| - 1] == a + b';
      assert (a + b)[|a + b| - 1] == b[|b| - 1];
      AssembleAppend(files, bucket, id, a, b');
    }
  }

  /** Parts whose files are missing contribute nothing. */
  lemma {:induction false} AssembleSkipsMissing(files: map<string, FileEntry>, bucket: string, id: string,
                                                parts: seq<string>)
    requires forall i :: 0 <= i < |parts| ==> PartPath(bucket, id, parts[i]) !in files
    ensures Assemble(files, bucket, id, parts) == ""
    decreases |parts|
  {
    if parts != [] {
      AssembleSkipsMissing(files, bucket, id, parts[..|parts| - 1]);
    }
  }

  /** The object is written before the parts are copied: nothing changes
      the part files in between unless one of them is the object. */
  predicate NoAlias(obj: string, bucket: string, id: string, parts: seq<string>)
  {
    forall i :: 0 <= i < |parts| ==> PartPath(bucket, id, parts[i]) != obj
  }

  /** One turn of the copy loop, on values. */
  lemma AppendStep(files0: map<string, FileEntry>, obj: string, bucket: string, id: string,
                   parts: seq<string>, i: nat, cur: map<string, FileEntry>, now: int)
    requires NoAlias(obj, bucket, id, parts) && i < |parts| && obj in files0
    requires cur == files0[obj := FileEntry(files0[obj].data + Assemble(files0, bucket, id, parts[..i]), now)]
    ensures var pp := PartPath(bucket, id, parts[i]);
            var next := files0[obj := FileEntry(files0[obj].data + Assemble(files0, bucket, id, parts[..i + 1]), now)];
            && (pp in cur ==> cur[obj := FileEntry(cur[obj].data + cur[pp].data, now)] == next)
            && (pp !in cur ==> cur == next)
  {
    var pp := PartPath(bucket, id, parts[i]);
    var before := Assemble(files0, bucket, id, parts[..i]);
    var piece := PartData(files0, bucket, id, parts[i]);
    assert parts[..i + 1][..i] == parts[..i];
    assert Assemble(files0, bucket, id, parts[..i + 1]) == before + piece;
    assert pp != obj;
    if pp in cur {
      assert cur[pp] == files0[pp];
      assert (files0[obj].data + before) + piece == files0[obj].data + (before + piece);
    } else {
      assert before + piece == before;
    }
  }

  /** The copy loop of `Complete` on the freshly truncated object `obj`:
      for every listed part whose file exists, append its bytes. */
  method AppendParts(fs: FileSystem, obj: string, bucket: string, id: string, parts: seq<string>, now: int)
    requires fs.Valid() && obj in fs.files && fs.files[obj].mtime == now
    modifies fs
    ensures fs.Valid() && obj in fs.files
    ensures fs.dirs == old(fs.dirs)
    ensures NoAlias(obj, bucket, id, parts) ==>
              fs.files == old(fs.files)[obj := FileEntry(old(fs.files)[obj].data
                                                         + Assemble(old(fs.files), bucket, id, parts), now)]
  {
    ghost var files0 := fs.files;
    assert files0[obj := FileEntry(files0[obj].data + Assemble(files0, bucket, id, parts[..0]), now)] == files0 by {
      assert files0[obj].data + "" == files0[obj].data;
    }
    for i := 0 to |parts|
      invariant fs.Valid() && obj in fs.files
      invariant fs.dirs == old(fs.dirs)
      invariant NoAlias(obj, bucket, id, parts) ==>
                  fs.files == files0[obj := FileEntry(files0[obj].data + Assemble(files0, bucket, id, parts[..i]), now)]
    {
      var pp := PartPath(bucket, id, parts[i]);
      if NoAlias(obj, bucket, id, parts) {
        AppendStep(files0, obj, bucket, id, parts, i, fs.files, now);
      }
      if pp in fs.files {
        fs.AppendFile(obj, fs.files[pp].data, now);
      }
    }
    assert parts[..|parts|] == parts;
  }

  /** `https://$host/$bucket/$key`, with `localhost` when the request has
      no `Host` header. */
  function Location(host: Option<string>, bucket: string, key: string): string
  {
    var h := if host.Some? then host.value else "localhost";
    "https://" + h + "/" + bucket + "/" + key
  }

  /** Rewriting a file that is not a part file does not change what is
      assembled. */
  lemma {:induction false} AssembleIgnores(files: map<string, FileEntry>, obj: string, e: FileEntry,
                                           bucket: string, id: string, parts: seq<string>)
    requires NoAlias(obj, bucket, id, parts)
    ensures Assemble(files[obj := e], bucket, id, parts) == Assemble(files, bucket, id, parts)
    decreases |parts|
  {
    if parts != [] {
      AssembleIgnores(files, obj, e, bucket, id, parts[..|parts| - 1]);
    }
  }

  /** For a bucket other than `.multipart`, writing the object neither
      reads nor removes anything of the staging directory: the object
      ends up holding the assembled parts, and the clean-up removes what
      it would have removed before. */
  lemma ObjectBesideUpload(files0: map<string, FileEntry>, dirs: set<string>, bucket: string, key: string,
                           id: string, parts: seq<string>, now: int)
    requires BucketName(bucket) && bucket != Staging
    ensures var obj := ObjectPath(bucket, key);
            var mp := UploadDir(bucket, id);
            var files1 := files0[obj := FileEntry("", now)];
            var data := Assemble(files0, bucket, id, parts);
            var files2 := files1[obj := FileEntry(files1[obj].data + Assemble(files1, bucket, id, parts), now)];
            && NoAlias(obj, bucket, id, parts)
            && files2 == files0[obj := FileEntry(data, now)]
            && files2 - StagedFiles(files2, mp) == (files0 - StagedFiles(files0, mp))[obj := FileEntry(data, now)]
            && (Residue(files2, dirs, mp) <==> Residue(files0, dirs, mp))
  {
    var obj := ObjectPath(bucket, key);
    var mp := UploadDir(bucket, id);
    ObjectNotStaged(bucket, key, id);
    var files1 := files0[obj := FileEntry("", now)];
    AssembleIgnores(files0, obj, FileEntry("", now), bucket, id, parts);
    assert "" + Assemble(files1, bucket, id, parts) == Assemble(files0, bucket, id, parts);
    var files2 := files0[obj := FileEntry(Assemble(files0, bucket, id, parts), now)];
    assert StagedFiles(files2, mp) == StagedFiles(files0, mp);
  }

  /** The part of `Complete` after the checks: make sure of the object's
      directory, open the object (500 when that fails, leaving the upload
      in place), write the listed parts into it in the order given, clear
      the staging directory and answer with the object's location and
      MD5. What is said about the result holds for every bucket other than
      `.multipart`, where a part file could be the object itself. */
  method Finish(fs: FileSystem, bucket: string, key: string, id: string, parts: seq<string>,
                host: Option<string>, env: Env)
    returns (resp: Response)
    requires fs.Valid()
    modifies fs
    ensures fs.Valid()
    ensures !Writable(old(fs.files), old(fs.dirs), ObjectPath(bucket, key))
            ==> && fs.files == old(fs.files)
                && fs.dirs == Prepared(old(fs.files), old(fs.dirs), Parent(ObjectPath(bucket, key)))
                && resp == ErrorResponse(InternalError, key)
    ensures Writable(old(fs.files), old(fs.dirs), ObjectPath(bucket, key))
            ==> resp.status == 200 && resp.body.Completed? && resp.body.location == Location(host, bucket, key)
    ensures Writable(old(fs.files), old(fs.dirs), ObjectPath(bucket, key)) && BucketName(bucket) && bucket != Staging
            ==> var mp := UploadDir(bucket, id);
                var data := Assemble(old(fs.files), bucket, id, parts);
                var dirs1 := Prepared(old(fs.files), old(fs.dirs), Parent(ObjectPath(bucket, key)));
                && fs.files == (old(fs.files) - StagedFiles(old(fs.files), mp))[ObjectPath(bucket, key) := FileEntry(data, env.now)]
                && fs.dirs == (if mp in dirs1 && mp != Root && !Residue(old(fs.files), dirs1, mp) then dirs1 - {mp} else dirs1)
                && resp == XmlResponse(Completed(Location(host, bucket, key), bucket, key, env.md5(data)))
  {
    var obj := ObjectPath(bucket, key);
    ghost var files0 := fs.files;
    fs.EnsureDir(Parent(obj));
    var ok := fs.WriteFile(obj, "", env.now);
    if !ok {
      return ErrorResponse(InternalError, key);
    }
    AppendParts(fs, obj, bucket, id, parts, env.now);
    if BucketName(bucket) && bucket != Staging {
      ObjectBesideUpload(files0, fs.dirs, bucket, key, id, parts, env.now);
    }
    RemoveStaging(fs, UploadDir(bucket, id));
    var etag := if obj in fs.files then env.md5(fs.files[obj].data) else "";
    resp := XmlResponse(Completed(Location(host, bucket, key), bucket, key, etag));
  }

  /** `POST /bucket/key?uploadId=..`: 404 when the upload does not exist,
      400 when the body is not XML (`None`), otherwise `Finish` with the
      part numbers of the body's `<Part>` elements. */
  method Complete(fs: FileSystem, bucket: string, key: string, id: string,
                  completion: Option<seq<string>>, host: Option<string>, env: Env)
    returns (resp: Response)
    requires fs.Valid()
    modifies fs
    ensures fs.Valid()
    ensures UploadDir(bucket, id) !in old(fs.dirs)
            ==> fs.files == old(fs.files) && fs.dirs == old(fs.dirs) && resp == ErrorResponse(NoSuchUpload, id)
    ensures UploadDir(bucket, id) in old(fs.dirs) && completion.None?
            ==> fs.files == old(fs.files) && fs.dirs == old(fs.dirs) && resp == ErrorResponse(MalformedXML, key)
    ensures UploadDir(bucket, id) in old(fs.dirs) && completion.Some?
            && !Writable(old(fs.files), old(fs.dirs), ObjectPath(bucket, key))
            ==> && fs.files == old(fs.files)
                && fs.dirs == Prepared(old(fs.files), old(fs.dirs), Parent(ObjectPath(bucket, key)))
                && resp == ErrorResponse(InternalError, key)
    ensures UploadDir(bucket, id) in old(fs.dirs) && completion.Some?
            && Writable(old(fs.files), old(fs.dirs), ObjectPath(bucket, key))
            ==> resp.status == 200 && resp.body.Completed? && resp.body.location == Location(host, bucket, key)
    ensures UploadDir(bucket, id) in old(fs.dirs) && completion.Some?
            && Writable(old(fs.files), old(fs.dirs), ObjectPath(bucket, key))
            && BucketName(bucket) && bucket != Staging
            ==> var mp := UploadDir(bucket, id);
                var data := Assemble(old(fs.files), bucket, id, completion.value);
                var dirs1 := Prepared(old(fs.files), old(fs.dirs), Parent(ObjectPath(bucket, key)));
                && fs.files == (old(fs.files) - StagedFiles(old(fs.files), mp))[ObjectPath(bucket, key) := FileEntry(data, env.now)]
                && fs.dirs == (if Residue(old(fs.files), dirs1, mp) then dirs1 else dirs1 - {mp})
                && resp == XmlResponse(Completed(Location(host, bucket, key), bucket, key, env.md5(data)))
  {
    var mp := UploadDir(bucket, id);
    if mp !in fs.dirs {
      return ErrorResponse(NoSuchUpload, id);
    }
    if completion.None? {
      return ErrorResponse(MalformedXML, key);
    }
    ghost var dirs0 := fs.dirs;
    resp := Finish(fs, bucket, key, id, completion.value, host, env);
    assert mp in Prepared(old(fs.files), dirs0, Parent(ObjectPath(bucket, key)));
    assert mp != Root;
  }
}
