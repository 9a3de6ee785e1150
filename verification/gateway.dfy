/** The request dispatcher of `index.php`: split the path into bucket and
    key, pick the branch, check the credential where the branch asks for
    it, and hand over to the handler. */
module Gateway {
  import opened PhpStrings
  import opened FileStore
  import opened Http
  import opened Routing
  import opened Objects
  import opened Multipart
  import opened RangeStream

  /** The part of `config.php` the dispatcher reads. */
  datatype Config = Config(accessKey: string)

  /** A request as the dispatcher sees it: the method, the path of the URI,
      the query parameters, the `Authorization` header (`""` when absent),
      the `Range` and `Host` headers, the body, and the part numbers of the
      `<Part>` elements when the body is well-formed XML. */
  datatype Request = Request(
    verb: string,
    path: string,
    query: map<string, string>,
    authorization: string,
    range: Option<string>,
    host: Option<string>,
    body: string,
    completion: Option<seq<string>>)

  /** The branch a request reaches, given the directories of the storage
      directory (they decide whether the bucket exists). An `OPTIONS`
      request is answered before the path is looked at. */
  function Dispatch(dirs: set<string>, req: Request): Operation
  {
    if req.verb == "OPTIONS" then Preflight
    else
      var t := ParsePath(req.path);
      Route(req.verb, t, req.query, t.bucket in dirs)
  }

  predicate Authorized(cfg: Config, req: Request)
  {
    CheckAuth(req.authorization, cfg.accessKey)
  }

  /** The branches that change the storage directory. */
  predicate Writes(op: Operation)
  {
    op in {CreateBucket, InitiateUpload, UploadPart, CompleteUpload, AbortUpload, PutObject, DeleteObject}
  }

  /** Every branch that writes asks for the credential first. */
  lemma WritersRequireAuth(op: Operation)
    ensures Writes(op) ==> RequiresAuth(op)
  {
  }

  /** The resource an `AccessDenied` error names: nothing for the bucket
      list, the bucket for bucket branches, the key otherwise. */
  function DeniedResource(op: Operation, t: Target): string
  {
    if op == ListBuckets then ""
    else if op in {CreateBucket, ListObjects} then t.bucket
    else t.key
  }

  // ---------------------------------------------------------------------
  // What each branch does, once it is allowed to run
  // ---------------------------------------------------------------------

  /** The service and bucket branches, the existence check of the bucket,
      the final 405 and the `OPTIONS` answer: `fs` is the storage after the
      branch, `files0` and `dirs0` the storage before it. */
  ghost predicate BucketServed(fs: FileSystem, files0: map<string, FileEntry>, dirs0: set<string>,
                               op: Operation, t: Target, env: Env, resp: Response)
    reads fs
  {
    var kept := fs.files == files0 && fs.dirs == dirs0;
    match op
    case Preflight => kept && resp == StatusOnly(200)
    case ListBuckets =>
      && kept
      && resp.status == 200 && resp.body.BucketList?
      && (forall e :: e in resp.body.buckets <==> exists d :: d in Buckets(fs) && e == BucketEntryOf(d, env))
      && |resp.body.buckets| == |Buckets(fs)|
    case NoServiceAction => kept && resp == StatusOnly(200)
    case CreateBucket =>
      && fs.files == files0
      && fs.dirs == (if t.bucket in files0 then dirs0 else dirs0 + {t.bucket})
      && resp == BucketCreated(t.bucket)
    case HeadBucket => kept && resp == Objects.HeadBucket(fs, t.bucket)
    case ListObjects =>
      && kept
      && (t.bucket !in dirs0 ==> resp == ErrorResponse(NoSuchBucket, t.bucket))
      && (t.bucket in dirs0 ==>
            && resp.status == 200 && resp.body.ObjectList? && resp.body.bucket == t.bucket
            && (forall e :: e in resp.body.contents <==>
                  exists q :: q in ListedFiles(fs, t.bucket) && e == EntryOf(fs.files, t.bucket, q, env))
            && |resp.body.contents| == |ListedFiles(fs, t.bucket)|)
    case NoBucketAction => kept && resp == StatusOnly(200)
    case BucketMissing => kept && resp == ErrorResponse(NoSuchBucket, t.bucket)
    case MethodNotAllowed => kept && resp == StatusOnly(405)
    case _ => false
  }

  /** The multipart branches; `freshId` is the id a new upload gets. */
  ghost predicate UploadServed(fs: FileSystem, files0: map<string, FileEntry>, dirs0: set<string>,
                               op: Operation, t: Target, req: Request, freshId: string, env: Env,
                               resp: Response)
    reads fs
  {
    var kept := fs.files == files0 && fs.dirs == dirs0;
    var obj := ObjectPath(t.bucket, t.key);
    match op
    case InitiateUpload =>
      var mp := UploadDir(t.bucket, freshId);
      var kf := KeyFile(t.bucket, freshId);
      && fs.dirs == Prepared(files0, dirs0, mp)
      && fs.files == (if mp in fs.dirs && kf !in fs.dirs then files0[kf := FileEntry(t.key, env.now)] else files0)
      && resp == XmlResponse(Initiated(t.bucket, t.key, freshId))
    case UploadPart =>
      "uploadId" in req.query && "partNumber" in req.query &&
      (var id := req.query["uploadId"];
       var pp := PartPath(t.bucket, id, req.query["partNumber"]);
       && fs.dirs == dirs0
       && (UploadDir(t.bucket, id) !in dirs0 ==> fs.files == files0 && resp == ErrorResponse(NoSuchUpload, id))
       && (UploadDir(t.bucket, id) in dirs0 ==>
             if Parent(pp) in dirs0 && pp !in dirs0
             then fs.files == files0[pp := FileEntry(req.body, env.now)] && resp == Stored(env.md5(req.body))
             else fs.files == files0 && resp == ErrorResponse(InternalError, t.key)))
    case CompleteUpload =>
      "uploadId" in req.query &&
      (var id := req.query["uploadId"];
       var mp := UploadDir(t.bucket, id);
       var ready := mp in dirs0 && req.completion.Some?;
       && (mp !in dirs0 ==> kept && resp == ErrorResponse(NoSuchUpload, id))
       && (mp in dirs0 && req.completion.None? ==> kept && resp == ErrorResponse(MalformedXML, t.key))
       && (ready && !Writable(files0, dirs0, obj) ==>
             && fs.files == files0
             && fs.dirs == Prepared(files0, dirs0, Parent(obj))
             && resp == ErrorResponse(InternalError, t.key))
       && (ready && Writable(files0, dirs0, obj) ==>
             resp.status == 200 && resp.body.Completed? && resp.body.location == Location(req.host, t.bucket, t.key))
       && (ready && Writable(files0, dirs0, obj) && BucketName(t.bucket) && t.bucket != Staging ==>
             var data := Assemble(files0, t.bucket, id, req.completion.value);
             var dirs1 := Prepared(files0, dirs0, Parent(obj));
             && fs.files == (files0 - StagedFiles(files0, mp))[obj := FileEntry(data, env.now)]
             && fs.dirs == (if Residue(files0, dirs1, mp) then dirs1 else dirs1 - {mp})
             && resp == XmlResponse(Completed(Location(req.host, t.bucket, t.key), t.bucket, t.key, env.md5(data)))))
    case AbortUpload =>
      "uploadId" in req.query &&
      (var mp := UploadDir(t.bucket, req.query["uploadId"]);
       && (mp !in dirs0 ==> kept)
       && (mp in dirs0 ==>
             && fs.files == files0 - StagedFiles(files0, mp)
             && fs.dirs == (if Residue(files0, dirs0, mp) then dirs0 else dirs0 - {mp}))
       && resp == StatusOnly(204))
    case _ => false
  }

  /** The plain object branches. */
  ghost predicate ObjectServed(fs: FileSystem, files0: map<string, FileEntry>, dirs0: set<string>,
                               op: Operation, t: Target, req: Request, env: Env, resp: Response)
    reads fs
  {
    var kept := fs.files == files0 && fs.dirs == dirs0;
    var obj := ObjectPath(t.bucket, t.key);
    match op
    case PutObject =>
      && fs.dirs == Prepared(files0, dirs0, Parent(obj))
      && (Writable(files0, dirs0, obj) ==>
            fs.files == files0[obj := FileEntry(req.body, env.now)] && resp == Stored(env.md5(req.body)))
      && (!Writable(files0, dirs0, obj) ==> fs.files == files0 && resp == ErrorResponse(InternalError, t.key))
    case GetObject =>
      && kept
      && (obj !in files0 ==> resp == ErrorResponse(NoSuchKey, t.key))
      && (obj in files0 ==>
            var f := files0[obj];
            var r := RangeOf(req.range, |f.data|);
            && (r.None? ==> resp == Response(200, FullHeaders(obj, f, env), Content(f.data)))
            && (r.Some? ==> && resp.status == 206
                            && resp.headers == RangeHeaders(obj, f, env, r.value)
                            && resp.body.Chunks?
                            && Flatten(resp.body.chunks) == RangeBytes(f.data, r.value.first, r.value.last)))
    case HeadObject => kept && resp == Objects.HeadObject(fs, t.bucket, t.key, env)
    case DeleteObject => fs.files == files0 - {obj} && fs.dirs == dirs0 && resp == StatusOnly(204)
    case _ => false
  }

  /** What the branch `op` does to the storage and what it answers. */
  ghost predicate Served(fs: FileSystem, files0: map<string, FileEntry>, dirs0: set<string>,
                         op: Operation, t: Target, req: Request, freshId: string, env: Env, resp: Response)
    reads fs
  {
    if UploadBranch(op) then UploadServed(fs, files0, dirs0, op, t, req, freshId, env, resp)
    else if op in {PutObject, GetObject, HeadObject, DeleteObject} then ObjectServed(fs, files0, dirs0, op, t, req, env, resp)
    else BucketServed(fs, files0, dirs0, op, t, env, resp)
  }

  // ---------------------------------------------------------------------
  // The handlers behind the dispatcher
  // ---------------------------------------------------------------------

  /** The branches for the service and for a bucket, the existence check
      of the bucket, the final 405 and `OPTIONS`, once the credential has
      been checked where they ask for it. */
  method ServeBucket(fs: FileSystem, op: Operation, t: Target, env: Env) returns (resp: Response)
    requires fs.Valid()
    requires !UploadBranch(op) && op !in {PutObject, GetObject, HeadObject, DeleteObject}
    requires op == CreateBucket ==> BucketName(t.bucket)
    modifies fs
    ensures fs.Valid()
    ensures resp.status != 403
    ensures !Writes(op) ==> fs.files == old(fs.files) && fs.dirs == old(fs.dirs)
    ensures BucketServed(fs, old(fs.files), old(fs.dirs), op, t, env, resp)
  {
    match op {
      case Preflight =>
        resp := StatusOnly(200);
      case ListBuckets =>
        resp := ListAllBuckets(fs, env);
      case NoServiceAction =>
        resp := StatusOnly(200);
      case CreateBucket =>
        resp := Objects.CreateBucket(fs, t.bucket);
      case HeadBucket =>
        resp := Objects.HeadBucket(fs, t.bucket);
      case ListObjects =>
        if t.bucket !in fs.dirs {
          resp := ErrorResponse(NoSuchBucket, t.bucket);
        } else {
          resp := Objects.ListObjects(fs, t.bucket, env);
        }
      case NoBucketAction =>
        resp := StatusOnly(200);
      case BucketMissing =>
        resp := ErrorResponse(NoSuchBucket, t.bucket);
      case MethodNotAllowed =>
        resp := StatusOnly(405);
    }
  }

  /** The multipart branches. */
  predicate UploadBranch(op: Operation)
  {
    op in {InitiateUpload, UploadPart, CompleteUpload, AbortUpload}
  }

  /** The multipart branches, once the credential has been checked. */
  method ServeUpload(fs: FileSystem, op: Operation, t: Target, req: Request, freshId: string, env: Env)
    returns (resp: Response)
    requires fs.Valid() && IsUploadId(freshId)
    requires UploadBranch(op)
    requires op != InitiateUpload ==> "uploadId" in req.query
    requires op == UploadPart ==> "partNumber" in req.query
    modifies fs
    ensures fs.Valid()
    ensures resp.status != 403
    ensures UploadServed(fs, old(fs.files), old(fs.dirs), op, t, req, freshId, env, resp)
  {
    match op {
      case InitiateUpload =>
        resp := Initiate(fs, t.bucket, t.key, freshId, env);
      case UploadPart =>
        resp := Multipart.UploadPart(fs, t.bucket, t.key, req.query["uploadId"], req.query["partNumber"], req.body, env);
      case CompleteUpload =>
        resp := Complete(fs, t.bucket, t.key, req.query["uploadId"], req.completion, req.host, env);
      case AbortUpload =>
        resp := Abort(fs, t.bucket, req.query["uploadId"]);
    }
  }

  /** The plain object branches, once the credential has been checked
      where they ask for it. */
  method ServeObject(fs: FileSystem, op: Operation, t: Target, req: Request, env: Env)
    returns (resp: Response)
    requires fs.Valid()
    requires op in {PutObject, GetObject, HeadObject, DeleteObject}
    modifies fs
    ensures fs.Valid()
    ensures resp.status != 403
    ensures !Writes(op) ==> fs.files == old(fs.files) && fs.dirs == old(fs.dirs)
    ensures ObjectServed(fs, old(fs.files), old(fs.dirs), op, t, req, env, resp)
  {
    match op {
      case PutObject =>
        resp := Objects.PutObject(fs, t.bucket, t.key, req.body, env);
      case GetObject =>
        resp := Objects.GetObject(fs, t.bucket, t.key, req.range, env);
      case HeadObject =>
        resp := Objects.HeadObject(fs, t.bucket, t.key, env);
      case DeleteObject =>
        resp := Objects.DeleteObject(fs, t.bucket, t.key);
    }
  }

  /** One request. `freshId` is what `bin2hex(random_bytes(16))` returns
      when an upload is initiated. `OPTIONS` is answered 200 at once. The
      dispatcher answers 403 exactly when the branch asks for the
      credential and the request does not carry it, and otherwise does
      what the branch does; storage changes only in a writing branch of an
      authorized request; a bucket that does not exist is reported before
      any object branch runs. */
  method Handle(fs: FileSystem, cfg: Config, req: Request, freshId: string, env: Env)
    returns (resp: Response)
    requires fs.Valid() && IsUploadId(freshId)
    modifies fs
    ensures fs.Valid()
    ensures resp.status == 403 <==> RequiresAuth(Dispatch(old(fs.dirs), req)) && !Authorized(cfg, req)
    ensures RequiresAuth(Dispatch(old(fs.dirs), req)) && !Authorized(cfg, req)
            ==> resp == ErrorResponse(AccessDenied, DeniedResource(Dispatch(old(fs.dirs), req), ParsePath(req.path)))
    ensures !(RequiresAuth(Dispatch(old(fs.dirs), req)) && !Authorized(cfg, req))
            ==> Served(fs, old(fs.files), old(fs.dirs), Dispatch(old(fs.dirs), req), ParsePath(req.path),
                       req, freshId, env, resp)
    ensures !(Writes(Dispatch(old(fs.dirs), req)) && Authorized(cfg, req))
            ==> fs.files == old(fs.files) && fs.dirs == old(fs.dirs)
    ensures !Authorized(cfg, req) ==> fs.files == old(fs.files) && fs.dirs == old(fs.dirs)
    ensures req.verb == "OPTIONS" ==> resp == StatusOnly(200) && fs.files == old(fs.files) && fs.dirs == old(fs.dirs)
    ensures Dispatch(old(fs.dirs), req) == BucketMissing
            ==> resp == ErrorResponse(NoSuchBucket, ParsePath(req.path).bucket)
    ensures Dispatch(old(fs.dirs), req) == ListObjects && Authorized(cfg, req)
            ==> (resp.status == 404 <==> ParsePath(req.path).bucket !in old(fs.dirs))
    ensures Dispatch(old(fs.dirs), req) == MethodNotAllowed ==> resp == StatusOnly(405)
  {
    var t := ParsePath(req.path);
    var op := Dispatch(fs.dirs, req);
    WritersRequireAuth(op);
    if RequiresAuth(op) && !CheckAuth(req.authorization, cfg.accessKey) {
      return ErrorResponse(AccessDenied, DeniedResource(op, t));
    }
    if UploadBranch(op) {
      resp := ServeUpload(fs, op, t, req, freshId, env);
    } else if op in {PutObject, GetObject, HeadObject, DeleteObject} {
      resp := ServeObject(fs, op, t, req, env);
    } else {
      resp := ServeBucket(fs, op, t, env);
    }
  }
}
