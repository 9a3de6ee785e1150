/** The pure decisions of the request handler in `index.php`: splitting the
    path into bucket and key, the credential check, the extension table of
    `getMimeType`, the `Range` header parser and the order in which the
    handler's branches are tried. */
module Routing {
  import opened PhpStrings

  // ---------------------------------------------------------------------
  // Bucket and key
  // ---------------------------------------------------------------------

  /** The non-empty `/`-separated segments of a path. */
  function Segments(path: string): (r: seq<string>)
    ensures forall i :: 0 <= i < |r| ==> r[i] != "" && '/' !in r[i]
  {
    var parts := Explode('/', TrimLeft('/', path));
    ExplodePieces('/', TrimLeft('/', path));
    var r := NonEmpty(parts);
    assert forall i :: 0 <= i < |r| ==> '/' !in r[i] by {
      forall i | 0 <= i < |r| ensures '/' !in r[i] {
        var j :| 0 <= j < |parts| && parts[j] == r[i];
      }
    }
    r
  }

  datatype Target = Target(bucket: string, key: string)

  /** The bucket is the first segment; the key is the other segments joined
      by `/` and then URL-decoded. The bucket is not decoded. */
  function ParsePath(path: string): (t: Target)
    ensures '/' !in t.bucket
    ensures t.bucket == "" <==> Segments(path) == []
    ensures t.bucket == "" ==> t.key == ""
  {
    var segs := Segments(path);
    var bucket := if |segs| > 0 then segs[0] else "";
    var key := if |segs| > 1 then UrlDecode(Implode('/', segs[1..])) else "";
    Target(bucket, key)
  }

  /** `ltrim($path, '/')` changes nothing once empty pieces are dropped. */
  lemma {:induction false} TrimIsRedundant(p: string)
    ensures NonEmpty(Explode('/', TrimLeft('/', p))) == NonEmpty(Explode('/', p))
    decreases |p|
  {
    if p != [] && p[0] == '/' {
      TrimIsRedundant(p[1..]);
      assert Explode('/', p) == [""] + Explode('/', p[1..]);
    }
  }

  /** The segments of `a/b` are those of `a` followed by those of `b`. */
  lemma SegmentsAround(a: string, b: string)
    ensures Segments(a + "/" + b) == Segments(a) + Segments(b)
  {
    TrimIsRedundant(a + "/" + b);
    TrimIsRedundant(a);
    TrimIsRedundant(b);
    ExplodeAround('/', a, b);
    NonEmptyAppend(Explode('/', a), Explode('/', b));
  }

  lemma NoSegmentsInEmpty()
    ensures Segments("") == []
  {
    assert Explode('/', "") == [""];
  }

  lemma SegmentsLeadingSlash(a: string)
    ensures Segments("/" + a) == Segments(a)
  {
    NoSegmentsInEmpty();
    assert "/" + a == "" + "/" + a;
    SegmentsAround("", a);
  }

  lemma SegmentsTrailingSlash(a: string)
    ensures Segments(a + "/") == Segments(a)
  {
    NoSegmentsInEmpty();
    assert a + "/" == a + "/" + "";
    SegmentsAround(a, "");
  }

  lemma SegmentsDoubleSlash(a: string, b: string)
    ensures Segments(a + "//" + b) == Segments(a + "/" + b)
  {
    calc {
      Segments(a + "//" + b);
      { assert a + "//" + b == a + "/" + ("/" + b); }
      Segments(a + "/" + ("/" + b));
      { SegmentsAround(a, "/" + b); }
      Segments(a) + Segments("/" + b);
      { SegmentsLeadingSlash(b); }
      Segments(a) + Segments(b);
      { SegmentsAround(a, b); }
      Segments(a + "/" + b);
    }
  }

  /** Repeated slashes do not change bucket or key. */
  lemma DoubleSlashCollapses(a: string, b: string)
    ensures ParsePath(a + "//" + b) == ParsePath(a + "/" + b)
  {
    SegmentsDoubleSlash(a, b);
  }

  /** A leading slash more or less does not change bucket or key. */
  lemma LeadingSlashCollapses(a: string)
    ensures ParsePath("/" + a) == ParsePath(a)
  {
    SegmentsLeadingSlash(a);
  }

  /** A trailing slash does not change bucket or key. */
  lemma TrailingSlashCollapses(a: string)
    ensures ParsePath(a + "/") == ParsePath(a)
  {
    SegmentsTrailingSlash(a);
  }

  lemma {:induction false} NonEmptyKeeps(parts: seq<string>)
    requires forall i :: 0 <= i < |parts| ==> parts[i] != ""
    ensures NonEmpty(parts) == parts
    decreases |parts|
  {
    if parts != [] {
      NonEmptyKeeps(parts[1..]);
      assert parts == [parts[0]] + parts[1..];
    }
  }

  lemma SegmentsOfName(name: string)
    requires name != "" && '/' !in name
    ensures Segments(name) == [name]
  {
    ExplodeNoDelimiter('/', name);
    TrimIsRedundant(name);
  }

  lemma SegmentsOfJoin(parts: seq<string>)
    requires forall i :: 0 <= i < |parts| ==> parts[i] != "" && '/' !in parts[i]
    ensures Segments(Implode('/', parts)) == parts
  {
    if parts == [] {
      NoSegmentsInEmpty();
    } else {
      TrimIsRedundant(Implode('/', parts));
      ExplodeImplode('/', parts);
      NonEmptyKeeps(parts);
    }
  }

  lemma SegmentsOfRooted(bucket: string, rest: string)
    requires bucket != "" && '/' !in bucket
    ensures Segments("/" + bucket + "/" + rest) == [bucket] + Segments(rest)
  {
    var tail := bucket + "/" + rest;
    calc {
      Segments("/" + bucket + "/" + rest);
      { assert "/" + bucket + "/" + rest == "/" + tail; }
      Segments("/" + tail);
      { SegmentsLeadingSlash(tail); }
      Segments(tail);
      { SegmentsAround(bucket, rest); }
      Segments(bucket) + Segments(rest);
      { SegmentsOfName(bucket); }
      [bucket] + Segments(rest);
    }
  }

  lemma SegmentsOfObjectPath(bucket: string, keyParts: seq<string>)
    requires bucket != "" && '/' !in bucket
    requires forall i :: 0 <= i < |keyParts| ==> keyParts[i] != "" && '/' !in keyParts[i]
    ensures Segments("/" + bucket + "/" + Implode('/', keyParts)) == [bucket] + keyParts
  {
    SegmentsOfRooted(bucket, Implode('/', keyParts));
    SegmentsOfJoin(keyParts);
  }

  /** A request for `/bucket` addresses that bucket and the empty key. */
  lemma ParsePathOfBucket(bucket: string)
    requires bucket != "" && '/' !in bucket
    ensures ParsePath("/" + bucket) == Target(bucket, "")
  {
    SegmentsLeadingSlash(bucket);
    SegmentsOfName(bucket);
  }

  /** A request for `/bucket/k1/.../kn` addresses that bucket and the key
      `k1/.../kn`, URL-decoded. */
  lemma ParsePathOfObject(bucket: string, keyParts: seq<string>)
    requires bucket != "" && '/' !in bucket
    requires |keyParts| >= 1
    requires forall i :: 0 <= i < |keyParts| ==> keyParts[i] != "" && '/' !in keyParts[i]
    ensures ParsePath("/" + bucket + "/" + Implode('/', keyParts))
         == Target(bucket, UrlDecode(Implode('/', keyParts)))
  {
    var segs := Segments("/" + bucket + "/" + Implode('/', keyParts));
    SegmentsOfObjectPath(bucket, keyParts);
    assert segs[0] == bucket;
    assert segs[1..] == keyParts;
  }

  // ---------------------------------------------------------------------
  // checkAuth
  // ---------------------------------------------------------------------

  /** `checkAuth`: the `Authorization` header is not empty and contains
      `Credential=` followed by the access key. No signature is checked. */
  function CheckAuth(authorization: string, accessKey: string): bool
  {
    !Falsy(authorization) && StrPos(authorization, "Credential=" + accessKey).Some?
  }

  /** The emptiness test is subsumed: the credential check is exactly a
      substring test. */
  lemma CheckAuthIsSubstringTest(authorization: string, accessKey: string)
    ensures CheckAuth(authorization, accessKey)
        <==> exists i :: MatchAt(authorization, "Credential=" + accessKey, i)
  {
    var needle := "Credential=" + accessKey;
    if exists i :: MatchAt(authorization, needle, i) {
      var i :| MatchAt(authorization, needle, i);
      assert |authorization| >= |needle| >= 11;
    }
  }

  /** Any header that carries the credential field passes, signed or not. */
  lemma AnyHeaderWithCredentialPasses(prefix: string, accessKey: string, rest: string)
    ensures CheckAuth(prefix + "Credential=" + accessKey + rest, accessKey)
  {
    var needle := "Credential=" + accessKey;
    assert prefix + "Credential=" + accessKey + rest == prefix + needle + rest;
    OccursInside(prefix, needle, rest);
    CheckAuthIsSubstringTest(prefix + needle + rest, accessKey);
  }

  // ---------------------------------------------------------------------
  // getMimeType (the table part)
  // ---------------------------------------------------------------------

  const MimeTypes: map<string, string> := map[
    "mp4" := "video/mp4", "webm" := "video/webm", "mkv" := "video/x-matroska",
    "mp3" := "audio/mpeg", "wav" := "audio/wav", "ogg" := "audio/ogg",
    "m4a" := "audio/mp4", "aac" := "audio/aac",
    "jpg" := "image/jpeg", "jpeg" := "image/jpeg", "png" := "image/png",
    "gif" := "image/gif", "webp" := "image/webp",
    "pdf" := "application/pdf", "txt" := "text/plain", "xml" := "application/xml",
    "json" := "application/json", "html" := "text/html", "css" := "text/css",
    "js" := "application/javascript"]

  /** The table lookup of `getMimeType` on the lower-cased extension; `None`
      means the foreign sniffer (`mime_content_type`) decides. */
  function MimeType(path: string): Option<string>
  {
    var ext := Lower(Extension(path));
    if ext in MimeTypes then Some(MimeTypes[ext]) else None
  }

  /** A file `dir/stem.ext` gets the table's type for `ext` in any letter
      case, and goes to the sniffer otherwise. */
  lemma MimeTypeOfName(dir: string, stem: string, ext: string)
    requires '/' !in stem && '/' !in ext && '.' !in ext && ext != ""
    ensures MimeType(dir + "/" + stem + "." + ext)
         == if Lower(ext) in MimeTypes then Some(MimeTypes[Lower(ext)]) else None
  {
    ExtensionOfName(dir, stem, ext);
  }

  // ---------------------------------------------------------------------
  // The Range header
  // ---------------------------------------------------------------------

  /** The two numbers of `bytes=first-last`, unchecked. */
  datatype ByteRange = ByteRange(first: int, last: int)

  /** How the GET handler reads a (non-empty) `Range` header: the unit must
      be `bytes`; `first` is `intval` of what precedes the first `-`; an
      empty `last` means the last byte of the file, and a missing `-` gives
      `intval(null)`, that is 0. Nothing is validated. */
  function ParseRange(header: string, size: int): (r: Option<ByteRange>)
    ensures r.Some? <==> Explode('=', header)[0] == "bytes"
    ensures r.Some? ==> r.value.first >= 0
    ensures r.Some? && r.value.last < 0 ==> r.value.last == size - 1
  {
    var parts := Explode('=', header);
    if parts[0] != "bytes" then None
    else
      var spec := if |parts| > 1 then parts[1] else "";
      var bounds := Explode('-', spec);
      ExplodePieces('-', spec);
      var first := IntVal(bounds[0]);
      var last := if |bounds| == 1 then 0
                  else if bounds[1] == "" then size - 1
                  else IntVal(bounds[1]);
      Some(ByteRange(first, last))
  }

  lemma DecimalHasNo(c: char, n: nat)
    requires !IsDigit(c)
    ensures c !in Decimal(n)
  {
  }

  /** Two delimiter-free pieces around one delimiter. */
  lemma ExplodePair(d: char, x: string, y: string)
    requires d !in x && d !in y
    ensures Explode(d, x + [d] + y) == [x, y]
  {
    ExplodeAround(d, x, y);
    ExplodeNoDelimiter(d, x);
    ExplodeNoDelimiter(d, y);
  }

  /** How `bytes=` and the rest split. */
  lemma RangeUnit(spec: string)
    requires '=' !in spec
    ensures Explode('=', "bytes=" + spec) == ["bytes", spec]
  {
    assert "bytes=" + spec == "bytes" + ['='] + spec;
    ExplodePair('=', "bytes", spec);
  }

  /** `bytes=s-e` reads as the range from `s` to `e`. */
  lemma ParseClosedRange(s: nat, e: nat, size: int)
    ensures ParseRange("bytes=" + Decimal(s) + "-" + Decimal(e), size) == Some(ByteRange(s, e))
  {
    var ds, de := Decimal(s), Decimal(e);
    var spec := ds + ['-'] + de;
    DecimalHasNo('=', s);
    DecimalHasNo('=', e);
    DecimalHasNo('-', s);
    DecimalHasNo('-', e);
    assert '=' !in spec;
    assert "bytes=" + ds + "-" + de == "bytes=" + spec;
    RangeUnit(spec);
    ExplodePair('-', ds, de);
    IntValDecimal(s, "");
    IntValDecimal(e, "");
    assert ds + "" == ds && de + "" == de;
  }

  /** `bytes=s-` reads as the range from `s` to the last byte. */
  lemma ParseOpenRange(s: nat, size: int)
    ensures ParseRange("bytes=" + Decimal(s) + "-", size) == Some(ByteRange(s, size - 1))
  {
    var ds := Decimal(s);
    var spec := ds + ['-'] + "";
    DecimalHasNo('=', s);
    DecimalHasNo('-', s);
    assert '=' !in spec;
    assert "bytes=" + ds + "-" == "bytes=" + spec;
    RangeUnit(spec);
    ExplodePair('-', ds, "");
    IntValDecimal(s, "");
    assert ds + "" == ds;
  }

  /** A suffix range `bytes=-n` (the last `n` bytes in RFC 7233, section
      2.1) is read as the range from 0 to `n`. */
  lemma ParseSuffixRange(n: nat, size: int)
    ensures ParseRange("bytes=-" + Decimal(n), size) == Some(ByteRange(0, n))
  {
    var dn := Decimal(n);
    var spec := "" + ['-'] + dn;
    DecimalHasNo('=', n);
    DecimalHasNo('-', n);
    assert '=' !in spec;
    assert "bytes=-" + dn == "bytes=" + spec;
    RangeUnit(spec);
    ExplodePair('-', "", dn);
    assert IntVal("") == 0;
    IntValDecimal(n, "");
    assert dn + "" == dn;
  }

  // ---------------------------------------------------------------------
  // Dispatch
  // ---------------------------------------------------------------------

  /** The branch of the handler a request reaches. `Preflight` is the
      answer to `OPTIONS`, given before the path is even parsed; `Route`
      is only asked about other methods and never returns it. */
  datatype Operation =
    | Preflight
    | ListBuckets
    | NoServiceAction
    | CreateBucket
    | HeadBucket
    | ListObjects
    | NoBucketAction
    | BucketMissing
    | InitiateUpload
    | UploadPart
    | CompleteUpload
    | AbortUpload
    | PutObject
    | GetObject
    | HeadObject
    | DeleteObject
    | MethodNotAllowed

  /** The branches that call `checkAuth` before doing anything. */
  predicate RequiresAuth(op: Operation)
  {
    op in {ListBuckets, CreateBucket, ListObjects, InitiateUpload, UploadPart,
           CompleteUpload, AbortUpload, PutObject, DeleteObject}
  }

  /** A request on an object of an existing bucket. */
  predicate ObjectLevel(t: Target, bucketExists: bool)
  {
    !Falsy(t.bucket) && !Falsy(t.key) && bucketExists
  }

  /** The order of the branches: no bucket (a falsy bucket such as `"0"`
      counts as none), then bucket without key (a key `"0"` counts as none),
      then the existence check of the bucket, then initiate, upload part,
      complete and abort, then the plain object methods, then 405. The
      clauses below say, for each branch, exactly which requests reach it. */
  function Route(verb: string, t: Target, query: map<string, string>, bucketExists: bool): (op: Operation)
    ensures op != Preflight
    ensures op == ListBuckets <==> Falsy(t.bucket) && verb == "GET"
    ensures op == NoServiceAction <==> Falsy(t.bucket) && verb != "GET"
    ensures op == CreateBucket <==> !Falsy(t.bucket) && Falsy(t.key) && verb == "PUT"
    ensures op == HeadBucket <==> !Falsy(t.bucket) && Falsy(t.key) && verb == "HEAD"
    ensures op == ListObjects <==> !Falsy(t.bucket) && Falsy(t.key) && verb == "GET"
    ensures op == NoBucketAction
        <==> !Falsy(t.bucket) && Falsy(t.key) && verb !in {"PUT", "HEAD", "GET"}
    ensures op == BucketMissing <==> !Falsy(t.bucket) && !Falsy(t.key) && !bucketExists
    ensures op == InitiateUpload
        <==> ObjectLevel(t, bucketExists) && "uploads" in query && verb == "POST"
    ensures op == UploadPart
        <==> ObjectLevel(t, bucketExists) && "uploadId" in query && "partNumber" in query && verb == "PUT"
    ensures op == CompleteUpload
        <==> ObjectLevel(t, bucketExists) && "uploads" !in query && "uploadId" in query && verb == "POST"
    ensures op == AbortUpload
        <==> ObjectLevel(t, bucketExists) && "uploadId" in query && verb == "DELETE"
    ensures op == PutObject
        <==> ObjectLevel(t, bucketExists) && verb == "PUT" && !("uploadId" in query && "partNumber" in query)
    ensures op == GetObject <==> ObjectLevel(t, bucketExists) && verb == "GET"
    ensures op == HeadObject <==> ObjectLevel(t, bucketExists) && verb == "HEAD"
    ensures op == DeleteObject
        <==> ObjectLevel(t, bucketExists) && verb == "DELETE" && "uploadId" !in query
    ensures op == MethodNotAllowed
        <==> ObjectLevel(t, bucketExists)
             && (verb !in {"PUT", "GET", "HEAD", "DELETE", "POST"}
                 || (verb == "POST" && "uploads" !in query && "uploadId" !in query))
  {
    if Falsy(t.bucket) then
      if verb == "GET" then ListBuckets else NoServiceAction
    else if Falsy(t.key) then
      if verb == "PUT" then CreateBucket
      else if verb == "HEAD" then HeadBucket
      else if verb == "GET" then ListObjects
      else NoBucketAction
    else if !bucketExists then BucketMissing
    else if "uploads" in query && verb == "POST" then InitiateUpload
    else if "uploadId" in query && "partNumber" in query && verb == "PUT" then UploadPart
    else if "uploadId" in query && verb == "POST" then CompleteUpload
    else if "uploadId" in query && verb == "DELETE" then AbortUpload
    else if verb == "PUT" then PutObject
    else if verb == "GET" then GetObject
    else if verb == "HEAD" then HeadObject
    else if verb == "DELETE" then DeleteObject
    else MethodNotAllowed
  }
}
