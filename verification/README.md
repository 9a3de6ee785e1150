# A single-script S3 gateway, modelled in Dafny

The system is a small S3-compatible object store written as one PHP script,
`index.php`, with a companion clean-up script, `cron.php`.

- **Storage.** Buckets are directories below a storage directory. Objects
  are files in them, with the key as a relative path.
- **Requests.** Every request is split into a bucket and a key. The
  request method and query decide the branch. Most branches first check
  an `Authorization` header for `Credential=<access key>`.
- **Multipart uploads.** These are staged in
  `.multipart/<bucket>/<uploadId>`, one `<n>.part` file per part.
  Completing an upload concatenates the listed parts into the object.
- **Ranged GETs.** These are streamed in chunks of 8192 bytes.
- **Expiry sweep.** `cron.php` deletes every regular file older than a
  configured number of hours below each configured "temporary" bucket,
  and reports how many files it scanned and deleted.

The model is organised as follows:

| file | module | contents |
|---|---|---|
| `php_strings.dfy` | `PhpStrings` | the PHP string built-ins the scripts depend on: `explode`/`implode`, `ltrim`, `strpos`, `urldecode`, `intval`, `strtolower`, `basename`, `pathinfo(..., PATHINFO_EXTENSION)` and PHP truthiness |
| `filestore.dfy` | `FileStore` | the storage directory as a class `FileSystem`, a map of files (bytes and modification time) and a set of directories; its methods are `mkdir -p`, `fopen 'w'`, append, `unlink` and `rmdir`, and its functions are `glob`, `is_dir` and the recursive walk |
| `http.dfy` | `Http` | responses as values: status, the headers the handlers set, a body |
| `routing.dfy` | `Routing` | path parsing, `checkAuth`, the MIME table, the `Range` parser and the branch order of the dispatcher |
| `range_stream.dfy` | `RangeStream` | the chunked streaming loop of a ranged GET |
| `objects.dfy` | `Objects` | bucket and object handlers |
| `multipart.dfy` | `Multipart` | initiate, upload part, complete and abort |
| `gateway.dfy` | `Gateway` | the whole request handler |
| `sweeper.dfy` | `Sweeper` | `cron.php` |
| `scenarios.dfy` | `Scenarios` | end-to-end runs of the handlers, and of the whole request handler, on concrete storage states |

Five behaviours of the code are modelled as written:

- A suffix range `bytes=-n` is read as bytes `0..n`, because `intval("")`
  is 0.
- A ranged GET announces `Content-Length` from the requested bounds alone.
  It therefore sends fewer bytes than announced when the range ends past
  the file.
- `empty()` treats a `cron_secret_key` of `"0"` like a missing one, so web
  requests are then always refused.
- The key file an upload stores is never read back. Completion takes the
  key from the request path.
- A part numbered `""` is stored as the hidden file `.part`. `glob` does
  not see it, so abort and complete leave it and its directory behind.

## Model

| member | source | states |
|---|---|---|
| PhpStrings.ImplodeExplode | index.php:172-178 | joining the pieces of `explode` with the same delimiter gives back the original string |
| PhpStrings.ExplodeImplode | index.php:172-178 | splitting a join of delimiter-free pieces gives back exactly those pieces |
| PhpStrings.ExplodeAround | index.php:172 | `explode` of `a.d.b` is the pieces of `a` followed by the pieces of `b` |
| PhpStrings.NonEmptyAppend | index.php:173 | dropping empty pieces distributes over concatenation |
| PhpStrings.TrimLeft | index.php:172 | `ltrim` removes exactly the leading run of the character and leaves a suffix of the input |
| PhpStrings.StrPos | index.php:153 | `strpos` finds the first position where the needle occurs, and fails exactly when it occurs nowhere |
| PhpStrings.UrlDecodePlain | index.php:179 | `urldecode` leaves a string without `%` and `+` unchanged |
| PhpStrings.UrlDecodePercentEncode | index.php:179 | `urldecode` inverts percent-encoding of every byte string |
| PhpStrings.IntValDecimal | index.php:446-447 | `intval` of a decimal numeral, signed or not, followed by a non-digit, is the number it denotes |
| PhpStrings.BasenameOfChild | index.php:437 | `basename("dir/name")` is `name` |
| PhpStrings.ExtensionOfName | index.php:122 | the extension of `dir/stem.ext` is `ext` |
| FileStore.FileSystem.constructor | index.php:105-106 | the storage directory exists and is empty |
| FileStore.FileSystem.Mkdirs | index.php:215 | recursive `mkdir` adds every prefix of the path unless one of them is a regular file, in which case nothing changes; files are untouched and the store stays well-formed |
| FileStore.FileSystem.EnsureDir | index.php:343 | `if (!is_dir) mkdir -p`: directories become the prepared set, which contains the old one |
| FileStore.FileSystem.WriteFile | index.php:345 | opening for writing succeeds exactly when the parent is a directory and the path is not one; on success the file is replaced by the data, otherwise nothing changes |
| FileStore.FileSystem.AppendFile | index.php:353 | the file's bytes become the old bytes followed by the appended ones |
| FileStore.FileSystem.Unlink | index.php:366 | `unlink` succeeds exactly when the path is a regular file, which is then gone; directories are untouched |
| FileStore.FileSystem.Rmdir | index.php:367 | `rmdir` succeeds exactly when the path is an empty directory other than the storage directory, which is then removed |
| Routing.ParsePath | index.php:171-179 | the bucket is one segment without `/`, empty exactly when the path has no segments, and then so is the key |
| Routing.SegmentsAround | index.php:172-174 | the segments of `a/b` are those of `a` followed by those of `b` |
| Routing.DoubleSlashCollapses | index.php:172-174 | doubled slashes do not change bucket or key |
| Routing.LeadingSlashCollapses | index.php:172-174 | an extra leading slash does not change bucket or key |
| Routing.TrailingSlashCollapses | index.php:172-174 | a trailing slash does not change bucket or key |
| Routing.ParsePathOfBucket | index.php:171-179 | `/bucket` addresses that bucket and the empty key |
| Routing.ParsePathOfObject | index.php:171-179 | `/bucket/k1/.../kn` addresses that bucket and the URL-decoded key `k1/.../kn` |
| Routing.CheckAuthIsSubstringTest | index.php:143-158 | the credential check passes exactly when `Credential=<access key>` occurs in the header |
| Routing.AnyHeaderWithCredentialPasses | index.php:143-158 | any header that contains the credential passes, whatever surrounds it and without a signature check |
| Routing.MimeTypeOfName | index.php:121-134 | a file `stem.ext` gets the table entry of the lower-cased `ext`, and is sent to the sniffer when there is none |
| Routing.ParseRange | index.php:442-447 | a range is acted on exactly when the unit before `=` is `bytes`; the first byte is never negative; the last byte is negative only when it defaults to the last byte of an empty file |
| Routing.ParseClosedRange | index.php:442-447 | `bytes=s-e` reads as the range `s..e` |
| Routing.ParseOpenRange | index.php:442-447 | `bytes=s-` reads as the range from `s` to the last byte of the file |
| Routing.ParseSuffixRange | index.php:442-447 | the suffix range `bytes=-n` reads as `0..n`, not as the last `n` bytes |
| Routing.Route | index.php:184-501 | for each branch, exactly which method, path and query reach it, in the order the handler tries them |
| RangeStream.RangeBytes | index.php:454-466 | a range inside the file delivers exactly its `last - first + 1` bytes; one that ends past the file delivers fewer than announced |
| RangeStream.StreamRange | index.php:454-466 | the loop sends chunks of 1 to 8192 bytes whose concatenation is the bytes of the range; it sends nothing exactly when the range is empty or starts past the file |
| Objects.StagingNeverGlobbed | index.php:192-194 | the `.multipart` filter removes nothing, because `glob` never returns the hidden staging directory |
| Objects.BucketEntries | index.php:192-198 | one entry per visible directory and no other entry |
| Objects.ListAllBuckets | index.php:185-202 | status 200 with one entry per bucket directory and no other entry |
| Objects.CreateBucket | index.php:208-222 | the bucket directory exists afterwards unless a file has that name; files untouched; status 200 |
| Objects.HeadBucket | index.php:223-230 | 200 exactly when the bucket is a directory, 404 otherwise, no body |
| Objects.ObjectEntries | index.php:240-252 | one entry per kept file, with the key relative to the bucket |
| Objects.ListObjects | index.php:231-254 | status 200 with one entry per listed file below the bucket, none for names mentioning `.multipart` |
| Objects.PutObject | index.php:394-420 | prepares the object's directory; if the object is writable, it then holds the body and the answer carries its MD5; otherwise files are unchanged and the answer is InternalError |
| Objects.GetObject | index.php:422-474 | NoSuchKey when the file is missing; otherwise the whole file with 200, or for a range 206, the range headers and exactly the bytes the range delivers |
| Objects.HeadObject | index.php:476-487 | 200 exactly when the object exists, with the headers of a whole-file GET (type, length, ETag, modification time) minus `Accept-Ranges` and the inline name; otherwise a bare 404; never a body |
| Objects.DeleteObject | index.php:489-498 | the object file is gone, nothing else changes, and the answer is 204 either way |
| Multipart.StagedPathsBelowStaging | index.php:275 | everything an upload stages lies below `.multipart` |
| Multipart.ObjectNotStaged | index.php:265 | in a bucket other than `.multipart` an object never sits in an upload directory and is never a part file |
| Multipart.UnlinkAll | index.php:366 | unlinking every globbed file removes exactly those files |
| Multipart.GlobbedFiles | index.php:365 | the files `glob` returns in an upload directory are its non-hidden files |
| Multipart.RemoveStaging | index.php:364-367 | clean-up removes the staged files and removes the directory exactly when nothing is left in it |
| Multipart.Initiate | index.php:269-281 | creates the upload directory; the key file is written exactly when that directory exists and the key-file path is not a directory, and otherwise the files are unchanged; the answer names bucket, key and upload id |
| Multipart.UploadPart | index.php:284-318 | NoSuchUpload without the upload directory; otherwise the part file holds the body |
| Multipart.Abort | index.php:377-390 | removes the staged files and the directory unless something hidden remains; no change without the upload; 204 either way |
| Multipart.AssembleAppend | index.php:346-361 | assembling a list of parts is assembling its halves one after the other |
| Multipart.AssembleSkipsMissing | index.php:346-361 | parts that were never uploaded contribute nothing |
| Multipart.AppendParts | index.php:346-361 | the object ends as the concatenation of the listed parts that exist, in the listed order |
| Multipart.AssembleIgnores | index.php:346-361 | rewriting the object does not change what the parts assemble to |
| Multipart.ObjectBesideUpload | index.php:343-367 | creating the object does not change the staged files or the leftover test of the upload directory |
| Multipart.Finish | index.php:343-373 | InternalError and no file change when the object cannot be written; otherwise the object holds the assembled parts, the staging is cleared and the answer names the location |
| Multipart.Complete | index.php:321-374 | NoSuchUpload without the upload; MalformedXML without a well-formed body; otherwise as Finish |
| Gateway.WritersRequireAuth | index.php:184-501 | every branch that changes storage checks the credential |
| Gateway.ServeBucket | index.php:184-263 | each service and bucket branch does what its handler promises: the bucket list, `mkdir` of the bucket with its location, 200/404 for HEAD, the listing or NoSuchBucket, NoSuchBucket before an object branch, 200 for other bucket methods, 405 last; only `PUT /bucket` changes storage |
| Gateway.ServeUpload | index.php:269-390 | initiate, upload part, complete and abort each change storage and answer exactly as their handlers promise, with the upload id and part number taken from the query |
| Gateway.ServeObject | index.php:394-498 | PUT stores the body, GET answers the whole file or the range, HEAD answers the headers, DELETE removes the file with 204; GET and HEAD change nothing |
| Gateway.Handle | index.php:71-501 | `OPTIONS` gets 200 and changes nothing; otherwise 403 exactly when the branch asks for the credential and the request lacks it, and else the branch's effect and answer; storage changes only in an authorized writing branch; NoSuchBucket before any object branch; 405 for other methods |
| Sweeper.DeletedAtMostScanned | cron.php:59-74 | the sweep never deletes more files than it scans |
| Sweeper.SweptFiles | cron.php:45-76 | a file survives the sweep exactly when no existing configured bucket holding it has expired it, and survivors are unchanged |
| Sweeper.BoundaryKept | cron.php:66-67 | a file no older than the limit of every configured bucket that holds it is kept, even at exactly the limit (the comparison is strict) |
| Sweeper.OutsideUntouched | cron.php:48-50 | files outside every configured bucket are untouched |
| Sweeper.MissingBucketSkipped | cron.php:49-50 | a configured bucket that is not a directory changes neither files nor counters |
| Sweeper.VisitFile | cron.php:64-72 | one visited file is deleted exactly when it is older than the limit |
| Sweeper.SweepFiles | cron.php:59-74 | the loop removes exactly the expired files it visits and counts the visited and the deleted |
| Sweeper.SweepBucket | cron.php:49-74 | one bucket: removes exactly its expired files; scanned counts its files, deleted its expired ones |
| Sweeper.SweepAll | cron.php:45-76 | the loop over buckets reaches the state and counters of the sweep function |
| Sweeper.Cron | cron.php:18-92 | 500 without configuration and 403 for an unadmitted web request, both without changes; zero counts without temporary buckets; otherwise the result of the sweep |
| Scenarios.PutThenGet | index.php:394-474 | a stored `cat.jpg` reads back whole as `image/jpeg` with its length |
| Scenarios.CatIsJpeg | index.php:121-134 | `cat.jpg` is served as `image/jpeg` |
| Scenarios.PathOfName | index.php:171-179 | `/bucket/name` addresses `name` in that bucket when URL-decoding leaves the name alone |
| Scenarios.HandleCreate | index.php:184-222 | `PUT /bucket` with the credential, sent through the whole handler to an empty store, makes exactly that bucket |
| Scenarios.HandlePut | index.php:184-420 | `PUT /bucket/name` sent through the whole handler stores the body as the bucket's only object and makes no directory |
| Scenarios.HandleGet | index.php:184-474 | `GET /bucket/name` sent through the whole handler answers 200 with the whole-file headers and the stored body |
| Scenarios.HandlePutThenGet | index.php:71-501 | the three requests sent through the handler read `cat.jpg` back whole as `image/jpeg` with its length |
| Scenarios.PartsInAnyOrder | index.php:269-374 | parts uploaded in any order assemble in the listed order, and the staging directory is gone afterwards |
| Scenarios.AbortThenComplete | index.php:321-390 | completing an aborted upload answers NoSuchUpload |
| Scenarios.HiddenPartSurvivesAbort | index.php:377-390 | an empty part number leaves a hidden `.part` file and its directory behind after abort |
| Scenarios.SuffixRangeReadsFromStart | index.php:442-466 | `bytes=-3` on a ten-byte object sends the first four bytes with `Content-Range: bytes 0-3/10` |
| Scenarios.StagingKeyUnlisted | index.php:231-254 | a key containing `.multipart` is stored but never listed |

## Left out

- The command-line passthrough, the maintenance page and the CORS headers sent with every answer are not modelled. They produce no storage effect. An `OPTIONS` request is modelled as its bare 200.
- Logging and the top-level exception handler are not modelled. They write only to logs or send a generic 500.
- XML text, escaping, request ids and date formatting are not modelled. Documents are kept as their fields.
- MD5, the MIME sniffer (`mime_content_type`), the clock, the upload id and directory modification times are inputs (`Env`, `freshId`, `now`). They are foreign or nondeterministic.
- Paths are opaque strings. `.`, `..` and the host filesystem's own path rules are not normalised, so path traversal is outside the model.
- A key that names a directory: `file_exists` is true for directories in PHP, but the model answers GET and HEAD with 404. For GET, reading the directory fails at run time in a way the model does not capture. For HEAD (index.php:476-486) PHP answers 200 with the directory's size and modification time, where the model answers 404.
- `intval` is modelled for whitespace, sign and digits. It does not model exponents, fractions or 64-bit saturation.
- Listings are sets. The order in which `glob` and the directory iterator return entries is not modelled.
- Concurrency is not modelled, including files that vanish between `glob` and `unlink`.
- Sweeper.Expired: limits in hours are integers. Fractional hours and the rounding in the log line are left out.
- The log text the sweeper builds and its command-line output format are not modelled. Only the two counters are kept.
- Array-valued query parameters and the fallback to `$_GET` when the parsed query is empty (index.php:167-169) are not modelled.
- The request URI is split by `parse_url` and `parse_str` (index.php:161-166) outside the model. `Request.path` and `Request.query` are their results. `parse_url` reads a URI that starts with `//` as naming a host: `//b/k` has the path `/k` and addresses bucket `k`, and `//b` has no path at all. So Routing.LeadingSlashCollapses holds for the path component, not for the raw request URI.
- Multipart.Complete: the content of the completed object is stated only for buckets other than `.multipart`. In that bucket the object path can coincide with a staged part.
- Multipart.Finish: same restriction as Complete.
- The `Host` header is an input. Header-name lookup and case folding are not modelled.
- `md5_file` failing and `fopen('php://input')` failing are not modelled.
- Loading `config.php`, the `rtrim` of `base_dir`, `mt.php` and `config.example.php` are not part of this model.
