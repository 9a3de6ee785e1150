/** Responses of the gateway as values: a status code, the headers the
    handlers set, and a body. XML documents are kept as their fields; their
    text, the request id and date formatting are not modelled. */
module Http {
  import opened PhpStrings

  /** The error codes `sendError` is called with. */
  datatype ErrorCode =
    | AccessDenied
    | NoSuchBucket
    | NoSuchKey
    | NoSuchUpload
    | MalformedXML
    | InternalError

  /** The HTTP status each error is sent with. */
  function ErrorStatus(code: ErrorCode): (status: int)
    ensures 400 <= status < 600
  {
    match code
    case AccessDenied => 403
    case NoSuchBucket => 404
    case NoSuchKey => 404
    case NoSuchUpload => 404
    case MalformedXML => 400
    case InternalError => 500
  }

  /** A `<Bucket>` entry of the bucket list. */
  datatype BucketEntry = BucketEntry(name: string, creationTime: int)

  /** A `<Contents>` entry of an object list. */
  datatype ObjectEntry = ObjectEntry(key: string, lastModified: int, etag: string, size: nat)

  datatype Body =
    | Empty
    | ErrorDoc(code: ErrorCode, resource: string)
    | BucketList(buckets: seq<BucketEntry>)
    | ObjectList(bucket: string, contents: seq<ObjectEntry>)
    | Initiated(bucket: string, key: string, uploadId: string)
    | Completed(location: string, bucket: string, key: string, etag: string)
    | Content(data: string)
    | Chunks(chunks: seq<string>)

  /** A `Content-Type`: a name, or whatever the foreign MIME sniffer says. */
  datatype MediaType = Named(name: string) | Sniffed

  /** `Content-Range: bytes first-last/total`. */
  datatype ContentRange = ContentRange(first: int, last: int, total: nat)

  /** The headers the handlers set; `etag` is the hash between the quotes. */
  datatype Headers = Headers(
    contentType: Option<MediaType>,
    contentLength: Option<int>,
    contentRange: Option<ContentRange>,
    etag: Option<string>,
    lastModified: Option<int>,
    location: Option<string>,
    inlineName: Option<string>,
    acceptRanges: bool)

  const NoHeaders: Headers := Headers(None, None, None, None, None, None, None, false)

  const XmlHeaders: Headers := NoHeaders.(contentType := Some(Named("application/xml")))

  datatype Response = Response(status: int, headers: Headers, body: Body)

  /** `sendXml`: an XML document with status 200. */
  function XmlResponse(body: Body): Response
  {
    Response(200, XmlHeaders, body)
  }

  /** `sendError`: the error document with the status of its code. */
  function ErrorResponse(code: ErrorCode, resource: string): Response
  {
    Response(ErrorStatus(code), XmlHeaders, ErrorDoc(code, resource))
  }

  /** A response with only a status: `http_response_code($s); exit;`. */
  function StatusOnly(status: int): Response
  {
    Response(status, NoHeaders, Empty)
  }
}
