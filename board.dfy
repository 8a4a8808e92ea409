/**
 * The board service's two stores and its operations, as values: the object store (key to
 * bytes and declared content type), the post table with the id the next saved post gets,
 * and what register, getList, getDetail and download make of them.
 */
module Board {
  import opened Outcomes
  import opened JavaText
  import opened Naming

  type Bytes = seq<bv8>

  /** One board entry; `filePath` is the locator of its attachment, null when it has none. */
  datatype Post = Post(
    idx: int,
    title: Option<string>,
    writer: Option<string>,
    content: Option<string>,
    filePath: Option<string>)

  /** A multipart upload: the client's file name and content type (either may be null)
      and the file's bytes. */
  datatype UploadFile = UploadFile(originalFilename: Option<string>, contentType: Option<string>, bytes: Bytes)

  /** The register request: the form fields and the optional file. */
  datatype BoardRequest = BoardRequest(
    title: Option<string>,
    writer: Option<string>,
    content: Option<string>,
    file: Option<UploadFile>)

  /** What the object store holds under a key. */
  datatype StoredObject = StoredObject(bytes: Bytes, contentType: Option<string>)

  /** The storage endpoint and bucket name read from the configuration. */
  datatype Config = Config(endPoint: string, bucketName: string)

  /** The object store, the post table and the id the post table assigns next. */
  datatype Stores = Stores(objects: map<string, StoredObject>, posts: map<int, Post>, nextId: int)

  /** The download response: 404, or the bytes framed as an attachment with a file name. */
  datatype Response =
    | NotFound
    | Attachment(body: Bytes, filename: string, contentType: string, contentLength: int)

  const OctetStream: string := "application/octet-stream"

  /** Ids are assigned from 1 upwards; every post is stored under its own id, below `nextId`. */
  predicate WellFormed(s: Stores) {
    && 1 <= s.nextId
    && forall id :: id in s.posts ==> 1 <= id < s.nextId && s.posts[id].idx == id
  }

  /** `file != null && !file.isEmpty()`. */
  predicate HasAttachment(req: BoardRequest) {
    req.file.Some? && |req.file.value.bytes| != 0
  }

  /** Java string concatenation turns a null file name into the text "null". */
  function NameOf(f: UploadFile): string {
    if f.originalFilename.Some? then f.originalFilename.value else "null"
  }

  function KeyFor(f: UploadFile, token: string): string {
    MakeKey(token, NameOf(f))
  }

  /** The stores after `register`: with a non-empty file, the bytes go under the key and a
      post carrying the locator of that key is saved under the next id; otherwise nothing. */
  function Registered(cfg: Config, s: Stores, req: BoardRequest, token: string): (s': Stores)
    ensures !HasAttachment(req) ==> s' == s
    ensures HasAttachment(req) ==>
      var f := req.file.value;
      var key := KeyFor(f, token);
      && s'.objects.Keys == s.objects.Keys + {key}
      && s'.objects[key] == StoredObject(f.bytes, f.contentType)
      && (forall k :: k in s.objects && k != key ==> s'.objects[k] == s.objects[k])
      && s'.posts.Keys == s.posts.Keys + {s.nextId}
      && s'.posts[s.nextId] ==
           Post(s.nextId, req.title, req.writer, req.content, Some(Locator(cfg.endPoint, cfg.bucketName, key)))
      && (forall id :: id in s.posts && id != s.nextId ==> s'.posts[id] == s.posts[id])
      && s'.nextId == s.nextId + 1
  {
    if !HasAttachment(req) then s
    else
      var f := req.file.value;
      var key := KeyFor(f, token);
      var savedPath := Locator(cfg.endPoint, cfg.bucketName, key);
      var board := Post(s.nextId, req.title, req.writer, req.content, Some(savedPath));
      Stores(s.objects[key := StoredObject(f.bytes, f.contentType)], s.posts[s.nextId := board], s.nextId + 1)
  }

  /** The posts with ids below `n`, in ascending id order. */
  function Rows(posts: map<int, Post>, n: int): (rows: seq<Post>)
    requires forall id :: id in posts ==> 1 <= id && posts[id].idx == id
    decreases n
    ensures forall i :: 0 <= i < |rows| ==>
      rows[i].idx in posts && posts[rows[i].idx] == rows[i] && rows[i].idx < n
    ensures forall id :: id in posts && id < n ==> posts[id] in rows
    ensures forall i, j :: 0 <= i < j < |rows| ==> rows[i].idx < rows[j].idx
  {
    if n <= 1 then []
    else Rows(posts, n - 1) + (if n - 1 in posts then [posts[n - 1]] else [])
  }

  /** `findAll`: every post, in ascending id order. */
  function Listing(s: Stores): seq<Post>
    requires WellFormed(s)
  {
    Rows(s.posts, s.nextId)
  }

  /** `getDetail`: the stored post, or IllegalArgumentException when there is none. */
  function Detail(s: Stores, id: int): (r: Result<Post, Thrown>)
    ensures r.Ok? <==> id in s.posts
    ensures r.Ok? ==> r.value == s.posts[id]
    ensures r.Err? ==> r.error == IllegalArgument
  {
    if id in s.posts then Ok(s.posts[id]) else Err(IllegalArgument)
  }

  /** A null or blank file path: the post has no attachment to serve. */
  predicate NoAttachment(path: Option<string>) {
    path.None? || IsBlank(path.value)
  }

  /** The post's attachment is stored, but its display name is blank: the attachment
      header builder (`ContentDisposition.Builder.filename`) rejects it with
      IllegalArgumentException, as its `Assert.hasText` demands some non-whitespace text. */
  predicate RejectedName(cfg: Config, s: Stores, id: int) {
    && id in s.posts
    && !NoAttachment(s.posts[id].filePath)
    && var key := ExtractKey(s.posts[id].filePath.value, cfg.bucketName);
    && key.Ok? && key.value in s.objects
    && IsBlank(DisplayName(key.value))
  }

  /** `download`: a missing post throws; a post without attachment gives 404; otherwise
      the key is cut out of the locator and the stored bytes are framed as an attachment
      named after the key's display name, which must not be blank. */
  function Download(cfg: Config, s: Stores, id: int): (r: Result<Response, Thrown>)
    ensures r == Err(IllegalArgument) <==> id !in s.posts || RejectedName(cfg, s, id)
    ensures r == Ok(NotFound) <==> id in s.posts && NoAttachment(s.posts[id].filePath)
    ensures r.Ok? && r.value.Attachment? ==>
      && r.value.contentType == OctetStream
      && r.value.contentLength == |r.value.body|
      && Separator !in r.value.filename
    ensures id in s.posts && !NoAttachment(s.posts[id].filePath) ==>
      var key := ExtractKey(s.posts[id].filePath.value, cfg.bucketName);
      && (key.Err? ==> r == Err(key.error))
      && (key.Ok? && key.value !in s.objects ==> r == Err(NoSuchKey))
      && (key.Ok? && key.value in s.objects && IsBlank(DisplayName(key.value)) ==>
            r == Err(IllegalArgument))
      && (key.Ok? && key.value in s.objects && !IsBlank(DisplayName(key.value)) ==>
            var bytes := s.objects[key.value].bytes;
            r == Ok(Attachment(bytes, DisplayName(key.value), OctetStream, |bytes|)))
  {
    if id !in s.posts then Err(IllegalArgument)
    else
      var path := s.posts[id].filePath;
      if NoAttachment(path) then Ok(NotFound)
      else
        match ExtractKey(path.value, cfg.bucketName)
        case Err(e) => Err(e)
        case Ok(key) =>
          if key !in s.objects then Err(NoSuchKey)
          else
            var bytes := s.objects[key].bytes;
            var filename := DisplayName(key);
            if IsBlank(filename) then Err(IllegalArgument)
            else Ok(Attachment(bytes, filename, OctetStream, |bytes|))
  }

  /** Every attachment path of a post leads to a stored object. */
  predicate Intact(cfg: Config, s: Stores) {
    forall id :: id in s.posts && !NoAttachment(s.posts[id].filePath) ==>
      var key := ExtractKey(s.posts[id].filePath.value, cfg.bucketName);
      key.Ok? && key.value in s.objects
  }

  /** A locator is never blank: it holds a slash. */
  lemma LocatorNotBlank(endPoint: string, bucket: string, key: string)
    ensures !IsBlank(Locator(endPoint, bucket, key))
  {
    assert Locator(endPoint, bucket, key)[|endPoint|] == '/';
  }

  /** Register without a non-empty file leaves both stores and the id counter as they were,
      so a later listing shows no new row. */
  lemma RegisterWithoutFileChangesNothing(cfg: Config, s: Stores, req: BoardRequest, token: string)
    requires WellFormed(s) && !HasAttachment(req)
    ensures Registered(cfg, s, req, token) == s
    ensures Listing(Registered(cfg, s, req, token)) == Listing(s)
  {
  }

  /** Register with a non-empty file and a fresh key adds exactly one object and one post. */
  lemma RegisterAddsOneObjectAndOnePost(cfg: Config, s: Stores, req: BoardRequest, token: string)
    requires WellFormed(s) && HasAttachment(req)
    requires KeyFor(req.file.value, token) !in s.objects
    ensures WellFormed(Registered(cfg, s, req, token))
    ensures |Registered(cfg, s, req, token).objects| == |s.objects| + 1
    ensures |Registered(cfg, s, req, token).posts| == |s.posts| + 1
  {
  }

  /** Register keeps the stores well formed. */
  lemma RegisterKeepsWellFormed(cfg: Config, s: Stores, req: BoardRequest, token: string)
    requires WellFormed(s)
    ensures WellFormed(Registered(cfg, s, req, token))
  {
  }

  /** The post saved by register holds the request's fields and a locator that parses back
      to the very key under which the bytes were put. */
  lemma RegisterThenDetail(cfg: Config, s: Stores, req: BoardRequest, token: string)
    requires HasAttachment(req) && LocatorsParse(cfg.endPoint, cfg.bucketName)
    ensures var s' := Registered(cfg, s, req, token);
      var f := req.file.value;
      && s.nextId in s'.posts
      && Detail(s', s.nextId) == Ok(s'.posts[s.nextId])
      && var post := s'.posts[s.nextId];
      && post.idx == s.nextId
      && post.title == req.title && post.writer == req.writer && post.content == req.content
      && post.filePath.Some?
      && ExtractKey(post.filePath.value, cfg.bucketName) == Ok(KeyFor(f, token))
      && s'.objects[KeyFor(f, token)] == StoredObject(f.bytes, f.contentType)
  {
    LocatorRoundTrip(cfg.endPoint, cfg.bucketName, KeyFor(req.file.value, token));
  }

  /** Downloading the post just registered returns the uploaded bytes under the display name
      of the original file name, which is that name itself when it has no separator, or
      throws when that display name is blank. */
  lemma RegisterThenDownload(cfg: Config, s: Stores, req: BoardRequest, token: string)
    requires HasAttachment(req) && LocatorsParse(cfg.endPoint, cfg.bucketName)
    ensures var f := req.file.value;
      Download(cfg, Registered(cfg, s, req, token), s.nextId)
        == if IsBlank(DisplayName(NameOf(f))) then Err(IllegalArgument)
           else Ok(Attachment(f.bytes, DisplayName(NameOf(f)), OctetStream, |f.bytes|))
    ensures var name := NameOf(req.file.value);
      Separator !in name && !IsBlank(name) ==>
      Download(cfg, Registered(cfg, s, req, token), s.nextId) ==
        Ok(Attachment(req.file.value.bytes, name, OctetStream, |req.file.value.bytes|))
  {
    var f := req.file.value;
    var key := KeyFor(f, token);
    LocatorRoundTrip(cfg.endPoint, cfg.bucketName, key);
    LocatorNotBlank(cfg.endPoint, cfg.bucketName, key);
    DisplayNameOfKey(token, NameOf(f));
  }

  /** Register keeps every attachment path leading to a stored object. */
  lemma RegisterKeepsIntact(cfg: Config, s: Stores, req: BoardRequest, token: string)
    requires WellFormed(s) && Intact(cfg, s) && LocatorsParse(cfg.endPoint, cfg.bucketName)
    ensures Intact(cfg, Registered(cfg, s, req, token))
  {
    if HasAttachment(req) {
      LocatorRoundTrip(cfg.endPoint, cfg.bucketName, KeyFor(req.file.value, token));
    }
  }

  /** In intact stores, download of an existing post throws only when the header builder
      rejects a blank display name. */
  lemma IntactDownloadSucceeds(cfg: Config, s: Stores, id: int)
    requires Intact(cfg, s) && id in s.posts
    ensures Download(cfg, s, id).Ok? <==> !RejectedName(cfg, s, id)
  {
  }

  /** Register with a fresh key changes no other post's download. */
  lemma RegisterKeepsOtherDownloads(cfg: Config, s: Stores, req: BoardRequest, token: string, id: int)
    requires WellFormed(s) && Intact(cfg, s) && id != s.nextId
    requires HasAttachment(req) ==> KeyFor(req.file.value, token) !in s.objects
    ensures Download(cfg, Registered(cfg, s, req, token), id) == Download(cfg, s, id)
  {
  }

  /** Listings agree on two post tables that agree below `n`. */
  lemma {:induction false} RowsAgree(p: map<int, Post>, q: map<int, Post>, n: int)
    requires forall id :: id in p ==> 1 <= id && p[id].idx == id
    requires forall id :: id in q ==> 1 <= id && q[id].idx == id
    requires forall id :: id < n ==> (id in p <==> id in q)
    requires forall id :: id < n && id in p ==> p[id] == q[id]
    decreases n
    ensures Rows(p, n) == Rows(q, n)
  {
    if n > 1 {
      RowsAgree(p, q, n - 1);
    }
  }

  /** After register with a file, the listing is the old listing followed by the new post. */
  lemma RegisterAppendsToListing(cfg: Config, s: Stores, req: BoardRequest, token: string)
    requires WellFormed(s) && HasAttachment(req)
    ensures var s' := Registered(cfg, s, req, token);
      WellFormed(s') && Listing(s') == Listing(s) + [s'.posts[s.nextId]]
  {
    var s' := Registered(cfg, s, req, token);
    RowsAgree(s'.posts, s.posts, s.nextId);
  }
}
