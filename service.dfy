/**
 * The board service as an object: the object store and the post table are fields that
 * `Register` updates in place; `GetList`, `GetDetail` and `Download` only read them.
 */
module Service {
  import opened Outcomes
  import opened JavaText
  import opened Naming
  import opened Board

  class BoardService {
    const endPoint: string
    const bucketName: string
    var objects: map<string, StoredObject>
    var posts: map<int, Post>
    var nextId: int

    function Settings(): Config {
      Config(endPoint, bucketName)
    }

    function State(): Stores
      reads this
    {
      Stores(objects, posts, nextId)
    }

    /** Ids are well formed, and when locators parse back, every attachment path leads to
        a stored object. */
    ghost predicate Valid()
      reads this
    {
      && WellFormed(State())
      && (LocatorsParse(endPoint, bucketName) ==> Intact(Settings(), State()))
    }

    constructor (endPoint: string, bucketName: string)
      ensures Valid()
      ensures this.endPoint == endPoint && this.bucketName == bucketName
      ensures State() == Stores(map[], map[], 1)
    {
      this.endPoint := endPoint;
      this.bucketName := bucketName;
      objects := map[];
      posts := map[];
      nextId := 1;
    }

    /** `getList`: all posts, in ascending id order. */
    method GetList() returns (list: seq<Post>)
      requires Valid()
      ensures list == Listing(State())
    {
      list := Rows(posts, nextId);
    }

    /** `register`: with a non-empty file, put the bytes under a fresh key and save a post
        holding the key's locator; with no file or an empty one, do nothing. */
    method Register(req: BoardRequest, token: string)
      requires Valid() && IsCanonicalUuid(token)
      modifies this
      ensures Valid()
      ensures State() == Registered(Settings(), old(State()), req, token)
    {
      ghost var before := State();
      var file := req.file;
      if file.Some? && |file.value.bytes| != 0 {
        var f := file.value;
        var fileName := MakeKey(token, NameOf(f));
        objects := objects[fileName := StoredObject(f.bytes, f.contentType)];
        var savedPath := Locator(endPoint, bucketName, fileName);
        var board := Post(nextId, req.title, req.writer, req.content, Some(savedPath));
        posts := posts[nextId := board];
        nextId := nextId + 1;
      }
      if LocatorsParse(endPoint, bucketName) {
        RegisterKeepsIntact(Settings(), before, req, token);
      }
    }

    /** `getDetail`: the stored post, or IllegalArgumentException when there is none. */
    method GetDetail(id: int) returns (r: Result<Post, Thrown>)
      ensures r == Detail(State(), id)
      ensures id in posts ==> r == Ok(posts[id])
      ensures id !in posts ==> r == Err(IllegalArgument)
    {
      if id !in posts {
        return Err(IllegalArgument);
      }
      return Ok(posts[id]);
    }

    /** `download`, step by step as the service does it; it changes neither store, and
        when locators parse back it throws only for a missing post or a blank file name. */
    method Download(id: int) returns (r: Result<Response, Thrown>)
      requires Valid()
      ensures r == Board.Download(Settings(), State(), id)
      ensures LocatorsParse(endPoint, bucketName) && id in posts ==>
        (r.Ok? <==> !RejectedName(Settings(), State(), id))
    {
      if LocatorsParse(endPoint, bucketName) && id in posts {
        IntactDownloadSucceeds(Settings(), State(), id);
      }
      if id !in posts {
        return Err(IllegalArgument);
      }
      var board := posts[id];
      var path := board.filePath;
      if path.None? || IsBlank(path.value) {
        return Ok(NotFound);
      }
      var marker := Marker(bucketName);
      var idx := IndexOf(path.value, marker);
      var key := Substring(path.value, idx + |marker|);
      assert key == ExtractKey(path.value, bucketName);
      if key.Err? {
        return Err(key.error);
      }
      if key.value !in objects {
        return Err(NoSuchKey);
      }
      var bytes := objects[key.value].bytes;
      var filename := DisplayName(key.value);
      if IsBlank(filename) {
        return Err(IllegalArgument);
      }
      return Ok(Attachment(bytes, filename, OctetStream, |bytes|));
    }
  }
}
