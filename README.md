# Board attachment service, modelled in Dafny

This project models the core of `BoardService` of a small bulletin-board backend: how a post
with an attachment is registered, how the attachment's storage key and locator are named,
how a post is looked up, and how the attachment is served back for download.

- `outcomes.dfy` (`Outcomes`): `Option` for Java references that may be null, `Result` for a
  value or the exception thrown instead, and `Thrown`, the exceptions that reach the caller
  (`IllegalArgumentException`, `StringIndexOutOfBoundsException`, the object store's `NoSuchKey`).
- `java_text.dfy` (`JavaText`): the `java.lang.String` operations the service uses, with Java's
  meaning: `indexOf`, `lastIndexOf`, `substring` (which throws on a bad index), `isBlank` with
  `Character.isWhitespace`.
- `naming.dfy` (`Naming`): the key `token + "_" + originalFilename`, the locator
  `endPoint + "/" + bucketName + "/" + key`, the key cut out of a locator after the first
  `"/" + bucketName + "/"`, and the display name after the last `_`. The token is the text of
  a random UUID; it is a parameter here, and `IsCanonicalUuid` is the form of section 3 of
  RFC 4122 that `UUID.toString` produces.
- `board.dfy` (`Board`): the two stores as values (`Stores`: the object store
  `map<string, StoredObject>`, the post table `map<int, Post>` and `nextId`, the id the table
  assigns next), and what `register`, `getList`, `getDetail` and `download` make of them,
  with the lemmas that relate them.
- `service.dfy` (`Service`): the class `BoardService`, whose fields are the two stores and the
  id counter. `Register` updates them in place; `GetList`, `GetDetail` and `Download` only read
  them. Each method is proved against the functions of `Board`.

Behaviour of the code that is easy to miss:

- A download of a missing id throws `IllegalArgumentException`; it does not answer 404.
- The locator round trip does not depend on the key at all. The code takes the FIRST
  occurrence of the marker, so a key holding `"/" + bucket + "/"` still comes back whole. What
  breaks the round trip is an endpoint in which the marker starts before the bucket part.
  `LocatorRoundTrip` proves the round trip holds for every key exactly when `LocatorsParse` holds.
- When the marker is absent, the code does not fail cleanly. `indexOf` gives -1, so the key
  is the locator without its first `|bucketName| + 1` characters. When the locator is shorter
  than that, `substring` throws.
- A stored attachment whose display name is blank (empty or whitespace only, as for a file
  named `notes_`) is not served. The `Content-Disposition` builder of Spring requires a file
  name with some text, and throws `IllegalArgumentException` otherwise. The model follows that
  rule of the library; the library itself is not part of this model.

## Model

| member | source | states |
|---|---|---|
| `JavaText.IndexOfFrom` | BoardProject/src/main/java/com/smhrd/web/service/BoardService.java:159 | the result is -1 or an index where the marker occurs, and the marker occurs at no index before the result (nowhere when -1) |
| `JavaText.LastIndexOf` | BoardProject/src/main/java/com/smhrd/web/service/BoardService.java:181 | the result is -1 exactly when the character is absent; otherwise it holds the character and nothing after it does |
| `Naming.UuidHasNoSeparator` | BoardProject/src/main/java/com/smhrd/web/service/BoardService.java:106 | a canonical UUID text holds no `_` |
| `Naming.FirstSeparatorEndsToken` | BoardProject/src/main/java/com/smhrd/web/service/BoardService.java:106 | with a canonical token, the first `_` of the key is the one right after the token, so the key splits back into the token and the whole file name |
| `Naming.KeyDeterminesTokenAndName` | BoardProject/src/main/java/com/smhrd/web/service/BoardService.java:106 | two keys built from canonical tokens are equal only for equal tokens and equal file names, so a fresh token gives a fresh key |
| `Naming.ExtractKey` | BoardProject/src/main/java/com/smhrd/web/service/BoardService.java:158-162 | an extracted key is a suffix of the locator; extraction throws only `StringIndexOutOfBounds`, and only when the marker occurs nowhere |
| `Naming.ExtractKeyAfterFirstMarker` | BoardProject/src/main/java/com/smhrd/web/service/BoardService.java:158-162 | with the marker first occurring at `i`, the key is everything after that occurrence |
| `Naming.ExtractKeyWithoutMarker` | BoardProject/src/main/java/com/smhrd/web/service/BoardService.java:158-162 | with no marker, the key is the locator minus its first `|bucket| + 1` characters, or the call throws when the locator is shorter |
| `Naming.LocatorRoundTrip` | BoardProject/src/main/java/com/smhrd/web/service/BoardService.java:120-162 | the key extracted from `endPoint/bucket/key` is `key`, for every key, if and only if the marker does not start inside the endpoint |
| `Naming.DisplayName` | BoardProject/src/main/java/com/smhrd/web/service/BoardService.java:181 | the display name holds no `_`, is a suffix of the key, follows a `_` when the key has one, and is the whole key when it has none |
| `Naming.DisplayNameUnique` | BoardProject/src/main/java/com/smhrd/web/service/BoardService.java:181 | any `_`-free suffix that is the whole key or follows a `_` is the display name |
| `Naming.DisplayNameOfKey` | BoardProject/src/main/java/com/smhrd/web/service/BoardService.java:106-181 | whatever the token, the display name of the key equals the display name of the original file name |
| `Naming.FilenameRoundTrip` | BoardProject/src/main/java/com/smhrd/web/service/BoardService.java:106-181 | a file name without `_` comes back unchanged as the display name of its key |
| `Board.Registered` | BoardProject/src/main/java/com/smhrd/web/service/BoardService.java:99-132 | with no file or an empty one nothing changes; otherwise the bytes and declared content type go under the key, a post with the request's title, writer, content and the key's locator is saved under the next id, and every other object and post is unchanged |
| `Board.Rows` | BoardProject/src/main/java/com/smhrd/web/service/BoardService.java:53-55 | the listing holds exactly the stored posts below the bound, each once, in strictly ascending id order |
| `Board.Detail` | BoardProject/src/main/java/com/smhrd/web/service/BoardService.java:135-141 | succeeds exactly when the id is stored, and then returns the stored post unchanged; otherwise throws `IllegalArgument` |
| `Board.Download` | BoardProject/src/main/java/com/smhrd/web/service/BoardService.java:143-199 | it throws `IllegalArgument` exactly when the id is missing or the stored attachment's display name is blank, and answers 404 exactly for a null or blank path; otherwise, with `k` the key extracted from the path, it rethrows the extraction's exception, throws `NoSuchKey` when nothing is stored under `k`, throws `IllegalArgument` when `DisplayName(k)` is blank, and else returns the bytes stored under `k` named `DisplayName(k)`, with content type `application/octet-stream` and a length equal to the byte count |
| `Board.LocatorNotBlank` | BoardProject/src/main/java/com/smhrd/web/service/BoardService.java:151 | a locator is never blank, so a registered post never answers 404 |
| `Board.RegisterWithoutFileChangesNothing` | BoardProject/src/main/java/com/smhrd/web/service/BoardService.java:101-131 | register with a null or empty file leaves the stores unchanged, and the listing shows no new row |
| `Board.RegisterAddsOneObjectAndOnePost` | BoardProject/src/main/java/com/smhrd/web/service/BoardService.java:104-130 | with a non-empty file and a fresh key, exactly one object and exactly one post are added |
| `Board.RegisterKeepsWellFormed` | BoardProject/src/main/java/com/smhrd/web/service/BoardService.java:130 | every post stays under its own id, below the next id |
| `Board.RegisterThenDetail` | BoardProject/src/main/java/com/smhrd/web/service/BoardService.java:106-130 | the saved post carries the request's fields, and its path parses back to the key under which the bytes were put |
| `Board.RegisterThenDownload` | BoardProject/src/main/java/com/smhrd/web/service/BoardService.java:104-197 | downloading the post just registered throws `IllegalArgument` when the display name of the original file name is blank, and otherwise gives the uploaded bytes, octet-stream, their length and that display name (the file name itself when it has no `_` and is not blank) |
| `Board.RegisterKeepsIntact` | BoardProject/src/main/java/com/smhrd/web/service/BoardService.java:117-130 | when locators parse back, register keeps every post's attachment path leading to a stored object |
| `Board.IntactDownloadSucceeds` | BoardProject/src/main/java/com/smhrd/web/service/BoardService.java:148-190 | in intact stores, download of an existing post succeeds exactly when the display name of its attachment is not rejected as blank |
| `Board.RegisterKeepsOtherDownloads` | BoardProject/src/main/java/com/smhrd/web/service/BoardService.java:104-131 | register with a fresh key changes the download of no other post |
| `Board.RegisterAppendsToListing` | BoardProject/src/main/java/com/smhrd/web/service/BoardService.java:53-130 | after register with a file, the listing is the old listing followed by the new post |
| `Service.BoardService.constructor` | BoardProject/src/main/java/com/smhrd/web/service/BoardService.java:34-49 | the service starts with empty stores, the configured endpoint and bucket, and next id 1 |
| `Service.BoardService.GetList` | BoardProject/src/main/java/com/smhrd/web/service/BoardService.java:53-55 | returns every post in ascending id order |
| `Service.BoardService.Register` | BoardProject/src/main/java/com/smhrd/web/service/BoardService.java:99-132 | the new stores are exactly `Registered` of the old ones, and the ids and attachment paths stay valid |
| `Service.BoardService.GetDetail` | BoardProject/src/main/java/com/smhrd/web/service/BoardService.java:135-141 | returns what `Board.Detail` gives for the current stores: the stored post unchanged, or `IllegalArgument` when the id is missing |
| `Service.BoardService.Download` | BoardProject/src/main/java/com/smhrd/web/service/BoardService.java:143-199 | returns what `Board.Download` gives for the current stores, changes neither store, and when locators parse back an existing post's download succeeds exactly when its display name is not blank |

## Left out

- Randomness: `UUID.randomUUID()` is not modelled. The token is a parameter of `Register`, which
  requires it in canonical UUID form. Uniqueness of keys is a precondition where a lemma needs it.
- Object storage and database clients: `putObject`, `getObject`, `readAllBytes`, the public-read
  ACL and `BoardRepository` become the two map fields. A put always succeeds and overwrites
  whatever the key held. A get of a missing key gives `NoSuchKey`. Transport failures, the
  `IOException` of `file.getBytes()` and object metadata are not modelled.
- `Board.Rows`: `findAll` without an ordering does not promise any order. The model lists posts
  in ascending id order.
- The service starts from a fresh deployment: the constructor gives empty stores and next id 1.
  In the source the database and the bucket are external and persistent, so a restarted service
  sees earlier rows and objects. The lemmas of `Board` hold for any stores that meet their requires.
- Id width: ids are unbounded integers. The 64-bit `long` of the source never wraps in practice.
- The `Content-Disposition` header text: its encoding of the file name (RFC 6266 section 4,
  RFC 8187) is library code. A response carries only the attachment's file name.
- Strings are sequences of Unicode scalar values rather than UTF-16 code units.
  `isBlank` is modelled on code points, as Java does.
- The controller layer is not part of this model. Its register answers `"fail"` and its
  download answers null for any exception; its getDetail and list catch nothing, so the
  `IllegalArgumentException` of a missing post propagates.
- Logging output, the unused `uploadDir` setting and the commented-out local-disk `register`
  have no behaviour and are not modelled.
- There is no atomicity between the object put and the post save in the source, so no failure
  between them is modelled.
