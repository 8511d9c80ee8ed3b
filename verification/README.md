# Image upload backend: a Dafny model

This project models the admission-and-storage core of a small image service
(`backend/main.py`). The service accepts batches of uploaded images over HTTP,
refuses files that do not decode or are 2048 pixels or more on a side, stores
the rest in a blob store (GridFS) with their filename and content type, lists
what is stored, and serves a stored image back by id.

The model is functional. The store is a `map<Id, StoredObject>` plus a counter
that supplies fresh ids. Each endpoint is a pure function from the store (and
the request) to the new store and the response:

- `streams.dfy` (`Streams`): the uploaded byte stream with its read
  position, what reading it to the end yields, and `seek(0)`.
- `validator.dfy` (`Validator`): the decoder's verdict as an input (`Probe`),
  and `validate_image`.
- `store.dfy` (`ObjectStore`): the blob store's `put`, `get` and `find`.
- `object_ids.dfy` (`ObjectIds`): the text form of ids and its parser.
- `service.dfy` (`ImageService`): `POST /upload`, `GET /images`, `GET /image/{id}`.
- `laws.dfy` (`ServiceLaws`): properties that span several requests (round
  trips, partial commit, what a refused upload leaves alone).

Behaviour worth knowing:

- `upload_images` checks then stores one file at a time. A 400 answer does
  not undo the files stored before the refused one.
  `UploadKeepsAdmittedPrefix` and `RefusedSuffixNotStored` state this partial
  commit.
- The too-large error raised inside the `try` of `validate_image` is caught
  by its own `except Exception` and raised again as the invalid-format 400.
  The model therefore reports every refused file as `InvalidImage(cause)`.
  The cause is either `Undecodable` or `Oversize(w, h)`.
- `fs.put` reads the stream from its current position. `validate_image`
  rewinds the stream only on acceptance, so the stored bytes are the whole
  upload. The model keeps the read position explicit so that this rewind
  matters (`ServiceLaws.RewindIsNeeded`).

## Model

| member | source | states |
|---|---|---|
| Streams.Remaining | backend/main.py:60 | storing reads from the stream's current position to the end: the whole payload from the start, |data| - pos bytes from a later position, nothing past the end |
| Streams.RemainingIsSuffix | backend/main.py:60 | the bytes before the position followed by what is read make up the payload, so what is read is the payload's suffix |
| Streams.Rewind | backend/main.py:47 | after `seek(0)` reading the stream yields the whole payload |
| Validator.Validate | backend/main.py:40-49 | a file is accepted iff it decodes and both sides are < 2048; an undecodable file is refused as Undecodable, a decodable one with a side >= 2048 as Oversize with its size; an accepted stream is rewound so its remaining bytes are the full payload |
| Validator.Boundary | backend/main.py:45 | 2047x2047 is accepted; exactly 2048 in either dimension is refused |
| ObjectIds.Render | backend/main.py:61 | ids are rendered as canonical text |
| ObjectIds.Parse | backend/main.py:76 | request text parses iff it is a non-empty string of digits; anything else is the malformed-id case |
| ObjectIds.ValueOfRender | backend/main.py:61 | the number denoted by a rendering is the rendered id |
| ObjectIds.RenderOfValue | backend/main.py:76 | canonical text is the rendering of the id it denotes |
| ObjectIds.ParseRender | backend/main.py:76 | the text of an id handed out parses back to that id |
| ObjectIds.CanonicalSpellingIsRender | backend/main.py:61 | among canonical texts, the one that parses to id n is exactly n's rendering, so the service hands out one spelling per id |
| ObjectIds.ValueLeadingZero | backend/main.py:76 | a leading zero does not change the id a text denotes |
| ObjectIds.PaddedSpelling | backend/main.py:76 | an id has a spelling other than its rendering that parses to the same id |
| ObjectIds.RenderInjective | backend/main.py:69 | distinct ids have distinct texts, so listed and returned ids never collide |
| ObjectStore.Put | backend/main.py:60 | put stores the remaining stream bytes, the filename and the content type verbatim under a fresh id, adds only that key, leaves every existing object unchanged and keeps the id supply fresh |
| ObjectStore.Lookup | backend/main.py:76 | get finds an object exactly when its id is stored, and returns that object |
| ObjectStore.IdsBelowMembers | backend/main.py:69 | the enumeration below a bound lists exactly the stored ids below it |
| ObjectStore.IdsBelowSorted | backend/main.py:69 | the enumeration is strictly increasing, so no id is listed twice |
| ObjectStore.IdsBelowCount | backend/main.py:69 | that enumeration has as many entries as there are stored ids below the bound |
| ObjectStore.Find | backend/main.py:69 | find enumerates every stored id exactly once and nothing else; its length is the number of stored objects |
| ImageService.FirstInvalid | backend/main.py:58-59 | the position of the first file validation refuses: all files before it are admissible, the file at it is not, or it is the batch length when every file is admissible |
| ImageService.Consecutive | backend/main.py:57-61 | the n ids handed out from a on: n of them, the i-th being a + i |
| ImageService.StoreEach | backend/main.py:57-61 | the per-file validate-then-put loop keeps the id supply fresh, and when it runs to the end it answers the consecutive fresh ids, one per file, in submission order |
| ImageService.StoreEachStores | backend/main.py:57-61 | the loop stores exactly the files before the first refused one, with their full payloads, under consecutive fresh ids in order, and changes no existing object |
| ImageService.StoreEachAnswers | backend/main.py:57-63 | the loop runs to the end of the batch and returns an id list iff no file is refused |
| ImageService.StoreEachCause | backend/main.py:58-59 | when the loop stops early, it returns the cause of the first refused file |
| ImageService.IdTexts | backend/main.py:61 | the response's id list has one text per stored id, the i-th being the i-th id's rendering |
| ImageService.UploadImages | backend/main.py:51-63 | a batch of more than 100 files is refused with 400 TooManyFiles and the store is unchanged, and only such a batch gets that answer; every refusal is a 400; the files before the first refused one are stored in order under fresh ids; success iff no file is refused, returning one id text per file in submission order; a refused file's cause is reported |
| ImageService.Entries | backend/main.py:69 | one listing entry per given id, in order, carrying the id's text and the stored filename |
| ImageService.ListImages | backend/main.py:66-70 | the listing has one entry per stored object: every object appears with its id text and filename, every entry is such an object, and no two entries share an id |
| ImageService.GetImage | backend/main.py:72-79 | a fetch succeeds iff the text parses, the id is stored and the read succeeds, and returns the stored bytes and content type; every failure, malformed id, unknown id or failed read, is 404 ImageNotFound |
| ServiceLaws.UploadThenGet | backend/main.py:60-77 | round trip: each id a successful upload returns fetches that file's full uploaded bytes and its declared content type |
| ServiceLaws.UploadThenList | backend/main.py:58-69 | each file of a successful upload is listed under its returned id with its filename |
| ServiceLaws.UploadKeepsAdmittedPrefix | backend/main.py:58-61 | each file before the first refused one stays fetchable under its id, even when the upload answers 400 |
| ServiceLaws.RefusedSuffixNotStored | backend/main.py:58-61 | when some file is refused, the upload answers 400 with that file's cause, and no id from the refused file on is in use: fetching it answers 404 |
| ServiceLaws.RefusedFilesNotListed | backend/main.py:58-69 | the refused file and the files after it do not appear in the listing |
| ServiceLaws.TooManyFilesChangesNothing | backend/main.py:54-55 | an oversized batch changes neither the listing nor any fetch |
| ServiceLaws.UploadKeepsEarlierObjects | backend/main.py:60 | objects stored before an upload answer every fetch as before, whatever the upload's outcome |
| ServiceLaws.UnissuedIdNotFound | backend/main.py:75-79 | text that parses to no stored id, malformed or never issued, is answered with 404 |
| ServiceLaws.OtherSpellingFetches | backend/main.py:75-77 | a stored object is also served under a spelling of its id other than the one handed out |
| ServiceLaws.RewindIsNeeded | backend/main.py:47-60 | storing an accepted stream stores the full payload, while storing from where the decoder stopped would not |
| ServiceLaws.SinglePngScenario | backend/main.py:51-77 | one 100x100 PNG "a.png": one id back, listed as "a.png", fetched byte for byte as image/png |
| ServiceLaws.OversizeScenario | backend/main.py:40-63 | a 3000x2000 image is refused with 400 Oversize(3000, 2000) and nothing is stored |

## Left out

- Image decoding (PIL). The decoder's verdict is an input: the size when the bytes decode, and how far it read.
- GridFS and MongoDB mechanics: connection setup and shutdown (backend/main.py:24-38), chunking, and driver faults on `put` or `find`. The store is a map with a counter for fresh ids.
- ObjectIds.Parse: ids are decimal text, not 24 hex digits. A rendering parses back to its id, and every other digit string parses too. Padding with leading zeros stands in for the upper-case hex spelling that `ObjectId` also accepts. The fixed 24-character length and the hex alphabet are not modelled.
- Listing order. The model lists ids in allocation order. The source promises no order.
- A failed read on `GET /image/{id}` is a boolean input to `GetImage`, standing for any storage fault; it answers 404 like absence.
- CORS and environment configuration (backend/main.py:12-22).
- `async` handling and concurrent requests against the shared store.
- `StreamingResponse` streaming: the model returns the whole body.
- The text of error messages (Chinese detail strings, the embedded exception text). Only status codes and error kinds are modelled.
- FastAPI's own handling of a missing or empty `files` field. An empty batch in the model succeeds with no ids.
- A filename or content type of `None` from the multipart parser. Both are modelled as strings, stored verbatim.
- The Streamlit client (frontend/app.py), including its own 100-file guard.
