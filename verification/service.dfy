/**
 The HTTP surface of the backend: `POST /upload`, `GET /images` and
 `GET /image/{id}`, as pure functions from the store (and request) to the
 new store and the response.
 */
module ImageService {
  import opened Wrappers
  import opened Streams
  import opened Validator
  import opened ObjectIds
  import opened ObjectStore

  /** The largest batch one upload request may carry. */
  const MaxBatch: nat := 100

  const BadRequest: nat := 400
  const NotFound: nat := 404

  /** One multipart file: client-supplied name and type, its stream, and the decoder's verdict on it. */
  datatype UploadFile = UploadFile(filename: string, contentType: string, file: Stream, probe: Probe)

  datatype Reason = TooManyFiles | InvalidImage(cause: Cause) | ImageNotFound

  /** An `HTTPException`: status code and the kind of its detail message. */
  datatype HttpError = HttpError(status: nat, reason: Reason)

  /** One entry of `GET /images`. */
  datatype Listing = Listing(id: string, filename: string)

  /** The body and media type of `GET /image/{id}`. */
  datatype Download = Download(body: seq<byte>, mediaType: string)

  predicate Admissible(f: UploadFile) {
    Validate(f.file, f.probe).Success?
  }

  /** The object an admitted file becomes: its metadata verbatim and its whole payload. */
  function Admitted(f: UploadFile): StoredObject {
    StoredObject(f.filename, f.contentType, f.file.data)
  }

  /** The position of the first file validation refuses, or the batch length when there is none. */
  function FirstInvalid(files: seq<UploadFile>): (k: nat)
    ensures k <= |files|
    ensures forall i :: 0 <= i < k ==> Admissible(files[i])
    ensures k < |files| ==> !Admissible(files[k])
  {
    if files == [] then 0
    else if !Admissible(files[0]) then 0
    else 1 + FirstInvalid(files[1..])
  }

  /**
   `s'` is `s` with the first `n` files of the batch added under the next `n`
   ids, in order, and nothing else added or changed.
   */
  ghost predicate Extends(s: Store, s': Store, files: seq<UploadFile>, n: nat)
    requires n <= |files|
  {
    && s'.next == s.next + n
    && (forall id :: id in s'.objects <==> id in s.objects || s.next <= id < s.next + n)
    && (forall id :: id in s.objects ==> s'.objects[id] == s.objects[id])
    && (forall i :: 0 <= i < n ==> s'.objects[s.next + i] == Admitted(files[i]))
  }

  /** The `n` ids handed out from `a` on, in allocation order. */
  function Consecutive(a: Id, n: nat): (r: seq<Id>)
    ensures |r| == n
    ensures forall i :: 0 <= i < n ==> r[i] == a + i
    decreases n
  {
    if n == 0 then [] else [a] + Consecutive(a + 1, n - 1)
  }

  /**
   The loop of `upload_images`: per file, validate, put, remember the id;
   the first refused file ends the loop with its cause, leaving the files
   put before it in the store.
   */
  function StoreEach(s: Store, files: seq<UploadFile>): (r: (Store, Result<seq<Id>, Cause>))
    requires Valid(s)
    ensures Valid(r.0)
    // A loop that runs to the end answers the consecutive fresh ids, one per file, in submission order.
    ensures r.1.Success? ==> r.1.value == Consecutive(s.next, |files|)
    decreases |files|
  {
    if files == [] then (s, Success([]))
    else
      var checked := Validate(files[0].file, files[0].probe);
      if checked.Failure? then (s, Failure(checked.error))
      else
        var put := Put(s, checked.value, files[0].filename, files[0].contentType);
        var rest := StoreEach(put.0, files[1..]);
        (rest.0, if rest.1.Success? then Success([put.1] + rest.1.value) else rest.1)
  }

  /** Putting an admitted first file, then extending by the rest, extends by one more file. */
  lemma ExtendsCons(s: Store, s1: Store, s2: Store, files: seq<UploadFile>, m: nat)
    requires Valid(s) && m + 1 <= |files|
    requires s1.next == s.next + 1 && s1.objects.Keys == s.objects.Keys + {s.next}
    requires s1.objects[s.next] == Admitted(files[0])
    requires forall id :: id in s.objects ==> s1.objects[id] == s.objects[id]
    requires Extends(s1, s2, files[1..], m)
    ensures Extends(s, s2, files, m + 1)
  {
  }

  /**
   The loop stores exactly the files before the first refused one, under
   consecutive fresh ids in order, and changes no object already stored.
   */
  lemma {:induction false} StoreEachStores(s: Store, files: seq<UploadFile>)
    requires Valid(s)
    ensures Extends(s, StoreEach(s, files).0, files, FirstInvalid(files))
    decreases |files|
  {
    if files != [] {
      match Validate(files[0].file, files[0].probe)
      case Failure(c) =>
      case Success(rewound) =>
        var (s1, id) := Put(s, rewound, files[0].filename, files[0].contentType);
        StoreEachStores(s1, files[1..]);
        assert FirstInvalid(files) == 1 + FirstInvalid(files[1..]);
        ExtendsCons(s, s1, StoreEach(s1, files[1..]).0, files, FirstInvalid(files[1..]));
    }
  }

  /** The loop runs to the end of the batch iff no file is refused. */
  lemma {:induction false} StoreEachAnswers(s: Store, files: seq<UploadFile>)
    requires Valid(s)
    ensures StoreEach(s, files).1.Success? <==> FirstInvalid(files) == |files|
    decreases |files|
  {
    if files != [] {
      match Validate(files[0].file, files[0].probe)
      case Failure(c) =>
      case Success(rewound) =>
        var (s1, id) := Put(s, rewound, files[0].filename, files[0].contentType);
        StoreEachAnswers(s1, files[1..]);
        assert FirstInvalid(files) == 1 + FirstInvalid(files[1..]);
    }
  }

  /** When the loop stops early, it answers the cause of the first refused file. */
  lemma {:induction false} StoreEachCause(s: Store, files: seq<UploadFile>)
    requires Valid(s)
    ensures StoreEach(s, files).1.Failure? ==>
              FirstInvalid(files) < |files| &&
              Validate(files[FirstInvalid(files)].file, files[FirstInvalid(files)].probe) == Failure(StoreEach(s, files).1.error)
    decreases |files|
  {
    if files != [] {
      match Validate(files[0].file, files[0].probe)
      case Failure(c) =>
      case Success(rewound) =>
        var tail := files[1..];
        var (s1, id) := Put(s, rewound, files[0].filename, files[0].contentType);
        StoreEachCause(s1, tail);
        var m := FirstInvalid(tail);
        assert FirstInvalid(files) == 1 + m;
        if m < |tail| {
          assert files[m + 1] == tail[m];
        }
    }
  }

  /** The ids as the response renders them (`str(file_id)`), in the same order. */
  function IdTexts(ids: seq<Id>): (r: seq<string>)
    ensures |r| == |ids|
    ensures forall i :: 0 <= i < |ids| ==> r[i] == Render(ids[i])
  {
    if ids == [] then [] else [Render(ids[0])] + IdTexts(ids[1..])
  }

  /** `POST /upload`. */
  function UploadImages(s: Store, files: seq<UploadFile>): (r: (Store, Result<seq<string>, HttpError>))
    requires Valid(s)
    ensures Valid(r.0)
    // An oversized batch is refused before any file is looked at.
    ensures r.1 == Failure(HttpError(BadRequest, TooManyFiles)) <==> |files| > MaxBatch
    ensures |files| > MaxBatch ==> r.0 == s
    // Every refusal is a 400.
    ensures r.1.Failure? ==> r.1.error.status == BadRequest
    // The files before the first refused one (all of them if none is) are stored, in order, under fresh ids.
    ensures |files| <= MaxBatch ==> Extends(s, r.0, files, FirstInvalid(files))
    ensures |files| <= MaxBatch ==> (r.1.Success? <==> FirstInvalid(files) == |files|)
    ensures r.1.Success? ==> |r.1.value| == |files| && forall i :: 0 <= i < |files| ==> r.1.value[i] == Render(s.next + i)
    // A refused file's cause is reported.
    ensures |files| <= MaxBatch && r.1.Failure? ==>
              var k := FirstInvalid(files);
              && k < |files|
              && Validate(files[k].file, files[k].probe).Failure?
              && r.1.error == HttpError(BadRequest, InvalidImage(Validate(files[k].file, files[k].probe).error))
  {
    if |files| > MaxBatch then (s, Failure(HttpError(BadRequest, TooManyFiles)))
    else
      StoreEachStores(s, files);
      StoreEachAnswers(s, files);
      StoreEachCause(s, files);
      var (s', out) := StoreEach(s, files);
      match out
      case Success(ids) => (s', Success(IdTexts(ids)))
      case Failure(c) => (s', Failure(HttpError(BadRequest, InvalidImage(c))))
  }

  /** The listing entries of the given stored ids, in the same order. */
  function Entries(objects: map<Id, StoredObject>, ids: seq<Id>): (r: seq<Listing>)
    requires forall i :: 0 <= i < |ids| ==> ids[i] in objects
    ensures |r| == |ids|
    ensures forall i :: 0 <= i < |ids| ==> r[i] == Listing(Render(ids[i]), objects[ids[i]].filename)
  {
    if ids == [] then [] else [Listing(Render(ids[0]), objects[ids[0]].filename)] + Entries(objects, ids[1..])
  }

  /** `GET /images`: one entry per stored object, rendered id and filename. */
  function ListImages(s: Store): (r: seq<Listing>)
    requires Valid(s)
    ensures |r| == |s.objects|
    ensures forall id :: id in s.objects ==> Listing(Render(id), s.objects[id].filename) in r
    ensures forall e :: e in r ==> exists id :: id in s.objects && e == Listing(Render(id), s.objects[id].filename)
    ensures forall i, j :: 0 <= i < j < |r| ==> r[i].id != r[j].id
  {
    var ids := Find(s);
    assert forall i :: 0 <= i < |ids| ==> ids[i] in ids;
    var r := Entries(s.objects, ids);
    ListedOnce(s, ids, r);
    r
  }

  lemma ListedOnce(s: Store, ids: seq<Id>, r: seq<Listing>)
    requires forall i, j :: 0 <= i < j < |ids| ==> ids[i] < ids[j]
    requires forall id :: id in ids <==> id in s.objects
    requires |r| == |ids|
    requires forall i :: 0 <= i < |ids| ==> ids[i] in s.objects && r[i] == Listing(Render(ids[i]), s.objects[ids[i]].filename)
    ensures forall id :: id in s.objects ==> Listing(Render(id), s.objects[id].filename) in r
    ensures forall e :: e in r ==> exists id :: id in s.objects && e == Listing(Render(id), s.objects[id].filename)
    ensures forall i, j :: 0 <= i < j < |r| ==> r[i].id != r[j].id
  {
    forall id | id in s.objects
      ensures Listing(Render(id), s.objects[id].filename) in r
    {
      var i :| 0 <= i < |ids| && ids[i] == id;
      assert r[i] == Listing(Render(id), s.objects[id].filename);
    }
    forall e | e in r
      ensures exists id :: id in s.objects && e == Listing(Render(id), s.objects[id].filename)
    {
      var i :| 0 <= i < |r| && r[i] == e;
      assert ids[i] in s.objects;
    }
    forall i, j | 0 <= i < j < |r|
      ensures r[i].id != r[j].id
    {
      RenderInjective(ids[i], ids[j]);
    }
  }

  /** `GET /image/{id}`: malformed id, unknown id and a failed read all answer 404. */
  function GetImage(s: Store, imageId: string, readFails: bool): (r: Result<Download, HttpError>)
    ensures r.Failure? ==> r.error == HttpError(NotFound, ImageNotFound)
    ensures r.Success? <==> !readFails && Parse(imageId).Some? && Parse(imageId).value in s.objects
    ensures r.Success? ==>
              var obj := s.objects[Parse(imageId).value];
              r.value == Download(obj.bytes, obj.contentType)
  {
    match Parse(imageId)
    case None => Failure(HttpError(NotFound, ImageNotFound))
    case Some(id) =>
      match Lookup(s, id)
      case None => Failure(HttpError(NotFound, ImageNotFound))
      case Some(obj) =>
        if readFails then Failure(HttpError(NotFound, ImageNotFound))
        else Success(Download(obj.bytes, obj.contentType))
  }
}
