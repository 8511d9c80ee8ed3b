/**
 Properties that relate several requests: what an upload makes visible to
 later `GET /image/{id}` and `GET /images` requests, and what it leaves alone.
 */
module ServiceLaws {
  import opened Wrappers
  import opened Streams
  import opened Validator
  import opened ObjectIds
  import opened ObjectStore
  import opened ImageService

  /** Round trip: every id a successful upload returns fetches that file's whole payload and declared type. */
  lemma UploadThenGet(s: Store, files: seq<UploadFile>, i: nat)
    requires Valid(s)
    requires UploadImages(s, files).1.Success?
    requires i < |files|
    ensures GetImage(UploadImages(s, files).0, UploadImages(s, files).1.value[i], false)
            == Success(Download(files[i].file.data, files[i].contentType))
  {
    var (s', out) := UploadImages(s, files);
    assert out.value[i] == Render(s.next + i);
    ExtendedGet(s, s', files, |files|, i);
  }

  /** Round trip for listing: every file of a successful upload is listed under its returned id and its filename. */
  lemma UploadThenList(s: Store, files: seq<UploadFile>, i: nat)
    requires Valid(s)
    requires UploadImages(s, files).1.Success?
    requires i < |files|
    ensures Listing(UploadImages(s, files).1.value[i], files[i].filename) in ListImages(UploadImages(s, files).0)
  {
    var (s', out) := UploadImages(s, files);
    assert out.value[i] == Render(s.next + i);
    ExtendedListed(s, s', files, |files|, i);
  }

  lemma ExtendedListed(s: Store, s': Store, files: seq<UploadFile>, n: nat, i: nat)
    requires Valid(s')
    requires n <= |files| && i < n
    requires Extends(s, s', files, n)
    ensures Listing(Render(s.next + i), files[i].filename) in ListImages(s')
  {
  }

  /**
   Partial commit: every file before the first refused one (every file when
   none is refused) stays fetchable under the id it was given, even when the
   upload as a whole answers 400.
   */
  lemma UploadKeepsAdmittedPrefix(s: Store, files: seq<UploadFile>, i: nat)
    requires Valid(s)
    requires |files| <= MaxBatch
    requires i < FirstInvalid(files)
    ensures GetImage(UploadImages(s, files).0, Render(s.next + i), false)
            == Success(Download(files[i].file.data, files[i].contentType))
  {
    ExtendedGet(s, UploadImages(s, files).0, files, FirstInvalid(files), i);
  }

  lemma ExtendedGet(s: Store, s': Store, files: seq<UploadFile>, n: nat, i: nat)
    requires n <= |files| && i < n
    requires Extends(s, s', files, n)
    ensures GetImage(s', Render(s.next + i), false) == Success(Download(files[i].file.data, files[i].contentType))
  {
    assert s'.objects[s.next + i] == Admitted(files[i]);
    ParseRender(s.next + i);
  }

  /** No id from the first refused file on is used: fetching any of them answers 404. */
  lemma RefusedSuffixNotStored(s: Store, files: seq<UploadFile>, i: nat, readFails: bool)
    requires Valid(s)
    requires |files| <= MaxBatch
    requires FirstInvalid(files) <= i < |files|
    ensures UploadImages(s, files).1 == Failure(HttpError(BadRequest, InvalidImage(Validate(files[FirstInvalid(files)].file, files[FirstInvalid(files)].probe).error)))
    ensures GetImage(UploadImages(s, files).0, Render(s.next + i), readFails) == Failure(HttpError(NotFound, ImageNotFound))
  {
    ExtendedMissing(s, UploadImages(s, files).0, files, FirstInvalid(files), i, readFails);
  }

  lemma ExtendedMissing(s: Store, s': Store, files: seq<UploadFile>, n: nat, i: nat, readFails: bool)
    requires Valid(s)
    requires n <= i < |files|
    requires Extends(s, s', files, n)
    ensures GetImage(s', Render(s.next + i), readFails) == Failure(HttpError(NotFound, ImageNotFound))
  {
    assert s.next + i !in s'.objects;
    ParseRender(s.next + i);
  }

  /** A refused file, and every file after it, is absent from the listing. */
  lemma RefusedFilesNotListed(s: Store, files: seq<UploadFile>, i: nat)
    requires Valid(s)
    requires |files| <= MaxBatch
    requires FirstInvalid(files) <= i < |files|
    ensures forall e :: e in ListImages(UploadImages(s, files).0) ==> e.id != Render(s.next + i)
  {
    ExtendedListing(s, UploadImages(s, files).0, files, FirstInvalid(files), i);
  }

  lemma ExtendedListing(s: Store, s': Store, files: seq<UploadFile>, n: nat, i: nat)
    requires Valid(s) && Valid(s')
    requires n <= i < |files|
    requires Extends(s, s', files, n)
    ensures forall e :: e in ListImages(s') ==> e.id != Render(s.next + i)
  {
    forall e | e in ListImages(s')
      ensures e.id != Render(s.next + i)
    {
      var id :| id in s'.objects && e == Listing(Render(id), s'.objects[id].filename);
      RenderInjective(id, s.next + i);
    }
  }

  /** An oversized batch changes neither what is listed nor what is fetched. */
  lemma TooManyFilesChangesNothing(s: Store, files: seq<UploadFile>, imageId: string, readFails: bool)
    requires Valid(s)
    requires |files| > MaxBatch
    ensures ListImages(UploadImages(s, files).0) == ListImages(s)
    ensures GetImage(UploadImages(s, files).0, imageId, readFails) == GetImage(s, imageId, readFails)
  {
  }

  /** Objects stored before an upload answer every later fetch exactly as before, whatever the upload's outcome. */
  lemma UploadKeepsEarlierObjects(s: Store, files: seq<UploadFile>, id: Id, readFails: bool)
    requires Valid(s)
    requires id in s.objects
    ensures GetImage(UploadImages(s, files).0, Render(id), readFails) == GetImage(s, Render(id), readFails)
  {
    ParseRender(id);
  }

  /** Text that parses to no stored id, malformed or never issued, is answered with 404. */
  lemma UnissuedIdNotFound(s: Store, imageId: string, readFails: bool)
    requires forall id :: id in s.objects ==> Parse(imageId) != Some(id)
    ensures GetImage(s, imageId, readFails) == Failure(HttpError(NotFound, ImageNotFound))
  {
  }

  /** A stored object is also served under a spelling of its id other than the one the service hands out. */
  lemma OtherSpellingFetches(s: Store, id: Id)
    requires id in s.objects
    ensures "0" + Render(id) != Render(id)
    ensures GetImage(s, "0" + Render(id), false) == Success(Download(s.objects[id].bytes, s.objects[id].contentType))
  {
    PaddedSpelling(id);
  }

  /**
   The rewind is what makes the stored bytes whole: storing an accepted
   stream stores the full payload, while storing from the position the
   decoder stopped at would lose the bytes it had read.
   */
  lemma RewindIsNeeded(s: Store, st: Stream, probe: Probe, filename: string, contentType: string)
    requires Valid(s)
    requires Validate(st, probe).Success?
    requires 0 < probe.readTo <= |st.data|
    ensures Put(s, Validate(st, probe).value, filename, contentType).0.objects[s.next].bytes == st.data
    ensures Put(s, Stream(st.data, probe.readTo), filename, contentType).0.objects[s.next].bytes != st.data
  {
    assert |Remaining(Stream(st.data, probe.readTo))| < |st.data|;
  }

  /** Uploading one small decodable PNG: one id back, listed under its name, fetched byte for byte as image/png. */
  lemma SinglePngScenario(s: Store, data: seq<byte>, readTo: nat)
    requires Valid(s)
    ensures var f := UploadFile("a.png", "image/png", Stream(data, 0), Probe(Some(Size(100, 100)), readTo));
            var (s', out) := UploadImages(s, [f]);
            && out.Success? && |out.value| == 1
            && Listing(out.value[0], "a.png") in ListImages(s')
            && GetImage(s', out.value[0], false) == Success(Download(data, "image/png"))
  {
    var f := UploadFile("a.png", "image/png", Stream(data, 0), Probe(Some(Size(100, 100)), readTo));
    assert FirstInvalid([f]) == 1;
    UploadThenList(s, [f], 0);
    UploadThenGet(s, [f], 0);
  }

  /** Uploading a 3000x2000 image is refused with 400 and stores nothing. */
  lemma OversizeScenario(s: Store, data: seq<byte>, readTo: nat)
    requires Valid(s)
    ensures var f := UploadFile("big.jpg", "image/jpeg", Stream(data, 0), Probe(Some(Size(3000, 2000)), readTo));
            var (s', out) := UploadImages(s, [f]);
            && out == Failure(HttpError(BadRequest, InvalidImage(Oversize(3000, 2000))))
            && s'.objects == s.objects
  {
    var f := UploadFile("big.jpg", "image/jpeg", Stream(data, 0), Probe(Some(Size(3000, 2000)), readTo));
    assert FirstInvalid([f]) == 0;
  }
}
