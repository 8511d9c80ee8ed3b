/**
 Admission control for uploaded images (`validate_image`). Decoding is done
 by an image library the model does not contain: its verdict on a stream is
 an input, a `Probe` giving the decoded size (or none when the bytes do not
 decode) and how far the decoder advanced the stream's read position.
 */
module Validator {
  import opened Wrappers
  import opened Streams

  datatype Size = Size(width: nat, height: nat)

  /** The decoder's verdict: `size` is `None` when the bytes are not an image. */
  datatype Probe = Probe(size: Option<Size>, readTo: nat)

  /** Both sides of an accepted image must be strictly below this. */
  const MaxSide: nat := 2048

  /** Why a file was refused; either way the service answers status 400. */
  datatype Cause = Undecodable | Oversize(width: nat, height: nat)

  predicate WithinBounds(sz: Size) {
    sz.width < MaxSide && sz.height < MaxSide
  }

  /**
   Opens the stream as an image (moving its read position to where the
   decoder stopped), refuses undecodable or oversized images and, on
   acceptance, rewinds the stream so that its bytes can be stored whole.
   */
  function Validate(st: Stream, probe: Probe): (r: Result<Stream, Cause>)
    ensures r.Success? <==> probe.size.Some? && probe.size.value.width < MaxSide && probe.size.value.height < MaxSide
    ensures r.Success? ==> r.value.data == st.data && Remaining(r.value) == st.data
    ensures probe.size.None? ==> r == Failure(Undecodable)
    ensures probe.size.Some? && r.Failure? ==> r.error == Oversize(probe.size.value.width, probe.size.value.height)
  {
    var afterOpen := Stream(st.data, probe.readTo);
    match probe.size
    case None => Failure(Undecodable)
    case Some(sz) =>
      if !WithinBounds(sz) then Failure(Oversize(sz.width, sz.height))
      else Success(Rewind(afterOpen))
  }

  /** The boundary: 2047 on a side is admitted, 2048 on either side is not. */
  lemma Boundary(st: Stream, readTo: nat, side: nat)
    requires side < 2048
    ensures Validate(st, Probe(Some(Size(2047, 2047)), readTo)).Success?
    ensures Validate(st, Probe(Some(Size(2048, side)), readTo)) == Failure(Oversize(2048, side))
    ensures Validate(st, Probe(Some(Size(side, 2048)), readTo)) == Failure(Oversize(side, 2048))
  {
  }
}
