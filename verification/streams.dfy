/**
 The uploaded file's stream as the service sees it: a payload and a read
 position. The validator moves the position by decoding and puts it back;
 the store reads from wherever it is.
 */
module Streams {

  newtype byte = x: int | 0 <= x < 256

  /** A seekable byte stream: its whole payload and the current read offset. */
  datatype Stream = Stream(data: seq<byte>, pos: nat)

  /**
   What reading the stream from its offset to the end yields: the whole
   payload from the start, less of it from any later offset, and nothing
   from an offset past the end.
   */
  function Remaining(st: Stream): (r: seq<byte>)
    ensures |r| <= |st.data|
    ensures st.pos == 0 ==> r == st.data
    ensures 0 < st.pos <= |st.data| ==> |r| == |st.data| - st.pos
    ensures st.pos >= |st.data| ==> r == []
  {
    if st.pos <= |st.data| then st.data[st.pos..] else []
  }

  /** The bytes already read, followed by the remaining ones, make up the payload. */
  lemma RemainingIsSuffix(st: Stream)
    requires st.pos <= |st.data|
    ensures st.data == st.data[..st.pos] + Remaining(st)
  {
  }

  /** `seek(0)`. */
  function Rewind(st: Stream): (r: Stream)
    ensures r.data == st.data
    ensures Remaining(r) == st.data
  {
    Stream(st.data, 0)
  }
}
