/** One slot of the receive window (in_buffer.h). */
module InBuffers {
  import opened Basics
  import opened Protocol

  datatype InBuffer =
    | Unset
    | Stored(fin: bool, data: seq<byte>)
  {
    /** Bytes a slot may hold: data packets are never empty, final ones may be. */
    predicate Valid() {
      Stored? ==> |data| <= MAX_PAYLOAD && (!fin ==> data != [])
    }
  }
}
