/**
 * Reassembly of fragmented responses. A body holding FragmentData is a
 * continuation chunk: its bytes are appended to the reassembly buffer and more
 * data is needed. A body holding FragmentLast completes the message: the buffer
 * followed by the last chunk is decoded and the buffer is emptied. Any other body
 * is the message itself.
 */
module Fragments {
  import opened Wire

  datatype Decoded = MoreDataNeeded | Complete(tlv: Tlv8)

  datatype Reassembled = Reassembled(buffer: Bytes, decoded: Decoded)

  function Reassemble(decode: Bytes -> Tlv8, buffer: Bytes, value: Bytes): (r: Reassembled)
    ensures r.decoded.MoreDataNeeded? <==> FragmentData in decode(value)
    ensures r.decoded.MoreDataNeeded? ==> r.buffer == buffer + decode(value)[FragmentData]
    ensures r.buffer == [] || buffer <= r.buffer
    ensures r.decoded.Complete? && FragmentLast in decode(value) ==>
      r.buffer == [] && r.decoded.tlv == decode(buffer + decode(value)[FragmentLast])
    ensures FragmentData !in decode(value) && FragmentLast !in decode(value) ==>
      r == Reassembled(buffer, Complete(decode(value)))
  {
    var outer := decode(value);
    if FragmentData in outer then
      Reassembled(buffer + outer[FragmentData], MoreDataNeeded)
    else if FragmentLast in outer then
      Reassembled([], Complete(decode(buffer + outer[FragmentLast])))
    else
      Reassembled(buffer, Complete(outer))
  }
}
