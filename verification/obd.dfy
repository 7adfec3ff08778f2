/** What a transport returns to the client (transport.go). */
module Obd {
  import opened Can

  /** The protocol that an answer arrived on; the four older ones are not told apart. */
  datatype Protocol = Unknown | Can11 | Can29 | Older
  {
    predicate IsCan() {
      this == Can11 || this == Can29
    }
  }

  datatype Response = Response(ecu: uint32, protocol: Protocol, data: seq<byte>)
}
