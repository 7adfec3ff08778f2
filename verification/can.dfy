/** Classic CAN data frames (can/can.go) and the small types every module shares. */
module Can {
  const MAX_DATA_LEN := 8

  type byte = b: int | 0 <= b < 0x100

  type uint16 = n: int | 0 <= n < 0x1_0000

  type uint32 = n: int | 0 <= n < 0x1_0000_0000

  datatype Option<+T> = None | Some(value: T)

  datatype Result<+T, +E> = Ok(value: T) | Err(error: E)

  /** The fixed data field of a frame. Only the first `len` bytes are valid. */
  type Data = d: seq<byte> | |d| == MAX_DATA_LEN witness [0, 0, 0, 0, 0, 0, 0, 0]

  datatype Frame = Frame(id: uint32, extended: bool, len: byte, data: Data)
  {
    function Payload(): seq<byte> {
      data[..Min(len, MAX_DATA_LEN)]
    }
  }

  function Min(a: int, b: int): int {
    if a < b then a else b
  }

  function Max(a: int, b: int): int {
    if a < b then b else a
  }

  function Fill(b: byte, n: nat): (s: seq<byte>)
    ensures |s| == n && forall i :: 0 <= i < n ==> s[i] == b
  {
    seq(n, _ => b)
  }
}
