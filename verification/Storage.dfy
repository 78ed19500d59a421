/** Vocabulary shared by the storage modules. */
module Storage {

  newtype byte = b: int | 0 <= b < 256

  datatype Option<+T> = None | Some(value: T)

  datatype Result<+T> = Ok(value: T) | Err(error: Error)

  /** The error values the storage code tells apart. `Io` stands for every other error a backend reports. */
  datatype Error =
    | NotFound
    | Conflict
    | InvalidInput
    | Unavailable
    | NotEmpty
    | InFlight
    | Eof
    | UnexpectedEof
    | ShortWrite
    | Canceled
    | Io(code: int)

  /** The bytes of `file` after `data` is written at `offset`; a gap before `offset` reads as zeros. */
  function WriteAt(file: seq<byte>, offset: nat, data: seq<byte>): (result: seq<byte>)
    ensures data == [] ==> result == file
    ensures data != [] ==> |result| == Max(|file|, offset + |data|)
    ensures forall p :: 0 <= p < |result| ==>
      result[p] == if offset <= p < offset + |data| then data[p - offset]
                   else if p < |file| then file[p] else 0
  {
    if data == [] then
      file
    else
      seq(Max(|file|, offset + |data|), p requires 0 <= p < Max(|file|, offset + |data|) =>
        if offset <= p < offset + |data| then data[p - offset]
        else if p < |file| then file[p]
        else 0)
  }

  function Max(a: int, b: int): int { if a < b then b else a }

  function Min(a: int, b: int): int { if a < b then a else b }
}
