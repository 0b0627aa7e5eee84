/** A request body as its reader sees it: a stream of bytes that arrives in pieces of
    any size, with empty reads and failures at any point. */
module Sources {
  import opened Basics
  import opened ResponseBuffers

  datatype ReadError = Fine | Eof | TooLarge | Failed

  /** What one Read call would like to do: deliver up to `size` bytes and report `err`. */
  datatype Turn = Turn(size: nat, err: ReadError)

  class Source {
    const turns: nat -> Turn
    var pos: nat
    /** The part of the stream not yet delivered. */
    var rest: seq<Byte>

    constructor (turns: nat -> Turn, stream: seq<Byte>)
      ensures this.turns == turns && pos == 0 && rest == stream
    {
      this.turns, pos, rest := turns, 0, stream;
    }

    /** Delivers the next bytes of the stream, at most `room` of them. The end of the
        stream is only reported at its end. A reader may hand over bytes and an error
        together. */
    method Read(room: nat) returns (data: seq<Byte>, err: ReadError)
      requires 0 < room
      modifies this`pos, this`rest
      ensures |data| <= room && data + rest == old(rest)
      ensures err == Eof ==> rest == []
      ensures pos == old(pos) + 1
      ensures err == if turns(old(pos)).err == Eof && rest != [] then Fine else turns(old(pos)).err
      ensures data == [] ==> turns(old(pos)).size == 0 || rest == []
    {
      var turn := turns(pos);
      var n := Min(turn.size, Min(room, |rest|));
      data := rest[..n];
      rest := rest[n..];
      pos := pos + 1;
      err := if turn.err == Eof && rest != [] then Fine else turn.err;
    }
  }
}
