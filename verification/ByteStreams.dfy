/** Byte streams as the io package gives them: readers that end, writers that fail. */
module ByteStreams {
  import opened Bytes

  datatype Error =
    | EOF | UnexpectedEOF | Other(code: nat)                              // from a reader
    | ErrWrite                                                            // from a writer
    | ErrTooLong                                                          // encapsulation
    | ErrUnsupportedVersion | ErrUnsupportedCommand | ErrUnsupportedAddr  // SOCKS

  datatype Result<T> = Ok(value: T) | Err(error: Error)

  /** io.EOF in the middle of something is io.ErrUnexpectedEOF. */
  function Unexpected(e: Error): Error {
    if e == EOF then UnexpectedEOF else e
  }

  /** A reader gives the bytes of `rest` one read after another, then fails with `end` forever. */
  class Reader {
    var rest: Bytes
    const end: Error

    constructor (data: Bytes, end: Error)
      ensures this.rest == data && this.end == end
    {
      this.rest, this.end := data, end;
    }

    /** `r.Read(b[:])` with a one-byte buffer. */
    method ReadByte() returns (r: Result<Byte>)
      modifies this
      ensures if old(rest) == [] then r == Err(end) && rest == []
              else r == Ok(old(rest)[0]) && rest == old(rest)[1..]
    {
      if rest == [] {
        return Err(end);
      }
      r := Ok(rest[0]);
      rest := rest[1..];
    }

    /** `io.ReadFull(r, p)` with `len(p) == n`. */
    method ReadFull(n: nat) returns (r: Result<Bytes>)
      modifies this
      ensures if n <= |old(rest)| then r == Ok(old(rest)[..n]) && rest == old(rest)[n..]
              else r == Err(if old(rest) == [] then end else Unexpected(end)) && rest == []
    {
      if n <= |rest| {
        r := Ok(rest[..n]);
        rest := rest[n..];
      } else {
        r := Err(if rest == [] then end else Unexpected(end));
        rest := [];
      }
    }

    /** `io.CopyN(ioutil.Discard, r, n)`. */
    method Discard(n: nat) returns (r: Result<()>)
      modifies this
      ensures if n <= |old(rest)| then r == Ok(()) && rest == old(rest)[n..]
              else r == Err(end) && rest == []
    {
      if n <= |rest| {
        r := Ok(());
        rest := rest[n..];
      } else {
        r := Err(end);
        rest := [];
      }
    }
  }

  /** A writer accepts `room` more bytes and then fails. */
  class Writer {
    var out: Bytes
    var room: nat

    constructor (room: nat)
      ensures out == [] && this.room == room
    {
      this.out, this.room := [], room;
    }

    /** `w.Write(p)`: how many bytes went out, and whether all did. */
    method Write(p: Bytes) returns (n: nat, ok: bool)
      modifies this
      ensures ok <==> |p| <= old(room)
      ensures n == (if ok then |p| else old(room)) && out == old(out) + p[..n] && room == old(room) - n
    {
      ok := |p| <= room;
      n := if ok then |p| else room;
      out := out + p[..n];
      room := room - n;
    }
  }
}
