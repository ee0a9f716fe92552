/**
 * The buffered I/O the pipeline reads and writes through: a `bufio.Reader`
 * over the bytes of one file, read with `io.ReadFull`, and a `bufio.Writer`
 * that appends to one output file.
 */
module Streams {
  import opened Wrappers
  import opened Bytes

  /** The errors the core can observe: `io.EOF`, `io.ErrUnexpectedEOF`, and `os.Open` failing. */
  datatype IoError = EOF | UnexpectedEOF | OpenFailed

  /** A reader positioned in the bytes of one file. */
  class ByteReader {
    const src: seq<byte>
    var pos: nat

    ghost predicate Valid()
      reads this
    {
      pos <= |src|
    }

    /** The bytes not yet read. */
    function Rest(): seq<byte>
      reads this
      requires Valid()
    {
      src[pos..]
    }

    constructor (src: seq<byte>)
      ensures Valid() && this.src == src && Rest() == src
    {
      this.src := src;
      pos := 0;
    }

    /**
     * `io.ReadFull` into a buffer of `n` bytes: all `n` bytes and no error,
     * or, when fewer remain, whatever remains with `io.EOF` if that was
     * nothing and `io.ErrUnexpectedEOF` otherwise.
     */
    method ReadFull(n: nat) returns (buf: seq<byte>, err: Option<IoError>)
      requires Valid()
      modifies this
      ensures Valid()
      ensures n <= |old(Rest())| ==>
        buf == old(Rest())[..n] && err == None && Rest() == old(Rest())[n..]
      ensures n > |old(Rest())| ==>
        buf == old(Rest()) && Rest() == [] &&
        err == Some(if old(Rest()) == [] then EOF else UnexpectedEOF)
    {
      if n <= |src| - pos {
        buf := src[pos..pos + n];
        pos := pos + n;
        err := None;
      } else {
        buf := src[pos..];
        err := Some(if pos == |src| then EOF else UnexpectedEOF);
        pos := |src|;
      }
    }
  }

  /** A buffered writer; everything written ends up in `data`, in order. */
  class Writer {
    var data: seq<byte>

    constructor ()
      ensures data == []
    {
      data := [];
    }

    method Write(b: seq<byte>)
      modifies this
      ensures data == old(data) + b
    {
      data := data + b;
    }
  }
}
