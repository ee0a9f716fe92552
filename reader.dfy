/**
 * The single-lookahead cursor over one records file
 * (cmd/preprocess/utils/reader.go). `Has` decodes the next record into `cur`
 * unless one is already buffered, `Pop` drops the buffered record, and a
 * clean end or a decode error sets `done` for good.
 */
module RecordReader {
  import opened Wrappers
  import opened Bytes
  import opened Streams
  import opened Codec

  class Reader {
    const br: ByteReader
    var cur: Rec
    var ok: bool
    var done: bool
    var err: Option<IoError>
    /** The records Has/Peek/Pop will still deliver, in file order. */
    ghost var upcoming: seq<Rec>
    /** The error Err reports once the records have run out. */
    ghost var outcome: Option<IoError>

    ghost predicate Valid()
      reads this, br
    {
      && br.Valid()
      && (done ==> !ok)
      && (err.Some? ==> done)
      && upcoming == (if done then [] else (if ok then [cur] else []) + ParseAll(br.Rest()).recs)
      && outcome == (if done then err else ParseAll(br.Rest()).err)
    }

    /** NewReader on a file that opened: nothing buffered, nothing read yet. */
    constructor (src: seq<byte>)
      ensures Valid() && fresh(br)
      ensures !ok && !done && err == None
      ensures upcoming == ParseAll(src).recs && outcome == ParseAll(src).err
    {
      br := new ByteReader(src);
      cur := ZeroRec;
      ok, done, err := false, false, None;
      upcoming, outcome := ParseAll(src).recs, ParseAll(src).err;
      new;
      assert br.Rest() == src;
    }

    method Has() returns (more: bool)
      requires Valid()
      modifies this, br
      ensures Valid()
      ensures upcoming == old(upcoming) && outcome == old(outcome)
      ensures more <==> upcoming != []
      ensures more ==> ok && cur == upcoming[0]
      ensures !more ==> done && err == outcome
      ensures old(done) ==> !more
      ensures old(ok || done) ==> unchanged(this) && unchanged(br)
    {
      if done {
        return false;
      }
      if ok {
        return true;
      }
      ghost var before := br.Rest();
      var rec, got, e := ReadPair(br);
      if e.Some? {
        err := e;
        done := true;
        return false;
      }
      if !got {
        done := true;
        return false;
      }
      assert Decode(before).Got?;
      cur, ok := rec, true;
      return true;
    }

    /** The buffered record, which after a successful Has is the first of those to come. */
    function Peek(): (r: Rec)
      reads this, br
      ensures Valid() && ok ==> upcoming != [] && r == upcoming[0]
    {
      cur
    }

    method Pop()
      requires Valid()
      modifies this
      ensures Valid() && !ok
      ensures cur == old(cur) && done == old(done) && err == old(err)
      ensures upcoming == if old(ok) then old(upcoming)[1..] else old(upcoming)
      ensures outcome == old(outcome)
    {
      ok := false;
      if old(ok) {
        upcoming := upcoming[1..];
      }
    }

    /** The latched read error, which once the reader is done is the error it was to end with. */
    function Err(): (e: Option<IoError>)
      reads this, br
      ensures Valid() && done ==> e == outcome
      ensures Valid() && e.Some? ==> done
    {
      err
    }
  }

  /** Moving the head of the pending records to the delivered ones keeps their concatenation. */
  lemma MoveHead(delivered: seq<Rec>, pending: seq<Rec>)
    requires pending != []
    ensures (delivered + [pending[0]]) + pending[1..] == delivered + pending
  {
    assert pending == [pending[0]] + pending[1..];
  }

  /**
   * The Has/Peek/Pop loop run to its end on a file: it delivers every record
   * of the file once, in file order, and then Err reports the decode error.
   */
  method ReadAllRecords(src: seq<byte>) returns (recs: seq<Rec>, e: Option<IoError>)
    ensures recs == ParseAll(src).recs && e == ParseAll(src).err
  {
    ghost var all := ParseAll(src);
    var r := new Reader(src);
    recs := [];
    var more := r.Has();
    while more
      invariant r.Valid()
      invariant recs + r.upcoming == all.recs
      invariant r.outcome == all.err
      invariant more ==> r.ok && r.cur == r.upcoming[0]
      invariant !more ==> r.done && r.err == r.outcome
      decreases |r.upcoming|
    {
      MoveHead(recs, r.upcoming);
      recs := recs + [r.Peek()];
      r.Pop();
      more := r.Has();
    }
    e := r.Err();
  }
}
