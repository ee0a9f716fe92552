/**
 * The binary record format of the preprocessing pipeline
 * (cmd/preprocess/utils/utils.go and types/types.go): a record is the 64-bit
 * hash of a coupon code and the code itself, written as the hash in 8
 * little-endian bytes, the code length in 2 little-endian bytes, then the
 * code's bytes. Records are ordered by hash, then by code.
 */
module Codec {
  import opened Wrappers
  import opened Bytes
  import opened Streams

  /** types.Rec: a coupon code and its hash. */
  datatype Rec = Rec(h: u64, code: seq<byte>)

  /** The zero value `types.Rec{}` that ReadPair returns when it has no record. */
  const ZeroRec: Rec := Rec(0, [])

  /** Codes whose length survives the `uint16(len(code))` conversion. */
  predicate Fits(r: Rec) { |r.code| < 0x1_0000 }

  // ---------------------------------------------------------------- encoding

  /** The bytes WriteRec produces for one record. */
  function EncodeRec(r: Rec): (s: seq<byte>)
    ensures |s| == 10 + |r.code|
    ensures FromLE(s[..8]) == r.h
    ensures FromLE(s[8..10]) == |r.code| % 0x1_0000
    ensures s[10..] == r.code
  {
    Pow256Widths();
    FromLEOfLE(r.h, 8);
    FromLEOfLE(|r.code| % 0x1_0000, 2);
    var s := LE(r.h, 8) + LE(|r.code| % 0x1_0000, 2) + r.code;
    assert s[..8] == LE(r.h, 8) && s[8..10] == LE(|r.code| % 0x1_0000, 2);
    s
  }

  /** The bytes of a whole records file. */
  function EncodeAll(rs: seq<Rec>): (s: seq<byte>)
  {
    if rs == [] then [] else EncodeRec(rs[0]) + EncodeAll(rs[1..])
  }

  lemma {:induction false} EncodeAllSnoc(rs: seq<Rec>, r: Rec)
    ensures EncodeAll(rs + [r]) == EncodeAll(rs) + EncodeRec(r)
  {
    if rs != [] {
      assert (rs + [r])[1..] == rs[1..] + [r];
      EncodeAllSnoc(rs[1..], r);
    }
  }

  /** WriteRec: appends the record's hash, length and code to the writer. */
  method WriteRec(bw: Writer, r: Rec)
    modifies bw
    ensures bw.data == old(bw.data) + EncodeRec(r)
  {
    bw.Write(LE(r.h, 8));
    bw.Write(LE(|r.code| % 0x1_0000, 2));
    bw.Write(r.code);
  }

  /** WritePair: hashes the code and writes the pair as WriteRec would. */
  method WritePair(bw: Writer, hash: seq<byte> -> u64, code: seq<byte>)
    modifies bw
    ensures bw.data == old(bw.data) + EncodeRec(Rec(hash(code), code))
  {
    var h := hash(code);
    bw.Write(LE(h, 8));
    bw.Write(LE(|code| % 0x1_0000, 2));
    bw.Write(code);
  }

  // ---------------------------------------------------------------- decoding

  /** What ReadPair makes of the unread bytes `s`. */
  datatype Decoded =
    | Got(rec: Rec, size: nat)   // a record, taking `size` bytes
    | End                        // clean end of the stream
    | Corrupt(err: IoError)      // the stream ends inside a record

  function Decode(s: seq<byte>): (d: Decoded)
    ensures d.Got? ==> 10 <= d.size <= |s|
  {
    if |s| == 0 then End
    else if |s| < 8 then Corrupt(UnexpectedEOF)
    else if |s| == 8 then Corrupt(EOF)
    else if |s| < 10 then Corrupt(UnexpectedEOF)
    else
      var ln := FromLE(s[8..10]);
      if |s| - 10 < ln then Corrupt(if |s| == 10 then EOF else UnexpectedEOF)
      else Got(Rec(FromLE(s[..8]), s[10..10 + ln]), 10 + ln)
  }

  /**
   * What Decode tells about the bytes: a clean end exactly at the end of the
   * stream, a record exactly when the declared length is there in full, the
   * record's own encoding as the bytes consumed, and io.EOF only where
   * io.ReadFull reports it (no byte of the field read).
   */
  lemma DecodeSpec(s: seq<byte>)
    ensures var d := Decode(s);
      && (d == End <==> |s| == 0)
      && (d.Got? <==> |s| >= 10 && |s| >= 10 + FromLE(s[8..10]))
      && (d.Got? ==> s[..d.size] == EncodeRec(d.rec) && Fits(d.rec))
      && (d.Corrupt? ==>
            (d.err == EOF <==> |s| == 8 || (|s| == 10 && FromLE(s[8..10]) > 0)) &&
            d.err != OpenFailed)
  {
    if |s| >= 10 && |s| - 10 >= FromLE(s[8..10]) {
      DecodeGot(s);
    } else if |s| >= 10 {
      assert Decode(s) == Corrupt(if |s| == 10 then EOF else UnexpectedEOF);
    }
  }

  /** The case of DecodeSpec where the record is there in full. */
  lemma DecodeGot(s: seq<byte>)
    requires |s| >= 10 && |s| - 10 >= FromLE(s[8..10])
    ensures Decode(s).Got? && s[..Decode(s).size] == EncodeRec(Decode(s).rec) && Fits(Decode(s).rec)
  {
    Pow256Widths();
    var ln := FromLE(s[8..10]);
    var r := Rec(FromLE(s[..8]), s[10..10 + ln]);
    assert Decode(s) == Got(r, 10 + ln);
    LEOfFromLE(s[..8]);
    LEOfFromLE(s[8..10]);
    assert s[..10 + ln] == s[..8] + s[8..10] + r.code;
    assert EncodeRec(r) == LE(r.h, 8) + LE(ln, 2) + r.code;
  }

  /** ReadPair: the next record, `ok == false` with no error at a clean end, or the error. */
  method ReadPair(br: ByteReader) returns (rec: Rec, ok: bool, err: Option<IoError>)
    requires br.Valid()
    modifies br
    ensures br.Valid()
    ensures match Decode(old(br.Rest()))
      case Got(r, n) => rec == r && ok && err == None && br.Rest() == old(br.Rest())[n..]
      case End => rec == ZeroRec && !ok && err == None && br.Rest() == []
      case Corrupt(e) => rec == ZeroRec && !ok && err == Some(e) && br.Rest() == []
  {
    Pow256Widths();
    ghost var s := br.Rest();
    var hb, e1 := br.ReadFull(8);
    if e1.Some? {
      if e1.value == EOF {
        return ZeroRec, false, None;
      }
      return ZeroRec, false, e1;
    }
    var lb, e2 := br.ReadFull(2);
    if e2.Some? {
      return ZeroRec, false, e2;
    }
    assert hb == s[..8] && lb == s[8..10] && br.Rest() == s[10..];
    var ln := FromLE(lb);
    var b, e3 := br.ReadFull(ln);
    if e3.Some? {
      assert |s| < 10 + ln && |s| > 10 <==> e3.value == UnexpectedEOF;
      return ZeroRec, false, e3;
    }
    assert b == s[10..10 + ln] && br.Rest() == s[10 + ln..];
    return Rec(FromLE(hb), b), true, None;
  }

  /** A records file read to its end: the records before the first bad one, and the error if any. */
  datatype Parsed = Parsed(recs: seq<Rec>, err: Option<IoError>)

  function ParseAll(s: seq<byte>): (p: Parsed)
    decreases |s|
  {
    match Decode(s)
    case End => Parsed([], None)
    case Corrupt(e) => Parsed([], Some(e))
    case Got(r, n) =>
      var p := ParseAll(s[n..]);
      Parsed([r] + p.recs, p.err)
  }

  /** Every record read from a file has a code short enough to be written back unchanged. */
  lemma {:induction false} ParseAllFits(s: seq<byte>)
    ensures forall i :: 0 <= i < |ParseAll(s).recs| ==> Fits(ParseAll(s).recs[i])
    decreases |s|
  {
    match Decode(s)
    case End =>
    case Corrupt(e) =>
    case Got(r, n) =>
      DecodeSpec(s);
      ParseAllFits(s[n..]);
      var p := ParseAll(s[n..]);
      assert forall i :: 1 <= i < |ParseAll(s).recs| ==> ParseAll(s).recs[i] == p.recs[i - 1];
  }

  /**
   * The records read from a file are written back as a prefix of it, and as
   * the whole of it exactly when no error stopped the reading.
   */
  lemma {:induction false} ParseAllPrefix(s: seq<byte>)
    ensures var p := ParseAll(s);
      && |EncodeAll(p.recs)| <= |s| && s[..|EncodeAll(p.recs)|] == EncodeAll(p.recs)
      && (p.err == None <==> EncodeAll(p.recs) == s)
    decreases |s|
  {
    match Decode(s)
    case End =>
    case Corrupt(e) =>
    case Got(r, n) =>
      DecodeSpec(s);
      ParseAllPrefix(s[n..]);
      var p := ParseAll(s[n..]);
      var q := ParseAll(s);
      assert q.recs[1..] == p.recs;
      assert EncodeAll(q.recs) == EncodeRec(r) + EncodeAll(p.recs);
      assert s == s[..n] + s[n..];
  }

  /** Round trip: a record written by WriteRec is read back by ReadPair, and the rest is left unread. */
  lemma DecodeEncodeRec(r: Rec, rest: seq<byte>)
    requires Fits(r)
    ensures Decode(EncodeRec(r) + rest) == Got(r, 10 + |r.code|)
  {
    var s := EncodeRec(r) + rest;
    assert s[..8] == EncodeRec(r)[..8] && s[8..10] == EncodeRec(r)[8..10];
    assert s[10..10 + |r.code|] == r.code;
  }

  /** Round trip for whole files: a file of records written in sequence reads back as the same records. */
  lemma {:induction false} ParseAllEncodeAll(rs: seq<Rec>)
    requires forall i :: 0 <= i < |rs| ==> Fits(rs[i])
    ensures ParseAll(EncodeAll(rs)) == Parsed(rs, None)
  {
    if rs != [] {
      var s := EncodeAll(rs);
      DecodeEncodeRec(rs[0], EncodeAll(rs[1..]));
      assert s[10 + |rs[0].code|..] == EncodeAll(rs[1..]);
      ParseAllEncodeAll(rs[1..]);
      assert rs == [rs[0]] + rs[1..];
    }
  }

  /** `uint16(len(code))` is unchecked: a 65536-byte code is written with length 0 and reads back empty. */
  lemma LengthWrapsAt65536(r: Rec, rest: seq<byte>)
    requires |r.code| == 0x1_0000
    ensures Decode(EncodeRec(r) + rest) == Got(Rec(r.h, []), 10)
  {
    var s := EncodeRec(r) + rest;
    assert s[8..10] == EncodeRec(r)[8..10];
    assert s[..10] == EncodeRec(r)[..10];
    assert s[..8] == EncodeRec(r)[..8];
  }

  // ---------------------------------------------------------------- ordering

  /** RecLess: hash first, then the code as a byte string. */
  predicate RecLess(a: Rec, b: Rec)
  {
    if a.h != b.h then a.h < b.h else BytesLess(a.code, b.code)
  }

  lemma RecLessIrreflexive(a: Rec)
    ensures !RecLess(a, a)
  {
    BytesLessIrreflexive(a.code);
  }

  lemma RecLessTransitive(a: Rec, b: Rec, c: Rec)
    requires RecLess(a, b) && RecLess(b, c)
    ensures RecLess(a, c)
  {
    if a.h == b.h == c.h {
      BytesLessTransitive(a.code, b.code, c.code);
    }
  }

  /** Records are totally ordered: for distinct records exactly one is less than the other. */
  lemma RecLessTrichotomy(a: Rec, b: Rec)
    ensures a == b || RecLess(a, b) || RecLess(b, a)
    ensures !(RecLess(a, b) && RecLess(b, a))
  {
    BytesLessTrichotomy(a.code, b.code);
  }

  /** Ascending with no two equal records. */
  ghost predicate StrictlyAscending(s: seq<Rec>)
  {
    forall i, j :: 0 <= i < j < |s| ==> RecLess(s[i], s[j])
  }

  /** Ascending, equal records allowed. */
  ghost predicate Sorted(s: seq<Rec>)
  {
    forall i, j :: 0 <= i < j < |s| ==> !RecLess(s[j], s[i])
  }

  lemma StrictlyAscendingIsSorted(s: seq<Rec>)
    requires StrictlyAscending(s)
    ensures Sorted(s)
  {
    forall i, j | 0 <= i < j < |s| ensures !RecLess(s[j], s[i]) {
      RecLessTrichotomy(s[i], s[j]);
    }
  }
}
