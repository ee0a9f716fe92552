/**
 * The line loop of ProcessGzipToPairs (cmd/preprocess/downloader): every
 * scanned line is trimmed; a line whose trimmed length is outside
 * [MIN_CODE_LENGTH, MAX_CODE_LENGTH] is counted as invalid, any other is
 * uppercased and written as a (hash, code) record.
 */
module Downloader {
  import opened Wrappers
  import opened Bytes
  import opened Text
  import opened Codec
  import opened Streams

  const MIN_CODE_LENGTH: nat := 8
  const MAX_CODE_LENGTH: nat := 10

  /** Whether a scanned line passes the length filter once trimmed. */
  predicate Accepted(line: seq<byte>)
  {
    MIN_CODE_LENGTH <= |Trim(line, IsAsciiSpace)| <= MAX_CODE_LENGTH
  }

  /** The code written for an accepted line. */
  function Normalise(line: seq<byte>): seq<byte>
  {
    ToUpper(Trim(line, IsAsciiSpace))
  }

  /** The codes written for `lines`, in input order, duplicates kept. */
  function Kept(lines: seq<seq<byte>>): seq<seq<byte>>
  {
    if lines == [] then []
    else
      var last := lines[|lines| - 1];
      Kept(lines[..|lines| - 1]) + (if Accepted(last) then [Normalise(last)] else [])
  }

  /** The records written for the codes, each with the code's hash. */
  function Pairs(codes: seq<seq<byte>>, hash: seq<byte> -> u64): (rs: seq<Rec>)
    ensures |rs| == |codes|
    ensures forall j :: 0 <= j < |codes| ==> rs[j] == Rec(hash(codes[j]), codes[j])
  {
    seq(|codes|, j requires 0 <= j < |codes| => Rec(hash(codes[j]), codes[j]))
  }

  /** The filter works line by line: the codes of a concatenation are the concatenated codes. */
  lemma {:induction false} KeptAppend(a: seq<seq<byte>>, b: seq<seq<byte>>)
    ensures Kept(a + b) == Kept(a) + Kept(b)
    decreases |b|
  {
    if b != [] {
      var b' := b[..|b| - 1];
      assert (a + b)[..|a + b| - 1] == a + b';
      KeptAppend(a, b');
    } else {
      assert a + b == a;
    }
  }

  /** The codes of a single line: its normal form if accepted, nothing if rejected. */
  lemma KeptOne(line: seq<byte>)
    ensures Kept([line]) == if Accepted(line) then [Normalise(line)] else []
  {
    assert [line][..0] == [];
  }

  /**
   * What a written code looks like: 8 to 10 bytes, no ASCII lower-case
   * letter, no leading or trailing white space.
   */
  predicate IsCode(c: seq<byte>)
  {
    && MIN_CODE_LENGTH <= |c| <= MAX_CODE_LENGTH
    && (forall k :: 0 <= k < |c| ==> !IsAsciiLower(c[k]))
    && !IsAsciiSpace(c[0]) && !IsAsciiSpace(c[|c| - 1])
  }

  /** The normal form of an accepted line is a code. */
  lemma NormaliseIsCode(line: seq<byte>)
    requires Accepted(line)
    ensures IsCode(Normalise(line))
  {
    var t := Trim(line, IsAsciiSpace);
    TrimSpec(line, IsAsciiSpace);
    UpperKeepsNonSpace(t[0]);
    UpperKeepsNonSpace(t[|t| - 1]);
  }

  /** Raising a letter never makes white space. */
  lemma UpperKeepsNonSpace(b: byte)
    requires !IsAsciiSpace(b)
    ensures !IsAsciiSpace(UpperByte(b))
  {
  }

  /** Every written code is the normal form of an accepted line, and there are at most as many codes as lines. */
  lemma {:induction false} KeptCodes(lines: seq<seq<byte>>)
    ensures |Kept(lines)| <= |lines|
    ensures forall j :: 0 <= j < |Kept(lines)| ==> IsCode(Kept(lines)[j])
  {
    if lines != [] {
      var last := lines[|lines| - 1];
      var init := lines[..|lines| - 1];
      KeptCodes(init);
      if Accepted(last) {
        NormaliseIsCode(last);
        assert Kept(lines) == Kept(init) + [Normalise(last)];
      } else {
        assert Kept(lines) == Kept(init);
      }
    }
  }

  /** Every record written fits the 16-bit length field, so the file reads back as written. */
  lemma PairsReadBack(lines: seq<seq<byte>>, hash: seq<byte> -> u64)
    ensures ParseAll(EncodeAll(Pairs(Kept(lines), hash))) == Parsed(Pairs(Kept(lines), hash), None)
  {
    var rs := Pairs(Kept(lines), hash);
    KeptCodes(lines);
    assert forall i :: 0 <= i < |rs| ==> rs[i].code == Kept(lines)[i];
    ParseAllEncodeAll(rs);
  }

  /** One more scanned line adds its code, if it is accepted. */
  lemma KeptSnoc(lines: seq<seq<byte>>, i: nat)
    requires i < |lines|
    ensures Kept(lines[..i + 1]) == Kept(lines[..i]) + (if Accepted(lines[i]) then [Normalise(lines[i])] else [])
  {
    assert lines[..i + 1][..i] == lines[..i];
  }

  lemma PairsSnoc(codes: seq<seq<byte>>, c: seq<byte>, hash: seq<byte> -> u64)
    ensures Pairs(codes + [c], hash) == Pairs(codes, hash) + [Rec(hash(c), c)]
  {
  }

  /**
   * The scan loop over the lines the scanner delivered before stopping, and
   * `scanErr`, the scanner's error (None at a clean end of input). The bytes
   * written are the records of the kept codes; `n` counts them, `invalid`
   * counts the rejected lines, and a scanner error is returned after the loop.
   */
  method ProcessLines<E>(lines: seq<seq<byte>>, scanErr: Option<E>, hash: seq<byte> -> u64)
    returns (out: seq<byte>, n: nat, invalid: nat, err: Option<E>)
    ensures out == EncodeAll(Pairs(Kept(lines), hash))
    ensures n == |Kept(lines)| && n + invalid == |lines|
    ensures err == scanErr
  {
    var bw := new Writer();
    n, invalid := 0, 0;
    ghost var written: seq<Rec> := [];
    for i := 0 to |lines|
      invariant written == Pairs(Kept(lines[..i]), hash)
      invariant bw.data == EncodeAll(written)
      invariant n == |written| && n + invalid == i
    {
      KeptSnoc(lines, i);
      var s := Trim(lines[i], IsAsciiSpace);
      var l := |s|;
      if l < MIN_CODE_LENGTH || l > MAX_CODE_LENGTH {
        invalid := invalid + 1;
        continue;
      }
      var code := ToUpper(s);
      PairsSnoc(Kept(lines[..i]), code, hash);
      EncodeAllSnoc(written, Rec(hash(code), code));
      WritePair(bw, hash, code);
      written := written + [Rec(hash(code), code)];
      n := n + 1;
    }
    assert lines[..|lines|] == lines;
    out := bw.data;
    err := scanErr;
  }
}
