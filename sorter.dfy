/**
 * The sort-and-dedup stage (cmd/preprocess/sorter/sorter.go): the comparator
 * and byte codec handed to the external-sort library, and the loop that
 * writes the library's sorted output while dropping repeated records.
 */
module Sorter {
  import opened Wrappers
  import opened Bytes
  import opened Streams
  import opened Codec

  /** compareRec: -1, 0 or 1 as `a` is below, equal to or above `b` in the record order. */
  function CompareRec(a: Rec, b: Rec): (c: int)
    ensures c == 0 <==> a == b
    ensures c == -1 <==> RecLess(a, b)
    ensures c == 1 <==> RecLess(b, a)
  {
    RecLessTrichotomy(a, b);
    RecLessIrreflexive(a);
    if a.h != b.h then
      (if a.h < b.h then -1 else 1)
    else if a.code != b.code then
      (if BytesLess(a.code, b.code) then -1 else 1)
    else
      0
  }

  lemma CompareRecAntisymmetric(a: Rec, b: Rec)
    ensures CompareRec(a, b) == -CompareRec(b, a)
  {
  }

  // ---------------------------------------------------------------- byte codec

  /** binary.LittleEndian.PutUint16/PutUint64: stores the `width` low bytes of `n` at `off`. */
  method PutLE(buf: array<byte>, off: nat, n: nat, width: nat)
    requires off + width <= buf.Length
    modifies buf
    ensures forall k :: 0 <= k < width ==> buf[off + k] == LE(n, width)[k]
    ensures forall k :: 0 <= k < buf.Length && !(off <= k < off + width) ==> buf[k] == old(buf[k])
  {
    var v := n;
    var i := 0;
    while i < width
      invariant 0 <= i <= width
      invariant forall k :: 0 <= k < i ==> buf[off + k] == LE(n, width)[k]
      invariant forall k :: 0 <= k < buf.Length && !(off <= k < off + i) ==> buf[k] == old(buf[k])
      invariant LE(v, width - i) == LE(n, width)[i..]
    {
      assert LE(v, width - i)[1..] == LE(n, width)[i + 1..];
      buf[off + i] := v % 256;
      v := v / 256;
      i := i + 1;
    }
  }

  /** recToBytes: a fresh buffer holding the hash, the 16-bit length and the code. */
  method RecToBytes(rec: Rec) returns (data: seq<byte>)
    ensures data == EncodeRec(rec)
  {
    var totalSize := 8 + 2 + |rec.code|;
    var buf := new byte[totalSize];
    PutLE(buf, 0, rec.h, 8);
    PutLE(buf, 8, |rec.code| % 0x1_0000, 2);
    forall k | 0 <= k < |rec.code| {
      buf[10 + k] := rec.code[k];
    }
    data := buf[..];
    ghost var want := EncodeRec(rec);
    assert want == LE(rec.h, 8) + LE(|rec.code| % 0x1_0000, 2) + rec.code;
    assert forall k :: 0 <= k < |want| ==> data[k] == want[k];
  }

  /** The two ways recFromBytes refuses a buffer. */
  datatype FormatError =
    | TooShort(length: nat)                      // fewer than 10 bytes
    | LengthMismatch(length: nat, expected: nat) // not 10 + the encoded length

  /** recFromBytes: the record a buffer holds, if its length matches its length field. */
  function RecFromBytes(data: seq<byte>): (r: Result<Rec, FormatError>)
    ensures r.Err? <==> |data| < 10 || |data| != 10 + FromLE(data[8..10])
    ensures r.Ok? ==> Fits(r.value) && EncodeRec(r.value) == data
  {
    if |data| < 10 then
      Err(TooShort(|data|))
    else
      var strLen := FromLE(data[8..10]);
      if |data| != 10 + strLen then
        Err(LengthMismatch(|data|, 10 + strLen))
      else
        Pow256Widths();
        var rec := Rec(FromLE(data[..8]), data[10..]);
        LEOfFromLE(data[..8]);
        LEOfFromLE(data[8..10]);
        assert data == data[..8] + data[8..10] + data[10..];
        Ok(rec)
  }

  /** Round trip of the external-sort codec. */
  lemma RecFromBytesOfEncode(r: Rec)
    requires Fits(r)
    ensures RecFromBytes(EncodeRec(r)) == Ok(r)
  {
    var data := EncodeRec(r);
    var back := RecFromBytes(data);
    Pow256Widths();
    FromLEOfLE(|r.code|, 2);
    assert back.Ok?;
    assert back.value.h == FromLE(data[..8]) == r.h;
    assert back.value.code == data[10..] == r.code;
  }

  /** recFromBytes accepts exactly the buffers ReadPair reads as one whole record. */
  lemma RecFromBytesAgreesWithDecode(data: seq<byte>)
    ensures RecFromBytes(data).Ok? <==> Decode(data).Got? && Decode(data).size == |data|
    ensures RecFromBytes(data).Ok? ==> RecFromBytes(data).value == Decode(data).rec
  {
    if RecFromBytes(data).Ok? {
      var r := RecFromBytes(data).value;
      DecodeEncodeRec(r, []);
      assert EncodeRec(r) + [] == data;
    }
  }

  // ---------------------------------------------------------------- dedup

  /** What the write loop keeps of a stream: each record that differs from the one before it. */
  function Dedup(s: seq<Rec>): (d: seq<Rec>)
    ensures |d| <= |s|
    ensures |s| > 0 ==> |d| > 0 && d[|d| - 1] == s[|s| - 1]
  {
    if |s| <= 1 then s
    else if s[|s| - 1] == s[|s| - 2] then Dedup(s[..|s| - 1])
    else Dedup(s[..|s| - 1]) + [s[|s| - 1]]
  }

  /** Dedup drops records but never invents one: the same records survive. */
  lemma {:induction false} DedupSameRecords(s: seq<Rec>)
    ensures forall x :: x in Dedup(s) <==> x in s
  {
    if |s| > 1 {
      DedupSameRecords(s[..|s| - 1]);
      assert s == s[..|s| - 1] + [s[|s| - 1]];
      assert s[|s| - 2] in s[..|s| - 1];
    }
  }

  /** No two consecutive records of Dedup's result are equal. */
  lemma {:induction false} DedupNoRepeats(s: seq<Rec>)
    ensures forall i :: 0 < i < |Dedup(s)| ==> Dedup(s)[i - 1] != Dedup(s)[i]
  {
    if |s| > 1 {
      DedupNoRepeats(s[..|s| - 1]);
    }
  }

  /** One more step of the write loop: the next record is kept iff it differs from the previous one. */
  lemma DedupStep(s: seq<Rec>, i: nat)
    requires i < |s|
    ensures Dedup(s[..i + 1]) ==
      if i > 0 && s[i] == s[i - 1] then Dedup(s[..i]) else Dedup(s[..i]) + [s[i]]
  {
    assert s[..i + 1][..i] == s[..i];
  }

  /** The write loop on a sorted stream produces a strictly ascending one. */
  lemma {:induction false} DedupOfSorted(s: seq<Rec>)
    requires Sorted(s)
    ensures StrictlyAscending(Dedup(s))
  {
    if |s| > 1 {
      var init := s[..|s| - 1];
      var last := s[|s| - 1];
      assert Sorted(init);
      DedupOfSorted(init);
      if last != s[|s| - 2] {
        var p := Dedup(init);
        RecLessTrichotomy(last, s[|s| - 2]);
        assert RecLess(s[|s| - 2], last);
        forall i | 0 <= i < |p|
          ensures RecLess(p[i], last)
        {
          if i < |p| - 1 {
            RecLessTransitive(p[i], p[|p| - 1], last);
          }
        }
      }
    }
  }

  /** A stream that is already strictly ascending passes through unchanged. */
  lemma {:induction false} DedupOfStrictlyAscending(s: seq<Rec>)
    requires StrictlyAscending(s)
    ensures Dedup(s) == s
  {
    if |s| > 1 {
      assert StrictlyAscending(s[..|s| - 1]);
      DedupOfStrictlyAscending(s[..|s| - 1]);
      RecLessIrreflexive(s[|s| - 1]);
      assert s[..|s| - 1] + [s[|s| - 1]] == s;
    }
  }

  // ---------------------------------------------------------------- ExternalSortPairs

  /** What the external sort is trusted to deliver: the fed records, ascending, as a permutation. */
  ghost predicate IsSortOf(sorted: seq<Rec>, fed: seq<Rec>)
  {
    Sorted(sorted) && multiset(sorted) == multiset(fed)
  }

  lemma SortedTail(s: seq<Rec>)
    requires Sorted(s) && |s| > 0
    ensures Sorted(s[1..])
  {
    var t := s[1..];
    forall i, j | 0 <= i < j < |t| ensures !RecLess(t[j], t[i]) {
      assert t[j] == s[j + 1] && t[i] == s[i + 1];
    }
  }

  /** Two ascending sequences holding the same records start with the same record. */
  lemma SortedSameHead(a: seq<Rec>, b: seq<Rec>)
    requires Sorted(a) && Sorted(b) && multiset(a) == multiset(b) && |a| > 0
    ensures |b| > 0 && a[0] == b[0]
  {
    assert a[0] in multiset(b) && b[0] in multiset(a) by {
      assert a[0] in multiset(a);
    }
    var k :| 0 <= k < |b| && b[k] == a[0];
    var j :| 0 <= j < |a| && a[j] == b[0];
    assert !RecLess(a[0], b[0]) by { if k > 0 { assert !RecLess(b[k], b[0]); } else { RecLessIrreflexive(a[0]); } }
    assert !RecLess(b[0], a[0]) by { if j > 0 { assert !RecLess(a[j], a[0]); } else { RecLessIrreflexive(a[0]); } }
    RecLessTrichotomy(a[0], b[0]);
  }

  lemma MultisetTail(a: seq<Rec>, b: seq<Rec>)
    requires |a| > 0 && |b| > 0 && a[0] == b[0] && multiset(a) == multiset(b)
    ensures multiset(a[1..]) == multiset(b[1..])
  {
    assert a == [a[0]] + a[1..] && b == [b[0]] + b[1..];
    assert multiset(a) == multiset{a[0]} + multiset(a[1..]);
    assert multiset(b) == multiset{b[0]} + multiset(b[1..]);
    forall x ensures multiset(a[1..])[x] == multiset(b[1..])[x] {
      assert multiset(a)[x] == multiset{a[0]}[x] + multiset(a[1..])[x];
      assert multiset(b)[x] == multiset{b[0]}[x] + multiset(b[1..])[x];
    }
  }

  /** Two ascending sequences holding the same records are the same sequence. */
  lemma {:induction false} SortedPermutationUnique(a: seq<Rec>, b: seq<Rec>)
    requires Sorted(a) && Sorted(b) && multiset(a) == multiset(b)
    ensures a == b
  {
    if a == [] {
      assert |multiset(b)| == 0;
    } else {
      SortedSameHead(a, b);
      MultisetTail(a, b);
      SortedTail(a);
      SortedTail(b);
      SortedPermutationUnique(a[1..], b[1..]);
      assert a == [a[0]] + a[1..] && b == [b[0]] + b[1..];
    }
  }

  /** What can go wrong in ExternalSortPairs that the model keeps. */
  datatype SortError = OpenInputFailed

  /**
   * ExternalSortPairs. The feeding goroutine sends the records of `input` up
   * to the first bad one (it prints a read error and stops); `sorted` is what
   * the external-sort library then delivers. The loop writes each record that
   * differs from the last one written.
   */
  method ExternalSortPairs(input: Option<seq<byte>>, sorted: seq<Rec>)
    returns (output: Option<seq<byte>>, err: Option<SortError>)
    requires input.Some? ==> IsSortOf(sorted, ParseAll(input.value).recs)
    ensures input.None? ==> output == None && err == Some(OpenInputFailed)
    ensures input.Some? ==> err == None && output == Some(EncodeAll(Dedup(sorted)))
    ensures input.Some? ==>
      var fed := ParseAll(input.value).recs;
      var out := ParseAll(output.value);
      && out.err == None
      && StrictlyAscending(out.recs)
      && (forall x :: x in out.recs <==> x in fed)
      && |out.recs| <= |fed|
    ensures input.Some? && ParseAll(input.value).recs == [] ==> output == Some([])
  {
    if input.None? {
      return None, Some(OpenInputFailed);
    }
    var bw := new Writer();
    var lastRec := ZeroRec;
    var hasLast := false;
    ghost var kept: seq<Rec> := [];
    var i := 0;
    while i < |sorted|
      invariant 0 <= i <= |sorted|
      invariant kept == Dedup(sorted[..i])
      invariant bw.data == EncodeAll(kept)
      invariant hasLast <==> i > 0
      invariant hasLast ==> lastRec == sorted[i - 1]
    {
      var rec := sorted[i];
      DedupStep(sorted, i);
      if !hasLast || rec.h != lastRec.h || rec.code != lastRec.code {
        EncodeAllSnoc(kept, rec);
        WriteRec(bw, rec);
        kept := kept + [rec];
        lastRec := rec;
        hasLast := true;
      }
      i := i + 1;
    }
    assert sorted[..i] == sorted;
    output := Some(bw.data);
    err := None;
    SortedOutput(input.value, sorted);
    if ParseAll(input.value).recs == [] {
      assert |sorted| == |multiset(sorted)| == 0;
    }
  }

  /** The sorted file decodes to strictly ascending records, the same ones that were fed, at most as many. */
  lemma SortedOutput(input: seq<byte>, sorted: seq<Rec>)
    requires IsSortOf(sorted, ParseAll(input).recs)
    ensures
      var fed := ParseAll(input).recs;
      var out := ParseAll(EncodeAll(Dedup(sorted)));
      && out == Parsed(Dedup(sorted), None)
      && StrictlyAscending(out.recs)
      && (forall x :: x in out.recs <==> x in fed)
      && |out.recs| <= |fed|
  {
    var fed := ParseAll(input).recs;
    var d := Dedup(sorted);
    assert forall x :: x in sorted <==> x in fed by {
      forall x ensures x in sorted <==> x in fed {
        assert x in sorted <==> x in multiset(sorted);
      }
    }
    assert |sorted| == |multiset(sorted)| == |fed|;
    DedupSameRecords(sorted);
    ParseAllFits(input);
    forall i | 0 <= i < |d| ensures Fits(d[i]) {
      assert d[i] in fed;
    }
    ParseAllEncodeAll(d);
    DedupOfSorted(sorted);
  }

  /** Sorting a file that is already sorted and free of duplicates reproduces it byte for byte. */
  lemma SortIdempotent(input: seq<byte>, sorted: seq<Rec>)
    requires ParseAll(input).err == None && StrictlyAscending(ParseAll(input).recs)
    requires IsSortOf(sorted, ParseAll(input).recs)
    ensures EncodeAll(Dedup(sorted)) == input
  {
    var fed := ParseAll(input).recs;
    ParseAllPrefix(input);
    StrictlyAscendingIsSorted(fed);
    SortedPermutationUnique(sorted, fed);
    DedupOfStrictlyAscending(fed);
  }
}
