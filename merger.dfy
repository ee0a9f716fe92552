/**
 * The three-way quorum merge of the preprocessing pipeline
 * (cmd/preprocess/merger/merger.go): three sorted records files are walked
 * in lockstep; at each step the smallest record among the three heads is
 * taken, every file whose head equals it advances, and the record's code is
 * emitted when at least two files held it.
 */
module Merger {
  import opened Wrappers
  import opened Bytes
  import opened Streams
  import opened Codec
  import opened RecordReader
  import opened Sorter

  // ---------------------------------------------------------------- choosing the minimum

  /** `a` comes no later than `b` in record order. */
  predicate RecLeq(a: Rec, b: Rec)
  {
    a == b || RecLess(a, b)
  }

  lemma RecLeqTransitive(a: Rec, b: Rec, c: Rec)
    requires RecLeq(a, b) && RecLeq(b, c)
    ensures RecLeq(a, c)
  {
    if a != b && b != c {
      RecLessTransitive(a, b, c);
    }
  }

  /**
   * The `pick` closure: offered `r` while holding `min` (meaningful only when
   * `set`), keep whichever is smaller; the first offer is always taken.
   */
  function Pick(isSet: bool, min: Rec, r: Rec): (m: Rec)
    ensures m == r || (isSet && m == min)
    ensures !isSet ==> m == r
    ensures RecLeq(m, r)
    ensures isSet ==> RecLeq(m, min)
  {
    RecLessTrichotomy(r, min);
    if !isSet || RecLess(r, min) then r else min
  }

  /** The record the loop picks: the smallest head among the non-empty streams. */
  function Smallest(xs: seq<Rec>, ys: seq<Rec>, zs: seq<Rec>): (m: Rec)
    requires xs != [] || ys != [] || zs != []
    ensures (xs != [] && m == xs[0]) || (ys != [] && m == ys[0]) || (zs != [] && m == zs[0])
    ensures xs != [] ==> RecLeq(m, xs[0])
    ensures ys != [] ==> RecLeq(m, ys[0])
    ensures zs != [] ==> RecLeq(m, zs[0])
  {
    var m1 := if xs != [] then Pick(false, ZeroRec, xs[0]) else ZeroRec;
    var m2 := if ys != [] then Pick(xs != [], m1, ys[0]) else m1;
    var m3 := if zs != [] then Pick(xs != [] || ys != [], m2, zs[0]) else m2;
    if ys != [] then
      RecLeqTransitive(m3, m2, ys[0]);
      if xs != [] then RecLeqTransitive(m3, m2, m1); m3 else m3
    else m3
  }

  // ---------------------------------------------------------------- the merge as a function

  /** A stream after the step that took `m`: its head is dropped when it equals `m`. */
  function Drop(xs: seq<Rec>, m: Rec): seq<Rec>
  {
    if xs != [] && xs[0] == m then xs[1..] else xs
  }

  /** Whether a stream's head equals `m` (it then counts towards `cnt`). */
  function Hit(xs: seq<Rec>, m: Rec): nat
  {
    if xs != [] && xs[0] == m then 1 else 0
  }

  /** The records the merge loop emits, in emission order, for the three record streams. */
  function QuorumMerge(xs: seq<Rec>, ys: seq<Rec>, zs: seq<Rec>): seq<Rec>
    decreases |xs| + |ys| + |zs|
  {
    if xs == [] && ys == [] && zs == [] then []
    else
      var m := Smallest(xs, ys, zs);
      var cnt := Hit(xs, m) + Hit(ys, m) + Hit(zs, m);
      (if cnt >= 2 then [m] else []) + QuorumMerge(Drop(xs, m), Drop(ys, m), Drop(zs, m))
  }

  /** Each step of the merge takes at least one record off the three streams. */
  lemma DropShrinks(xs: seq<Rec>, ys: seq<Rec>, zs: seq<Rec>)
    requires xs != [] || ys != [] || zs != []
    ensures var m := Smallest(xs, ys, zs);
      |Drop(xs, m)| + |Drop(ys, m)| + |Drop(zs, m)| < |xs| + |ys| + |zs|
  {
  }

  /** In how many of the three streams `x` occurs. */
  function Votes(x: Rec, xs: seq<Rec>, ys: seq<Rec>, zs: seq<Rec>): (n: nat)
    ensures n <= 3
  {
    (if x in xs then 1 else 0) + (if x in ys then 1 else 0) + (if x in zs then 1 else 0)
  }

  /** Whatever the order of the streams, an emitted record occurs in at least two of them. */
  lemma {:induction false} QuorumMergeSound(xs: seq<Rec>, ys: seq<Rec>, zs: seq<Rec>, x: Rec)
    requires x in QuorumMerge(xs, ys, zs)
    ensures Votes(x, xs, ys, zs) >= 2
    decreases |xs| + |ys| + |zs|
  {
    var m := Smallest(xs, ys, zs);
    var cnt := Hit(xs, m) + Hit(ys, m) + Hit(zs, m);
    var rest := QuorumMerge(Drop(xs, m), Drop(ys, m), Drop(zs, m));
    assert QuorumMerge(xs, ys, zs) == (if cnt >= 2 then [m] else []) + rest;
    if x in rest {
      QuorumMergeSound(Drop(xs, m), Drop(ys, m), Drop(zs, m), x);
      DropSubset(xs, m, x);
      DropSubset(ys, m, x);
      DropSubset(zs, m, x);
    } else {
      assert x == m && cnt >= 2;
      HitIn(xs, m);
      HitIn(ys, m);
      HitIn(zs, m);
    }
  }

  lemma DropSubset(xs: seq<Rec>, m: Rec, x: Rec)
    ensures x in Drop(xs, m) ==> x in xs
  {
    if xs != [] && xs[0] == m {
      assert xs == [xs[0]] + xs[1..];
    }
  }

  lemma HitIn(xs: seq<Rec>, m: Rec)
    ensures Hit(xs, m) == 1 ==> m in xs
  {
  }

  /**
   * Facts about one step on a strictly ascending stream whose head is no
   * smaller than `m`: `m` occurs in it exactly when it is the head, the
   * dropped stream no longer holds `m`, everything left is larger than `m`,
   * and nothing else is lost.
   */
  lemma {:induction false} DropStep(xs: seq<Rec>, m: Rec)
    requires StrictlyAscending(xs)
    requires xs != [] ==> RecLeq(m, xs[0])
    ensures m in xs <==> Hit(xs, m) == 1
    ensures StrictlyAscending(Drop(xs, m))
    ensures forall x :: x in Drop(xs, m) ==> RecLess(m, x)
    ensures forall x :: x != m ==> (x in Drop(xs, m) <==> x in xs)
  {
    if xs != [] {
      var d := Drop(xs, m);
      assert xs == [xs[0]] + xs[1..];
      forall i | 0 <= i < |xs| ensures RecLeq(m, xs[i]) {
        if i > 0 { RecLeqTransitive(m, xs[0], xs[i]); }
      }
      forall x | x in d ensures RecLess(m, x) {
        var i :| 0 <= i < |d| && d[i] == x;
        if xs[0] == m {
          assert d[i] == xs[i + 1];
          assert RecLess(xs[0], xs[i + 1]);
        } else if i > 0 {
          assert d[i] == xs[i] && RecLess(xs[0], xs[i]);
          RecLessTransitive(m, xs[0], xs[i]);
        }
      }
      assert StrictlyAscending(d) by {
        forall i, j | 0 <= i < j < |d| ensures RecLess(d[i], d[j]) {
          if xs[0] == m {
            assert d[i] == xs[i + 1] && d[j] == xs[j + 1];
          }
        }
      }
      RecLessIrreflexive(m);
    }
  }

  /**
   * One step of the merge on strictly ascending streams: `m` gets exactly
   * its votes as `cnt`, loses them all, every other record keeps its votes,
   * and whatever is left lies above `m`.
   */
  lemma StepVotes(xs: seq<Rec>, ys: seq<Rec>, zs: seq<Rec>)
    requires StrictlyAscending(xs) && StrictlyAscending(ys) && StrictlyAscending(zs)
    requires xs != [] || ys != [] || zs != []
    ensures
      var m := Smallest(xs, ys, zs);
      var xs', ys', zs' := Drop(xs, m), Drop(ys, m), Drop(zs, m);
      && StrictlyAscending(xs') && StrictlyAscending(ys') && StrictlyAscending(zs')
      && Hit(xs, m) + Hit(ys, m) + Hit(zs, m) == Votes(m, xs, ys, zs)
      && Votes(m, xs', ys', zs') == 0
      && (forall x :: x != m ==> Votes(x, xs', ys', zs') == Votes(x, xs, ys, zs))
      && (forall x :: Votes(x, xs', ys', zs') > 0 ==> RecLess(m, x))
  {
    var m := Smallest(xs, ys, zs);
    DropStep(xs, m);
    DropStep(ys, m);
    DropStep(zs, m);
    RecLessIrreflexive(m);
  }

  /** A record below everything in a strictly ascending sequence can go in front of it. */
  lemma ConsAscending(m: Rec, rest: seq<Rec>)
    requires StrictlyAscending(rest)
    requires forall x :: x in rest ==> RecLess(m, x)
    ensures StrictlyAscending([m] + rest)
  {
    var q := [m] + rest;
    forall i, j | 0 <= i < j < |q| ensures RecLess(q[i], q[j]) {
      assert q[j] == rest[j - 1];
      if i > 0 {
        assert q[i] == rest[i - 1];
      }
    }
  }

  /**
   * The merge of three strictly ascending streams is strictly ascending and
   * holds exactly the records that occur in at least two of them.
   */
  lemma {:induction false} QuorumMergeCorrect(xs: seq<Rec>, ys: seq<Rec>, zs: seq<Rec>)
    requires StrictlyAscending(xs) && StrictlyAscending(ys) && StrictlyAscending(zs)
    ensures StrictlyAscending(QuorumMerge(xs, ys, zs))
    ensures forall x :: x in QuorumMerge(xs, ys, zs) <==> Votes(x, xs, ys, zs) >= 2
    decreases |xs| + |ys| + |zs|
  {
    if xs == [] && ys == [] && zs == [] {
      assert QuorumMerge(xs, ys, zs) == [];
    } else {
      var m := Smallest(xs, ys, zs);
      var xs', ys', zs' := Drop(xs, m), Drop(ys, m), Drop(zs, m);
      var rest := QuorumMerge(xs', ys', zs');
      StepVotes(xs, ys, zs);
      QuorumMergeCorrect(xs', ys', zs');
      forall x | x in rest ensures RecLess(m, x) {
        assert Votes(x, xs', ys', zs') >= 2;
      }
      if Votes(m, xs, ys, zs) >= 2 {
        ConsAscending(m, rest);
      }
    }
  }

  // ---------------------------------------------------------------- the output files

  /** The text output: each emitted code followed by a newline. */
  function TextLines(rs: seq<Rec>): (t: seq<byte>)
  {
    if rs == [] then [] else TextLines(rs[..|rs| - 1]) + rs[|rs| - 1].code + [10]
  }

  /** The binary output: each emitted record's hash as 8 little-endian bytes. */
  function Hashes(rs: seq<Rec>): (t: seq<byte>)
    ensures |t| == 8 * |rs|
  {
    if rs == [] then [] else Hashes(rs[..|rs| - 1]) + LE(rs[|rs| - 1].h, 8)
  }

  lemma TextLinesSnoc(rs: seq<Rec>, r: Rec)
    ensures TextLines(rs + [r]) == TextLines(rs) + r.code + [10]
  {
    assert (rs + [r])[..|rs|] == rs;
  }

  lemma HashesSnoc(rs: seq<Rec>, r: Rec)
    ensures Hashes(rs + [r]) == Hashes(rs) + LE(r.h, 8)
  {
    assert (rs + [r])[..|rs|] == rs;
  }

  /** The binary output reads back as the emitted hashes, 8 bytes each, in order. */
  lemma {:induction false} HashesDecode(rs: seq<Rec>, i: nat)
    requires i < |rs|
    ensures FromLE(Hashes(rs)[8 * i..8 * i + 8]) == rs[i].h
  {
    var init := rs[..|rs| - 1];
    if i < |rs| - 1 {
      HashesDecode(init, i);
      assert Hashes(rs)[8 * i..8 * i + 8] == Hashes(init)[8 * i..8 * i + 8];
      assert init[i] == rs[i];
    } else {
      assert Hashes(rs)[8 * i..8 * i + 8] == LE(rs[i].h, 8);
      Pow256Widths();
      FromLEOfLE(rs[i].h, 8);
    }
  }

  /** The first error among the readers' errors, taken in order. */
  function FirstError(es: seq<Option<IoError>>): (e: Option<IoError>)
    ensures e == None <==> forall k :: 0 <= k < |es| ==> es[k] == None
    ensures e.Some? ==> exists k :: 0 <= k < |es| && es[k] == e && forall j :: 0 <= j < k ==> es[j] == None
  {
    if es == [] then None
    else if es[0].Some? then es[0]
    else
      var e := FirstError(es[1..]);
      assert forall k :: 1 <= k < |es| ==> es[k] == es[1..][k - 1];
      e
  }

  // ---------------------------------------------------------------- Merge3PairsToValid

  /** Moving the merge's next record to the emitted ones keeps their concatenation. */
  lemma EmitStep(emitted: seq<Rec>, m: Rec, rest: seq<Rec>)
    ensures (emitted + [m]) + rest == emitted + ([m] + rest)
  {
  }

  /** One unfolding of QuorumMerge, named so the merge loop can use it on its readers' records. */
  lemma QuorumMergeUnfold(xs: seq<Rec>, ys: seq<Rec>, zs: seq<Rec>)
    requires xs != [] || ys != [] || zs != []
    ensures
      var m := Smallest(xs, ys, zs);
      var rest := QuorumMerge(Drop(xs, m), Drop(ys, m), Drop(zs, m));
      && QuorumMerge(xs, ys, zs) == (if Hit(xs, m) + Hit(ys, m) + Hit(zs, m) >= 2 then [m] + rest else rest)
      && |Drop(xs, m)| + |Drop(ys, m)| + |Drop(zs, m)| < |xs| + |ys| + |zs|
  {
  }

  /** Three readers over three different files, each in a consistent state. */
  ghost predicate Trio(ra: Reader, rb: Reader, rc: Reader)
    reads ra, ra.br, rb, rb.br, rc, rc.br
  {
    && ra != rb && ra != rc && rb != rc
    && ra.br != rb.br && ra.br != rc.br && rb.br != rc.br
    && ra.Valid() && rb.Valid() && rc.Valid()
  }

  /** What `r.Has()` returning `ok` tells about the reader. */
  ghost predicate Looked(r: Reader, ok: bool)
    reads r
  {
    && (ok <==> r.upcoming != [])
    && (ok ==> r.ok && r.cur == r.upcoming[0])
    && (!ok ==> r.err == r.outcome)
  }

  /** `okA, okB, okC := ra.Has(), rb.Has(), rc.Has()`. */
  method HasAll(ra: Reader, rb: Reader, rc: Reader) returns (okA: bool, okB: bool, okC: bool)
    requires Trio(ra, rb, rc)
    modifies ra, ra.br, rb, rb.br, rc, rc.br
    ensures Trio(ra, rb, rc)
    ensures ra.upcoming == old(ra.upcoming) && rb.upcoming == old(rb.upcoming) && rc.upcoming == old(rc.upcoming)
    ensures ra.outcome == old(ra.outcome) && rb.outcome == old(rb.outcome) && rc.outcome == old(rc.outcome)
    ensures Looked(ra, okA) && Looked(rb, okB) && Looked(rc, okC)
  {
    okA := ra.Has();
    okB := rb.Has();
    okC := rc.Has();
  }

  /**
   * One of the three `if ok && Peek() == min { Pop(); cnt++ }` blocks:
   * the reader advances past its head exactly when that head is `min`.
   */
  method PopIfEqual(r: Reader, ok: bool, min: Rec) returns (hit: nat)
    requires r.Valid() && Looked(r, ok)
    modifies r
    ensures r.Valid()
    ensures hit == Hit(old(r.upcoming), min)
    ensures r.upcoming == Drop(old(r.upcoming), min)
    ensures r.outcome == old(r.outcome)
  {
    hit := 0;
    if ok && r.Peek().h == min.h && r.Peek().code == min.code {
      assert r.Peek() == min;
      r.Pop();
      hit := 1;
    }
  }

  /** The three pop blocks together: `cnt` counts the readers whose head was `min`. */
  method PopAll(ra: Reader, rb: Reader, rc: Reader, okA: bool, okB: bool, okC: bool, min: Rec)
    returns (cnt: nat)
    requires Trio(ra, rb, rc) && Looked(ra, okA) && Looked(rb, okB) && Looked(rc, okC)
    modifies ra, rb, rc
    ensures Trio(ra, rb, rc)
    ensures cnt == Hit(old(ra.upcoming), min) + Hit(old(rb.upcoming), min) + Hit(old(rc.upcoming), min)
    ensures ra.upcoming == Drop(old(ra.upcoming), min)
    ensures rb.upcoming == Drop(old(rb.upcoming), min)
    ensures rc.upcoming == Drop(old(rc.upcoming), min)
    ensures ra.outcome == old(ra.outcome) && rb.outcome == old(rb.outcome) && rc.outcome == old(rc.outcome)
  {
    cnt := 0;
    var hit := PopIfEqual(ra, okA, min);
    cnt := cnt + hit;
    hit := PopIfEqual(rb, okB, min);
    cnt := cnt + hit;
    hit := PopIfEqual(rc, okC, min);
    cnt := cnt + hit;
  }

  /** The `Pick` calls over the heads of the readers that have one: the minimum of the three streams' heads. */
  method PickMin(ra: Reader, rb: Reader, rc: Reader, okA: bool, okB: bool, okC: bool) returns (min: Rec)
    requires Trio(ra, rb, rc) && Looked(ra, okA) && Looked(rb, okB) && Looked(rc, okC)
    requires okA || okB || okC
    ensures min == Smallest(ra.upcoming, rb.upcoming, rc.upcoming)
  {
    min := ZeroRec;
    var isSet := false;
    if okA {
      min, isSet := Pick(isSet, min, ra.Peek()), true;
    }
    if okB {
      min, isSet := Pick(isSet, min, rb.Peek()), true;
    }
    if okC {
      min, isSet := Pick(isSet, min, rc.Peek()), true;
    }
  }

  /**
   * The first part of the merge loop's body: the three Has calls, then,
   * unless all three readers are exhausted (`stop`), picking the minimum
   * and popping it from every reader whose head it is, counting them.
   */
  method Advance(ra: Reader, rb: Reader, rc: Reader) returns (stop: bool, min: Rec, cnt: nat)
    requires Trio(ra, rb, rc)
    modifies ra, ra.br, rb, rb.br, rc, rc.br
    ensures Trio(ra, rb, rc)
    ensures ra.outcome == old(ra.outcome) && rb.outcome == old(rb.outcome) && rc.outcome == old(rc.outcome)
    ensures stop <==> old(ra.upcoming) == [] && old(rb.upcoming) == [] && old(rc.upcoming) == []
    ensures stop ==> ra.upcoming == [] && rb.upcoming == [] && rc.upcoming == []
    ensures stop ==> ra.err == ra.outcome && rb.err == rb.outcome && rc.err == rc.outcome
    ensures !stop ==>
      && min == Smallest(old(ra.upcoming), old(rb.upcoming), old(rc.upcoming))
      && cnt == Hit(old(ra.upcoming), min) + Hit(old(rb.upcoming), min) + Hit(old(rc.upcoming), min)
      && ra.upcoming == Drop(old(ra.upcoming), min)
      && rb.upcoming == Drop(old(rb.upcoming), min)
      && rc.upcoming == Drop(old(rc.upcoming), min)
    ensures !stop ==> |ra.upcoming| + |rb.upcoming| + |rc.upcoming| < |old(ra.upcoming)| + |old(rb.upcoming)| + |old(rc.upcoming)|
  {
    var okA, okB, okC := HasAll(ra, rb, rc);
    if !okA && !okB && !okC {
      return true, ZeroRec, 0;
    }
    min := PickMin(ra, rb, rc, okA, okB, okC);

    // count appearances
    cnt := PopAll(ra, rb, rc, okA, okB, okC, min);
    DropShrinks(old(ra.upcoming), old(rb.upcoming), old(rc.upcoming));
    stop := false;
  }

  /** Writing one valid code: the code and a newline to the text output, its hash to the binary one if any. */
  method Emit(bw: Writer, bwb: Writer?, min: Rec, ghost emitted: seq<Rec>)
    requires bwb != bw
    requires bw.data == TextLines(emitted)
    requires bwb != null ==> bwb.data == Hashes(emitted)
    modifies bw, bwb
    ensures bw.data == TextLines(emitted + [min])
    ensures bwb != null ==> bwb.data == Hashes(emitted + [min])
  {
    TextLinesSnoc(emitted, min);
    HashesSnoc(emitted, min);
    bw.Write(min.code + [10]);
    if bwb != null {
      bwb.Write(LE(min.h, 8));
    }
  }

  /** The loop over `[]*Reader{ra, rb, rc}` after the merge: the first reader error, if any. */
  method FirstReaderError(ra: Reader, rb: Reader, rc: Reader) returns (err: Option<IoError>)
    ensures err == FirstError([ra.err, rb.err, rc.err])
  {
    var readers := [ra, rb, rc];
    ghost var es := [ra.err, rb.err, rc.err];
    for k := 0 to 3
      invariant forall j :: 0 <= j < k ==> es[j] == None
    {
      assert readers[k].err == es[k];
      if readers[k].Err().Some? {
        assert forall j :: 0 <= j < k ==> es[j] == None;
        return readers[k].Err();
      }
    }
    return None;
  }

  /**
   * One pass of the merge loop: Advance, then writing the minimum when at
   * least two readers held it. `emitted` are the records written so far.
   */
  method MergeStep(ra: Reader, rb: Reader, rc: Reader, bw: Writer, bwb: Writer?, ghost emitted: seq<Rec>)
    returns (stop: bool, ghost emitted': seq<Rec>)
    requires Trio(ra, rb, rc) && bwb != bw
    requires bw.data == TextLines(emitted) && (bwb != null ==> bwb.data == Hashes(emitted))
    modifies ra, ra.br, rb, rb.br, rc, rc.br, bw, bwb
    ensures Trio(ra, rb, rc)
    ensures ra.outcome == old(ra.outcome) && rb.outcome == old(rb.outcome) && rc.outcome == old(rc.outcome)
    ensures bw.data == TextLines(emitted') && (bwb != null ==> bwb.data == Hashes(emitted'))
    ensures emitted' + QuorumMerge(ra.upcoming, rb.upcoming, rc.upcoming)
         == emitted + QuorumMerge(old(ra.upcoming), old(rb.upcoming), old(rc.upcoming))
    ensures stop ==> ra.upcoming == [] && rb.upcoming == [] && rc.upcoming == []
    ensures stop ==> ra.err == ra.outcome && rb.err == rb.outcome && rc.err == rc.outcome
    ensures !stop ==> |ra.upcoming| + |rb.upcoming| + |rc.upcoming| < |old(ra.upcoming)| + |old(rb.upcoming)| + |old(rc.upcoming)|
  {
    ghost var xs, ys, zs := ra.upcoming, rb.upcoming, rc.upcoming;
    var min, cnt;
    stop, min, cnt := Advance(ra, rb, rc);
    emitted' := emitted;
    if !stop {
      QuorumMergeUnfold(xs, ys, zs);
      if cnt >= 2 {
        EmitStep(emitted, min, QuorumMerge(ra.upcoming, rb.upcoming, rc.upcoming));
        Emit(bw, bwb, min, emitted);
        emitted' := emitted + [min];
      }
    }
  }

  /**
   * The merge loop of Merge3PairsToValid over three open readers: it runs
   * until all three are exhausted, writing each code that at least two of
   * them hold as a text line and, when a binary writer is given, its hash.
   */
  method MergeLoop(ra: Reader, rb: Reader, rc: Reader, bw: Writer, bwb: Writer?)
    requires Trio(ra, rb, rc) && bwb != bw
    requires bw.data == [] && (bwb != null ==> bwb.data == [])
    modifies ra, ra.br, rb, rb.br, rc, rc.br, bw, bwb
    ensures Trio(ra, rb, rc)
    ensures ra.outcome == old(ra.outcome) && rb.outcome == old(rb.outcome) && rc.outcome == old(rc.outcome)
    ensures ra.err == ra.outcome && rb.err == rb.outcome && rc.err == rc.outcome
    ensures bw.data == TextLines(QuorumMerge(old(ra.upcoming), old(rb.upcoming), old(rc.upcoming)))
    ensures bwb != null ==> bwb.data == Hashes(QuorumMerge(old(ra.upcoming), old(rb.upcoming), old(rc.upcoming)))
  {
    ghost var q0 := QuorumMerge(ra.upcoming, rb.upcoming, rc.upcoming);
    ghost var emitted: seq<Rec> := [];
    assert emitted + q0 == q0;
    var stop := false;
    while !stop
      invariant Trio(ra, rb, rc)
      invariant emitted + QuorumMerge(ra.upcoming, rb.upcoming, rc.upcoming) == q0
      invariant ra.outcome == old(ra.outcome) && rb.outcome == old(rb.outcome) && rc.outcome == old(rc.outcome)
      invariant stop ==> ra.upcoming == [] && rb.upcoming == [] && rc.upcoming == []
      invariant stop ==> ra.err == ra.outcome && rb.err == rb.outcome && rc.err == rc.outcome
      invariant bw.data == TextLines(emitted) && (bwb != null ==> bwb.data == Hashes(emitted))
      decreases !stop, |ra.upcoming| + |rb.upcoming| + |rc.upcoming|
    {
      stop, emitted := MergeStep(ra, rb, rc, bw, bwb, emitted);
    }
    assert QuorumMerge(ra.upcoming, rb.upcoming, rc.upcoming) == [];
    assert emitted == q0;
  }

  /**
   * Merge3PairsToValid on the contents of the three sorted files (None for a
   * file that does not open). `withBin` says whether a binary output was
   * asked for. The text output and, when asked for, the binary output hold
   * the merge of the three files' records; the error reported is the first
   * of the three readers' errors, checked after the loop.
   */
  method Merge3PairsToValid(a: Option<seq<byte>>, b: Option<seq<byte>>, c: Option<seq<byte>>, withBin: bool)
    returns (txt: Option<seq<byte>>, bin: Option<seq<byte>>, err: Option<IoError>)
    ensures a.None? || b.None? || c.None? ==> txt == None && bin == None && err == Some(OpenFailed)
    ensures a.Some? && b.Some? && c.Some? ==>
      var pa, pb, pc := ParseAll(a.value), ParseAll(b.value), ParseAll(c.value);
      var q := QuorumMerge(pa.recs, pb.recs, pc.recs);
      && txt == Some(TextLines(q))
      && bin == (if withBin then Some(Hashes(q)) else None)
      && err == FirstError([pa.err, pb.err, pc.err])
  {
    if a.None? || b.None? || c.None? {
      return None, None, Some(OpenFailed);
    }
    var ra := new Reader(a.value);
    var rb := new Reader(b.value);
    var rc := new Reader(c.value);
    var bw := new Writer();
    var bwb: Writer? := null;
    if withBin {
      bwb := new Writer();
    }
    MergeLoop(ra, rb, rc, bw, bwb);
    txt := Some(bw.data);
    bin := if bwb != null then Some(bwb.data) else None;

    // propagate errors, in the order a, b, c
    err := FirstReaderError(ra, rb, rc);
  }

  /** The quorum merge depends only on which records each stream holds, once the streams are strictly ascending. */
  lemma QuorumOfSameRecords(da: seq<Rec>, db: seq<Rec>, dc: seq<Rec>, fa: seq<Rec>, fb: seq<Rec>, fc: seq<Rec>)
    requires StrictlyAscending(da) && StrictlyAscending(db) && StrictlyAscending(dc)
    requires forall x :: x in da <==> x in fa
    requires forall x :: x in db <==> x in fb
    requires forall x :: x in dc <==> x in fc
    ensures StrictlyAscending(QuorumMerge(da, db, dc))
    ensures forall x :: x in QuorumMerge(da, db, dc) <==> Votes(x, fa, fb, fc) >= 2
  {
    QuorumMergeCorrect(da, db, dc);
    forall x ensures Votes(x, da, db, dc) == Votes(x, fa, fb, fc) {
    }
  }

  /** What ExternalSortPairs promises of the file it writes for a pairs file holding the records `fed`. */
  ghost predicate SortStageOutput(output: Parsed, fed: seq<Rec>)
  {
    && output.err == None
    && StrictlyAscending(output.recs)
    && (forall x :: x in output.recs <==> x in fed)
  }

  /**
   * The merge fed by the sort stage: when each of the three files reads back
   * as ExternalSortPairs promises for a pairs file, no reader reports an
   * error, and a record is emitted exactly when at least two of the original
   * pairs files hold it, in strictly ascending order.
   */
  lemma MergeOfSortedFiles(fa: seq<Rec>, fb: seq<Rec>, fc: seq<Rec>, pa: Parsed, pb: Parsed, pc: Parsed)
    requires SortStageOutput(pa, fa) && SortStageOutput(pb, fb) && SortStageOutput(pc, fc)
    ensures FirstError([pa.err, pb.err, pc.err]) == None
    ensures StrictlyAscending(QuorumMerge(pa.recs, pb.recs, pc.recs))
    ensures forall x :: x in QuorumMerge(pa.recs, pb.recs, pc.recs) <==> Votes(x, fa, fb, fc) >= 2
  {
    QuorumOfSameRecords(pa.recs, pb.recs, pc.recs, fa, fb, fc);
  }

  /** ExternalSortPairs's output meets what the merge needs. */
  lemma SortedOutputFeedsMerge(input: seq<byte>, sorted: seq<Rec>)
    requires IsSortOf(sorted, ParseAll(input).recs)
    ensures SortStageOutput(ParseAll(EncodeAll(Dedup(sorted))), ParseAll(input).recs)
  {
    SortedOutput(input, sorted);
  }
}
