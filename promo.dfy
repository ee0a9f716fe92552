/**
 * ProcessCouponFile (app/usecases/promo_code.go): the lines of a coupon
 * file are trimmed, empty ones skipped, and every other line becomes an
 * active promo code; the codes are handed to the repository's BulkUpsert
 * in batches of BATCH_SIZE, the last batch possibly shorter, and the first
 * failing call aborts the processing.
 */
module Promo {
  import opened Wrappers
  import opened Text
  import opened Decimal

  /** models.PromoCode as ProcessCouponFile fills it in (the ID is left to the database). */
  datatype PromoCode = PromoCode(
    id: int,
    code: string,
    description: string,
    discountPct: real,
    isActive: bool,
    createdAt: int,
    updatedAt: int)

  const BATCH_SIZE: nat := 1000
  const DEFAULT_DISCOUNT_PCT: real := 10.0

  /** The promo code made from one trimmed line, stamped with the start time `now`. */
  function NewPromoCode(line: string, now: int): PromoCode
  {
    PromoCode(0, line, "Promo code " + line, DEFAULT_DISCOUNT_PCT, true, now, now)
  }

  /** The errors ProcessCouponFile returns, each wrapping the cause. */
  datatype PromoError =
    | OpenFailed(path: string, cause: string)
    | BatchFailed(line: int, cause: string)
    | FinalBatchFailed(cause: string)
    | ReadFailed(cause: string)

  /** The text fmt.Errorf gives each error. */
  function Message(e: PromoError): string
  {
    match e
    case OpenFailed(path, cause) => "failed to open coupon file " + path + ": " + cause
    case BatchFailed(line, cause) => "failed to process batch at line " + FormatInt(line) + ": " + cause
    case FinalBatchFailed(cause) => "failed to process final batch: " + cause
    case ReadFailed(cause) => "error reading coupon file: " + cause
  }

  /** Every message ends with ": " and the wrapped cause, as `%w` prints it. */
  lemma MessageWrapsCause(e: PromoError)
    ensures |Message(e)| >= |e.cause| + 2
    ensures Message(e)[|Message(e)| - |e.cause|..] == e.cause
    ensures Message(e)[|Message(e)| - |e.cause| - 2..|Message(e)| - |e.cause|] == ": "
  {
  }

  // ---------------------------------------------------------------- specification

  /** The non-empty trimmed lines, in file order. */
  function Codes(lines: seq<string>): seq<string>
  {
    if lines == [] then []
    else
      var line := Trim(lines[0], IsSpace);
      (if line == "" then [] else [line]) + Codes(lines[1..])
  }

  function Promos(codes: seq<string>, now: int): (ps: seq<PromoCode>)
    ensures |ps| == |codes|
  {
    seq(|codes|, j requires 0 <= j < |codes| => NewPromoCode(codes[j], now))
  }

  /** `xs` cut into consecutive pieces of `size` elements, the last one possibly shorter. */
  function Chunks<T>(xs: seq<T>, size: nat): seq<seq<T>>
    requires size > 0
    decreases |xs|
  {
    if xs == [] then []
    else if |xs| <= size then [xs]
    else [xs[..size]] + Chunks(xs[size..], size)
  }

  function Flatten<T>(xss: seq<seq<T>>): seq<T>
  {
    if xss == [] then [] else xss[0] + Flatten(xss[1..])
  }

  /** The index of the first failing BulkUpsert call among calls `k` to `n - 1`, or `n` if none fails. */
  function FirstFailure(sink: nat -> Option<string>, k: nat, n: nat): (f: nat)
    ensures k <= n ==> k <= f <= n
    ensures forall j :: k <= j < f ==> sink(j) == None
    ensures f < n ==> sink(f).Some?
    decreases n - k
  {
    if k >= n then n
    else if sink(k).Some? then k
    else FirstFailure(sink, k + 1, n)
  }

  /**
   * What the batching does with the promo codes `ps`: the batches it hands
   * to BulkUpsert, in order — all chunks of `ps` up to and including the
   * first one whose call fails — and the error it returns. `sink(k)` is the
   * outcome of the k-th BulkUpsert call.
   */
  function BatchOutcome(ps: seq<PromoCode>, scanErr: Option<string>, sink: nat -> Option<string>)
    : (seq<seq<PromoCode>>, Option<PromoError>)
  {
    var cs := Chunks(ps, BATCH_SIZE);
    var f := FirstFailure(sink, 0, |cs|);
    if f < |cs| then
      (cs[..f + 1],
       Some(if |cs[f]| == BATCH_SIZE then BatchFailed(BATCH_SIZE * (f + 1), sink(f).value)
            else FinalBatchFailed(sink(f).value)))
    else
      (cs, if scanErr.Some? then Some(ReadFailed(scanErr.value)) else None)
  }

  /** What ProcessCouponFile does once the file is open, with the promo codes of `lines`. */
  function Outcome(lines: seq<string>, scanErr: Option<string>, now: int, sink: nat -> Option<string>)
    : (seq<seq<PromoCode>>, Option<PromoError>)
  {
    BatchOutcome(Promos(Codes(lines), now), scanErr, sink)
  }

  // ---------------------------------------------------------------- properties of the specification

  /** The trimmed lines kept are exactly the non-empty ones. */
  lemma {:induction false} CodesNonEmpty(lines: seq<string>)
    ensures |Codes(lines)| <= |lines|
    ensures forall j :: 0 <= j < |Codes(lines)| ==> Codes(lines)[j] != ""
  {
    if lines != [] {
      CodesNonEmpty(lines[1..]);
    }
  }

  /** The filter works line by line: the codes of two runs of lines are the codes of each run, concatenated. */
  lemma {:induction false} CodesAppend(a: seq<string>, b: seq<string>)
    ensures Codes(a + b) == Codes(a) + Codes(b)
  {
    if a != [] {
      var line := Trim(a[0], IsSpace);
      var head := if line == "" then [] else [line];
      assert (a + b)[0] == a[0] && (a + b)[1..] == a[1..] + b;
      CodesAppend(a[1..], b);
      assert Codes(a + b) == head + Codes(a[1..] + b);
      assert Codes(a) == head + Codes(a[1..]);
    } else {
      assert a + b == b;
    }
  }

  /** A single line yields its trimmed form when that is not empty, and nothing otherwise. */
  lemma CodesOne(line: string)
    ensures Codes([line]) == if Trim(line, IsSpace) == "" then [] else [Trim(line, IsSpace)]
  {
    assert [line][1..] == [];
  }

  /** Each promo code carries its code, is active, has the default discount and is stamped with `now`. */
  lemma PromosFields(codes: seq<string>, now: int)
    ensures forall j :: 0 <= j < |codes| ==>
      var p := Promos(codes, now)[j];
      p.code == codes[j] && p.isActive && p.discountPct == DEFAULT_DISCOUNT_PCT
      && p.description == "Promo code " + codes[j] && p.createdAt == now && p.updatedAt == now
  {
  }

  /** Every batch holds between one and `size` elements, and all but the last exactly `size`. */
  lemma {:induction false} ChunkSizes<T>(xs: seq<T>, size: nat)
    requires size > 0
    ensures forall k :: 0 <= k < |Chunks(xs, size)| ==> 0 < |Chunks(xs, size)[k]| <= size
    ensures forall k :: 0 <= k < |Chunks(xs, size)| - 1 ==> |Chunks(xs, size)[k]| == size
    decreases |xs|
  {
    if |xs| > size {
      ChunkSizes(xs[size..], size);
      var cs := Chunks(xs, size);
      assert forall k :: 1 <= k < |cs| ==> cs[k] == Chunks(xs[size..], size)[k - 1];
    }
  }

  /** The batches, put back together, are the input in order. */
  lemma {:induction false} FlattenChunks<T>(xs: seq<T>, size: nat)
    requires size > 0
    ensures Flatten(Chunks(xs, size)) == xs
    decreases |xs|
  {
    if |xs| > size {
      FlattenChunks(xs[size..], size);
      var cs := Chunks(xs, size);
      assert cs[1..] == Chunks(xs[size..], size);
      assert xs == xs[..size] + xs[size..];
    } else if xs != [] {
      assert Chunks(xs, size)[1..] == [];
    }
  }

  /** A full batch comes off the front as a chunk of its own. */
  lemma ChunksFull<T>(b: seq<T>, rest: seq<T>, size: nat)
    requires size > 0 && |b| == size
    ensures Chunks(b + rest, size) == [b] + Chunks(rest, size)
  {
    assert (b + rest)[..size] == b && (b + rest)[size..] == rest;
    if rest == [] {
      assert b + rest == b;
    }
  }

  /**
   * The outcome, in the source's terms: every batch handed over is non-empty
   * and at most BATCH_SIZE long, every call but the last succeeded, and
   * without an error from a call the batches together are all the promo
   * codes of the file, in order.
   */
  lemma OutcomeBatches(lines: seq<string>, scanErr: Option<string>, now: int, sink: nat -> Option<string>)
    ensures var (batches, err) := Outcome(lines, scanErr, now, sink);
      && (forall k :: 0 <= k < |batches| ==> 0 < |batches[k]| <= BATCH_SIZE)
      && (forall k :: 0 <= k < |batches| - 1 ==> sink(k) == None)
      && (err.None? || err.value.ReadFailed? ==>
            Flatten(batches) == Promos(Codes(lines), now)
            && forall k :: 0 <= k < |batches| ==> sink(k) == None)
  {
    var ps := Promos(Codes(lines), now);
    ChunkSizes(ps, BATCH_SIZE);
    FlattenChunks(ps, BATCH_SIZE);
  }

  /** The error is the first failing call's, or else the scanner's, or none. */
  lemma OutcomeError(lines: seq<string>, scanErr: Option<string>, now: int, sink: nat -> Option<string>)
    ensures var (batches, err) := Outcome(lines, scanErr, now, sink);
      && (err.Some? && (err.value.BatchFailed? || err.value.FinalBatchFailed?) ==>
            batches != [] && sink(|batches| - 1) == Some(err.value.cause))
      && (err.Some? && err.value.BatchFailed? ==> err.value.line == BATCH_SIZE * |batches|)
      && (err == None <==>
            scanErr == None && forall k :: 0 <= k < |batches| ==> sink(k) == None)
  {
  }

  // ---------------------------------------------------------------- the loop

  /** The outcome when call `m` is the first to fail. */
  lemma OutcomeAtFailure(ps: seq<PromoCode>, scanErr: Option<string>, sink: nat -> Option<string>, m: nat)
    requires var cs := Chunks(ps, BATCH_SIZE);
      m < |cs| && sink(m).Some? && forall k :: 0 <= k < m ==> sink(k) == None
    ensures var cs := Chunks(ps, BATCH_SIZE);
      BatchOutcome(ps, scanErr, sink) ==
        (cs[..m + 1],
         Some(if |cs[m]| == BATCH_SIZE then BatchFailed(BATCH_SIZE * (m + 1), sink(m).value)
              else FinalBatchFailed(sink(m).value)))
  {
  }

  /** The outcome when no call fails. */
  lemma OutcomeWithoutFailure(ps: seq<PromoCode>, scanErr: Option<string>, sink: nat -> Option<string>)
    requires var cs := Chunks(ps, BATCH_SIZE);
      forall k :: 0 <= k < |cs| ==> sink(k) == None
    ensures BatchOutcome(ps, scanErr, sink) ==
      (Chunks(ps, BATCH_SIZE), if scanErr.Some? then Some(ReadFailed(scanErr.value)) else None)
  {
  }

  /** The promo codes still to come from the lines from index `i` on. */
  function Remaining(lines: seq<string>, i: nat, now: int): seq<PromoCode>
    requires i <= |lines|
  {
    Promos(Codes(lines[i..]), now)
  }

  /** Line `i` contributes its promo code, unless it is empty once trimmed. */
  lemma RemainingStep(lines: seq<string>, i: nat, now: int)
    requires i < |lines|
    ensures var line := Trim(lines[i], IsSpace);
      Remaining(lines, i, now) ==
        (if line == "" then [] else [NewPromoCode(line, now)]) + Remaining(lines, i + 1, now)
  {
    assert lines[i..][1..] == lines[i + 1..];
  }

  lemma {:induction false} FlattenSnoc<T>(xss: seq<seq<T>>, xs: seq<T>)
    ensures Flatten(xss + [xs]) == Flatten(xss) + xs
  {
    if xss != [] {
      assert (xss + [xs])[1..] == xss[1..] + [xs];
      FlattenSnoc(xss[1..], xs);
    } else {
      assert Flatten([xs]) == xs + Flatten([]);
    }
  }

  /** Full batches in front are chunks of their own, whatever follows them. */
  lemma {:induction false} ChunksOfFull<T>(xss: seq<seq<T>>, rest: seq<T>, size: nat)
    requires size > 0
    requires forall k :: 0 <= k < |xss| ==> |xss[k]| == size
    ensures Chunks(Flatten(xss) + rest, size) == xss + Chunks(rest, size)
  {
    if xss != [] {
      ChunksOfFull(xss[1..], rest, size);
      ChunksFull(xss[0], Flatten(xss[1..]) + rest, size);
      assert Flatten(xss) + rest == xss[0] + (Flatten(xss[1..]) + rest);
      assert xss == [xss[0]] + xss[1..];
    } else {
      assert Flatten(xss) + rest == rest;
    }
  }

  /** The outcome when a call on a full batch fails: the batches so far, and the failure at that batch's last line. */
  lemma FullBatchFails(ps: seq<PromoCode>, scanErr: Option<string>, sink: nat -> Option<string>,
                       batches: seq<seq<PromoCode>>, rest: seq<PromoCode>)
    requires ps == Flatten(batches) + rest
    requires forall k :: 0 <= k < |batches| ==> |batches[k]| == BATCH_SIZE
    requires batches != [] && sink(|batches| - 1).Some?
    requires forall k :: 0 <= k < |batches| - 1 ==> sink(k) == None
    ensures BatchOutcome(ps, scanErr, sink) ==
      (batches, Some(BatchFailed(BATCH_SIZE * |batches|, sink(|batches| - 1).value)))
  {
    ChunksOfFull(batches, rest, BATCH_SIZE);
    var cs := Chunks(ps, BATCH_SIZE);
    assert cs[..|batches|] == batches && cs[|batches| - 1] == batches[|batches| - 1];
    OutcomeAtFailure(ps, scanErr, sink, |batches| - 1);
  }

  /**
   * The batching state between promo codes: the promo codes `ps` are the
   * batches handed over, then the pending ones, then the codes `rest` still
   * to come; every batch handed over was full and its call succeeded;
   * `lineCount` counts the codes seen. At most BATCH_SIZE codes are pending.
   */
  ghost predicate Batching(ps: seq<PromoCode>, rest: seq<PromoCode>, sink: nat -> Option<string>,
                           batches: seq<seq<PromoCode>>, pending: seq<PromoCode>, lineCount: nat)
  {
    && ps == Flatten(batches) + (pending + rest)
    && (forall k :: 0 <= k < |batches| ==> |batches[k]| == BATCH_SIZE)
    && |pending| <= BATCH_SIZE
    && lineCount == BATCH_SIZE * |batches| + |pending|
    && (forall k :: 0 <= k < |batches| ==> sink(k) == None)
  }

  /**
   * The state of the scan loop before line `i`: the promo codes of the file
   * are the batches handed over, then the pending ones, then those of the
   * lines still to scan; every batch handed over was full and its call
   * succeeded; `lineCount` counts the non-empty lines scanned.
   */
  ghost predicate Scanned(lines: seq<string>, i: nat, now: int, sink: nat -> Option<string>,
                          batches: seq<seq<PromoCode>>, pending: seq<PromoCode>, lineCount: nat)
  {
    i <= |lines| && Batching(Promos(Codes(lines), now), Remaining(lines, i, now), sink, batches, pending, lineCount)
  }

  /** A line that is empty once trimmed leaves the loop state as it was. */
  lemma ScanSkip(lines: seq<string>, i: nat, now: int, sink: nat -> Option<string>,
                 batches: seq<seq<PromoCode>>, pending: seq<PromoCode>, lineCount: nat)
    requires i < |lines| && Scanned(lines, i, now, sink, batches, pending, lineCount)
    requires Trim(lines[i], IsSpace) == ""
    ensures Scanned(lines, i + 1, now, sink, batches, pending, lineCount)
  {
    RemainingStep(lines, i, now);
  }

  /** Any other line adds its promo code to the pending ones. */
  lemma ScanCollect(lines: seq<string>, i: nat, now: int, sink: nat -> Option<string>,
                    batches: seq<seq<PromoCode>>, pending: seq<PromoCode>, lineCount: nat)
    requires i < |lines| && Scanned(lines, i, now, sink, batches, pending, lineCount)
    requires |pending| < BATCH_SIZE && Trim(lines[i], IsSpace) != ""
    ensures Scanned(lines, i + 1, now, sink, batches,
                    pending + [NewPromoCode(Trim(lines[i], IsSpace), now)], lineCount + 1)
  {
    RemainingStep(lines, i, now);
    var rest := Remaining(lines, i + 1, now);
    var c := NewPromoCode(Trim(lines[i], IsSpace), now);
    assert pending + ([c] + rest) == (pending + [c]) + rest;
  }

  /** Handing a full pending batch over moves it to the batches. */
  lemma ScanFlush<T>(all: seq<T>, batches: seq<seq<T>>, full: seq<T>, rest: seq<T>)
    requires all == Flatten(batches) + (full + rest)
    ensures all == Flatten(batches + [full]) + ([] + rest)
  {
    FlattenSnoc(batches, full);
    assert [] + rest == rest;
  }

  /**
   * The batch check after a promo code was appended: a pending batch that
   * reached BATCH_SIZE is handed to BulkUpsert and emptied, and a failing
   * call ends the processing with the count of non-empty lines so far.
   */
  method FlushFull(ghost ps: seq<PromoCode>, ghost rest: seq<PromoCode>, scanErr: Option<string>,
                   sink: nat -> Option<string>, batches: seq<seq<PromoCode>>, pending: seq<PromoCode>, lineCount: nat)
    returns (batches': seq<seq<PromoCode>>, pending': seq<PromoCode>, err: Option<PromoError>)
    requires Batching(ps, rest, sink, batches, pending, lineCount)
    ensures err.None? ==> Batching(ps, rest, sink, batches', pending', lineCount) && |pending'| < BATCH_SIZE
    ensures err.Some? ==> (batches', err) == BatchOutcome(ps, scanErr, sink)
  {
    if |pending| < BATCH_SIZE {
      return batches, pending, None;
    }
    ScanFlush(ps, batches, pending, rest);
    batches' := batches + [pending];
    var e := sink(|batches|);
    if e.Some? {
      FullBatchFails(ps, scanErr, sink, batches', rest);
      return batches', [], Some(BatchFailed(lineCount, e.value));
    }
    return batches', [], None;
  }

  /**
   * One pass of the scan loop, on line `i`: an empty trimmed line is
   * skipped; any other is counted and becomes a pending promo code, and
   * then the batch check runs.
   */
  method ScanLine(lines: seq<string>, i: nat, scanErr: Option<string>, now: int, sink: nat -> Option<string>,
                  batches: seq<seq<PromoCode>>, pending: seq<PromoCode>, lineCount: nat)
    returns (batches': seq<seq<PromoCode>>, pending': seq<PromoCode>, lineCount': nat, err: Option<PromoError>)
    requires i < |lines| && Scanned(lines, i, now, sink, batches, pending, lineCount) && |pending| < BATCH_SIZE
    ensures err.None? ==> Scanned(lines, i + 1, now, sink, batches', pending', lineCount') && |pending'| < BATCH_SIZE
    ensures err.Some? ==> (batches', err) == Outcome(lines, scanErr, now, sink)
  {
    var line := Trim(lines[i], IsSpace);
    if line == "" {
      ScanSkip(lines, i, now, sink, batches, pending, lineCount);
      return batches, pending, lineCount, None;
    }
    lineCount' := lineCount + 1;
    ScanCollect(lines, i, now, sink, batches, pending, lineCount);
    batches', pending', err := FlushFull(Promos(Codes(lines), now), Remaining(lines, i + 1, now), scanErr, sink,
                                         batches, pending + [NewPromoCode(line, now)], lineCount');
  }

  /**
   * The scan loop of ProcessCouponFile: promo codes are collected and every
   * full batch is handed to BulkUpsert at once. Unless a call fails, the
   * batches handed over are the leading chunks and `pending` is what is left
   * for the final batch; a failing call ends the processing as Outcome says.
   */
  method ScanLines(lines: seq<string>, scanErr: Option<string>, now: int, sink: nat -> Option<string>)
    returns (batches: seq<seq<PromoCode>>, pending: seq<PromoCode>, err: Option<PromoError>)
    ensures err.None? ==>
      && Chunks(Promos(Codes(lines), now), BATCH_SIZE) == batches + Chunks(pending, BATCH_SIZE)
      && |pending| < BATCH_SIZE
      && forall k :: 0 <= k < |batches| ==> sink(k) == None
    ensures err.Some? ==> (batches, err) == Outcome(lines, scanErr, now, sink)
  {
    var lineCount := 0;
    batches, pending, err := [], [], None;
    assert lines[0..] == lines;
    assert Flatten(batches) + (pending + Remaining(lines, 0, now)) == Promos(Codes(lines), now);
    for i := 0 to |lines|
      invariant Scanned(lines, i, now, sink, batches, pending, lineCount) && |pending| < BATCH_SIZE
      invariant err == None
    {
      batches, pending, lineCount, err := ScanLine(lines, i, scanErr, now, sink, batches, pending, lineCount);
      if err.Some? {
        return;
      }
    }
    assert Remaining(lines, |lines|, now) == [];
    assert pending + [] == pending;
    ChunksOfFull(batches, pending, BATCH_SIZE);
  }

  /**
   * ProcessCouponFile. `openErr` is the error of os.Open, if any; `lines`
   * are the lines the scanner delivered and `scanErr` its error; `now`
   * stands for time.Now().Unix(); `sink(k)` is the result of the k-th
   * BulkUpsert. Returns the batches handed to BulkUpsert and the error.
   */
  method ProcessCouponFile(path: string, openErr: Option<string>, lines: seq<string>, scanErr: Option<string>,
                           now: int, sink: nat -> Option<string>)
    returns (batches: seq<seq<PromoCode>>, err: Option<PromoError>)
    ensures openErr.Some? ==> batches == [] && err == Some(OpenFailed(path, openErr.value))
    ensures openErr.None? ==> (batches, err) == Outcome(lines, scanErr, now, sink)
  {
    if openErr.Some? {
      return [], Some(OpenFailed(path, openErr.value));
    }
    var promoCodes;
    batches, promoCodes, err := ScanLines(lines, scanErr, now, sink);
    if err.Some? {
      return;
    }
    ghost var cs := Chunks(Promos(Codes(lines), now), BATCH_SIZE);

    // process remaining codes
    if |promoCodes| > 0 {
      assert Chunks(promoCodes, BATCH_SIZE) == [promoCodes];
      batches := batches + [promoCodes];
      var e := sink(|batches| - 1);
      if e.Some? {
        assert cs[..|batches|] == batches && cs[|batches| - 1] == promoCodes;
        OutcomeAtFailure(Promos(Codes(lines), now), scanErr, sink, |batches| - 1);
        return batches, Some(FinalBatchFailed(e.value));
      }
    } else {
      assert Chunks(promoCodes, BATCH_SIZE) == [];
    }
    assert cs == batches;
    OutcomeWithoutFailure(Promos(Codes(lines), now), scanErr, sink);
    if scanErr.Some? {
      return batches, Some(ReadFailed(scanErr.value));
    }
    return batches, None;
  }
}
