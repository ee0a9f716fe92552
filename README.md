# kart-challenge backend core, modelled in Dafny

This project models the core of the kart-challenge backend and proves
properties of the model:

- **The promo-code preprocessing pipeline** (`cmd/preprocess`). Three
  gzip'd coupon files are each turned into a *pairs file*: one record per
  accepted code, holding an 8-byte little-endian xxhash, a 16-bit
  little-endian length and the code bytes. Each pairs file is then sorted
  and deduplicated by an external sort. Finally the three sorted files are
  merged. A code is *valid* when it appears in at least two of the three
  files; the merge writes each valid code as a text line, and optionally its
  hash to a binary file.
- **ProcessCouponFile** (`app/usecases/promo_code.go`). This loads a coupon
  file into the database in batches of 1000 promo codes.
- **The request validation helpers** (`pkg/validation/validator.go`).
- **The outbox event record** (`app/models/outbox.go`), with its status
  transitions.

The model has one Dafny module per concern:

- `Wrappers`: `Option` and `Result`, for Go's `(value, error)` returns.
- `Bytes`: bytes and unsigned widths, and Go's little-endian encoding. It
  also has Go's `<` on byte strings, as `BytesLess`, which is a strict total
  order.
- `Text`: `strings.TrimSpace`, as `Trim` over a white-space predicate (ASCII
  for bytes, `unicode.IsSpace` for `string`). Also `strings.ToUpper` on
  ASCII and `strings.Join`.
- `Decimal`: `strconv.ParseInt(s, 10, 64)` and `%d`, with the round trip
  between them.
- `Streams`: a byte reader with `io.ReadFull`'s EOF rules, and an append-only
  writer.
- `Codec` (utils.go): the record layout (`EncodeRec`), `WriteRec`,
  `WritePair` and `ReadPair`, which reads one record, reports a clean end or
  gives `io.EOF`/`io.ErrUnexpectedEOF`. Also `ParseAll`, a whole file read
  up to its first bad record, with the round trips and the record order
  `RecLess`.
- `RecordReader` (reader.go): the one-record look-ahead `Reader` class. Its
  ghost field `upcoming` holds the records it will still deliver, and
  `outcome` holds the error it will end with.
- `Sorter` (sorter.go): `compareRec`, the external-sort codec (filling an
  `array` in place), and the write loop that drops repeated records.
- `Merger` (merger.go): the three-way merge loop over three `Reader`
  objects. It is proved against `QuorumMerge`, a recursive reference
  function. On strictly ascending inputs `QuorumMerge` is strictly
  ascending, and it holds exactly the records present in at least two
  inputs.
- `Downloader` (downloader.go): the line loop. It trims each line, filters
  on length 8..10, upper-cases the code and writes a pair.
- `Promo` (promo_code.go): the scan loop and batching. They are proved
  against `Outcome`: the chunks of the promo codes, up to the first failing
  BulkUpsert call, and the error returned.
- `Validation` (validator.go): path parameters, product IDs, the API-key
  header fallback, and the 422 validation-error reply.
- `Outbox` (outbox.go): the `OutboxEvent` class, its status tests, its two
  transitions and its cache key.

Inputs that come from outside the program are passed in as parameters:

- **File and network contents:** `Option<seq<byte>>` (None when the file
  does not open), or the scanned `lines` plus the scanner's error `scanErr`.
- **xxhash:** the function `hash`.
- **The external sort's output:** `sorted`. It is constrained to be a
  sorted permutation of the records fed to it.
- **The result of the k-th BulkUpsert call:** `sink(k)`.
- **`time.Now().Unix()`:** `now`.
- **An HTTP request's headers:** a `map`.

`uint16(len(code))` in WriteRec (utils.go:66) is an unchecked conversion: a
code of 65536 bytes or more is written with a wrapped length
(`Codec.LengthWrapsAt65536`); it does not fail. The `line` in
ProcessCouponFile's batch error is the count of non-empty lines so far, not
a position in the file.

## Model

| member | source | states |
|---|---|---|
| Bytes.FromLEOfLE | backend-challenge/cmd/preprocess/utils/utils.go:28-40 | reading a little-endian field gives back every value that fits its width |
| Bytes.LEOfFromLE | backend-challenge/cmd/preprocess/utils/utils.go:13-21 | every little-endian byte string is the encoding of the value it denotes |
| Bytes.BytesLessIrreflexive | backend-challenge/cmd/preprocess/utils/utils.go:57 | no code is below itself under Go's string `<` |
| Bytes.BytesLessTransitive | backend-challenge/cmd/preprocess/utils/utils.go:57 | Go's string `<` is transitive |
| Bytes.BytesLessTrichotomy | backend-challenge/cmd/preprocess/utils/utils.go:57 | two codes are equal, or exactly one is below the other |
| Codec.EncodeRec | backend-challenge/cmd/preprocess/utils/utils.go:61-72 | a record is 10 + len bytes: the hash (8 bytes LE), the length mod 65536 (2 bytes LE), then the code |
| Codec.WriteRec | backend-challenge/cmd/preprocess/utils/utils.go:61-72 | the writer gains exactly the record's encoding |
| Codec.WritePair | backend-challenge/cmd/preprocess/utils/utils.go:13-25 | the writer gains the encoding of (hash(code), code) |
| Codec.Decode | backend-challenge/cmd/preprocess/utils/utils.go:28-48 | what ReadPair makes of the unread bytes: a clean end on empty input, io.EOF or io.ErrUnexpectedEOF on a short header or code, otherwise the record read and the number of bytes it took, at least 10 and at most what is there |
| Codec.DecodeSpec | backend-challenge/cmd/preprocess/utils/utils.go:28-48 | a clean end exactly on empty input; a record exactly when the header and all its code bytes are present, and then the bytes read are that record's encoding, of a code that fits 16 bits; a short read gives io.EOF exactly when the hash is complete and the next field has no byte at all, and io.ErrUnexpectedEOF otherwise |
| Codec.DecodeGot | backend-challenge/cmd/preprocess/utils/utils.go:37-47 | with the full header and code present, the record is read, its bytes are its encoding and it fits 16 bits |
| Codec.ReadPair | backend-challenge/cmd/preprocess/utils/utils.go:28-48 | reads one record and advances past it; at a clean end, ok is false with no error; on a short read it returns the error and consumes the rest |
| Codec.ParseAllFits | backend-challenge/cmd/preprocess/utils/utils.go:37-47 | every record read has a code shorter than 65536 bytes |
| Codec.ParseAllPrefix | backend-challenge/cmd/preprocess/utils/utils.go:28-48 | the records read re-encode to a prefix of the file, and to the whole file exactly when no error occurred |
| Codec.DecodeEncodeRec | backend-challenge/cmd/preprocess/utils/utils.go:28-48 | ReadPair reads back what WriteRec wrote and leaves what follows unread |
| Codec.ParseAllEncodeAll | backend-challenge/cmd/preprocess/utils/utils.go:61-72 | a file of records written one after another reads back as the same records, with no error |
| Codec.LengthWrapsAt65536 | backend-challenge/cmd/preprocess/utils/utils.go:66 | a 65536-byte code is written with length 0 and reads back as an empty code |
| Codec.RecLess | backend-challenge/cmd/preprocess/utils/utils.go:52-58 | a record is below another when its hash is smaller, or the hashes are equal and its code is below under Go's string `<` |
| Codec.RecLessIrreflexive | backend-challenge/cmd/preprocess/utils/utils.go:52-58 | RecLess is irreflexive |
| Codec.RecLessTransitive | backend-challenge/cmd/preprocess/utils/utils.go:52-58 | RecLess is transitive |
| Codec.RecLessTrichotomy | backend-challenge/cmd/preprocess/utils/utils.go:52-58 | RecLess is total on distinct records and asymmetric |
| RecordReader.Reader.constructor | backend-challenge/cmd/preprocess/utils/reader.go:19-26 | a new reader has nothing buffered, is not done, and will deliver the file's records and then its read error |
| RecordReader.Reader.Has | backend-challenge/cmd/preprocess/utils/reader.go:29-51 | true exactly when a record is still to come, and then that record is buffered; false means done, with the file's error recorded; a buffered or finished reader is left untouched |
| RecordReader.Reader.Pop | backend-challenge/cmd/preprocess/utils/reader.go:54 | drops the buffered record, if any, from the records to come |
| RecordReader.Reader.Peek | backend-challenge/cmd/preprocess/utils/reader.go:53 | returns the buffered record, which, when one is buffered, is the first of the records still to come |
| RecordReader.Reader.Err | backend-challenge/cmd/preprocess/utils/reader.go:55 | returns the latched error; once the reader is done it is the error the file ends with, and an error is only latched by a finished reader |
| RecordReader.ReadAllRecords | backend-challenge/cmd/preprocess/utils/reader.go:28-55 | the Has/Peek/Pop protocol delivers every record of the file once, in order, and Err then reports the file's read error |
| Sorter.CompareRec | backend-challenge/cmd/preprocess/sorter/sorter.go:16-30 | 0 exactly for equal records, -1 exactly when RecLess(a, b), 1 exactly when RecLess(b, a) |
| Sorter.CompareRecAntisymmetric | backend-challenge/cmd/preprocess/sorter/sorter.go:16-30 | swapping the arguments negates the comparison |
| Sorter.PutLE | backend-challenge/cmd/preprocess/sorter/sorter.go:39-42 | the selected bytes of the buffer hold the little-endian value; all other bytes are unchanged |
| Sorter.RecToBytes | backend-challenge/cmd/preprocess/sorter/sorter.go:33-48 | the buffer is exactly the record's encoding |
| Sorter.RecFromBytes | backend-challenge/cmd/preprocess/sorter/sorter.go:51-71 | an error exactly when the buffer is under 10 bytes or its length differs from 10 + the length field; otherwise a record whose encoding is the buffer |
| Sorter.RecFromBytesOfEncode | backend-challenge/cmd/preprocess/sorter/sorter.go:51-71 | recFromBytes undoes recToBytes for every record that fits |
| Sorter.RecFromBytesAgreesWithDecode | backend-challenge/cmd/preprocess/sorter/sorter.go:51-71 | recFromBytes accepts exactly the buffers that ReadPair reads as one whole record, and gives the same record |
| Sorter.Dedup | backend-challenge/cmd/preprocess/sorter/sorter.go:124-136 | the kept stream is no longer than the input, and it ends with the input's last record |
| Sorter.DedupSameRecords | backend-challenge/cmd/preprocess/sorter/sorter.go:127-135 | the same set of records survives the dedup loop |
| Sorter.DedupNoRepeats | backend-challenge/cmd/preprocess/sorter/sorter.go:129 | no two consecutive written records are equal |
| Sorter.DedupStep | backend-challenge/cmd/preprocess/sorter/sorter.go:129-135 | the next record is written exactly when it differs from the previous record |
| Sorter.DedupOfSorted | backend-challenge/cmd/preprocess/sorter/sorter.go:124-136 | a sorted stream comes out strictly ascending |
| Sorter.DedupOfStrictlyAscending | backend-challenge/cmd/preprocess/sorter/sorter.go:124-136 | a strictly ascending stream passes through unchanged |
| Sorter.ExternalSortPairs | backend-challenge/cmd/preprocess/sorter/sorter.go:74-143 | an input that fails to open gives the open error; otherwise the output file holds the deduplicated sorted records, which read back strictly ascending, as the same set as the records fed in, and no more of them; no records give an empty file |
| Sorter.SortedOutput | backend-challenge/cmd/preprocess/sorter/sorter.go:124-136 | the sorted file reads back without error, strictly ascending, with the records fed in and at most as many |
| Sorter.SortIdempotent | backend-challenge/cmd/preprocess/sorter/sorter.go:74-143 | sorting a file that is already strictly ascending reproduces it byte for byte |
| Merger.Pick | backend-challenge/cmd/preprocess/merger/merger.go:64-69 | the candidate becomes the minimum when none is set or it is RecLess than the minimum; the result is at most both |
| Merger.PickMin | backend-challenge/cmd/preprocess/merger/merger.go:61-78 | the three `pick` calls on the readers that have a record give Smallest of the three streams of records still to come |
| Merger.Smallest | backend-challenge/cmd/preprocess/merger/merger.go:61-78 | the minimum is one of the present heads, and no present head is below it |
| Merger.QuorumMerge | backend-challenge/cmd/preprocess/merger/merger.go:55-105 | the records the loop emits, in order: while a stream has a record, take the smallest head, emit it when at least two streams are headed by it, and drop it from every stream it heads |
| Merger.DropStep | backend-challenge/cmd/preprocess/merger/merger.go:82-93 | on a strictly ascending stream whose head is not below the minimum, the minimum occurs in it exactly when it is the head and counts 1; after the step the stream is still strictly ascending, lies wholly above the minimum, and has lost no other record |
| Merger.StepVotes | backend-challenge/cmd/preprocess/merger/merger.go:61-93 | on strictly ascending streams, one step counts exactly the minimum's votes, removes every occurrence of it, keeps every other record's votes, and leaves only records above it |
| Merger.QuorumMergeSound | backend-challenge/cmd/preprocess/merger/merger.go:55-105 | whatever the inputs, an emitted record occurs in at least two of the three streams |
| Merger.QuorumMergeCorrect | backend-challenge/cmd/preprocess/merger/merger.go:55-105 | on strictly ascending streams the emitted records are strictly ascending, and a record is emitted exactly when at least two streams hold it |
| Merger.HashesDecode | backend-challenge/cmd/preprocess/merger/merger.go:99-103 | the i-th 8-byte word of the binary output is the i-th emitted hash |
| Merger.QuorumOfSameRecords | backend-challenge/cmd/preprocess/merger/merger.go:55-105 | on strictly ascending streams the merge emits exactly the records that at least two of three given record sets hold, so only each stream's set of records matters |
| Merger.SortedOutputFeedsMerge | backend-challenge/cmd/preprocess/sorter/sorter.go:74-143 | what ExternalSortPairs writes meets SortStageOutput for the pairs file it read |
| Merger.MergeOfSortedFiles | backend-challenge/cmd/preprocess/merger/merger.go:55-113 | for three files meeting SortStageOutput, no reader reports an error, and the emitted records are strictly ascending and exactly those present in at least two of the three original pairs files |
| Merger.FirstError | backend-challenge/cmd/preprocess/merger/merger.go:107-113 | no error exactly when every reader's error is nil; otherwise the first non-nil error in a, b, c order |
| Merger.HasAll | backend-challenge/cmd/preprocess/merger/merger.go:56 | each flag says whether that reader has a record still to come, and each reader's records are unchanged |
| Merger.PopIfEqual | backend-challenge/cmd/preprocess/merger/merger.go:82-85 | pops the reader exactly when its head equals the minimum, and counts that |
| Merger.PopAll | backend-challenge/cmd/preprocess/merger/merger.go:81-93 | cnt is the number of readers whose head equals the minimum, and each of those loses its head |
| Merger.Advance | backend-challenge/cmd/preprocess/merger/merger.go:56-93 | stops exactly when all three readers are exhausted; otherwise yields Smallest of the heads and its count, and drops it from every reader it heads |
| Merger.Emit | backend-challenge/cmd/preprocess/merger/merger.go:95-103 | the text output gains the code and a newline; the binary output, when present, gains the hash |
| Merger.FirstReaderError | backend-challenge/cmd/preprocess/merger/merger.go:107-113 | returns the first non-nil reader error, in the order a, b, c |
| Merger.MergeStep | backend-challenge/cmd/preprocess/merger/merger.go:55-105 | one pass of the loop emits the next record of QuorumMerge, if any, and keeps the rest of the merge ahead |
| Merger.MergeLoop | backend-challenge/cmd/preprocess/merger/merger.go:55-105 | the text output is QuorumMerge of the three files' records, one line per code; the binary output is their hashes; each reader ends holding its file's error |
| Merger.Merge3PairsToValid | backend-challenge/cmd/preprocess/merger/merger.go:13-114 | a file that fails to open gives an error and no output; otherwise the outputs are the quorum merge of the three files, and the error is the first reader error |
| Downloader.KeptAppend | backend-challenge/cmd/preprocess/downloader/downloader.go:48-60 | the filter works line by line: the codes of two runs of lines are the codes of each run, concatenated |
| Downloader.KeptOne | backend-challenge/cmd/preprocess/downloader/downloader.go:49-59 | a single line yields its upper-cased trimmed form when that is 8..10 bytes long, and nothing otherwise |
| Downloader.NormaliseIsCode | backend-challenge/cmd/preprocess/downloader/downloader.go:49-55 | for ASCII lines, a written code is 8..10 bytes long, with no lower-case letter and no space at either end |
| Downloader.KeptCodes | backend-challenge/cmd/preprocess/downloader/downloader.go:48-60 | there are at most as many codes as lines, and, for ASCII lines, every code has that form |
| Downloader.PairsReadBack | backend-challenge/cmd/preprocess/downloader/downloader.go:56 | the pairs file reads back, without error, as the pairs written |
| Downloader.ProcessLines | backend-challenge/cmd/preprocess/downloader/downloader.go:45-64 | the output is the pairs of the kept codes in line order; n counts them, n + invalid is the number of lines, and the scanner error is returned |
| Text.TrimSpec | backend-challenge/cmd/preprocess/downloader/downloader.go:49 | TrimSpace leaves no space at either end; the result is empty exactly when the input is all space; an input without space is unchanged |
| Text.ToUpper | backend-challenge/cmd/preprocess/downloader/downloader.go:55 | on ASCII text: same length, with each lower-case letter raised and every other byte kept |
| Text.JoinAppend | backend-challenge/pkg/validation/validator.go:132 | joining two non-empty lists is joining each with one separator between |
| Decimal.ParseInt64 | backend-challenge/pkg/validation/validator.go:71 | a parsed value comes from a non-empty string; without a sign the string is all digits and the value is theirs |
| Decimal.ParseFormatInt | backend-challenge/pkg/validation/validator.go:92 | ParseInt reads back every int64 printed with %d |
| Promo.MessageWrapsCause | backend-challenge/app/usecases/promo_code.go:47-93 | every error message ends with ": " and the wrapped cause |
| Promo.FirstFailure | backend-challenge/app/usecases/promo_code.go:77-89 | the index returned is the first failing BulkUpsert call in the range, or the end of the range when none fails |
| Promo.CodesNonEmpty | backend-challenge/app/usecases/promo_code.go:58-62 | no kept line is empty, and there are at most as many codes as lines |
| Promo.CodesAppend | backend-challenge/app/usecases/promo_code.go:58-62 | the filter works line by line: the codes of two runs of lines are the codes of each run, concatenated |
| Promo.CodesOne | backend-challenge/app/usecases/promo_code.go:59-62 | a single line yields its trimmed form when that is not empty, and nothing otherwise |
| Promo.PromosFields | backend-challenge/app/usecases/promo_code.go:66-73 | each promo code has the trimmed line as its code, the description "Promo code " + code, a 10.0 discount, is active, and is stamped with the start time |
| Promo.ChunkSizes | backend-challenge/app/usecases/promo_code.go:75-90 | every batch holds 1..1000 codes, and all but the last hold exactly 1000 |
| Promo.FlattenChunks | backend-challenge/app/usecases/promo_code.go:75-90 | the batches, put back together, are all the promo codes in file order |
| Promo.OutcomeBatches | backend-challenge/app/usecases/promo_code.go:58-90 | every batch handed over is non-empty and at most 1000 long; every call but the last succeeded; unless a call failed, the batches put together are all the promo codes, in order |
| Promo.OutcomeError | backend-challenge/app/usecases/promo_code.go:77-94 | a batch error carries the failing call's cause, and a full batch's error carries 1000 times the batch count; there is no error exactly when no call fails and the scanner had no error |
| Promo.ScanSkip | backend-challenge/app/usecases/promo_code.go:59-62 | a line that is blank once trimmed changes nothing |
| Promo.ScanCollect | backend-challenge/app/usecases/promo_code.go:64-75 | a non-blank trimmed line is counted and appended as a promo code |
| Promo.FlushFull | backend-challenge/app/usecases/promo_code.go:77-82 | a batch that reached 1000 is handed over and emptied; a failing call ends with Outcome's result |
| Promo.ScanLine | backend-challenge/app/usecases/promo_code.go:59-82 | one line keeps the loop state, with fewer than 1000 codes pending, or ends with Outcome's result |
| Promo.ScanLines | backend-challenge/app/usecases/promo_code.go:57-83 | unless a call fails, the batches handed over plus the final one are the chunks of all codes; a failure gives Outcome's result |
| Promo.ProcessCouponFile | backend-challenge/app/usecases/promo_code.go:41-98 | an open error comes back wrapped, with nothing handed over; otherwise the batches and the error are those of Outcome |
| Validation.ValidatePathParameter | backend-challenge/pkg/validation/validator.go:89-108 | "int64": the ParseInt value when it is positive, "must be a valid integer" when it does not parse, "must be a positive integer" otherwise; "string": the value unless it is blank, then "cannot be empty"; any other type: the value |
| Validation.PositiveIntegerAccepted | backend-challenge/pkg/validation/validator.go:91-99 | every positive int64 in decimal is accepted and comes back as that value |
| Validation.NonPositiveIntegerRefused | backend-challenge/pkg/validation/validator.go:96-98 | zero and negative values are refused as "must be a positive integer" |
| Validation.Int64Parameter | backend-challenge/pkg/validation/validator.go:91-99 | accepted exactly when the value parses to a positive int64, and then that value is returned; anything that does not parse (including "") is refused as "must be a valid integer" |
| Validation.Int64ParameterDigits | backend-challenge/pkg/validation/validator.go:92 | an accepted unsigned value is all decimal digits, and the value is theirs |
| Validation.StringParameter | backend-challenge/pkg/validation/validator.go:100-104 | refused, as "cannot be empty", exactly when the value is empty or all white space; an accepted value comes back untrimmed |
| Validation.OtherParameter | backend-challenge/pkg/validation/validator.go:105-106 | any other type returns the value unchanged, without error |
| Validation.ErrorNamesParameter | backend-challenge/pkg/validation/validator.go:94-102 | every error starts with "parameter '" + name + "'" |
| Validation.ValidProductID | backend-challenge/pkg/validation/validator.go:65-73 | a product ID is valid when it is not "" and parses as a base-10 int64 |
| Validation.ValidProductIDParses | backend-challenge/pkg/validation/validator.go:65-73 | a product ID is valid exactly when it parses as a base-10 int64, and "" is invalid |
| Validation.FormattedProductID | backend-challenge/pkg/validation/validator.go:65-73 | the decimal form of every int64 is a valid product ID |
| Validation.PresentedKey | backend-challenge/pkg/validation/validator.go:77-83 | the presented key is "" exactly when all three key headers are empty |
| Validation.ValidateAPIKey | backend-challenge/pkg/validation/validator.go:76-86 | a request passes when the key it presents, by the api_key, Api-Key, API-Key fallback, equals the configured key |
| Validation.APIKeyPrecedence | backend-challenge/pkg/validation/validator.go:76-86 | a non-empty api_key decides alone; Api-Key decides only when api_key is empty, and API-Key only when both are empty |
| Validation.MissingKeyRefused | backend-challenge/app/delivery/http/validation_test.go:164-173 | with a key configured, a request without a non-empty key header is refused |
| Validation.OtherHeadersIgnored | backend-challenge/pkg/validation/validator.go:76-86 | under literal-name header lookup, no header other than api_key, Api-Key and API-Key affects the result |
| Validation.APIKeyTable | backend-challenge/app/delivery/http/validation_test.go:143-174 | the six cases of the API-key table test, with key "apitest", give the expected verdicts |
| Validation.EmptyKeyAcceptsMissingHeader | backend-challenge/pkg/validation/validator.go:76-86 | when the configured key is "", a request without any key header passes |
| Validation.ValidationErrorReply | backend-challenge/pkg/validation/validator.go:117-135 | SendValidationError's reply: status 422, and a body with code 422, type validation_error and the errors joined by "; ", or "Validation failed" when there are none |
| Validation.ValidationErrorMessage | backend-challenge/pkg/validation/validator.go:129-135 | status and code 422 and type validation_error; "Validation failed" for no errors, the error itself for one, and each further error appends "; " and that error |
| Validation.ValidationErrorGroups | backend-challenge/pkg/validation/validator.go:131-133 | the message for two groups of errors is the two groups' messages joined by "; " |
| Outbox.OutboxEvent.constructor | backend-challenge/app/models/outbox_helpers.go:66-74 | a new event is pending, unprocessed, with ID 0 and the given fields |
| Outbox.OutboxEvent.CacheKey | backend-challenge/app/models/outbox.go:46-48 | the key starts with "outbox_events:" and has the ID after it |
| Outbox.OutboxEvent.IsPending | backend-challenge/app/models/outbox.go:63-65 | the event's status is pending |
| Outbox.OutboxEvent.IsProcessed | backend-challenge/app/models/outbox.go:68-70 | the event's status is processed |
| Outbox.OutboxEvent.MarkAsProcessed | backend-challenge/app/models/outbox.go:51-55 | the status becomes processed and ProcessedAt becomes now; IsProcessed holds, IsPending does not, and nothing else changes |
| Outbox.OutboxEvent.MarkAsFailed | backend-challenge/app/models/outbox.go:58-60 | the status becomes failed; ProcessedAt and every other field stay as they were; the event is neither pending nor processed |
| Outbox.StatusTestsExclusive | backend-challenge/app/models/outbox.go:63-70 | no event is both pending and processed, and a failed event is neither |
| Outbox.CacheKeyReadsBack | backend-challenge/app/models/outbox.go:46-48 | the ID parses back from the key after the prefix |
| Outbox.CacheKeyInjective | backend-challenge/app/models/outbox.go:46-48 | two events share a cache key exactly when they share an ID |

## Left out

- Network, gzip and file I/O: the HTTP download, gzip decompression, `os.Open`/`os.Create`, `Close` and `Flush` are left out. Contents are passed in as byte sequences, and a failed open as None.
- Writer errors: `bufio.Writer` writes are taken never to fail, so their error returns are not modelled.
- The external-sort library: its chunking, worker goroutines, channels and temporary files are left out. Its output is the parameter `sorted`, required to be a sorted permutation of the records fed in. Its own error channel is not modelled.
- Sorter.ExternalSortPairs: the feeder goroutine prints a read error and stops feeding. The model feeds the records before the first bad one and drops the error, as the code does, but not the print.
- Concurrency: the feeder goroutine and `sorter.Sort` running concurrently are modelled as one sequential run.
- Scanner line splitting: `bufio.Scanner`'s line splitting and its line-length limits are left out: 1 MiB in the downloader (downloader.go:46), and bufio's default 64 KiB in ProcessCouponFile (promo_code.go:52). The scanned lines and the scanner's final error are parameters.
- Downloader.Normalise: only ASCII white space is trimmed and only ASCII letters are raised. `strings.TrimSpace` and `strings.ToUpper` on non-ASCII UTF-8 are not modelled.
- Text.ToUpper: models `strings.ToUpper` on ASCII only. Go's version maps every Unicode letter and can change the byte length: "ı" (2 bytes) becomes "I" (1 byte), "ɐ" (2 bytes) becomes "Ɐ" (3 bytes), and an invalid byte becomes U+FFFD (3 bytes).
- Downloader.NormaliseIsCode: the 8..10-byte bound and "no lower-case letter" hold for ASCII lines only. Go tests the trimmed length before upper-casing, so the 10-byte line "ııııı" passes the filter and is written as the 5-byte "IIIII".
- Downloader.KeptCodes: carries the same ASCII-only bound; on non-ASCII lines a written code can be shorter than 8 or longer than 10 bytes.
- Downloader.ProcessLines: `WritePair` errors are not modelled, and neither is the log line.
- Validation.ValidateAPIKey: `c.GetHeader` canonicalises header names (MIME rules), so `Api-Key` and `API-Key` name the same header. The model reads the header map by the literal names.
- Validation.OtherHeadersIgnored: holds only under literal-name lookup. Gin's `GetHeader` canonicalises names, so a header spelled "api-key" or "API-KEY" is the Api-Key header and does decide the result.
- ErrorResponse: `int32(statusCode)` is not modelled as a truncation; 422 fits.
- Validation: `ValidateStruct`, `formatValidationError`, `ValidateJSON` and the other `Send*` helpers depend on go-playground/validator reflection and gin. They are not part of this model.
- Promo.PromoCode: `DiscountPct` is a float64 constant, modelled as the real 10.0. The database ID is left at 0.
- Promo.ScanLines: `promoCodes[:0]` reuses the slice's backing array. Each batch is modelled as a fresh sequence, so aliasing between the batches handed to BulkUpsert is not captured.
- Promo.ProcessCouponFile: logging and the context are left out. BulkUpsert is the parameter `sink`.
- Outbox.OutboxEvent.MarkAsProcessed: `time.Now().Unix()` is the parameter `now`.
- Outbox: `EventData` (datatypes.JSON) is plain text, `TableName` is a constant, and GORM tags are left out.
- Merger.Merge3PairsToValid: a non-empty `optValidBin` is the flag `withBin`. The partial output files left behind after a read error are the `txt`/`bin` results. The `Pick` closure is the function `Merger.Pick`.
- The pipeline driver `cmd/preprocess/main.go` is not part of this model: it runs goroutines over fixed file paths. `Merger.MergeOfSortedFiles` states how the sort stage's output feeds the merge.
- Output-file creation: a failing `os.Create` in the sorter and the merger, and the downloader's HTTP status check, are left out with the rest of the file and network plumbing.
- Merger.MergeLoop: the source's single loop body is split into `MergeStep`, `Advance`, `HasAll`, `PickMin` and `PopAll`, each a method with its own contract, so each proof stays small; the steps are unchanged.
