# Incremental RESP2 decoder

This project models the core of a small C library that decodes the Redis
serialization protocol (RESP2) incrementally: `redis_parser_init` and
`redis_parser_execute` in `parser.c`. The model is written in Dafny and its
properties are proved.

A parser object holds a fixed stack of protocol records (`poff`, `plen`,
`coff`, `clen`, type, `remaining`). It also holds the index of the current
record, which is -1 while no message is in progress. The resume fields are the
state label, the byte count `nread` of the current message and the integer
accumulator. Each call of `redis_parser_execute` reads as much of a buffer as
it can:

- `type_char` reads a tag (`$`, `*` or `:`);
- the integer states scan the signed 64-bit header literal;
- `integer_lf` finishes the header;
- `bulk`, `bulk_cr` and `bulk_lf` stream a string's payload and its `\r\n`;
- the `done` loop pushes a record for the next child of an array, or adds the
  finished record's length to its parent's and pops it.

A call returns the number of bytes it used. The root record is handed back when
a message completed.

The callbacks are one total function `h: Event -> bool`. Its events are:

- `Nil` for a nil string or nil array;
- `ArrayHeader` with the child count;
- `Integer` with the value;
- `StringChunk` with its start in the buffer and its bytes.

A missing handler is a handler that returns true. A handler that returns false
makes the call return at once. The model keeps the record fields listed above,
the C code's state labels, its constants and its error conditions. Where it
departs from the C code, "## Left out" says how: it drops the `parent` and
`data` fields and the code-less `line`, `line_lf` and unused labels, and it
adds a `TooDeep` failure where the C code writes past its stack. "## Findings"
lists the two places where the model follows the evident intent rather than
the code as written: the `done` test and the `(unsigned)` stores.

A value is modelled with the literal each of its headers carries, so the same
integer, length or count has several spellings: `:5` and `:+5`, or `$-1` and
`$-7` for a nil string. The decoding proofs hold for every spelling the
header grammar accepts.

The modules are:

- `RespTypes`: bytes, records, events and state labels.
- `IntegerScanner`: the header literal grammar and the byte-by-byte scanner with
  its two overflow checks.
- `Machine`: the decoder as pure functions. It has one function per state label,
  the `done` loop (`Unwind`), the `while` loop (`Run`) and a whole call
  (`Execute`).
- `Parser`: the parser object as a class whose record stack is an `array`
  updated in place. Each of its methods is proved equal to the matching
  `Machine` function.
- `Stages`, `Lines`, `Messages`, `Decoding`, `Completion`: what one call does
  with the encoding of a value, in any accepted spelling of its headers.
- `Errors`: the error paths.
- `Chunks`: a payload that is split across two or more calls.
- `Resumption`: one call on `a + b` compared with a call on `a` followed by a
  call on `b`.
- `Findings`: the two places where the code as written departs from its evident
  intent.

## Model

| member | source | states |
|---|---|---|
| Parser.RedisParser.constructor | parser.c:118-121 | A new parser is valid and idle (index -1), has the requested stack capacity and has the given callbacks installed. |
| Parser.RedisParser.Init | parser.c:118-121 | Init marks the parser idle (index -1) and installs the callbacks. The stack, state, `nread` and accumulator are unchanged, and the parser invariant holds afterwards. |
| Parser.RedisParser.Unwinding | parser.c:373-389 | The in-place `done` loop leaves the array, the index and the too-deep flag exactly as `Machine.Unwind` computes them from the old stack. |
| Parser.RedisParser.TypeCharState | parser.c:166-188 | The `type_char` label's verdict, new locals and callbacks are `Machine.ReadTag`'s step. |
| Parser.RedisParser.IntegerState | parser.c:190-285 | The labels from `integer_start` to `integer_cr` are `Machine.ReadInteger`'s step. |
| Parser.RedisParser.DoneState | parser.c:373-394 | The `done` block is `Machine.Done`'s step. |
| Parser.RedisParser.Callback | parser.c:10-16 | The CALLBACK macro followed by `goto done` is `Machine.Notify`: the call returns at once when the handler returns 0. |
| Parser.RedisParser.IntegerLfState | parser.c:287-332 | The `integer_lf` label is `Machine.EndHeader`'s step. |
| Parser.RedisParser.BulkState | parser.c:334-351 | The `bulk` label is `Machine.ReadBulk`'s step. |
| Parser.RedisParser.BulkEndState | parser.c:353-367 | The `bulk_cr` and `bulk_lf` labels are `Machine.EndBulk`'s step. |
| Parser.RedisParser.StepState | parser.c:165-368 | The `switch (state)` is `Machine.Step` for every state. |
| Parser.RedisParser.Iteration | parser.c:161-394 | One loop iteration that goes on keeps the invariant and consumes a byte (or moves from `bulk` to `bulk_cr`), and the rest of the run continues from the new locals. An error ends the run with the locals as they are. A stop ends it with the entry parser and the stack as edited. |
| Parser.RedisParser.RunLoop | parser.c:153-161 | The `while (pos < end && stackidx >= 0)` loop returns the count, the callbacks and the stop flag of `Machine.Run`. It leaves the locals of `Run`'s parser, or only its stack after a stop. |
| Parser.RedisParser.Execute | parser.c:131-414 | `redis_parser_execute` leaves the resume fields equal to `Machine.Execute`'s parser. It returns that call's count and callbacks, and the root record exactly when the call completed. |
| Machine.Unwind | parser.c:373-389 | The `done` loop keeps the stack's capacity. A push lands above open arrays on a fresh record. The index ends at -1 after popping the root. A push past the last slot is `TooDeep`. |
| Machine.ReadTag | parser.c:166-188 | `type_char` satisfies the step contract. |
| Machine.ReadInteger | parser.c:190-285 | The integer states satisfy the step contract. |
| Machine.Done | parser.c:373-394 | `done` never halts and keeps the callbacks it was given. Going on, it consumes exactly the `\n` (ADVANCE(1)) and keeps the invariant. It fails only for want of room. |
| Machine.Notify | parser.c:10-16 | CALLBACK reports exactly one event. The call halts exactly when the handler returns false; otherwise `done` follows. |
| Machine.EndHeader | parser.c:287-332 | `integer_lf` satisfies the step contract: the invariant is kept, `nread` counts exactly the bytes consumed, there is at most one callback, and the call halts exactly on a refused callback. |
| Machine.ReadBulk | parser.c:334-351 | `bulk` satisfies the step contract. |
| Machine.EndBulk | parser.c:353-367 | `bulk_cr` and `bulk_lf` satisfy the step contract. |
| Machine.Step | parser.c:165-368 | Every state label satisfies the step contract. |
| Machine.Advance | parser.c:161-165 | A run with a byte available is one step that satisfies the step contract, followed by the rest of the call. |
| Machine.RunBounds | parser.c:161-408 | A run consumes between its start and the end of the buffer and keeps the capacity. It uses all the input when it runs out of input, and it fails or stops only short of the end. |
| Machine.RunCompletion | parser.c:389-400 | A run completes exactly when the index ends at -1. When it completes or runs out of input, the parser is valid and `nread` grew by exactly the bytes consumed. |
| Machine.RunStopParser | parser.c:10-16 | A stop leaves every resume field but the stack as it was when the call began. |
| Machine.RunStopLast | parser.c:10-16 | A run stops exactly when its last callback returned false. |
| Machine.RunEarlierContinue | parser.c:10-16 | Every callback of a run but the last returned true. |
| Machine.RunFacts | parser.c:161-408 | All of the run facts above, stated together. |
| Machine.Begin | parser.c:146-152 | The entry of a call is valid and not idle, with the same capacity. An idle parser gets a reset root record, `nread` 0 and `type_char`. |
| Machine.Execute | parser.c:123-131 | Per the doc comment: the count is at most `len`, and the call completes exactly when the index is -1. It fails or stops exactly when it returns less than it was given without completing. Every callback but the last returned true, and the call stops exactly on a refused one. A stop leaves the entry parser but for the stack. An empty buffer changes nothing beyond the idle reset. |
| IntegerScanner.Magnitude | parser.c:196-254 | A magnitude starts with a nonzero digit, so its value is at least 1. |
| IntegerScanner.LiteralValue | parser.c:190-285 | A literal the grammar accepts has a value within [INT64_MIN, INT64_MAX]. |
| IntegerScanner.AccumulateDigit | parser.c:233-270 | The two overflow checks accept a digit exactly when `acc * 10 + d` stays within the bound, and the accumulator then holds that value. |
| IntegerScanner.ScanByte | parser.c:190-285 | A scanner state moves only to another scanner state or to `integer_lf`, and only a `\r` reaches `integer_lf`. |
| IntegerScanner.DecimalDigitsSpec | parser.c:230-247 | The canonical spelling of `n` is a non-empty run of digits with no leading zero, and its value is `n`. |
| IntegerScanner.ScanDigits | parser.c:230-277 | From a digit state, the rest of the field is accepted exactly when it is all digits and the magnitude stays within the bound. The accumulator then holds the signed value. |
| IntegerScanner.ScanFieldMatchesLiteral | parser.c:190-285 | The scanner accepts `s` + `\r` exactly when `LiteralValue(s)` is defined, and then reaches `integer_lf` holding that value. Otherwise it rejects. |
| IntegerScanner.CanonicalLiteralRoundTrip | parser.c:190-285 | The canonical literal of an integer reads back as that integer exactly when the integer is within 64 bits. |
| Stages.RunTag | parser.c:166-178 | `$`, `*` and `:` record the offset and the type, and the run goes on in `integer_start` one byte later. |
| Stages.RunBadTag | parser.c:166-188 | Any other tag records the offset, marks `+` and `-` as error values, and fails at that byte with no callback. |
| Stages.RunScanByte | parser.c:190-285 | One scanner byte either goes on from the scanner's next state or fails at that byte. |
| Stages.RunScanAccept | parser.c:190-285 | A field the scanner accepts is run through, and the run goes on from the state the scanner reaches. |
| Stages.RunScanReject | parser.c:190-285 | A field the scanner refuses fails on one of its bytes, with no callback and the stack untouched. |
| Stages.RunBadLf | parser.c:287-290 | `integer_lf` on any byte but `\n` fails at that byte with no callback. |
| Stages.RunIntegerEnd | parser.c:293-328 | An integer's header sets `plen`, `coff` and `clen`, reports the value, then enters `done`. |
| Stages.RunNilEnd | parser.c:293-315 | A negative length reports one nil callback, then enters `done`. |
| Stages.RunArrayEnd | parser.c:311-320 | An array header stores the count in `remaining`, reports it, then enters `done`. |
| Stages.RunStringHeaderEnd | parser.c:295-308 | A string header sets `coff` after the `\n` and `clen` to the length, adds the payload and its `\r\n` to `plen`, and enters `bulk`. |
| Stages.RunBulkWhole | parser.c:339-343 | A payload whose rest is all in the buffer is one chunk. `remaining` drops to 0 and `bulk_cr` follows. |
| Stages.RunBulkPart | parser.c:346-350 | A payload cut off by the end of the buffer is one chunk holding the rest of the buffer. `remaining` drops by its length, and the call returns having used all its input. |
| Stages.RunBulkCr | parser.c:353-359 | `bulk_cr` on `\r` moves to `bulk_lf`. |
| Stages.RunBulkLf | parser.c:361-367 | `bulk_lf` on `\n` enters `done`. |
| Stages.RunBadBulkCr | parser.c:353-359 | `bulk_cr` on any byte but `\r` fails at that byte with no callback. |
| Stages.RunBadBulkLf | parser.c:361-367 | `bulk_lf` on any byte but `\n` fails at that byte with no callback. |
| Stages.AfterDonePop | parser.c:383-388 | `done` on a finished record above the root adds its `plen` to the parent's and goes on there. |
| Stages.AfterDonePush | parser.c:376-393 | `done` on an array expecting children pushes a fresh record and lowers the count, and the next tag is read after the `\n`. |
| Stages.AfterDoneRoot | parser.c:387-400 | `done` popping the root completes the message with the `\n` counted. |
| Lines.ParseHeader | parser.c:166-285 | A header line whose literal is accepted runs to `integer_lf` at its `\n`, with the record's offset and type set and the value in the accumulator. |
| Lines.IntegerLine | parser.c:166-328 | An integer line `:<lit>\r\n` makes one callback with its value and finished record, then enters `done`. |
| Lines.NilLine | parser.c:296-315 | A header with a negative length after `$` or `*` makes one nil callback, then enters `done`. |
| Lines.ArrayLine | parser.c:311-320 | An array header makes the array callback with its count, then enters `done`. |
| Lines.StringHeader | parser.c:295-308 | A string header sets the record's lengths and enters `bulk` after its `\n`. |
| Lines.PayloadEnd | parser.c:353-367 | The `\r\n` after a payload makes no callback and enters `done`. |
| Lines.Payload | parser.c:334-367 | A payload that is all in the buffer, with its `\r\n`, makes one chunk callback, then enters `done`. |
| Lines.StringLines | parser.c:295-367 | A whole bulk string makes one chunk callback with its payload and finished record. |
| Messages.CanonicalSpelling | parser.c:190-285 | Every integer in the signed 64-bit range, and every length or count up to INT64_MAX, has a spelling the parser reads (its canonical literal); the canonical literal of one outside that range is refused. -1 spells a nil. |
| Messages.NumShape | parser.c:323-328 | An integer's encoding with its own literal, its finished record (`clen` = the literal's length) and its single event carrying the literal's value. |
| Messages.NilShape | parser.c:296-315 | A nil's encoding (any negative length), finished record (`remaining` -1) and nil event. |
| Messages.StrShape | parser.c:295-351 | A bulk string's encoding, finished record (`coff` after the header, `clen` = length) and single chunk. |
| Messages.ArrShape | parser.c:311-386 | An array's encoding, and its finished record whose `plen` covers its header and its children. |
| Messages.ArrEvents | parser.c:317-319 | An array reports its header with the count, then its children's callbacks. |
| Messages.ItemsShape | parser.c:373-389 | A non-empty run of items is encoded as its first item followed by the rest, and its callbacks are the first item's, then the rest's. |
| Messages.ItemsMeasures | parser.c:373-389 | The parts of a run of items are well formed, need no more depth and are smaller. |
| Decoding.ParseNum | parser.c:166-328 | Decoding an integer makes its callback and leaves its finished record at its last `\n`. |
| Decoding.ParseNil | parser.c:296-315 | Decoding a nil makes its callback and leaves its finished record. |
| Decoding.ParseStr | parser.c:295-367 | Decoding a bulk string makes its chunk and leaves its finished record. |
| Decoding.ParseItems | parser.c:373-389 | The children of an array are decoded one after the other through `done`'s pushes and pops. The array ends with no child expected and their lengths added. |
| Decoding.ParseArr | parser.c:311-389 | Decoding an array makes its header callback, then its children's, and leaves its finished record. |
| Decoding.ParseValue | parser.c:161-394 | Decoding any value from `type_char`, with every callback accepted and room on the stack, makes exactly its callbacks and reaches `done` at its last byte with the finished record in place. |
| Completion.StartReady | parser.c:146-152 | The entry of a call from an idle parser is ready to decode a value at position 0. |
| Completion.RootDone | parser.c:387-400 | A run that leaves a value's finished record in the root slot at its last byte completes the message. |
| Completion.DecodeMessage | parser.c:123-408 | One call from an idle parser on `Encode(v) + rest` completes and returns the length of `Encode(v)`, for every spelling of `v`'s headers the grammar accepts (a `+` sign, any negative nil length). It makes exactly `v`'s callbacks, leaves the parser idle and hands back `v`'s finished record as the root. |
| Completion.NilArrayCompletes | parser.c:311-400 | With the corrected `done` test, `*` with any negative literal and `\r\n` is a whole message: one nil callback, the header's bytes, completed. |
| Completion.SignedSpellings | parser.c:190-285 | `*+1\r\n:+5\r\n` is a well-formed one-element array holding 5, and `$-7\r\n` a well-formed nil string. |
| Completion.NilArrayMinusOne | parser.c:311-400 | `*-1\r\n` followed by anything completes after five bytes. |
| Errors.BadTagFails | parser.c:166-188 | A message that does not start with `$`, `*` or `:` fails with 0 bytes consumed and no callback. The root's offset is 0, and its type is the error type exactly for `+` and `-`. |
| Errors.BadLiteralFails | parser.c:190-285 | A header literal outside the grammar or the 64-bit range fails on one of its bytes or its `\r`, with no callback. |
| Errors.MissingLfFails | parser.c:287-290 | An accepted literal whose `\r` is not followed by `\n` fails on that byte after the literal's length plus 2 bytes, with no callback. |
| Errors.BadPayloadEndFails | parser.c:334-359 | Inside a bulk string, the rest `b` of the payload followed by a byte that is not `\r` makes the chunk with `b`, then fails on that byte, having consumed `b`, with the parser left in `bulk_cr`. |
| Errors.BadPayloadLfFails | parser.c:334-367 | The rest of the payload and `\r` followed by a byte that is not `\n` makes the chunk, then fails on that byte: the payload and the `\r` consumed, the parser left in `bulk_lf`. |
| Chunks.FirstPart | parser.c:346-408 | A call given less of the payload than remains makes one chunk with all of it and returns the length of `a` without completing. |
| Chunks.LastPart | parser.c:339-367 | A call given the rest of the payload and `\r\n` makes one chunk with it, then enters `done`. |
| Chunks.SplitPayload | parser.c:334-367 | A payload split over two calls gives two chunks whose bytes concatenate to the payload. The second call resumes in `bulk` with the remaining count. |
| Chunks.PartChunksBytes | parser.c:339-350 | The chunks made for a run of parts deliver exactly the parts, joined in order. |
| Chunks.ManyCalls | parser.c:334-351 | Calls on any number of non-empty parts of a payload, each from the parser the one before left, each use all their input and make exactly their part's chunk with the count still to come. Their chunks deliver the parts in order, and the parser after them awaits the rest in `bulk`. |
| Chunks.LastCall | parser.c:339-367 | From the parser the calls on the parts leave, the call on the rest of the payload and `\r\n` makes the last chunk and goes on in the `done` block. |
| Chunks.SplitPayloadMany | parser.c:334-408 | A payload given over any number of calls: the chunks of the calls deliver the parts in order, each call returns its part's length without completing, and the final call on the rest and `\r\n` makes the last chunk and goes on in the `done` block. |
| Resumption.NotifyShift | parser.c:10-16 | A callback other than a chunk does not depend on the buffer offset. |
| Resumption.EndHeaderShift | parser.c:287-332 | `integer_lf` `k` bytes later in a buffer is the same step, `k` later. |
| Resumption.ReadBulkShift | parser.c:334-351 | `bulk` `k` bytes later delivers the same bytes with the chunk start `k` later. |
| Resumption.StepShift | parser.c:165-368 | Any step taken the length of `a` bytes later in `a + b` is the step on `b`, shifted. |
| Resumption.RunShift | parser.c:161-394 | A run over the `b` part of `a + b` is the run over `b` alone, shifted by the length of `a`. |
| Resumption.StepPrefix | parser.c:165-368 | A step that does not reach past the end of `a` is the same with more bytes after `a`. |
| Resumption.CutPayload | parser.c:346-350 | A payload cut off by the end of the buffer stops at its chunk, or uses all the input and ends inside the payload. |
| Resumption.RunPrefix | parser.c:161-413 | A run over `a` that completes or fails is unchanged by bytes after `a`. One that uses all of `a` outside a payload is its callbacks followed by the run from where it ended. |
| Resumption.SplitMessage | parser.c:146-408 | A call on `a` that uses all of `a` outside a payload, then a call on `b` from the parser it leaves, is one call on `a + b`: the same callbacks, count, ending and final parser. |
| Resumption.EndIgnoresRest | parser.c:161-413 | A call that completes or fails never reads past where it returned: with more input it has the same outcome. |
| Findings.UnwindAsWritten | parser.c:375-389 | The `done` loop with the test `remaining != 0` as written keeps the stack's capacity. |
| Findings.PendingDiffers | parser.c:377 | The tests as written and as corrected differ exactly on an array whose count is negative. |
| Findings.NilArrayRoot | parser.c:311-380 | After a nil array (`*-1\r\n` or any negative count) as the root, the loop as written pushes a child that never comes (count -2), or fails with one slot. The corrected loop pops the root. |
| Findings.Unsigned | parser.c:303-318 | The `(unsigned)` conversion lies below 2^32 and is the identity there. |
| Findings.EndHeaderAsWritten | parser.c:287-332 | `integer_lf` with the `(unsigned)` conversions as written still satisfies the step contract. |
| Findings.AsWrittenAgrees | parser.c:302-318 | Below 2^32 the as-written header step is the model's. |
| Findings.LongStringHeader | parser.c:302-308 | For `$4294967296\r\n`, as written the length and remaining count are 0. The model keeps 2^32. |
| Findings.LongArrayHeader | parser.c:317-319 | For `*4294967296\r\n`, as written the array callback reports 0 children. The model reports 2^32. |

## Left out

- The DEBUG block (parser.c:72-116) only prints, and is not modelled.
- Callback bodies run user code. They are modelled as one total function from event to bool. A missing handler is a handler that returns true.
- The `parent` field (parser.c:163) and the `data` field are not modelled. `&stack[-1]` after popping the root is never dereferenced.
- The `dst` out-parameter is modelled as the returned `Option<Record>` root.
- Machine.ReadTag: the `assert(NULL)` after `+` and `-` is taken as compiled out, so both fall through to `goto error` with the error type set. An abort build is not modelled.
- Machine.EndHeader: the `assert` at parser.c:331 and the one at parser.c:371 cannot be reached from a valid parser, and the model proves it.
- Machine.Unwind: the C code writes past the end of its fixed stack when arrays nest too deeply. The model fails the call (`TooDeep`) instead. parser.h, which fixes the capacity, is not part of this model, so the capacity is the length of the stack.
- The `line` and `line_lf` states and the unused `s_unused` label have no code in `redis_parser_execute` and are not modelled.
- IntegerScanner.ScanByte: `i64.i64 = -i64.ui64` for the magnitude of INT64_MIN is modelled as the mathematical negation, which is the value the two's-complement wrap-around gives.
- Machine.EndHeader: does not model the `(unsigned)` truncation of counts of 2^32 or more; it keeps the 64-bit value (see Findings).
- The start of a string chunk is a position in the buffer of the call that made it. Addresses into the caller's buffer are not modelled.
- Resumption.SplitMessage: excludes splits inside a string payload, where the chunk would be cut in two. Chunks.SplitPayload and Chunks.SplitPayloadMany prove only a part of that case: calls that all run in `bulk`, given payload bytes only, make chunks whose bytes concatenate to the payload. It does not compare them with one call on `a + b`. The second call's handler sees chunk starts moved by `|a|`.
- Resumption.RunPrefix: does not cover a run that ends inside a payload cut off by the end of `a`, because with more input that chunk is longer.
- Machine.Execute: a call of zero bytes on an idle parser still resets it to a fresh root record (parser.c:146-151), so it is not the identity there.

## Findings

| source | as written | input that shows it | evidently intended | confidence | as-written member | corrected member |
|---|---|---|---|---|---|---|
| parser.c:376-380 with 311-315 | `done` treats an array as expecting more children when `remaining` is non-zero. A nil array keeps `remaining == -1`, so `done` pushes a child slot and the message never completes (or the push overruns a one-slot stack). | `*-1\r\n` | Only a positive count pushes a child, so the nil array is a whole message. | high; not executed | Findings.NilArrayRoot | Completion.NilArrayCompletes |
| parser.c:302-307 and 317-318 | A length or count is stored through `(unsigned)i64.i64`, which keeps only its low 32 bits, after the scanner checked it against the signed 64-bit range. | `$4294967296\r\n` or `*4294967296\r\n` | The length or count read from the header, as the scanner bounded it. | medium (the width of `unsigned` and of the record fields is in parser.h, which is not part of this model); not executed | Findings.LongStringHeader | Machine.EndHeader |
