# GrantProgram processor, in Dafny

This project models the core library of GrantProgram (`src/lib.rs`). The
library is a small data-processing stub with two parts:

- The **processor** (`GrantProgramProcessor`) holds a verbosity flag that is
  fixed at construction and a counter of processed items that starts at 0.
  `process` adds one to the counter. It always succeeds and returns a
  `ProcessResult`. That result has a success flag, the message
  `Successfully processed item #N`, and a payload holding the input's byte
  length, a timestamp and the item number N. `get_stats` returns a snapshot
  `{processed_count, verbose}` and changes nothing.
- The **run** (`run`) creates a processor and reads the input. With a path it
  reads that file, and a failed read aborts the run. With no path it uses the
  empty string. It calls `process` exactly once, serialises the statistics as
  compact JSON, and writes that text to the output file or prints it as a line.

Layout:

- `results.dfy` (`Results`): `Option` and `Result`.
- `decimal.dfy` (`Decimal`): the decimal text of a natural number, which is how
  both Rust's `format!` and JSON write numbers, and reading that text back.
- `utf8.dfy` (`Utf8`): the byte length of a string's UTF-8 encoding. This is
  what Rust's `str::len` returns (RFC 3629, section 3).
- `stats_json.dfy` (`StatsJson`): the fixed-shape statistics record, its JSON
  text `{"processed_count":N,"verbose":B}`, and a parser for that text.
  serde_json's default object map sorts its keys, so `processed_count` comes
  before `verbose`.
- `grant_program.dfy` (`GrantProgram`): the result records, the abstract
  processor state and its specification functions, the `Processor` class, and
  `Run`.

The processor is a class. `verbose` is a `const`, `processedCount` is a `var`,
and `Process` has `modifies this`. `State()` maps the object to a
`ProcessorState` value. `Process` is specified by `Advance` and `Report` on
that value. `Replay` folds those two functions over a sequence of items, so
the lemmas can talk about many calls in a row.

The outside world is represented by a value `Env`:

- `files`: the text of each readable file. A read fails exactly when the path
  is not there.
- `writable`: the paths a write can succeed on.
- `stdout`: everything printed so far.

`Run` returns its outcome and the `Env` after the run. It also returns, as a
ghost, the result of the `process` call, which the source discards. The clock
reading `processed_at` is a parameter of `Process` and `Run`, and nothing
constrains it.

The main comment in `run` says "Use default input (e.g., stdin)". The code
itself substitutes the empty string, and the model follows the code.

## Model

| member | source | states |
|---|---|---|
| Decimal.NatToString | src/lib.rs:70 | the text of a count is a non-empty string of digits that starts with '0' only when the count is 0 (a canonical numeral) |
| Decimal.StringToNatOfNatToString | src/lib.rs:70 | reading back the decimal text of n gives n |
| Decimal.NatToStringOfStringToNat | src/lib.rs:125 | every canonical numeral is the text of the number it denotes |
| Decimal.NatToStringInjective | src/lib.rs:70 | two counts have the same text exactly when they are equal |
| Utf8.Width | src/lib.rs:72 | a character takes 1 to 4 bytes of UTF-8, and exactly 1 when it is ASCII |
| Utf8.ByteLength | src/lib.rs:72 | an input's byte length lies between its character count and four times that count |
| Utf8.ByteLengthConcat | src/lib.rs:72 | the byte length of a concatenation is the sum of the parts' byte lengths |
| Utf8.ByteLengthAscii | src/lib.rs:72 | the byte length equals the character count exactly when the input is ASCII |
| StatsJson.Serialize | src/lib.rs:125 | the serialiser: the compact JSON text of a snapshot, which starts with `{"processed_count":` and ends with `}`; its content is pinned down by the round-trip lemmas below |
| StatsJson.Parse | src/lib.rs:125 | models no source function; it exists only as the round-trip partner of `Serialize` and accepts exactly the canonical compact text |
| StatsJson.ParseVerbose | src/lib.rs:89 | the `verbose` member is accepted only as `true` or `false` followed by the closing brace |
| StatsJson.ParseSerialize | src/lib.rs:86-91 | parsing the serialised statistics gives back the same count and flag |
| StatsJson.SerializeParse | src/lib.rs:125 | every text the parser accepts is exactly the serialisation of what it returns |
| StatsJson.SerializeInjective | src/lib.rs:125 | different snapshots serialise to different texts |
| StatsJson.SerializeAfterOneItem | src/lib.rs:122-130 | after one item the text is exactly `{"processed_count":1,"verbose":true}` or `{"processed_count":1,"verbose":false}` |
| GrantProgram.Message | src/lib.rs:70 | the `format!` of the message: it always starts with "Successfully processed item #" |
| GrantProgram.MessageNamesCount | src/lib.rs:70 | the message is "Successfully processed item #" followed by a canonical numeral whose value is the count |
| GrantProgram.MessageInjective | src/lib.rs:70 | two results have the same message exactly when they have the same item number |
| GrantProgram.Advance | src/lib.rs:66 | the `+= 1`: the count goes up by exactly one and the flag is kept |
| GrantProgram.Report | src/lib.rs:68-76 | builds the `ProcessResult` from the state after the increment: success, the message for the new count, and the payload (byte length of the input, clock reading, new count); its meaning is stated by `ReportIsConsistent` |
| GrantProgram.ReportIsConsistent | src/lib.rs:68-78 | every result is a success with a payload; the number in its message equals its `item_number`; its `length` is at least the character count, and 0 for empty input |
| GrantProgram.Replay | src/lib.rs:60-78 | processing n items yields n results |
| GrantProgram.ReplayAt | src/lib.rs:60-78 | the i-th of n calls from a given state reports item number count + i + 1, keeps the flag, and describes the i-th input |
| GrantProgram.ReplayFinalState | src/lib.rs:60-66 | n calls raise the count by exactly n and keep the flag, so the count never decreases |
| GrantProgram.ReplayDataAt | src/lib.rs:68-75 | the i-th of n calls succeeds, and its payload holds the i-th input's byte length, its clock reading and item number count + i + 1 |
| GrantProgram.FreshReplay | src/lib.rs:44-78 | starting from count 0, n calls leave the count at n; the i-th result is a success with item number i + 1 and the i-th input's byte length |
| GrantProgram.ReplayMessagesDistinct | src/lib.rs:70 | no two calls on one processor report the same message |
| GrantProgram.Processor.constructor | src/lib.rs:44-49 | construction gives count 0 and the given flag |
| GrantProgram.Processor.Process | src/lib.rs:60-79 | the count goes up by exactly 1 and the flag is kept; the result is always `Ok`, with the report built from the new count |
| GrantProgram.Processor.GetStats | src/lib.rs:86-91 | the snapshot is exactly the current count and flag; as a function it changes no state |
| GrantProgram.ReadInput | src/lib.rs:110-119 | no path means empty text; a readable path gives the file's text; an unreadable path gives a read error for that path |
| GrantProgram.WriteOutput | src/lib.rs:125-130 | with a path, the file's contents become exactly the text, or the write fails with that path's error; with no path, the text and a newline are printed |
| GrantProgram.Run | src/lib.rs:95-133 | a failed read returns that error, leaves the world unchanged and processes nothing; otherwise the input is processed once, as item 1 (length 0 when there is no path), and the serialisation of `Stats(1, verbose)` is printed, written to the output file, or the write error is returned (with `files` unchanged in this model) |

## Left out

- Logging (`env_logger` setup, `debug!`, `info!`): it does not affect results,
  apart from the logger's `init` panicking when a global logger is already
  installed (a second `run` in one process, or a host that set its own
  logger). The model's `Run` never panics and can be called any number of times.
- GrantProgram.Run: a write that fails after `fs::write` has created or
  truncated the file leaves that file empty or partly written. The model
  leaves `files` exactly as it was on every write failure.
- The timestamp `chrono::Utc::now().to_rfc3339()` is a clock read. It is the
  parameter `processedAt`, and nothing constrains its format.
- Real file I/O and `println!`: the `Env` value stands for them. Every read
  failure, whatever its cause, is modelled as the path being absent from
  `files`. Every write failure is modelled as the path being absent from
  `writable`. The text of the underlying OS error is not modelled.
- `Box<dyn Error>`: the model has two error cases, `ReadError(path)` and
  `WriteError(path)`, with no message text.
- The general `serde_json::Value` machinery is replaced by fixed records: the
  two-field statistics and the three-field item payload. The `?` after
  `serde_json::to_string` is not modelled as a failure, because serialising
  this object cannot fail.
- StatsJson.Parse: accepts only the compact, canonical text that the run writes. A
  general JSON parser would also accept whitespace and keys in any order.
- `usize` overflow of `processed_count` is not modelled. The count is a `nat`,
  and one run reaches at most 1.
- `verbose` is a public field in the source, so a caller outside the core
  could assign it. The core never does, and the model makes it a `const`.

