/** The grant-program processor: a counter of processed items with a fixed
    verbosity flag, the result it reports for each item, and the single-pass
    run that reads one input, processes it once and emits the statistics. */
module GrantProgram {
  import opened Results
  import opened Decimal
  import opened Utf8
  import opened StatsJson

  /** The JSON payload of a result: `length`, `processed_at`, `item_number`.
      `processedAt` is the caller-supplied clock reading (RFC 3339 text). */
  datatype ItemData = ItemData(length: nat, processedAt: string, itemNumber: nat)

  datatype ProcessResult = ProcessResult(success: bool, message: string, data: Option<ItemData>)

  /** The I/O failures a run can meet, with the path involved. */
  datatype Error = ReadError(path: string) | WriteError(path: string)

  const MessagePrefix: string := "Successfully processed item #"

  function Message(count: nat): (m: string)
    ensures |m| > |MessagePrefix| && m[..|MessagePrefix|] == MessagePrefix
  {
    MessagePrefix + NatToString(count)
  }

  /** The message names the item number: it is the prefix followed by a
      canonical numeral whose value is `count`. */
  lemma MessageNamesCount(count: nat)
    ensures |Message(count)| > |MessagePrefix|
    ensures Message(count)[..|MessagePrefix|] == MessagePrefix
    ensures IsCanonical(Message(count)[|MessagePrefix|..])
    ensures StringToNat(Message(count)[|MessagePrefix|..]) == count
  {
    assert Message(count)[|MessagePrefix|..] == NatToString(count);
    StringToNatOfNatToString(count);
  }

  /** Different items get different messages. */
  lemma MessageInjective(m: nat, n: nat)
    ensures Message(m) == Message(n) <==> m == n
  {
    if Message(m) == Message(n) {
      MessageNamesCount(m);
      MessageNamesCount(n);
    }
  }

  /** The abstract state of a processor. */
  datatype ProcessorState = ProcessorState(verbose: bool, processedCount: nat)

  /** The state after one more item is processed. */
  function Advance(s: ProcessorState): (r: ProcessorState)
    ensures r.processedCount == s.processedCount + 1 && r.verbose == s.verbose
  {
    s.(processedCount := s.processedCount + 1)
  }

  /** The result reported for `data`, built from the state AFTER the count
      was incremented: the message and the item number both carry the new
      count, and the length is the byte length of the input. */
  function Report(after: ProcessorState, data: string, processedAt: string): ProcessResult {
    ProcessResult(true, Message(after.processedCount),
                  Some(ItemData(ByteLength(data), processedAt, after.processedCount)))
  }

  /** A report is a success whose message and payload name the same item,
      and whose recorded length is at least the number of characters. */
  lemma ReportIsConsistent(after: ProcessorState, data: string, processedAt: string)
    ensures Report(after, data, processedAt).success
    ensures Report(after, data, processedAt).data.Some?
    ensures var r := Report(after, data, processedAt);
      StringToNat(r.message[|MessagePrefix|..]) == r.data.value.itemNumber
    ensures Report(after, data, processedAt).data.value.length >= |data|
    ensures data == [] ==> Report(after, data, processedAt).data.value.length == 0
  {
    MessageNamesCount(after.processedCount);
  }

  /** One input item: the text and the clock reading taken while processing it. */
  datatype Item = Item(data: string, processedAt: string)

  /** Processing `items` one after the other from state `s`: the final state
      and the results in order. */
  function Replay(s: ProcessorState, items: seq<Item>): (r: (ProcessorState, seq<ProcessResult>))
    ensures |r.1| == |items|
    decreases |items|
  {
    if items == [] then (s, [])
    else
      var next := Advance(s);
      var rest := Replay(next, items[1..]);
      (rest.0, [Report(next, items[0].data, items[0].processedAt)] + rest.1)
  }

  /** The i-th of `n` calls from state `s` reports item number
      `count + i + 1` and keeps the flag. */
  lemma {:induction false} ReplayAt(s: ProcessorState, items: seq<Item>, i: nat)
    requires i < |items|
    ensures Replay(s, items).1[i] ==
      Report(ProcessorState(s.verbose, s.processedCount + i + 1), items[i].data, items[i].processedAt)
    decreases i
  {
    if i > 0 {
      ReplayAt(Advance(s), items[1..], i - 1);
      assert items[1..][i - 1] == items[i];
    }
  }

  /** After `n` calls the count has grown by exactly `n` and the flag is the
      same. */
  lemma {:induction false} ReplayFinalState(s: ProcessorState, items: seq<Item>)
    ensures Replay(s, items).0 == ProcessorState(s.verbose, s.processedCount + |items|)
    decreases |items|
  {
    if items != [] {
      ReplayFinalState(Advance(s), items[1..]);
    }
  }

  /** The payload of the i-th of `n` calls from state `s`. */
  lemma ReplayDataAt(s: ProcessorState, items: seq<Item>, i: nat)
    requires i < |items|
    ensures Replay(s, items).1[i].success
    ensures Replay(s, items).1[i].data ==
      Some(ItemData(ByteLength(items[i].data), items[i].processedAt, s.processedCount + i + 1))
  {
    ReplayAt(s, items, i);
  }

  /** On a fresh processor (count 0), `n` items leave the count at `n`, and
      the i-th result is a success carrying item number i + 1 and the byte
      length of the i-th input. */
  lemma FreshReplay(s: ProcessorState, items: seq<Item>)
    requires s.processedCount == 0
    ensures Replay(s, items).0 == ProcessorState(s.verbose, |items|)
    ensures forall i :: 0 <= i < |items| ==> Replay(s, items).1[i].success
    ensures forall i :: 0 <= i < |items| ==>
      Replay(s, items).1[i].data == Some(ItemData(ByteLength(items[i].data), items[i].processedAt, i + 1))
  {
    ReplayFinalState(s, items);
    forall i | 0 <= i < |items|
      ensures Replay(s, items).1[i].success
      ensures Replay(s, items).1[i].data == Some(ItemData(ByteLength(items[i].data), items[i].processedAt, i + 1))
    {
      ReplayDataAt(s, items, i);
    }
  }

  /** No two calls on one processor report the same message. */
  lemma ReplayMessagesDistinct(s: ProcessorState, items: seq<Item>)
    ensures forall i, j :: 0 <= i < j < |items| ==>
      Replay(s, items).1[i].message != Replay(s, items).1[j].message
  {
    forall i, j | 0 <= i < j < |items|
      ensures Replay(s, items).1[i].message != Replay(s, items).1[j].message
    {
      ReplayAt(s, items, i);
      ReplayAt(s, items, j);
      MessageInjective(s.processedCount + i + 1, s.processedCount + j + 1);
    }
  }

  /** The processor object of the library: `verbose` is fixed at
      construction, `processedCount` is changed only by `Process`. */
  class Processor {
    const verbose: bool
    var processedCount: nat

    function State(): ProcessorState
      reads this
    {
      ProcessorState(verbose, processedCount)
    }

    constructor (verbose: bool)
      ensures State() == ProcessorState(verbose, 0)
    {
      this.verbose := verbose;
      processedCount := 0;
    }

    /** Counts one more item and reports it; never fails, whatever `data` is.
        `processedAt` stands for the clock reading taken during the call. */
    method Process(data: string, processedAt: string) returns (r: Result<ProcessResult, Error>)
      modifies this
      ensures State() == Advance(old(State()))
      ensures r == Ok(Report(State(), data, processedAt))
    {
      processedCount := processedCount + 1;
      r := Ok(Report(State(), data, processedAt));
    }

    /** A snapshot of the current count and flag; reading it changes nothing. */
    function GetStats(): (s: Stats)
      reads this
      ensures s.processedCount == processedCount && s.verbose == verbose
    {
      Stats(processedCount, verbose)
    }
  }

  /** What the run can observe of the outside world: readable files with
      their text, the paths a write may succeed on, and what has been
      printed to standard output. */
  datatype Env = Env(files: map<string, string>, writable: set<string>, stdout: string)

  /** Acquiring the input: a path is read whole (and the read fails when the
      file is not there); no path means the empty string. */
  function ReadInput(env: Env, input: Option<string>): (r: Result<string, Error>)
    ensures input.None? ==> r == Ok("")
    ensures input.Some? && input.value in env.files ==> r == Ok(env.files[input.value])
    ensures input.Some? && input.value !in env.files ==> r == Err(ReadError(input.value))
  {
    match input
    case None => Ok("")
    case Some(path) => if path in env.files then Ok(env.files[path]) else Err(ReadError(path))
  }

  /** Emitting the output: to a file, whose contents become exactly `text`,
      or to standard output as one line. */
  function WriteOutput(env: Env, output: Option<string>, text: string): (r: Result<Env, Error>)
    ensures output.None? ==> r == Ok(env.(stdout := env.stdout + text + "\n"))
    ensures output.Some? && output.value in env.writable ==>
      r.Ok? && r.value.files == env.files[output.value := text] &&
      r.value.files[output.value] == text && r.value.stdout == env.stdout &&
      r.value.writable == env.writable
    ensures output.Some? && output.value !in env.writable ==> r == Err(WriteError(output.value))
  {
    match output
    case None => Ok(env.(stdout := env.stdout + text + "\n"))
    case Some(path) =>
      if path in env.writable then Ok(env.(files := env.files[path := text])) else Err(WriteError(path))
  }

  /** One run: create a processor, acquire the input (a failure aborts before
      anything is processed or written), process it exactly once, and emit
      the serialised statistics. `after` is the world once the run is over;
      `processed` is the result the discarded `process` call returned. */
  method Run(verbose: bool, input: Option<string>, output: Option<string>, processedAt: string, env: Env)
    returns (r: Result<(), Error>, after: Env, ghost processed: Option<ProcessResult>)
    ensures ReadInput(env, input).Err? ==>
      r == Err(ReadInput(env, input).error) && after == env && processed.None?
    ensures ReadInput(env, input).Ok? ==>
      processed == Some(Report(ProcessorState(verbose, 1), ReadInput(env, input).value, processedAt))
    ensures input.None? ==> processed.Some? && processed.value.data.value.length == 0
    ensures ReadInput(env, input).Ok? && output.None? ==>
      r == Ok(()) && after == env.(stdout := env.stdout + Serialize(Stats(1, verbose)) + "\n")
    ensures ReadInput(env, input).Ok? && output.Some? && output.value in env.writable ==>
      r == Ok(()) && after == env.(files := env.files[output.value := Serialize(Stats(1, verbose))])
    ensures ReadInput(env, input).Ok? && output.Some? && output.value !in env.writable ==>
      r == Err(WriteError(output.value)) && after == env
  {
    var processor := new Processor(verbose);
    var read := ReadInput(env, input);
    if read.Err? {
      return Err(read.error), env, None;
    }
    var result := processor.Process(read.value, processedAt);
    processed := Some(result.value);
    var text := Serialize(processor.GetStats());
    var written := WriteOutput(env, output, text);
    if written.Err? {
      return Err(written.error), env, processed;
    }
    r, after := Ok(()), written.value;
  }
}
