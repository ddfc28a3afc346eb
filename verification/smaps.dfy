/** Whole-file parsing: `parseMemStat` reads one mapping (header line, then
    field block) and `NewSmaps` repeats it until the end of the stream. */
module Smaps {
  import opened Types
  import opened Text
  import opened MemStats
  import opened Header
  import opened Block

  /** The record invariants every parsed mapping satisfies: the pathname is
      one space-free token of a single line, and no flag holds a space. */
  predicate Parsed(ms: MemStat) {
    && ' ' !in ms.fileName && '\n' !in ms.fileName
    && forall t :: t in ms.vmFlags ==> ' ' !in t
  }

  /** `parseMemStat`: the header line, then the field block. End of stream
      before the header is passed on unchanged (the caller stops there);
      every failure of the block, end of stream included, is wrapped. */
  function ParseMemStat(input: string): (r: Result<(MemStat, string), Error>)
    ensures r == Err(EndOfStream) <==> '\n' !in input
    ensures r.Ok? ==> Count(r.value.1, '\n') + 2 <= Count(input, '\n')
    ensures r.Ok? ==> Parsed(r.value.0)
  {
    match FillMemStatVM(input)
    case Err(e) => Err(e)
    case Ok((header, rest)) =>
      match FillMemStat(rest, header)
      case Err(e) => Err(Fill(e))
      case Ok((ms, after)) => Ok((ms, after))
  }

  /** The loop of `NewSmaps` as a recursion: records are collected until the
      header read hits the end of the stream; any other error discards the
      records read so far. */
  function ParseRecords(input: string): (r: Result<seq<MemStat>, Error>)
    ensures r.Err? ==> r.error != EndOfStream
    ensures r.Ok? ==> 2 * |r.value| <= Count(input, '\n')
    decreases Count(input, '\n')
  {
    match ParseMemStat(input)
    case Err(e) => if e == EndOfStream then Ok([]) else Err(e)
    case Ok((ms, rest)) =>
      match ParseRecords(rest)
      case Err(e) => Err(e)
      case Ok(rs) => Ok([ms] + rs)
  }

  /** Every record of a successful parse has a space-free single-line
      pathname and space-free flags. */
  lemma {:induction false} RecordsParsed(input: string)
    requires ParseRecords(input).Ok?
    ensures forall i :: 0 <= i < |ParseRecords(input).value| ==> Parsed(ParseRecords(input).value[i])
    decreases Count(input, '\n')
  {
    match ParseMemStat(input)
    case Err(e) =>
    case Ok((ms, rest)) =>
      RecordsParsed(rest);
      var rs := ParseRecords(rest).value;
      assert ParseRecords(input).value == [ms] + rs;
      assert forall i :: 0 < i <= |rs| ==> ([ms] + rs)[i] == rs[i - 1];
  }

  /** The records already collected in front of the outcome of the rest. */
  function Prepend(done: seq<MemStat>, r: Result<seq<MemStat>, Error>): Result<seq<MemStat>, Error> {
    match r
    case Ok(rs) => Ok(done + rs)
    case Err(e) => Err(e)
  }

  /** One turn of the loop: a record read is put in front of the rest. */
  lemma ParseRecordsStep(input: string)
    requires ParseMemStat(input).Ok?
    ensures ParseRecords(input) == Prepend([ParseMemStat(input).value.0], ParseRecords(ParseMemStat(input).value.1))
  {
  }

  /** The loop's exit: end of stream yields no further records, any other
      error is the result. */
  lemma ParseRecordsStop(input: string)
    requires ParseMemStat(input).Err?
    ensures ParseRecords(input) ==
      if ParseMemStat(input).error == EndOfStream then Ok([]) else Err(ParseMemStat(input).error)
  {
  }

  lemma PrependNothing(r: Result<seq<MemStat>, Error>)
    ensures Prepend([], r) == r
  {
    if r.Ok? {
      assert [] + r.value == r.value;
    }
  }

  lemma PrependTwice(a: seq<MemStat>, b: seq<MemStat>, r: Result<seq<MemStat>, Error>)
    ensures Prepend(a, Prepend(b, r)) == Prepend(a + b, r)
  {
    if r.Ok? {
      assert a + (b + r.value) == (a + b) + r.value;
    }
  }

  /** `NewSmaps` after the file has been read into memory: parse records one
      after another, appending each, until end of stream. */
  method NewSmaps(input: string) returns (r: Result<seq<MemStat>, Error>)
    ensures r == ParseRecords(input)
    ensures r.Err? ==> r.error != EndOfStream
    ensures r.Ok? ==> 2 * |r.value| <= Count(input, '\n')
  {
    var rest := input;
    var stats: seq<MemStat> := [];
    PrependNothing(ParseRecords(input));
    while true
      invariant ParseRecords(input) == Prepend(stats, ParseRecords(rest))
      invariant 2 * |stats| + Count(rest, '\n') <= Count(input, '\n')
      decreases Count(rest, '\n')
    {
      var step := ParseMemStat(rest);
      if step.Err? {
        ParseRecordsStop(rest);
        if step.error == EndOfStream {
          assert stats + [] == stats;
          return Ok(stats);
        }
        return Err(step.error);
      }
      var (ms, after) := step.value;
      ParseRecordsStep(rest);
      PrependTwice(stats, [ms], ParseRecords(after));
      stats := stats + [ms];
      rest := after;
    }
  }

  /** Reading a record does not look past its flags line: whatever follows
      is left unread. */
  lemma ParseMemStatAppend(input: string, more: string)
    requires ParseMemStat(input).Ok?
    ensures ParseMemStat(input + more) ==
      Ok((ParseMemStat(input).value.0, ParseMemStat(input).value.1 + more))
  {
    var (header, rest) := FillMemStatVM(input).value;
    FillMemStatVMAppend(input, more);
    FillAppend(rest, BlockState(header, {}), more);
  }

  /** A newline-free tail after the input does not change the outcome of
      reading one record. */
  lemma ParseMemStatFragment(input: string, more: string)
    requires '\n' !in more
    ensures ParseMemStat(input + more) == WithTail(ParseMemStat(input), more)
  {
    FillMemStatVMFragment(input, more);
    if FillMemStatVM(input).Ok? {
      var (header, rest) := FillMemStatVM(input).value;
      FillFragment(rest, BlockState(header, {}), more);
    }
  }

  /** Text after the last line that holds no newline is never read as a
      line: the parse, success or failure, is the same as without it. */
  lemma {:induction false} TrailingFragment(input: string, fragment: string)
    requires '\n' !in fragment
    ensures ParseRecords(input + fragment) == ParseRecords(input)
    decreases Count(input, '\n')
  {
    ParseMemStatFragment(input, fragment);
    match ParseMemStat(input)
    case Err(e) =>
    case Ok((ms, rest)) =>
      TrailingFragment(rest, fragment);
  }

  /** A well-formed header line followed by end of stream in the middle of
      the field block is an error, not the end of the parse. */
  lemma TruncatedRecord(headerText: string, fragment: string)
    requires '\n' !in headerText && '\n' !in fragment
    requires HeaderWellFormed(headerText)
    ensures ParseRecords(headerText + "\n" + fragment) == Err(Fill(ReadFailed))
  {
    ReadLineOfLine(headerText, fragment);
    var ms := ParseHeaderLine(headerText).value;
    assert FillMemStatVM(headerText + "\n" + fragment) == Ok((ms, fragment));
  }
}
