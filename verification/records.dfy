/** The shape of every record `parseMemStat` reads successfully, in terms
    of the entry-line runs of `BlockRuns`. */
module Records {
  import opened Types
  import opened Text
  import opened MemStats
  import opened Header
  import opened Block
  import opened BlockRuns
  import opened Smaps

  /** A record is read only from a header line that parses, then readable
      entry lines with every required key among them, then a flags line;
      the record is the header with the entries applied and the decoded
      flags, and the text after the flags line is left unread. */
  lemma RecordShape(input: string)
    returns (headerText: string, header: MemStat, body: string,
             es: seq<Line>, flagsText: string, rest: string)
    requires ParseMemStat(input).Ok?
    ensures '\n' !in headerText && input == headerText + "\n" + body
    ensures ParseHeaderLine(headerText) == Ok(header)
    ensures OkBlock(body, BlockState(header, {}), es, flagsText, rest, FillMemStat(body, header))
    ensures RequiredKeys() <= KnownKeys(es)
    ensures ParseMemStat(input).value == FillMemStat(body, header).value
  {
    headerText, header, body := HeaderThenBlock(input);
    es, flagsText, rest := BlockOfHeader(body, header);
  }

  /** `OkBlockShape` for the state a record's block starts from. */
  lemma BlockOfHeader(body: string, header: MemStat)
    returns (es: seq<Line>, flagsText: string, rest: string)
    requires FillMemStat(body, header).Ok?
    ensures OkBlock(body, BlockState(header, {}), es, flagsText, rest, FillMemStat(body, header))
    ensures RequiredKeys() <= KnownKeys(es)
  {
    es, flagsText, rest := OkBlockShape(body, BlockState(header, {}));
    assert BlockState(header, {}).seen + KnownKeys(es) == KnownKeys(es);
  }

  /** A record read successfully starts with a header line that parses, and
      the record is what the block after it yields from that header. */
  lemma HeaderThenBlock(input: string) returns (headerText: string, header: MemStat, body: string)
    requires ParseMemStat(input).Ok?
    ensures '\n' !in headerText && input == headerText + "\n" + body
    ensures ParseHeaderLine(headerText) == Ok(header)
    ensures FillMemStat(body, header).Ok?
    ensures ParseMemStat(input).value == FillMemStat(body, header).value
  {
    var line;
    line, body := ReadLine(input).value.0, ReadLine(input).value.1;
    headerText := line[..|line| - 1];
    LineAndNewline(line);
    FillMemStatVMOfLine(input, line, body);
    header := ParseHeaderLine(headerText).value;
  }
}
