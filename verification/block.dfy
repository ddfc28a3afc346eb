/** The field block of one mapping: `Key: N kB` lines in any order, ending at
    the `VmFlags:` line. A small state machine keeps the record being filled
    and the set of table keys seen so far. */
module Block {
  import opened Types
  import opened Text
  import opened Numbers
  import opened MemStats

  /** The entry-line pattern `^([[:word:]]+):[[:space:]]*([[:digit:]]+) kB\n$`
      as a relation: `line` matches with key `key`, blank run `ws` and number
      text `digits`. */
  predicate IsEntryLine(line: string, key: string, ws: string, digits: string) {
    && |key| > 0 && AllIn(key, Word)
    && AllIn(ws, Space)
    && |digits| > 0 && AllIn(digits, Digit)
    && line == key + ":" + ws + digits + " kB\n"
  }

  /** After the key and its colon: blanks, digits, then exactly " kB\n".
      Yields the digits. */
  function MatchValue(after: string): Option<string> {
    var w := Span(after, Space);
    var rest := after[w..];
    var d := Span(rest, Digit);
    if d > 0 && rest[d..] == " kB\n" then Some(rest[..d]) else None
  }

  /** The matcher: the key is the run of word characters before the first
      ':', then blanks, then the digits, then exactly " kB\n". Yields the two
      captured groups. */
  function MatchEntry(line: string): Option<(string, string)> {
    var k := Span(line, Word);
    if k == 0 || k == |line| || line[k] != ':' then None
    else match MatchValue(line[k + 1..])
      case None => None
      case Some(digits) => Some((line[..k], digits))
  }

  lemma MatchValueSound(after: string) returns (ws: string)
    requires MatchValue(after).Some?
    ensures AllIn(ws, Space) && |MatchValue(after).value| > 0 && AllIn(MatchValue(after).value, Digit)
    ensures after == ws + MatchValue(after).value + " kB\n"
  {
    var w := Span(after, Space);
    var rest := after[w..];
    var d := Span(rest, Digit);
    ws := after[..w];
    assert after == ws + rest;
    assert rest == rest[..d] + rest[d..];
  }

  /** Whatever the matcher accepts matches the pattern, with the same groups. */
  lemma MatchEntrySound(line: string, key: string, digits: string) returns (ws: string)
    requires MatchEntry(line) == Some((key, digits))
    ensures IsEntryLine(line, key, ws, digits)
  {
    var k := Span(line, Word);
    var after := line[k + 1..];
    assert key == line[..k];
    assert MatchValue(after) == Some(digits);
    ws := MatchValueSound(after);
    CutAt(line, k);
    JoinEntry(line, key, ws, digits, after);
  }

  lemma JoinEntry(line: string, key: string, ws: string, digits: string, after: string)
    requires line == key + [':'] + after
    requires after == ws + digits + " kB\n"
    ensures line == key + ":" + ws + digits + " kB\n"
  {
  }

  lemma MatchValueComplete(ws: string, digits: string)
    requires AllIn(ws, Space) && |digits| > 0 && AllIn(digits, Digit)
    ensures MatchValue(ws + digits + " kB\n") == Some(digits)
  {
    var after := ws + digits + " kB\n";
    assert after == ws + (digits + " kB\n");
    assert !InClass(digits[0], Space);
    SpanOfConcat(ws, digits + " kB\n", Space);
    var rest := after[|ws|..];
    assert rest == digits + " kB\n";
    SpanOfConcat(digits, " kB\n", Digit);
    assert rest[..|digits|] == digits;
    assert rest[|digits|..] == " kB\n";
  }

  /** Every line matching the pattern is accepted, with its groups: the
      pattern admits a single split of the line. */
  lemma MatchEntryComplete(line: string, key: string, ws: string, digits: string)
    requires IsEntryLine(line, key, ws, digits)
    ensures MatchEntry(line) == Some((key, digits))
  {
    var after := ws + digits + " kB\n";
    KeyThenValue(line, key, ws, digits);
    MatchEntryOfKey(key, after);
    MatchValueComplete(ws, digits);
  }

  lemma KeyThenValue(line: string, key: string, ws: string, digits: string)
    requires line == key + ":" + ws + digits + " kB\n"
    ensures line == key + [':'] + (ws + digits + " kB\n")
  {
  }

  /** After a word-character key and its colon, the matcher goes on with the
      value part alone. */
  lemma MatchEntryOfKey(key: string, after: string)
    requires |key| > 0 && AllIn(key, Word)
    ensures MatchEntry(key + [':'] + after) ==
      if MatchValue(after).Some? then Some((key, MatchValue(after).value)) else None
  {
    var line := key + [':'] + after;
    assert line == key + ([':'] + after);
    SpanOfConcat(key, [':'] + after, Word);
    assert line[|key|] == ':';
    assert line[|key| + 1..] == after;
    assert line[..|key|] == key;
  }

  /** Every line the matcher accepts ends in "B\n". */
  lemma EntryLineEnd(line: string)
    ensures MatchEntry(line).Some? ==> |line| >= 2 && line[|line| - 2] == 'B'
  {
    if MatchEntry(line).Some? {
      var ws := MatchEntrySound(line, MatchEntry(line).value.0, MatchEntry(line).value.1);
    }
  }

  /** The token that opens the flags line. */
  const FlagsTag: string := "VmFlags:"

  lemma FlagsTagShape()
    ensures |FlagsTag| == 8 && ' ' !in FlagsTag && '\n' !in FlagsTag
  {
  }

  /** For an eight-character head without spaces, the first space-separated
      token is the head exactly when the line is the head or starts with the
      head and a space; in the second case a second token follows. */
  lemma FirstToken(line: string, head: string)
    requires |head| == 8 && ' ' !in head
    ensures Split(line, ' ')[0] == head <==> line == head || head + " " <= line
    ensures head + " " <= line ==> |Split(line, ' ')| >= 2
  {
    if head + " " <= line {
      assert line[..8] == head;
      assert line[8] == ' ';
      IndexOfFirst(line, ' ', 8);
    }
    if ' ' in line {
      var i := IndexOf(line, ' ');
      if line[..i] == head {
        assert line[..i + 1] == head + " ";
      }
    }
  }

  /** `parseVmFlags`: split on single spaces; the first token must be exactly
      `VmFlags:` and every later token is a flag, verbatim (empty tokens and
      the newline-carrying last token included). */
  function ParseVmFlags(line: string): (r: Option<set<string>>)
    ensures r.Some? <==> line == FlagsTag || FlagsTag + " " <= line
    ensures r.Some? ==> forall t :: t in r.value ==> ' ' !in t
    ensures r.Some? && line != FlagsTag ==> r.value != {}
  {
    var flags := Split(line, ' ');
    FlagsTagShape();
    FirstToken(line, FlagsTag);
    if flags[0] != FlagsTag then None
    else
      assert |flags| >= 2 ==> flags[1..][0] in Elements(flags[1..]);
      Some(Elements(flags[1..]))
  }

  /** The flags line for a sequence of tokens: what the decoder reads back is
      exactly the set of those tokens. */
  lemma FlagsRoundTrip(tokens: seq<string>)
    requires forall i :: 0 <= i < |tokens| ==> ' ' !in tokens[i]
    ensures ParseVmFlags(Join([FlagsTag] + tokens, ' ')) == Some(Elements(tokens))
  {
    var line := Join([FlagsTag] + tokens, ' ');
    SplitFlagsLine(tokens, line);
    FlagsOfSplit(tokens, line);
  }

  lemma SplitFlagsLine(tokens: seq<string>, line: string)
    requires forall i :: 0 <= i < |tokens| ==> ' ' !in tokens[i]
    requires line == Join([FlagsTag] + tokens, ' ')
    ensures Split(line, ' ') == [FlagsTag] + tokens
  {
    var parts := [FlagsTag] + tokens;
    FlagsTagShape();
    assert forall i :: 1 <= i < |parts| ==> parts[i] == tokens[i - 1];
    SplitJoin(parts, ' ');
  }

  lemma FlagsOfSplit(tokens: seq<string>, line: string)
    requires Split(line, ' ') == [FlagsTag] + tokens
    ensures ParseVmFlags(line) == Some(Elements(tokens))
  {
    assert ([FlagsTag] + tokens)[1..] == tokens;
  }

  /** The per-record state: the record being filled and the table keys seen. */
  datatype BlockState = BlockState(stat: MemStat, seen: set<string>)

  /** A table key's line: store the value in its field and mark it seen. */
  function Record(st: BlockState, key: string, v: U64): (r: BlockState)
    requires key in Entries
    ensures Get(r.stat, Entries[key].field) == v
    ensures forall g :: g != Entries[key].field ==> Get(r.stat, g) == Get(st.stat, g)
    ensures SameIdentity(r.stat, st.stat) && r.seen == st.seen + {key}
  {
    BlockState(Set(st.stat, Entries[key].field, v), st.seen + {key})
  }

  /** What one line of the block does. */
  datatype Step =
    | Continue(state: BlockState)  // an entry line, stay in the block
    | Finish(flags: set<string>)   // the VmFlags line, leave the block
    | Stop(error: FillError)       // anything else

  /** One iteration of the `fillMemStat` loop on a line that was read.
      An entry line with a table key stores its value (a number over 64 bits
      is an error); with any other key it is skipped and nothing changes,
      whatever its number. A line that is not an entry line ends the block
      when it starts with `VmFlags:`, and is an error otherwise. */
  function StepLine(st: BlockState, line: string): (r: Step)
    ensures r.Continue? ==> st.seen <= r.state.seen && r.state.seen - st.seen <= Entries.Keys
    ensures r.Continue? ==> SameIdentity(r.state.stat, st.stat)
    ensures r.Finish? ==> FlagsTag + " " <= line || line == FlagsTag
    ensures r.Finish? ==> forall t :: t in r.flags ==> ' ' !in t
    ensures r.Stop? ==> r.error in {BadValue, BadFlagsLine, UnknownLine}
  {
    match MatchEntry(line)
    case Some((key, digits)) =>
      if key in Entries then
        match ParseUint(digits, 10)
        case None => Stop(BadValue)
        case Some(v) => Continue(Record(st, key, v))
      else Continue(st)
    case None =>
      if FlagsTag <= line then
        match ParseVmFlags(line)
        case None => Stop(BadFlagsLine)
        case Some(flags) => Finish(flags)
      else Stop(UnknownLine)
  }

  /** An entry line with a key outside the table leaves the state as it was,
      and one with a table key stores the value of its digits, or fails with
      `BadValue` when the digits do not fit in 64 bits. */
  lemma EntryLineStep(st: BlockState, line: string, key: string, ws: string, digits: string)
    requires IsEntryLine(line, key, ws, digits)
    ensures key !in Entries ==> StepLine(st, line) == Continue(st)
    ensures key in Entries && Value(digits, 10) < U64_LIMIT ==>
      StepLine(st, line) == Continue(Record(st, key, Value(digits, 10)))
    ensures key in Entries && Value(digits, 10) >= U64_LIMIT ==>
      StepLine(st, line) == Stop(BadValue)
  {
    MatchEntryComplete(line, key, ws, digits);
    assert IsNumeral(digits, 10);
  }

  /** Every line falls in exactly one class: an entry line (the block goes
      on or fails on its value), a `VmFlags:` line (the block ends or the
      flags line is malformed), or an unknown line (error). */
  lemma LineClasses(st: BlockState, line: string)
    ensures StepLine(st, line).Continue? || StepLine(st, line) == Stop(BadValue) <==>
      exists k, w, d :: IsEntryLine(line, k, w, d)
    ensures StepLine(st, line).Finish? || StepLine(st, line) == Stop(BadFlagsLine) <==>
      (forall k, w, d :: !IsEntryLine(line, k, w, d)) && FlagsTag <= line
    ensures StepLine(st, line) == Stop(UnknownLine) <==>
      (forall k, w, d :: !IsEntryLine(line, k, w, d)) && !(FlagsTag <= line)
  {
    if MatchEntry(line).Some? {
      var ws := MatchEntrySound(line, MatchEntry(line).value.0, MatchEntry(line).value.1);
    } else {
      forall k, w, d | IsEntryLine(line, k, w, d) ensures false {
        MatchEntryComplete(line, k, w, d);
      }
    }
  }

  /** The loop of `fillMemStat` from state `st` on the unread input. End of
      stream before the flags line is an error; after the flags line every
      required key must have been seen. Yields the filled record and the
      input after the flags line. */
  function FillFrom(input: string, st: BlockState): (r: Result<(MemStat, string), FillError>)
    ensures r.Ok? ==> SameIdentity(r.value.0, st.stat.(vmFlags := r.value.0.vmFlags))
    ensures r.Ok? ==> Count(r.value.1, '\n') < Count(input, '\n') && |r.value.1| < |input|
    ensures r.Ok? ==> forall t :: t in r.value.0.vmFlags ==> ' ' !in t
    decreases |input|
  {
    match ReadLine(input)
    case None => Err(ReadFailed)
    case Some((line, rest)) =>
      match StepLine(st, line)
      case Stop(e) => Err(e)
      case Continue(next) => FillFrom(rest, next)
      case Finish(flags) =>
        var missing := RequiredKeys() - st.seen;
        if missing != {} then Err(MissingEntries(missing))
        else Ok((st.stat.(vmFlags := flags), rest))
  }

  /** The keys a missing-entries outcome names: at least one, required
      ones only, none of those in `seen`. */
  predicate NamesMissing(r: Result<(MemStat, string), FillError>, seen: set<string>) {
    r.Err? && r.error.MissingEntries? ==>
      r.error.keys != {} && r.error.keys <= RequiredKeys() && r.error.keys !! seen
  }

  /** A missing-entries failure names required keys only, and at least one,
      none of them seen before the block was read; `BlockRuns.MissingBlockShape`
      says exactly which they are. */
  lemma {:induction false} MissingAreRequired(input: string, st: BlockState)
    ensures NamesMissing(FillFrom(input, st), st.seen)
    decreases |input|
  {
    match ReadLine(input)
    case None =>
    case Some((line, rest)) =>
      var step := StepLine(st, line);
      FillFromLine(input, st, line, rest);
      if step.Continue? {
        MissingAreRequired(rest, step.state);
      }
  }

  /** One turn of the block loop on the line read. */
  lemma FillFromLine(input: string, st: BlockState, line: string, rest: string)
    requires ReadLine(input) == Some((line, rest))
    ensures var step := StepLine(st, line);
      && (step.Stop? ==> FillFrom(input, st) == Err(step.error))
      && (step.Continue? ==> FillFrom(input, st) == FillFrom(rest, step.state))
      && (step.Finish? && RequiredKeys() - st.seen != {} ==>
            FillFrom(input, st) == Err(MissingEntries(RequiredKeys() - st.seen)))
      && (step.Finish? && RequiredKeys() - st.seen == {} ==>
            FillFrom(input, st) == Ok((st.stat.(vmFlags := step.flags), rest)))
  {
  }

  /** `fillMemStat` on a record whose header has been read. */
  function FillMemStat(input: string, header: MemStat): Result<(MemStat, string), FillError> {
    FillFrom(input, BlockState(header, {}))
  }

  /** Input that runs on after a successfully filled block does not change
      the block's result: the loop stops at the flags line. */
  lemma {:induction false} FillAppend(input: string, st: BlockState, more: string)
    requires FillFrom(input, st).Ok?
    ensures FillFrom(input + more, st) ==
      Ok((FillFrom(input, st).value.0, FillFrom(input, st).value.1 + more))
    decreases |input|
  {
    ReadLineAppend(input, more);
    var (line, rest) := ReadLine(input).value;
    assert ReadLine(input + more) == Some((line, rest + more));
    match StepLine(st, line)
    case Continue(next) =>
      FillAppend(rest, next, more);
    case Finish(flags) =>
    case Stop(e) =>
  }

  /** A newline-free tail after the input is never read as a line: the
      block's outcome is the same, with the tail left unread. */
  lemma {:induction false} FillFragment(input: string, st: BlockState, more: string)
    requires '\n' !in more
    ensures FillFrom(input + more, st) == WithTail(FillFrom(input, st), more)
    decreases |input|
  {
    ReadLineAppend(input, more);
    match ReadLine(input)
    case None =>
    case Some((line, rest)) =>
      assert ReadLine(input + more) == Some((line, rest + more));
      match StepLine(st, line)
      case Continue(next) =>
        FillFragment(rest, next, more);
      case Finish(flags) =>
      case Stop(e) =>
  }
}
