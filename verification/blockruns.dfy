/** Runs of entry lines, spelled in any way the entry pattern accepts, and
    what the block loop does with them: each is read and applied in turn, the
    last value of a key wins, and the flags line closes the block. */
module BlockRuns {
  import opened Types
  import opened Text
  import opened Numbers
  import opened MemStats
  import opened Block

  /** One entry line as it is spelled: the key, the blanks after its colon
      and the digits of its number. */
  datatype Line = Line(key: string, ws: string, digits: string)

  /** Keys that can head an entry line. */
  predicate IsKey(key: string) {
    |key| > 0 && AllIn(key, Word)
  }

  /** An entry line the loop goes on past: a word key, blanks that stay on
      the line, a decimal numeral (leading zeros allowed), which must fit in
      64 bits when the key is in the table; numbers of other keys are never
      parsed. */
  predicate Readable(e: Line) {
    && IsKey(e.key) && AllIn(e.ws, Space) && '\n' !in e.ws
    && IsNumeral(e.digits, 10)
    && (e.key in Entries ==> Value(e.digits, 10) < U64_LIMIT)
  }

  predicate AllReadable(es: seq<Line>) {
    forall i :: 0 <= i < |es| ==> Readable(es[i])
  }

  function EntryLine(e: Line): string {
    e.key + ":" + e.ws + e.digits + " kB\n"
  }

  function EntryText(es: seq<Line>): string {
    if |es| == 0 then "" else EntryLine(es[0]) + EntryText(es[1..])
  }

  /** What one readable entry line does to the state. */
  function ApplyEntry(st: BlockState, e: Line): BlockState
    requires Readable(e)
  {
    if e.key in Entries then Record(st, e.key, Value(e.digits, 10)) else st
  }

  /** An entry line changes the field of its key, to the value of its
      digits, and no other. */
  lemma ApplyEntryField(st: BlockState, e: Line, f: Field)
    requires Readable(e)
    ensures Get(ApplyEntry(st, e).stat, f) ==
      if e.key == KeyOf(f) then Value(e.digits, 10) else Get(st.stat, f)
  {
    FieldOfKey(e.key, f);
  }

  /** What a sequence of entry lines does to the state, line by line:
      table keys store their values, other keys are skipped. */
  function ApplyAll(st: BlockState, es: seq<Line>): BlockState
    requires AllReadable(es)
    decreases |es|
  {
    if |es| == 0 then st
    else ApplyAll(ApplyEntry(st, es[0]), es[1..])
  }

  /** The table keys among the entries. */
  function KnownKeys(es: seq<Line>): set<string> {
    set i | 0 <= i < |es| && es[i].key in Entries :: es[i].key
  }

  lemma EntryLineMatches(e: Line)
    requires Readable(e)
    ensures IsEntryLine(EntryLine(e), e.key, e.ws, e.digits)
  {
  }

  /** An entry line is read back whole, whatever follows it. */
  lemma ReadEntryLine(e: Line, tail: string)
    requires Readable(e)
    ensures ReadLine(EntryLine(e) + tail) == Some((EntryLine(e), tail))
  {
    var text := e.key + ":" + e.ws + e.digits + " kB";
    assert EntryLine(e) == text + "\n";
    NumeralHasNoSeparator(e.digits, 10);
    assert '\n' !in text by {
      assert forall i :: 0 <= i < |e.key| ==> InClass(e.key[i], Word);
    }
    ReadLineOfLine(text, tail);
  }

  lemma EntryTextCons(es: seq<Line>, tail: string)
    requires |es| > 0
    ensures EntryText(es) + tail == EntryLine(es[0]) + (EntryText(es[1..]) + tail)
  {
  }

  /** A line the block goes on past hands the rest of the input on. */
  lemma FillContinue(line: string, more: string, st: BlockState, next: BlockState)
    requires ReadLine(line + more) == Some((line, more))
    requires StepLine(st, line) == Continue(next)
    ensures FillFrom(line + more, st) == FillFrom(more, next)
  {
  }

  /** The loop goes on past a readable entry line, applying it. */
  lemma EntryStep(st: BlockState, e: Line)
    requires Readable(e)
    ensures StepLine(st, EntryLine(e)) == Continue(ApplyEntry(st, e))
  {
    EntryLineMatches(e);
    EntryLineStep(st, EntryLine(e), e.key, e.ws, e.digits);
  }

  /** The first entry line of a run is read and applied. */
  lemma FillFirstEntry(es: seq<Line>, tail: string, st: BlockState)
    requires AllReadable(es) && |es| > 0
    ensures FillFrom(EntryText(es) + tail, st) == FillFrom(EntryText(es[1..]) + tail, ApplyEntry(st, es[0]))
  {
    var e := es[0];
    var more := EntryText(es[1..]) + tail;
    EntryTextCons(es, tail);
    ReadEntryLine(e, more);
    EntryStep(st, e);
    FillContinue(EntryLine(e), more, st, ApplyEntry(st, e));
  }

  lemma ReadableTail(es: seq<Line>)
    requires AllReadable(es) && |es| > 0
    ensures Readable(es[0]) && AllReadable(es[1..])
  {
    assert forall i :: 0 <= i < |es| - 1 ==> es[1..][i] == es[i + 1];
  }

  /** Reading a run of entry lines is the same as applying them to the state:
      the loop goes on past each of them. */
  lemma {:induction false} FillEntries(es: seq<Line>, tail: string, st: BlockState)
    requires AllReadable(es)
    ensures FillFrom(EntryText(es) + tail, st) == FillFrom(tail, ApplyAll(st, es))
    decreases |es|
  {
    if |es| > 0 {
      ReadableTail(es);
      FillFirstEntry(es, tail, st);
      FillEntries(es[1..], tail, ApplyEntry(st, es[0]));
    } else {
      assert EntryText(es) + tail == tail;
    }
  }

  /** A block cut off by the end of the stream fails, however many entry
      lines it had: end of stream is only acceptable between records. */
  lemma TruncatedBlock(es: seq<Line>, fragment: string, st: BlockState)
    requires AllReadable(es)
    requires '\n' !in fragment
    ensures FillFrom(EntryText(es) + fragment, st) == Err(ReadFailed)
  {
    FillEntries(es, fragment, st);
  }

  /** The table keys of a run are those of its first entry and of the rest. */
  lemma KnownKeysCons(es: seq<Line>)
    requires |es| > 0
    ensures KnownKeys(es) == (if es[0].key in Entries then {es[0].key} else {}) + KnownKeys(es[1..])
  {
    forall k | k in KnownKeys(es) ensures k in (if es[0].key in Entries then {es[0].key} else {}) + KnownKeys(es[1..]) {
      var i :| 0 <= i < |es| && es[i].key in Entries && es[i].key == k;
      if i > 0 { assert es[1..][i - 1] == es[i]; }
    }
    forall k | k in KnownKeys(es[1..]) ensures k in KnownKeys(es) {
      var i :| 0 <= i < |es[1..]| && es[1..][i].key in Entries && es[1..][i].key == k;
      assert es[i + 1] == es[1..][i];
    }
  }

  /** Applying entries keeps the identity fields, and marks exactly the
      table keys among them as seen. */
  lemma {:induction false} ApplyAllSeen(st: BlockState, es: seq<Line>)
    requires AllReadable(es)
    ensures SameIdentity(ApplyAll(st, es).stat, st.stat)
    ensures ApplyAll(st, es).seen == st.seen + KnownKeys(es)
    decreases |es|
  {
    if |es| > 0 {
      ReadableTail(es);
      ApplyAllSeen(ApplyEntry(st, es[0]), es[1..]);
      KnownKeysCons(es);
    }
  }

  /** Line `i` is the last one carrying `key`. */
  predicate IsLastWith(es: seq<Line>, i: nat, key: string)
    requires i < |es|
  {
    es[i].key == key && forall j :: i < j < |es| ==> es[j].key != key
  }

  /** A field that no entry line names keeps its previous value. */
  lemma {:induction false} Untouched(st: BlockState, es: seq<Line>, f: Field)
    requires AllReadable(es)
    requires forall i :: 0 <= i < |es| ==> es[i].key != KeyOf(f)
    ensures Get(ApplyAll(st, es).stat, f) == Get(st.stat, f)
    decreases |es|
  {
    if |es| > 0 {
      ReadableTail(es);
      ApplyEntryField(st, es[0], f);
      assert forall j :: 0 <= j < |es[1..]| ==> es[1..][j] == es[j + 1];
      Untouched(ApplyEntry(st, es[0]), es[1..], f);
    }
  }

  /** Order does not matter and a repeated key keeps its last value: a field
      holds the value of the last entry line carrying its key. */
  lemma {:induction false} LastValueWins(st: BlockState, es: seq<Line>, f: Field, i: nat)
    requires AllReadable(es)
    requires i < |es| && IsLastWith(es, i, KeyOf(f))
    ensures Get(ApplyAll(st, es).stat, f) == Value(es[i].digits, 10)
    decreases |es|
  {
    ReadableTail(es);
    if i == 0 {
      FirstIsLast(st, es, f);
    } else {
      LaterIsLast(es, i, KeyOf(f));
      LastValueWins(ApplyEntry(st, es[0]), es[1..], f, i - 1);
    }
  }

  lemma FirstIsLast(st: BlockState, es: seq<Line>, f: Field)
    requires AllReadable(es) && |es| > 0 && IsLastWith(es, 0, KeyOf(f))
    ensures Get(ApplyAll(st, es).stat, f) == Value(es[0].digits, 10)
  {
    ReadableTail(es);
    ApplyEntryField(st, es[0], f);
    assert forall j :: 0 <= j < |es[1..]| ==> es[1..][j] == es[j + 1];
    Untouched(ApplyEntry(st, es[0]), es[1..], f);
  }

  lemma LaterIsLast(es: seq<Line>, i: nat, key: string)
    requires 0 < i < |es| && IsLastWith(es, i, key)
    ensures IsLastWith(es[1..], i - 1, key) && es[1..][i - 1] == es[i]
  {
    assert forall j :: 0 <= j < |es[1..]| ==> es[1..][j] == es[j + 1];
  }

  /** The flags line ends the block: the record is complete when every
      required key has been seen, and then carries the decoded flags. */
  lemma FillFlagsLine(flagsText: string, rest: string, st: BlockState)
    requires '\n' !in flagsText && FlagsTag + " " <= flagsText
    requires MatchEntry(flagsText + "\n").None?
    ensures ParseVmFlags(flagsText + "\n").Some?
    ensures var missing := RequiredKeys() - st.seen;
      FillFrom(flagsText + "\n" + rest, st) ==
        if missing != {} then Err(MissingEntries(missing))
        else Ok((st.stat.(vmFlags := ParseVmFlags(flagsText + "\n").value), rest))
  {
    var line := flagsText + "\n";
    ReadLineOfLine(flagsText, rest);
    PrefixOfConcat(FlagsTag + " ", flagsText, "\n");
    assert line[..|FlagsTag|] == (FlagsTag + " ")[..|FlagsTag|];
    assert FlagsTag <= line;
  }

  /** A whole block: entry lines, then a well-formed flags line. It succeeds
      exactly when every required key is among the entry lines, and then
      yields the applied record with the decoded flags; otherwise it fails
      naming the required keys that were missing. */
  lemma BlockOutcome(es: seq<Line>, flagsText: string, rest: string, header: MemStat)
    requires AllReadable(es)
    requires '\n' !in flagsText && FlagsTag + " " <= flagsText
    requires MatchEntry(flagsText + "\n").None?
    ensures var r := FillMemStat(EntryText(es) + flagsText + "\n" + rest, header);
      var missing := RequiredKeys() - KnownKeys(es);
      r == if missing != {} then Err(MissingEntries(missing))
        else Ok((ApplyAll(BlockState(header, {}), es).stat.(vmFlags := ParseVmFlags(flagsText + "\n").value), rest))
  {
    EntriesThen(es, flagsText, rest, header);
    FillFlagsLine(flagsText, rest, ApplyAll(BlockState(header, {}), es));
  }

  /** The entry lines of a block are applied before the flags line is
      read, and they mark exactly the table keys among them. */
  lemma EntriesThen(es: seq<Line>, flagsText: string, rest: string, header: MemStat)
    requires AllReadable(es)
    ensures var filled := ApplyAll(BlockState(header, {}), es);
      && FillMemStat(EntryText(es) + flagsText + "\n" + rest, header) == FillFrom(flagsText + "\n" + rest, filled)
      && filled.seen == KnownKeys(es)
  {
    var st := BlockState(header, {});
    assert EntryText(es) + flagsText + "\n" + rest == EntryText(es) + (flagsText + "\n" + rest);
    FillEntries(es, flagsText + "\n" + rest, st);
    ApplyAllSeen(st, es);
  }

  /** The blanks of a line read by the loop hold no newline. */
  lemma BlanksOnLine(line: string, key: string, ws: string, digits: string)
    requires line == key + ":" + ws + digits + " kB\n"
    requires '\n' !in line[..|line| - 1]
    ensures '\n' !in ws
  {
    forall i | 0 <= i < |ws| ensures ws[i] != '\n' {
      assert ws[i] == line[..|line| - 1][|key| + 1 + i];
    }
  }

  /** A line the loop goes on past is a readable entry line, and the step
      applies it. */
  lemma ContinueIsEntry(st: BlockState, line: string) returns (e: Line)
    requires StepLine(st, line).Continue?
    requires |line| > 0 && '\n' !in line[..|line| - 1]
    ensures Readable(e) && EntryLine(e) == line
    ensures StepLine(st, line).state == ApplyEntry(st, e)
  {
    var (key, digits) := MatchEntry(line).value;
    var ws := MatchEntrySound(line, key, digits);
    BlanksOnLine(line, key, ws, digits);
    e := Line(key, ws, digits);
    assert IsNumeral(digits, 10);
    EntryLineStep(st, line, key, ws, digits);
  }

  /** One entry line in front of a run: the run is still readable, its
      text and its effect are the line's, then the rest's, and the keys it
      leaves out are those the line and the rest both leave out. */
  lemma EntriesCons(e: Line, es: seq<Line>, st: BlockState, keys: set<string>)
    requires Readable(e) && AllReadable(es)
    requires keys == RequiredKeys() - (ApplyEntry(st, e).seen + KnownKeys(es))
    ensures AllReadable([e] + es)
    ensures EntryText([e] + es) == EntryLine(e) + EntryText(es)
    ensures ApplyAll(st, [e] + es) == ApplyAll(ApplyEntry(st, e), es)
    ensures keys == RequiredKeys() - (st.seen + KnownKeys([e] + es))
  {
    assert ([e] + es)[1..] == es;
    KnownKeysCons([e] + es);
  }

  /** `input` is the entry lines `es`, all readable, then a flags line
      `flagsText` that closes the block they leave behind, then `rest`; and
      `keys` are the required keys that neither `st` had seen nor any of the
      entry lines carried. */
  predicate ClosedBlock(input: string, st: BlockState, es: seq<Line>, flagsText: string, rest: string, keys: set<string>) {
    && AllReadable(es)
    && '\n' !in flagsText && StepLine(ApplyAll(st, es), flagsText + "\n").Finish?
    && input == EntryText(es) + (flagsText + "\n" + rest)
    && keys == RequiredKeys() - (st.seen + KnownKeys(es))
  }

  /** A missing-entries failure only comes from a run of readable entry
      lines closed by a flags line, and names exactly the required keys that
      neither the state had seen nor any of those lines carried. */
  lemma {:induction false} MissingBlockShape(input: string, st: BlockState, keys: set<string>)
    returns (es: seq<Line>, flagsText: string, rest: string)
    requires FillFrom(input, st) == Err(MissingEntries(keys))
    ensures ClosedBlock(input, st, es, flagsText, rest, keys)
    decreases |input|
  {
    var (line, after) := ReadLine(input).value;
    FillFromLine(input, st, line, after);
    var step := StepLine(st, line);
    if step.Finish? {
      flagsText := FlagsCloseBlock(input, st, line, after, keys);
      es, rest := [], after;
    } else {
      var e := ContinueIsEntry(st, line);
      var es', ft, r := MissingBlockShape(after, step.state, keys);
      es := EntryThenBlock(input, st, e, after, es', ft, r, keys);
      flagsText, rest := ft, r;
    }
  }

  /** A flags line read where required keys are missing closes an empty
      run. */
  lemma FlagsCloseBlock(input: string, st: BlockState, line: string, after: string, keys: set<string>)
    returns (flagsText: string)
    requires ReadLine(input) == Some((line, after))
    requires StepLine(st, line).Finish?
    requires keys == RequiredKeys() - st.seen
    ensures ClosedBlock(input, st, [], flagsText, after, keys)
  {
    flagsText := line[..|line| - 1];
    LineAndNewline(line);
    assert ApplyAll(st, []) == st;
    assert EntryText([]) + (flagsText + "\n" + after) == input;
    assert KnownKeys([]) == {};
  }

  lemma LineAndNewline(line: string)
    requires |line| > 0 && line[|line| - 1] == '\n'
    ensures line == line[..|line| - 1] + "\n"
  {
  }

  /** An entry line in front of a block that fails for missing keys. */
  lemma EntryThenBlock(input: string, st: BlockState, e: Line, after: string,
                       es': seq<Line>, ft: string, r: string, keys: set<string>)
    returns (es: seq<Line>)
    requires Readable(e) && input == EntryLine(e) + after
    requires ClosedBlock(after, ApplyEntry(st, e), es', ft, r, keys)
    ensures ClosedBlock(input, st, es, ft, r, keys)
    ensures ApplyAll(st, es) == ApplyAll(ApplyEntry(st, e), es')
  {
    EntriesCons(e, es', st, keys);
    ConcatAssoc(EntryLine(e), EntryText(es'), ft + "\n" + r);
    es := [e] + es';
  }

  /** `input` is a closed block of entry lines `es` with nothing missing,
      and `r` is its success: the run applied to `st`, with the flags the
      closing line decodes, and the input after that line. */
  predicate OkBlock(input: string, st: BlockState, es: seq<Line>, flagsText: string, rest: string,
                    r: Result<(MemStat, string), FillError>) {
    && ClosedBlock(input, st, es, flagsText, rest, {})
    && r == Ok((ApplyAll(st, es).stat.(vmFlags := StepLine(ApplyAll(st, es), flagsText + "\n").flags), rest))
  }

  /** A block succeeds only when it is a run of readable entry lines closed
      by a flags line, with every required key seen before the flags line;
      the record is then the run applied to the state, with the decoded
      flags, and the input after the flags line is left unread. */
  lemma {:induction false} OkBlockShape(input: string, st: BlockState)
    returns (es: seq<Line>, flagsText: string, rest: string)
    requires FillFrom(input, st).Ok?
    ensures OkBlock(input, st, es, flagsText, rest, FillFrom(input, st))
    ensures RequiredKeys() <= st.seen + KnownKeys(es)
    decreases |input|
  {
    var (line, after) := ReadLine(input).value;
    FillFromLine(input, st, line, after);
    var step := StepLine(st, line);
    if step.Finish? {
      flagsText := FlagsCloseOk(input, st, line, after, FillFrom(input, st));
      es, rest := [], after;
    } else {
      var e := ContinueIsEntry(st, line);
      var es', ft, r := OkBlockShape(after, step.state);
      es := EntryThenOk(input, st, e, after, es', ft, r, FillFrom(input, st));
      flagsText, rest := ft, r;
    }
    NoneLeft(RequiredKeys(), st.seen + KnownKeys(es));
  }

  lemma NoneLeft(want: set<string>, have: set<string>)
    requires {} == want - have
    ensures want <= have
  {
    forall k | k in want ensures k in have {
      assert k !in want - have;
    }
  }

  /** A flags line read with nothing missing closes an empty run, and the
      block yields the state's record with the decoded flags. */
  lemma FlagsCloseOk(input: string, st: BlockState, line: string, after: string,
                     res: Result<(MemStat, string), FillError>)
    returns (flagsText: string)
    requires ReadLine(input) == Some((line, after))
    requires StepLine(st, line).Finish? && RequiredKeys() - st.seen == {}
    requires res == Ok((st.stat.(vmFlags := StepLine(st, line).flags), after))
    ensures OkBlock(input, st, [], flagsText, after, res)
  {
    flagsText := FlagsCloseBlock(input, st, line, after, {});
    EmptyRunResult(st, line, flagsText, after, res);
  }

  lemma EmptyRunResult(st: BlockState, line: string, flagsText: string, after: string,
                       res: Result<(MemStat, string), FillError>)
    requires StepLine(st, line).Finish? && line == flagsText + "\n"
    requires res == Ok((st.stat.(vmFlags := StepLine(st, line).flags), after))
    ensures StepLine(ApplyAll(st, []), flagsText + "\n").Finish?
    ensures res == Ok((ApplyAll(st, []).stat.(vmFlags := StepLine(ApplyAll(st, []), flagsText + "\n").flags), after))
  {
    assert ApplyAll(st, []) == st;
  }

  /** An entry line in front of a block that succeeds. */
  lemma EntryThenOk(input: string, st: BlockState, e: Line, after: string,
                    es': seq<Line>, ft: string, r: string, res: Result<(MemStat, string), FillError>)
    returns (es: seq<Line>)
    requires Readable(e) && input == EntryLine(e) + after
    requires OkBlock(after, ApplyEntry(st, e), es', ft, r, res)
    ensures OkBlock(input, st, es, ft, r, res)
  {
    es := EntryThenBlock(input, st, e, after, es', ft, r, {});
  }
}
