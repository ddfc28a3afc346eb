/** A printer of smaps text for records, whose output the parser reads back
    in the round-trip lemmas: the header line with unpadded hex numbers, each
    entry line with any blank run after its colon, and the flags line each
    flag followed by a space. Reading back the text of well-formed records
    gives the records. */
module Render {
  import opened Types
  import opened Text
  import opened Numbers
  import opened MemStats
  import opened Header
  import opened Block
  import opened BlockRuns
  import opened Smaps

  /** The header fields of a record with everything else blank. */
  function HeaderOf(ms: MemStat): (h: MemStat)
    ensures SameIdentity(h, ms.(vmFlags := {}))
    ensures forall f :: Get(h, f) == 0
  {
    Blank.(vmStart := ms.vmStart, vmEnd := ms.vmEnd,
           read := ms.read, write := ms.write, exec := ms.exec, mayShare := ms.mayShare,
           pageOffset := ms.pageOffset, majorDev := ms.majorDev, minorDev := ms.minorDev,
           inode := ms.inode, fileName := ms.fileName)
  }

  function Perm(ms: MemStat): Perms {
    Perms(ms.read, ms.write, ms.exec, ms.mayShare)
  }

  /** `start-end` in hex. */
  function RangeText(ms: MemStat): string {
    Format(ms.vmStart, 16) + "-" + Format(ms.vmEnd, 16)
  }

  /** `maj:min` as `%02x:%02x`. */
  function DeviceText(ms: MemStat): string {
    Hex2(ms.majorDev) + ":" + Hex2(ms.minorDev)
  }

  /** The header's space-separated parts: the five fixed fields, `pad` empty
      parts for the column padding before the pathname, and the pathname
      (empty for an anonymous mapping). */
  function HeaderParts(ms: MemStat, pad: nat): seq<string> {
    [RangeText(ms), PermText(Perm(ms)), Format(ms.pageOffset, 16), DeviceText(ms), Format(ms.inode, 10)]
      + seq(pad, _ => "") + [ms.fileName]
  }

  function HeaderText(ms: MemStat, pad: nat): string {
    Join(HeaderParts(ms, pad), ' ')
  }

  lemma RangeSplits(ms: MemStat)
    ensures Split(RangeText(ms), '-') == [Format(ms.vmStart, 16), Format(ms.vmEnd, 16)]
    ensures ' ' !in RangeText(ms)
  {
    var a := Format(ms.vmStart, 16);
    var b := Format(ms.vmEnd, 16);
    FormatValue(ms.vmStart, 16);
    FormatValue(ms.vmEnd, 16);
    NumeralHasNoSeparator(a, 16);
    NumeralHasNoSeparator(b, 16);
    assert Join([a, b], '-') == RangeText(ms) by {
      assert [a, b][1..] == [b];
    }
    SplitJoin([a, b], '-');
  }

  lemma HeaderPartsSplit(ms: MemStat, pad: nat)
    requires ' ' !in ms.fileName
    ensures Parts(HeaderText(ms, pad)) == HeaderParts(ms, pad)
  {
    var parts := HeaderParts(ms, pad);
    RangeSplits(ms);
    FormatValue(ms.pageOffset, 16);
    FormatValue(ms.inode, 10);
    NumeralHasNoSeparator(Format(ms.pageOffset, 16), 16);
    NumeralHasNoSeparator(Format(ms.inode, 10), 10);
    NumeralHasNoSeparator(Hex2(ms.majorDev), 16);
    NumeralHasNoSeparator(Hex2(ms.minorDev), 16);
    assert forall i :: 5 <= i < |parts| - 1 ==> parts[i] == "";
    assert forall i :: 0 <= i < |parts| ==> ' ' !in parts[i];
    SplitJoin(parts, ' ');
  }

  /** The header text of a record is in the accepted form, split where the
      printer joined it. */
  lemma HeaderTextWellFormed(ms: MemStat, pad: nat)
    requires ' ' !in ms.fileName
    ensures Parts(HeaderText(ms, pad)) == HeaderParts(ms, pad)
    ensures Range(HeaderText(ms, pad)) == [Format(ms.vmStart, 16), Format(ms.vmEnd, 16)]
    ensures HeaderWellFormed(HeaderText(ms, pad))
  {
    HeaderPartsSplit(ms, pad);
    RangeSplits(ms);
    FormatValue(ms.vmStart, 16);
    FormatValue(ms.vmEnd, 16);
    FormatValue(ms.pageOffset, 16);
    FormatValue(ms.inode, 10);
    PermissionsRoundTrip(Perm(ms), PermText(Perm(ms)));
    DeviceRoundTrip(ms.majorDev, ms.minorDev, "");
    assert DeviceText(ms) + "" == DeviceText(ms);
  }

  /** The parser reads back every header field from the header text, for any
      padding before the pathname, provided the pathname has no space. */
  lemma HeaderRoundTrip(ms: MemStat, pad: nat)
    requires ' ' !in ms.fileName
    ensures ParseHeaderLine(HeaderText(ms, pad)) == Ok(HeaderOf(ms))
  {
    var text := HeaderText(ms, pad);
    HeaderTextWellFormed(ms, pad);
    FormatValue(ms.vmStart, 16);
    FormatValue(ms.vmEnd, 16);
    FormatValue(ms.pageOffset, 16);
    FormatValue(ms.inode, 10);
    DeviceRoundTrip(ms.majorDev, ms.minorDev, "");
    assert DeviceText(ms) + "" == DeviceText(ms);
    var h := ParseHeaderLine(text).value;
    assert PathName(HeaderParts(ms, pad)) == ms.fileName;
    Extensionality(h, HeaderOf(ms));
  }

  /** The order in which the kernel prints the accounting keys. */
  const KernelOrder: seq<Field> := [
    Size, KernelPageSize, MMUPageSize, Rss, Pss, SharedClean, SharedDirty,
    PrivateClean, PrivateDirty, Referenced, Anonymous, AnonymousTHP, Swap,
    Locked, Nonlinear]

  /** Where a field's line comes in the kernel order. */
  function Position(f: Field): (i: nat)
    ensures i < |KernelOrder| && KernelOrder[i] == f
  {
    match f
    case Size => 0
    case KernelPageSize => 1
    case MMUPageSize => 2
    case Rss => 3
    case Pss => 4
    case SharedClean => 5
    case SharedDirty => 6
    case PrivateClean => 7
    case PrivateDirty => 8
    case Referenced => 9
    case Anonymous => 10
    case AnonymousTHP => 11
    case Swap => 12
    case Locked => 13
    case Nonlinear => 14
  }

  /** Every field is printed once: the field at a position is there and
      nowhere else. */
  lemma PositionOf(j: nat)
    requires j < |KernelOrder|
    ensures Position(KernelOrder[j]) == j
  {
  }

  /** The blank run after each field's colon, as the kernel pads its
      columns: blanks of the `[[:space:]]` class that keep each line a single
      line. */
  predicate Blanks(blank: Field -> string) {
    forall f :: AllIn(blank(f), Space) && '\n' !in blank(f)
  }

  /** The entry line of every field, in kernel order: its key, its blank
      run and its value in decimal. */
  function EntryLines(ms: MemStat, blank: Field -> string): (es: seq<Line>)
    ensures |es| == |KernelOrder|
    ensures forall i :: 0 <= i < |es| ==>
      es[i] == Line(KeyOf(KernelOrder[i]), blank(KernelOrder[i]), Format(Get(ms, KernelOrder[i]), 10))
  {
    seq(|KernelOrder|, i requires 0 <= i < |KernelOrder| =>
      Line(KeyOf(KernelOrder[i]), blank(KernelOrder[i]), Format(Get(ms, KernelOrder[i]), 10)))
  }

  /** Every table key is made of word characters. */
  lemma KeysAreWords(f: Field)
    ensures IsKey(KeyOf(f))
  {
    if f in {Size, Rss, Pss, Swap, Locked} {
      ShortKeysAreWords(f);
    } else if f in {SharedClean, SharedDirty, PrivateClean, PrivateDirty, Nonlinear} {
      SplitKeysAreWords(f);
    } else {
      LongKeysAreWords(f);
    }
  }

  lemma ShortKeysAreWords(f: Field)
    requires f in {Size, Rss, Pss, Swap, Locked}
    ensures IsKey(KeyOf(f))
  {
  }

  lemma SplitKeysAreWords(f: Field)
    requires f in {SharedClean, SharedDirty, PrivateClean, PrivateDirty, Nonlinear}
    ensures IsKey(KeyOf(f))
  {
  }

  lemma LongKeysAreWords(f: Field)
    requires f in {Referenced, Anonymous, AnonymousTHP, KernelPageSize, MMUPageSize}
    ensures IsKey(KeyOf(f))
  {
  }

  /** The entry lines of a record mark every table key. */
  lemma LinesKnowAll(ms: MemStat, blank: Field -> string)
    ensures RequiredKeys() - KnownKeys(EntryLines(ms, blank)) == {}
  {
    var es := EntryLines(ms, blank);
    forall k | k in RequiredKeys() ensures k in KnownKeys(es) {
      var f := Entries[k].field;
      FieldOfKey(k, f);
      assert es[Position(f)].key == k;
    }
  }

  /** Applying the entry lines of a record to its header restores every
      accounting field. */
  lemma LinesRestore(ms: MemStat, blank: Field -> string, f: Field)
    requires Blanks(blank)
    ensures AllReadable(EntryLines(ms, blank))
    ensures Get(ApplyAll(BlockState(HeaderOf(ms), {}), EntryLines(ms, blank)).stat, f) == Get(ms, f)
  {
    var es := EntryLines(ms, blank);
    var i := Position(f);
    LinesReadable(ms, blank);
    FormatValue(Get(ms, f), 10);
    forall j | i < j < |es| ensures es[j].key != KeyOf(f) {
      PositionOf(j);
      FieldOfKey(KeyOf(f), KernelOrder[j]);
    }
    assert IsLastWith(es, i, KeyOf(f));
    LastValueWins(BlockState(HeaderOf(ms), {}), es, f, i);
  }

  /** The flags line: the tag, each flag followed by one space, as the kernel
      prints it (so the line ends in " \n"). */
  function FlagsText(flags: seq<string>): string {
    Join([FlagsTag] + flags, ' ') + " "
  }

  /** Flags that can be printed and read back: no space, no newline. */
  predicate Printable(flags: seq<string>) {
    forall i :: 0 <= i < |flags| ==> ' ' !in flags[i] && '\n' !in flags[i]
  }

  /** The flags line with its newline is the tokens, then a last token that
      is the newline itself. */
  lemma FlagsLineJoin(flags: seq<string>)
    ensures FlagsText(flags) + "\n" == Join([FlagsTag] + (flags + ["\n"]), ' ')
  {
    var parts := [FlagsTag] + flags;
    JoinSnoc(parts, "\n", ' ');
    assert parts + ["\n"] == [FlagsTag] + (flags + ["\n"]);
  }

  /** The decoder reads the printed flags back, plus the newline token the
      Go code leaves in the set. */
  lemma FlagsLineRead(flags: seq<string>)
    requires Printable(flags)
    ensures ParseVmFlags(FlagsText(flags) + "\n") == Some(Elements(flags) + {"\n"})
  {
    FlagsLineJoin(flags);
    var tokens := flags + ["\n"];
    assert forall i :: 0 <= i < |flags| ==> tokens[i] == flags[i];
    assert tokens[|flags|] == "\n";
    FlagsRoundTrip(tokens);
    assert Elements(tokens) == Elements(flags) + {"\n"};
  }

  /** The flags line is one line, opens with the tag and a space, and is not
      taken for an entry line. */
  lemma FlagsLineShape(flags: seq<string>)
    requires Printable(flags)
    ensures '\n' !in FlagsText(flags)
    ensures FlagsTag + " " <= FlagsText(flags)
    ensures MatchEntry(FlagsText(flags) + "\n").None?
  {
    var parts := [FlagsTag] + flags;
    var text := FlagsText(flags);
    var line := text + "\n";
    FlagsTagShape();
    assert forall i :: 1 <= i < |parts| ==> parts[i] == flags[i - 1];
    JoinAvoids(parts, ' ', '\n');
    FlagsLineRead(flags);
    assert |line| > |FlagsTag| + 1;
    assert line[..|FlagsTag| + 1] == text[..|FlagsTag| + 1];
    EntryLineEnd(line);
    assert line[|line| - 2] == ' ';
  }

  /** The header text is a single line when the pathname is. */
  lemma HeaderOneLine(ms: MemStat, pad: nat)
    requires '\n' !in ms.fileName
    ensures '\n' !in HeaderText(ms, pad)
  {
    var parts := HeaderParts(ms, pad);
    FormatValue(ms.vmStart, 16);
    FormatValue(ms.vmEnd, 16);
    FormatValue(ms.pageOffset, 16);
    FormatValue(ms.inode, 10);
    NumeralHasNoSeparator(Format(ms.vmStart, 16), 16);
    NumeralHasNoSeparator(Format(ms.vmEnd, 16), 16);
    NumeralHasNoSeparator(Format(ms.pageOffset, 16), 16);
    NumeralHasNoSeparator(Format(ms.inode, 10), 10);
    NumeralHasNoSeparator(Hex2(ms.majorDev), 16);
    NumeralHasNoSeparator(Hex2(ms.minorDev), 16);
    assert forall i :: 5 <= i < |parts| - 1 ==> parts[i] == "";
    JoinAvoids(parts, ' ', '\n');
  }

  /** How a record is printed: the padding before the pathname, the blank
      run after each entry key's colon, and the flags in printing order. */
  datatype Layout = Layout(pad: nat, blank: Field -> string, flags: seq<string>)

  /** A record can be printed in a layout and read back: its pathname and
      flags are space- and newline-free, and its flag set is the printed flags
      plus the newline token the decoder keeps. */
  predicate Fits(ms: MemStat, lay: Layout) {
    && ' ' !in ms.fileName && '\n' !in ms.fileName
    && Blanks(lay.blank)
    && Printable(lay.flags)
    && ms.vmFlags == Elements(lay.flags) + {"\n"}
  }

  /** The smaps text of one mapping: header line, one entry line per field
      in kernel order, flags line. */
  function RenderRecord(ms: MemStat, lay: Layout): string {
    HeaderText(ms, lay.pad) + "\n" + EntryText(EntryLines(ms, lay.blank)) + FlagsText(lay.flags) + "\n"
  }

  /** The header line of a printed record reads back as the header fields. */
  lemma RecordHeaderRead(ms: MemStat, lay: Layout, rest: string)
    requires Fits(ms, lay)
    ensures FillMemStatVM(RenderRecord(ms, lay) + rest) ==
      Ok((HeaderOf(ms), EntryText(EntryLines(ms, lay.blank)) + FlagsText(lay.flags) + "\n" + rest))
  {
    var h := HeaderText(ms, lay.pad);
    var block := EntryText(EntryLines(ms, lay.blank)) + FlagsText(lay.flags) + "\n" + rest;
    assert RenderRecord(ms, lay) + rest == h + "\n" + block;
    HeaderOneLine(ms, lay.pad);
    ReadLineOfLine(h, block);
    assert (h + "\n")[..|h|] == h;
    FillMemStatVMOfLine(h + "\n" + block, h + "\n", block);
    HeaderRoundTrip(ms, lay.pad);
  }

  /** Every entry line of a record is read by the loop: a word key, blanks
      on the line, and a decimal numeral of a 64-bit value. */
  lemma LinesReadable(ms: MemStat, blank: Field -> string)
    requires Blanks(blank)
    ensures AllReadable(EntryLines(ms, blank))
  {
    var es := EntryLines(ms, blank);
    forall i | 0 <= i < |es| ensures Readable(es[i]) {
      KeysAreWords(KernelOrder[i]);
      FormatValue(Get(ms, KernelOrder[i]), 10);
    }
  }

  /** The entry lines applied to the header give the record back, all but
      its flags. */
  lemma LinesRebuild(ms: MemStat, blank: Field -> string)
    requires Blanks(blank)
    ensures AllReadable(EntryLines(ms, blank))
    ensures ApplyAll(BlockState(HeaderOf(ms), {}), EntryLines(ms, blank)).stat.(vmFlags := ms.vmFlags) == ms
  {
    var st := BlockState(HeaderOf(ms), {});
    LinesReadable(ms, blank);
    var filled := ApplyAll(st, EntryLines(ms, blank)).stat;
    ApplyAllSeen(st, EntryLines(ms, blank));
    forall f ensures Get(filled, f) == Get(ms, f) {
      LinesRestore(ms, blank, f);
    }
    RestoreFlags(filled, ms);
  }

  /** A record with the header and accounting fields of `ms` is `ms` once
      it carries the flags of `ms`. */
  lemma RestoreFlags(filled: MemStat, ms: MemStat)
    requires SameIdentity(filled, HeaderOf(ms))
    requires forall f :: Get(filled, f) == Get(ms, f)
    ensures filled.(vmFlags := ms.vmFlags) == ms
  {
    var got := filled.(vmFlags := ms.vmFlags);
    assert forall f :: Get(got, f) == Get(filled, f);
    Extensionality(got, ms);
  }

  /** The field block of a printed record restores the whole record. */
  lemma RecordBlockRead(ms: MemStat, lay: Layout, rest: string)
    requires Fits(ms, lay)
    ensures FillMemStat(EntryText(EntryLines(ms, lay.blank)) + FlagsText(lay.flags) + "\n" + rest, HeaderOf(ms)) == Ok((ms, rest))
  {
    LinesReadable(ms, lay.blank);
    FlagsLineShape(lay.flags);
    FlagsLineRead(lay.flags);
    LinesKnowAll(ms, lay.blank);
    BlockOutcome(EntryLines(ms, lay.blank), FlagsText(lay.flags), rest, HeaderOf(ms));
    LinesRebuild(ms, lay.blank);
  }

  /** A printed record is parsed back to itself, and parsing stops right
      after it. */
  lemma RecordRoundTrip(ms: MemStat, lay: Layout, rest: string)
    requires Fits(ms, lay)
    ensures ParseMemStat(RenderRecord(ms, lay) + rest) == Ok((ms, rest))
  {
    RecordHeaderRead(ms, lay, rest);
    RecordBlockRead(ms, lay, rest);
  }

  /** The smaps text of a sequence of mappings, each in its own layout. */
  function RenderAll(rs: seq<MemStat>, lays: seq<Layout>): string
    requires |rs| == |lays|
  {
    if |rs| == 0 then "" else RenderRecord(rs[0], lays[0]) + RenderAll(rs[1..], lays[1..])
  }

  predicate AllFit(rs: seq<MemStat>, lays: seq<Layout>) {
    |rs| == |lays| && forall i :: 0 <= i < |rs| ==> Fits(rs[i], lays[i])
  }

  /** One printed record is read and put in front of what follows. */
  lemma RecordThen(ms: MemStat, lay: Layout, tail: string)
    requires Fits(ms, lay)
    ensures ParseRecords(RenderRecord(ms, lay) + tail) == Prepend([ms], ParseRecords(tail))
  {
    RecordRoundTrip(ms, lay, tail);
    ParseRecordsStep(RenderRecord(ms, lay) + tail);
  }

  /** Printed records are read back one by one, in order, in front of
      whatever the text after them parses to. */
  lemma {:induction false} RecordsThen(rs: seq<MemStat>, lays: seq<Layout>, after: string)
    requires AllFit(rs, lays)
    ensures ParseRecords(RenderAll(rs, lays) + after) == Prepend(rs, ParseRecords(after))
    decreases |rs|
  {
    if |rs| == 0 {
      assert RenderAll(rs, lays) + after == after;
      PrependNothing(ParseRecords(after));
    } else {
      RenderAllCons(rs, lays, after);
      AllFitTail(rs, lays);
      RecordThen(rs[0], lays[0], RenderAll(rs[1..], lays[1..]) + after);
      RecordsThen(rs[1..], lays[1..], after);
      PrependCons(rs, ParseRecords(after));
    }
  }

  /** The text of several records is the first record's text, then the
      rest. */
  lemma RenderAllCons(rs: seq<MemStat>, lays: seq<Layout>, after: string)
    requires |rs| == |lays| && |rs| > 0
    ensures RenderAll(rs, lays) + after == RenderRecord(rs[0], lays[0]) + (RenderAll(rs[1..], lays[1..]) + after)
  {
    ConcatAssoc(RenderRecord(rs[0], lays[0]), RenderAll(rs[1..], lays[1..]), after);
  }

  lemma AllFitTail(rs: seq<MemStat>, lays: seq<Layout>)
    requires AllFit(rs, lays) && |rs| > 0
    ensures Fits(rs[0], lays[0]) && AllFit(rs[1..], lays[1..])
  {
    assert forall i :: 0 <= i < |rs| - 1 ==> rs[1..][i] == rs[i + 1] && lays[1..][i] == lays[i + 1];
  }

  lemma PrependCons(rs: seq<MemStat>, r: Result<seq<MemStat>, Error>)
    requires |rs| > 0
    ensures Prepend([rs[0]], Prepend(rs[1..], r)) == Prepend(rs, r)
  {
    PrependTwice([rs[0]], rs[1..], r);
    assert [rs[0]] + rs[1..] == rs;
  }

  /** Parsing is the inverse of printing: the text of any records that fit
      their layouts, followed by an incomplete last line, parses to exactly
      those records. */
  lemma RecordsRoundTrip(rs: seq<MemStat>, lays: seq<Layout>, fragment: string)
    requires AllFit(rs, lays) && '\n' !in fragment
    ensures ParseRecords(RenderAll(rs, lays) + fragment) == Ok(rs)
  {
    RecordsThen(rs, lays, fragment);
    assert ParseRecords(fragment) == Ok([]);
    assert rs + [] == rs;
  }

  /** A mapping that fails to parse after any number of good ones makes the
      whole parse fail with its error: the records already read are
      discarded, not returned. */
  lemma FailureDiscardsAll(rs: seq<MemStat>, lays: seq<Layout>, bad: string)
    requires AllFit(rs, lays)
    requires ParseMemStat(bad).Err? && ParseMemStat(bad).error != EndOfStream
    ensures ParseRecords(RenderAll(rs, lays) + bad) == Err(ParseMemStat(bad).error)
  {
    RecordsThen(rs, lays, bad);
    ParseRecordsStop(bad);
  }
}
