# smaps parser model

A Dafny model of the `/proc/[pid]/smaps` reader in `proc_smaps.go`. The
model covers:

- **The record loop.** `NewSmaps` calls `parseMemStat` until the header read
  hits end of stream.
- **The header line** (`fillMemStatVM`). It holds the address range,
  permissions, page offset, device, inode and pathname.
- **The field block** (`fillMemStat` with the `mkEntryMap` table and the
  `eRE` entry-line pattern). It ends at the `VmFlags:` line.
- **The flags decoder** (`parseVmFlags`).
- **The aggregate** (`MemStatsSummary`).

The input is the file's text as an in-memory string. The reader's position
is the unread suffix of that string. `Text.ReadLine` plays
`bufio.Reader.ReadString('\n')`: it yields a line with its newline, or end
of stream when no newline is left. A trailing fragment without a newline is
therefore never a line.

Modules, in dependency order:

| module | file | content |
|---|---|---|
| `Types` | types.dfy | `Option`, `Result`, the 64-bit and 8-bit ranges, the error datatype |
| `Text` | text.dfy | `strings.Split`, the line reader, the regex character classes |
| `Numbers` | numbers.dfy | `strconv.ParseUint` for bases 10 and 16, a digits printer |
| `MemStats` | memstat.dfy | the `MemStat` record, its 15 accounting fields, the entry table |
| `Header` | header.dfy | `fillMemStatVM` |
| `Block` | block.dfy | the entry-line matcher, `parseVmFlags`, the `fillMemStat` loop |
| `BlockRuns` | blockruns.dfy | what the loop does with a run of entry lines, spelled in any way the pattern accepts, and a flags line |
| `Smaps` | smaps.dfy | `parseMemStat` and the `NewSmaps` loop |
| `Records` | records.dfy | the shape of every record `parseMemStat` reads successfully |
| `Summary` | summary.dfy | `MemStatsSummary` |
| `Render` | render.dfy | the printer whose text the parser reads back in the round-trip lemmas |

Panics in the Go code are explicit error values, never preconditions:

- A header line with fewer than five parts gives `Panic(MissingPart(i))`
  when every field before index `i` parsed, where `i` is the first missing
  index. The address range, offset and device are each parsed before the
  next part is indexed, so one of them that fails first gives its own error.
  The permission string is the exception: it is checked only after the
  inode, so a line that is too short panics at its first missing index
  even when its permission string is bad.
- A permission string shorter than four characters gives
  `Panic(ShortPermissions(n))`. Its characters are checked position by
  position, in the same order as the errors, so the outcome depends on where
  the string ends.
- `MemStatsSummary` of an empty list gives `Err(NoRecords)`.

Go's `uint64` `+=` in the summary wraps modulo 2^64. The model writes this
out as `Summary.Wrap`.

Facts about the code that the model keeps:

- **No range check.** The code has no `start < end` check. The `nl` flag
  does not make it read a `Nonlinear:` line.
- **Permissions.** Only the first four characters of the permission
  string are examined.
- **Pathname.** The pathname is the last space-separated part, not
  everything after the inode.
- **Flags.** The flags set keeps every token after `VmFlags:` verbatim,
  including empty tokens and the last token with its `"\n"`. A bare
  `VmFlags:\n` line is an error, because its first token is `"VmFlags:\n"`.
- **Entry-shaped lines.** A line that matches the entry pattern is an
  entry line even when its key is `VmFlags`. So `VmFlags: 5 kB` is skipped
  as an unknown key and does not end the block. The number of an unknown
  key is never parsed, so it may exceed 64 bits.
- **End of stream inside a block.** This is an error (`Fill(ReadFailed)`).
  It is not the normal end of the parse, because `parseMemStat` rewraps it.

## Model

| member | source | states |
|---|---|---|
| Text.SplitJoin | proc_smaps.go:236-238 | `strings.Split` on one separator and joining back are inverse: splitting the join of separator-free parts gives the parts, and (from `Split`'s contract) joining the parts of a text gives the text |
| Text.ReadLine | proc_smaps.go:166-170 | the reader returns the text up to and including the first newline and leaves the rest unread; with no newline left it reports end of stream, and the number of newlines drops by exactly one |
| Text.ReadLineAppend | proc_smaps.go:229-232 | text appended after the first newline does not change the line read, and a newline-free tail stays at end of stream |
| Numbers.ParseUint | proc_smaps.go:243-252 | `strconv.ParseUint(s, base, 64)` (also used at lines 256, 267 and 179) succeeds exactly on a non-empty digit string of the base whose value is below 2^64, and then yields that value; the digit loop with Go's cutoff test agrees with the reference value |
| Numbers.ParseFormat | proc_smaps.go:243-252 | every 64-bit value printed in base 10 or 16 is read back as itself |
| MemStats.RequiredKeysAre | proc_smaps.go:124-145 | the table's required keys are exactly Size, Pss, Private_Dirty, Referenced, AnonHugePages, Swap, KernelPageSize and Locked; the other seven are optional |
| MemStats.EntriesBijective | proc_smaps.go:124-145 | the entry table maps its 15 keys one-to-one onto the 15 accounting fields, `Linear` onto the nonlinear field |
| Header.ParsePermissions | proc_smaps.go:277-301 | the permission string is accepted exactly when positions 0-3 are `r`/`-`, `w`/`-`, `x`/`-`, `s`/`p`; each bit is set exactly when its letter is present; a bad character is reported at the first bad position, and a string that ends earlier panics at its length |
| Header.PermissionsRoundTrip | proc_smaps.go:277-301 | decoding is a bijection between the four bits and the accepted four-letter prefixes |
| Header.ParseDevice | proc_smaps.go:261-265 | a device field is accepted only when it starts with one or two hex digits and a colon |
| Header.DeviceRead | proc_smaps.go:261-265 | a field of one or two hex digits, a colon and one or two hex digits (as many as are there), followed by anything, is accepted with the values of its two halves |
| Header.DeviceSplit | proc_smaps.go:261-265 | every accepted field has that shape, and the major and minor read are the values of its two halves |
| Header.DeviceRoundTrip | proc_smaps.go:261-265 | the `%02x:%02x` text of any major/minor pair reads back as that pair |
| Header.ParseHeaderLine | proc_smaps.go:235-305 | the header parses exactly when the range splits on `-` into two 64-bit hex numbers, there are at least five parts, the permissions, hex offset, device and decimal inode are valid; the result holds those values, the pathname is the last part when there are more than five and empty otherwise, and every accounting field is zero; a `BadRange` error means exactly that the range did not split in two; panics only for fewer than five parts or a short permission string |
| Header.FillMemStatVM | proc_smaps.go:227-233 | end of stream is reported exactly when no newline is left; a successful read consumes one line and yields a pathname without spaces or newlines |
| Header.FillMemStatVMAppend | proc_smaps.go:229-232 | the header read leaves anything after its line unread and unchanged |
| Header.FillMemStatVMFragment | proc_smaps.go:229-232 | a newline-free tail does not change the header read's outcome: end of stream stays end of stream, and a header read leaves the tail unread |
| Block.MatchEntrySound | proc_smaps.go:148-149 | every line the matcher accepts matches `^([[:word:]]+):[[:space:]]*([[:digit:]]+) kB\n$` with the same two groups |
| Block.MatchEntryComplete | proc_smaps.go:148-149 | every line matching the pattern is accepted with its groups: the pattern admits exactly one split of the line |
| Block.ParseVmFlags | proc_smaps.go:216-225 | the flags line is accepted exactly when its first space-separated token is `VmFlags:`; no flag holds a space |
| Block.FlagsRoundTrip | proc_smaps.go:216-225 | the flags read from `VmFlags:` followed by space-separated tokens are exactly the set of those tokens |
| Block.Record | proc_smaps.go:176-186 | a table key's line stores its value in the key's field, changes no other field and no identity field, and marks the key seen |
| Block.StepLine | proc_smaps.go:165-203 | one loop turn only adds table keys to the seen set and keeps the identity fields; it ends the block only on a `VmFlags:` line, yielding space-free flags |
| Block.EntryLineStep | proc_smaps.go:172-188 | an entry line with an unknown key changes nothing; with a table key it stores the value of its digits, or fails when they do not fit in 64 bits |
| Block.LineClasses | proc_smaps.go:172-202 | every line is in exactly one class: entry line (continue, or a value error), `VmFlags:` line (end, or a malformed flags line), or anything else (error) |
| Block.FillFrom | proc_smaps.go:153-214 | a filled block keeps the header's identity fields, consumes at least one line and carries space-free flags |
| Block.MissingAreRequired | proc_smaps.go:205-211 | a missing-entries failure names at least one key, only required keys, and none that was seen before the block was read |
| Block.FillAppend | proc_smaps.go:165-204 | the block loop stops at the flags line: text after it is left unread and unchanged |
| Block.FillFragment | proc_smaps.go:165-170 | a newline-free tail does not change the block loop's outcome: a block cut off by the end of stream still fails with a read error |
| BlockRuns.ApplyEntryField | proc_smaps.go:176-188 | an entry line changes the field of its key, if its key is in the table, and no other field |
| BlockRuns.FillEntries | proc_smaps.go:165-188 | a run of entry lines, with any blanks after each colon and any decimal numeral (64-bit for table keys), is read line by line, each applied in order, before the next line |
| BlockRuns.TruncatedBlock | proc_smaps.go:166-170 | end of stream after any run of entry lines the loop reads is a read failure |
| BlockRuns.ApplyAllSeen | proc_smaps.go:185-186 | a run of entry lines keeps the identity fields and marks exactly the table keys among them as seen |
| BlockRuns.Untouched | proc_smaps.go:176-188 | a field whose key no entry line names keeps its previous value |
| BlockRuns.LastValueWins | proc_smaps.go:176-186 | whatever the order of the lines, a field holds the value of the digits of the last line carrying its key |
| BlockRuns.FillFlagsLine | proc_smaps.go:190-211 | a well-formed flags line ends the block: success with the decoded flags exactly when no required key is missing, otherwise failure naming the missing keys |
| BlockRuns.BlockOutcome | proc_smaps.go:153-214 | a block of entry lines, spelled in any way the pattern accepts, and a flags line succeeds exactly when every required key is among its lines, and then yields the applied record with the decoded flags and the text after the flags line; otherwise it fails naming exactly the required keys its lines left out |
| BlockRuns.MissingBlockShape | proc_smaps.go:165-211 | conversely, every missing-entries failure comes from such a block: readable entry lines, then a flags line, and the keys named are exactly the required keys that no entry line carried and the state had not seen |
| BlockRuns.OkBlockShape | proc_smaps.go:161-211 | every successful block is a run of readable entry lines closed by a flags line, with every required key seen before the flags line or carried by one of the lines; the record is the run applied to the state with the decoded flags, and the text after the flags line is left unread |
| Smaps.ParseMemStat | proc_smaps.go:101-116 | end of stream is passed on exactly when no newline is left; a parsed record consumes at least two lines, has a space- and newline-free pathname and space-free flags |
| Smaps.ParseRecords | proc_smaps.go:78-88 | the parse of a file never fails with end of stream, and yields at most one record per two lines |
| Smaps.RecordsParsed | proc_smaps.go:78-88 | every record of a successful parse has a single-token pathname and space-free flags |
| Smaps.NewSmaps | proc_smaps.go:78-88 | the loop computes the recursive parse: records in file order until end of stream, and any other failure discards the records read |
| Smaps.ParseMemStatAppend | proc_smaps.go:101-116 | reading a record leaves text after it unread and unchanged |
| Smaps.TrailingFragment | proc_smaps.go:78-88 | text without a newline at the end of the file is never read as a line: the parse, whether it succeeds or fails, is the same as without it |
| Smaps.ParseMemStatFragment | proc_smaps.go:101-116 | a newline-free tail after the input leaves the outcome of reading one record unchanged, the same error or the same record with the tail left unread |
| Smaps.TruncatedRecord | proc_smaps.go:98-113 | a valid header followed by end of stream inside the block fails the whole parse instead of ending it |
| Records.RecordShape | proc_smaps.go:98-116 | every record read comes from a header line that parses, then readable entry lines carrying every required key, then a flags line; the record is the parsed header with those lines applied and the decoded flags |
| Records.HeaderThenBlock | proc_smaps.go:101-116 | a record read successfully starts with a newline-free header line that parses, and is exactly what the block after that line yields from the parsed header |
| Summary.AddRecordField | proc_smaps.go:313-327 | one loop turn adds the record into each of the thirteen summed fields, modulo 2^64, and leaves the page sizes alone |
| Summary.Start | proc_smaps.go:308-311 | the running total starts at zero with the first record's two page sizes |
| Summary.MemStatsSummary | proc_smaps.go:307-329 | fails exactly on an empty list; otherwise each summed field is the sum over all records modulo 2^64, KernelPageSize and MMUPageSize are the first record's, and every identity field is zero |
| Summary.TotalConcat | proc_smaps.go:313-327 | the sum over two runs of records is the sum of their sums |
| Summary.TotalPermutation | proc_smaps.go:313-327 | the sums do not depend on the order of the records |
| Render.HeaderRoundTrip | proc_smaps.go:235-275 | the header text of any record whose pathname has no space parses back to that record's header fields, with any padding before the pathname |
| Render.LinesRestore | proc_smaps.go:176-186 | the entry lines of a record, with any blank runs, are all read by the loop and, applied to its header, restore each accounting field |
| Render.FlagsLineRead | proc_smaps.go:216-225 | the printed flags line reads back as the printed flags plus the `"\n"` token |
| Render.FlagsLineShape | proc_smaps.go:190-197 | the printed flags line is one line, starts with `VmFlags: ` and is not taken for an entry line |
| Render.RecordBlockRead | proc_smaps.go:153-214 | the printed field block of a record, read on its header, gives back the whole record |
| Render.RecordRoundTrip | proc_smaps.go:101-116 | a printed record parses back to itself and the parse stops right after it |
| Render.RecordsThen | proc_smaps.go:78-88 | printed records are read one by one, in order, in front of whatever the rest of the text parses to |
| Render.RecordsRoundTrip | proc_smaps.go:78-88 | the text of any records that fit their layouts (any padding before the pathname, any blank run after each entry colon), followed by an incomplete last line, parses to exactly those records |
| Render.FailureDiscardsAll | proc_smaps.go:78-88 | a record that fails to parse after any number of good ones fails the whole parse with its error |

## Left out

- File I/O (proc_smaps.go:62-76): opening the file and reading it whole
  are replaced by the input string. A read error is not modelled.
- The global `prevLine` and the error message texts (proc_smaps.go:147,
  168-209): errors are datatype values without text.
- Block.FillFrom: Go's missing-entry check walks the entry map in Go's
  randomised order and reports the first missing key it meets. The model
  reports the set of all missing required keys, and
  `BlockRuns.MissingBlockShape` states what that set is;
  `BlockRuns.OkBlockShape` states that a success saw every required key.
  Which single key Go names is not modelled.
- Header.ParseDevice: `fmt.Sscanf("%02x:%02x")` is approximated as one or
  two hex digits, a colon, and one or two hex digits, with anything after
  that ignored. Sscanf's skipping of blanks and its other corner cases are
  not modelled.
- Characters: Go strings are bytes and the model's strings are `char`s.
  Every character the parser compares is ASCII, and nothing splits a
  multi-byte sequence, so the two agree. No encoding is modelled.
- Go's `uint64` fields are `U64`, the range 0 to 2^64-1. Only the summary
  adds numbers, and its wrap-around is written out.
- Render.RecordsRoundTrip: the printer writes the header's hex numbers
  without the kernel's zero padding, entry numbers without leading zeros,
  and a flags line that ends in a space before its newline, as the kernel
  prints it. Text spelled otherwise is outside the round trip, although the
  block lemmas of `BlockRuns` cover entry lines with leading zeros, and a
  flags line without the trailing space parses too, with the newline
  attached to its last flag.
- `Render` is the printer whose text the parser reads back in the
  round-trip lemmas. It is not a model of the kernel's `show_smap`, whose
  column widths it covers only through the free blank runs and padding.
