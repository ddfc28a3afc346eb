/** Shared value types of the smaps model: fixed-width integers, the
    Option and Result wrappers, and the error values the parser can
    produce. */
module Types {

  /** One past the largest uint64. */
  const U64_LIMIT: int := 0x1_0000_0000_0000_0000

  /** Go's uint64. */
  type U64 = x: int | 0 <= x < 0x1_0000_0000_0000_0000

  /** Go's uint8 (the device numbers). */
  type U8 = x: int | 0 <= x < 0x100

  datatype Option<+T> = None | Some(value: T)

  datatype Result<+T, +E> = Ok(value: T) | Err(error: E)

  /** Where the Go code indexes past the end of a slice or string and the
      runtime panics instead of returning an error. */
  datatype PanicSite =
    | MissingPart(index: nat)        // parts[index] of the header line
    | ShortPermissions(index: nat)   // flags[index] of the permission string
    | NoRecords                      // MemStats[0] when summarising no records

  /** Failures inside the field block (everything after the header line). */
  datatype FillError =
    | ReadFailed                        // end of stream before the VmFlags line
    | BadValue                          // a known key's number does not fit in 64 bits
    | BadFlagsLine                      // starts with "VmFlags:" but its first token is not "VmFlags:"
    | UnknownLine                       // neither an entry line nor a flags line
    | MissingEntries(keys: set<string>) // required keys not seen before the flags line

  /** What one record attempt can fail with. Only `EndOfStream` is treated as
      the normal end of the parse; `Panic` stands for a Go runtime panic,
      which no caller in the parser recovers from. */
  datatype Error =
    | EndOfStream             // no complete line left where a header line was expected
    | BadRange                // field 0 does not split on '-' into two parts
    | BadStart                // start address is not a 64-bit hex number
    | BadEnd                  // end address is not a 64-bit hex number
    | BadPageOffset
    | BadDevice
    | BadInode
    | BadPermission(index: nat)
    | Panic(site: PanicSite)
    | Fill(cause: FillError)  // a field-block failure, rewrapped by the record parser
}
