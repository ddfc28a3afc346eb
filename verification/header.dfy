/** The mapping's header line, e.g.
    `7f0000000000-7f0000021000 r--p 00000000 08:01 131 /lib/x.so`:
    address range, permissions, page offset, device, inode and pathname. */
module Header {
  import opened Types
  import opened Text
  import opened Numbers
  import opened MemStats

  /** The four permission bits of a mapping. */
  datatype Perms = Perms(read: bool, write: bool, exec: bool, mayShare: bool)

  /** The characters allowed at position `i` of the permission string:
      `r`/`-`, `w`/`-`, `x`/`-`, then `s`/`p`. */
  predicate PermAllowed(i: nat, c: char) {
    || (i == 0 && (c == 'r' || c == '-'))
    || (i == 1 && (c == 'w' || c == '-'))
    || (i == 2 && (c == 'x' || c == '-'))
    || (i == 3 && (c == 's' || c == 'p'))
  }

  /** The permission string's positions checked in order, as the Go code
      does: a wrong character at a position is an error, a string that ends
      before position 3 panics on the first missing index. Characters after
      the fourth are not looked at. */
  function ParsePermissions(p: string): (r: Result<Perms, Error>)
    ensures r.Ok? <==> |p| >= 4 && forall i :: 0 <= i < 4 ==> PermAllowed(i, p[i])
    ensures r.Ok? ==> r.value == Perms(p[0] == 'r', p[1] == 'w', p[2] == 'x', p[3] == 's')
    ensures r.Err? ==> r.error.BadPermission? || r.error == Panic(ShortPermissions(|p|))
    ensures r.Err? && r.error.BadPermission? ==>
      var i := r.error.index;
      i < 4 && i < |p| && !PermAllowed(i, p[i]) && forall j :: 0 <= j < i ==> PermAllowed(j, p[j])
    ensures r == Err(Panic(ShortPermissions(|p|))) ==>
      |p| < 4 && forall j :: 0 <= j < |p| ==> PermAllowed(j, p[j])
  {
    if |p| < 1 then Err(Panic(ShortPermissions(0)))
    else if p[0] != 'r' && p[0] != '-' then Err(BadPermission(0))
    else if |p| < 2 then Err(Panic(ShortPermissions(1)))
    else if p[1] != 'w' && p[1] != '-' then Err(BadPermission(1))
    else if |p| < 3 then Err(Panic(ShortPermissions(2)))
    else if p[2] != 'x' && p[2] != '-' then Err(BadPermission(2))
    else if |p| < 4 then Err(Panic(ShortPermissions(3)))
    else if p[3] != 's' && p[3] != 'p' then Err(BadPermission(3))
    else Ok(Perms(p[0] == 'r', p[1] == 'w', p[2] == 'x', p[3] == 's'))
  }

  /** The permission string the kernel prints for the bits. */
  function PermText(perms: Perms): string {
    [ if perms.read then 'r' else '-',
      if perms.write then 'w' else '-',
      if perms.exec then 'x' else '-',
      if perms.mayShare then 's' else 'p' ]
  }

  /** Decoding is a bijection between the bits and the accepted four-letter
      strings: printing then decoding gives the bits back, and decoding then
      printing gives back the first four characters. */
  lemma PermissionsRoundTrip(perms: Perms, p: string)
    ensures ParsePermissions(PermText(perms)) == Ok(perms)
    ensures ParsePermissions(p).Ok? ==> PermText(ParsePermissions(p).value) == p[..4]
  {
  }

  /** How many leading characters of `s`, at most two, are hex digits. */
  function HexRun(s: string): (n: nat)
    ensures n <= 2 && n <= |s|
    ensures forall i :: 0 <= i < n ==> IsDigit(s[i], 16)
    ensures n < 2 && n < |s| ==> !IsDigit(s[n], 16)
  {
    if |s| >= 1 && IsDigit(s[0], 16) then
      if |s| >= 2 && IsDigit(s[1], 16) then 2 else 1
    else 0
  }

  /** The `maj:min` device field as `fmt.Sscanf("%02x:%02x")` reads it, taken
      as: one or two hex digits, a colon, one or two hex digits, anything
      after that ignored. */
  function ParseDevice(s: string): (r: Option<(U8, U8)>)
    ensures r.Some? ==> exists a: nat :: 1 <= a <= 2 && a < |s| && s[a] == ':' && IsNumeral(s[..a], 16)
  {
    var a := HexRun(s);
    if a == 0 || a >= |s| || s[a] != ':' then None
    else
      var t := s[a + 1..];
      var b := HexRun(t);
      if b == 0 then None
      else
        ShortHexIsByte(s[..a]);
        ShortHexIsByte(t[..b]);
        Some((Value(s[..a], 16), Value(t[..b], 16)))
  }

  /** The device field the reader accepts, cut into its parts: a major of
      one or two hex digits, a colon, a minor of one or two hex digits that
      is as long as the digits allow, and whatever follows. */
  predicate DeviceParts(s: string, major: string, minor: string, more: string) {
    && IsNumeral(major, 16) && |major| <= 2
    && IsNumeral(minor, 16) && |minor| <= 2
    && (|minor| == 2 || more == [] || !IsDigit(more[0], 16))
    && s == major + ":" + minor + more
  }

  /** A field of that shape is accepted, with the values of its two halves. */
  lemma DeviceRead(major: string, minor: string, more: string)
    requires DeviceParts(major + ":" + minor + more, major, minor, more)
    ensures ParseDevice(major + ":" + minor + more) == Some((Value(major, 16), Value(minor, 16)))
  {
    var s := major + ":" + minor + more;
    var a := |major|;
    assert s[..a] == major;
    assert s[a] == ':';
    assert !IsDigit(':', 16);
    assert HexRun(s) == a;
    var t := s[a + 1..];
    assert t == minor + more;
    assert t[..|minor|] == minor;
    assert HexRun(t) == |minor|;
  }

  /** Every accepted field has that shape, and its values are those of its
      two halves. */
  lemma DeviceSplit(s: string) returns (major: string, minor: string, more: string)
    requires ParseDevice(s).Some?
    ensures DeviceParts(s, major, minor, more)
    ensures ParseDevice(s) == Some((Value(major, 16), Value(minor, 16)))
  {
    var a := HexRun(s);
    var t := s[a + 1..];
    var b := HexRun(t);
    major, minor, more := s[..a], t[..b], t[b..];
    assert s == major + ":" + t;
    assert t == minor + more;
  }

  /** Reading back the `%02x:%02x` text of a device pair gives the pair. */
  lemma DeviceRoundTrip(major: U8, minor: U8, more: string)
    ensures ParseDevice(Hex2(major) + ":" + Hex2(minor) + more) == Some((major, minor))
  {
    var s := Hex2(major) + ":" + Hex2(minor) + more;
    assert s[..2] == Hex2(major);
    assert s[3..] == Hex2(minor) + more;
    assert s[3..][..2] == Hex2(minor);
  }

  /** The header text (the line without its newline) split on single spaces,
      and field 0 of it split on '-'. */
  function Parts(text: string): seq<string> {
    Split(text, ' ')
  }

  function Range(text: string): seq<string> {
    Split(Parts(text)[0], '-')
  }

  /** Every field of the header is in an accepted form. */
  predicate HeaderWellFormed(text: string) {
    var parts := Parts(text);
    var range := Range(text);
    && |range| == 2 && IsU64(range[0], 16) && IsU64(range[1], 16)
    && |parts| >= 5
    && |parts[1]| >= 4 && (forall i :: 0 <= i < 4 ==> PermAllowed(i, parts[1][i]))
    && IsU64(parts[2], 16)
    && ParseDevice(parts[3]).Some?
    && IsU64(parts[4], 10)
  }

  /** The pathname: the last space-separated part when there are more than
      five, otherwise empty (an anonymous mapping). */
  function PathName(parts: seq<string>): string {
    if |parts| > 5 then parts[|parts| - 1] else ""
  }

  /** `fillMemStatVM` after the line is read and its newline trimmed. Fields
      are checked in the order the Go code reads them; a missing part panics
      at the first index used. The accounting fields stay zero. */
  function ParseHeaderLine(text: string): (r: Result<MemStat, Error>)
    ensures r.Ok? <==> HeaderWellFormed(text)
    ensures r.Ok? ==>
      var parts := Parts(text);
      var range := Range(text);
      var perm := parts[1];
      && r.value.vmStart == Value(range[0], 16)
      && r.value.vmEnd == Value(range[1], 16)
      && r.value.read == (perm[0] == 'r') && r.value.write == (perm[1] == 'w')
      && r.value.exec == (perm[2] == 'x') && r.value.mayShare == (perm[3] == 's')
      && r.value.pageOffset == Value(parts[2], 16)
      && (r.value.majorDev, r.value.minorDev) == ParseDevice(parts[3]).value
      && r.value.inode == Value(parts[4], 10)
      && r.value.fileName == PathName(parts)
      && ' ' !in r.value.fileName
      && (forall f :: Get(r.value, f) == 0)
      && r.value.vmFlags == {}
    ensures r == Err(BadRange) <==> |Range(text)| != 2
    ensures r.Err? && r.error.Panic? ==> |Parts(text)| < 5 || |Parts(text)[1]| < 4
    ensures r.Err? ==> r.error != EndOfStream && !r.error.Fill?
  {
    var parts := Split(text, ' ');
    var range := Split(parts[0], '-');
    if |range| != 2 then Err(BadRange)
    else match ParseUint(range[0], 16)
    case None => Err(BadStart)
    case Some(start) =>
    match ParseUint(range[1], 16)
    case None => Err(BadEnd)
    case Some(end) =>
    if |parts| < 2 then Err(Panic(MissingPart(1)))
    else
    var perm := parts[1];
    if |parts| < 3 then Err(Panic(MissingPart(2)))
    else match ParseUint(parts[2], 16)
    case None => Err(BadPageOffset)
    case Some(offset) =>
    if |parts| < 4 then Err(Panic(MissingPart(3)))
    else match ParseDevice(parts[3])
    case None => Err(BadDevice)
    case Some((major, minor)) =>
    if |parts| < 5 then Err(Panic(MissingPart(4)))
    else match ParseUint(parts[4], 10)
    case None => Err(BadInode)
    case Some(inode) =>
    var name := PathName(parts);
    match ParsePermissions(perm)
    case Err(e) => Err(e)
    case Ok(perms) =>
      Ok(Blank.(vmStart := start, vmEnd := end,
                read := perms.read, write := perms.write, exec := perms.exec, mayShare := perms.mayShare,
                pageOffset := offset, majorDev := major, minorDev := minor,
                inode := inode, fileName := name))
  }

  /** `fillMemStatVM`: read one line; no complete line left is the end of
      the stream, which the caller treats as the normal end of the parse. */
  function FillMemStatVM(input: string): (r: Result<(MemStat, string), Error>)
    ensures r == Err(EndOfStream) <==> '\n' !in input
    ensures r.Ok? ==> Count(r.value.1, '\n') == Count(input, '\n') - 1
    ensures r.Ok? ==> '\n' !in r.value.0.fileName && ' ' !in r.value.0.fileName
  {
    match ReadLine(input)
    case None => Err(EndOfStream)
    case Some((line, rest)) =>
      var text := line[..|line| - 1];
      match ParseHeaderLine(text)
      case Err(e) => Err(e)
      case Ok(ms) =>
        AbsentFromParts(Parts(text), ' ', '\n');
        Ok((ms, rest))
  }

  /** The header line's outcome with the unread input attached. */
  function Attach(r: Result<MemStat, Error>, rest: string): Result<(MemStat, string), Error> {
    match r
    case Ok(ms) => Ok((ms, rest))
    case Err(e) => Err(e)
  }

  /** FillMemStatVM depends on the input only through the line it reads. */
  lemma FillMemStatVMOfLine(input: string, line: string, rest: string)
    requires ReadLine(input) == Some((line, rest))
    ensures FillMemStatVM(input) == Attach(ParseHeaderLine(line[..|line| - 1]), rest)
  {
  }

  /** Text appended after the header line is left unread. */
  lemma FillMemStatVMAppend(input: string, more: string)
    requires FillMemStatVM(input).Ok?
    ensures FillMemStatVM(input + more) ==
      Ok((FillMemStatVM(input).value.0, FillMemStatVM(input).value.1 + more))
  {
    ReadLineAppend(input, more);
    var (line, rest) := ReadLine(input).value;
    FillMemStatVMOfLine(input, line, rest);
    FillMemStatVMOfLine(input + more, line, rest + more);
  }

  /** A newline-free tail after the input does not change the header read. */
  lemma FillMemStatVMFragment(input: string, more: string)
    requires '\n' !in more
    ensures FillMemStatVM(input + more) == WithTail(FillMemStatVM(input), more)
  {
    ReadLineAppend(input, more);
    if ReadLine(input).Some? {
      var (line, rest) := ReadLine(input).value;
      FillMemStatVMOfLine(input, line, rest);
      FillMemStatVMOfLine(input + more, line, rest + more);
    }
  }
}
