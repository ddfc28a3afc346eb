/** String helpers with the semantics of the Go library calls the parser
    makes: `strings.Split` on a one-character separator, `bufio.Reader.ReadString('\n')`,
    and the character classes of the entry-line regular expression. */
module Text {
  import opened Types

  /** Position of the first occurrence of `c` in `s`. */
  function IndexOf(s: string, c: char): (i: nat)
    requires c in s
    ensures i < |s| && s[i] == c && c !in s[..i]
  {
    if s[0] == c then 0
    else
      var j := IndexOf(s[1..], c);
      assert s[..j + 1] == [s[0]] + s[1..][..j];
      j + 1
  }

  /** Any position holding the first `c` is the one IndexOf finds. */
  lemma IndexOfFirst(s: string, c: char, k: nat)
    requires k < |s| && s[k] == c && c !in s[..k]
    ensures IndexOf(s, c) == k
  {
    var i := IndexOf(s, c);
    assert forall j :: 0 <= j < k ==> s[..k][j] == s[j];
    assert forall j :: 0 <= j < i ==> s[..i][j] == s[j];
  }

  /** The elements of a sequence, as a set. */
  function Elements<T>(s: seq<T>): set<T> {
    set i | 0 <= i < |s| :: s[i]
  }

  /** A text is its prefix, the character at the cut, and its suffix. */
  lemma CutAt(s: string, k: nat)
    requires k < |s|
    ensures s == s[..k] + [s[k]] + s[k + 1..]
  {
  }

  lemma PrefixOfConcat(p: string, a: string, b: string)
    requires p <= a
    ensures p <= a + b
  {
    assert (a + b)[..|p|] == a[..|p|];
  }

  lemma ConcatAssoc(a: string, b: string, c: string)
    ensures a + b + c == a + (b + c)
  {
  }

  /** The parts joined back with the separator between them. */
  function Join(parts: seq<string>, c: char): string
    requires |parts| > 0
  {
    if |parts| == 1 then parts[0] else parts[0] + [c] + Join(parts[1..], c)
  }

  /** `strings.Split(s, string(c))`: the maximal pieces of `s` between
      occurrences of `c`; never empty, and `Split("", c) == [""]`. */
  function Split(s: string, c: char): (parts: seq<string>)
    ensures |parts| > 0
    ensures forall i :: 0 <= i < |parts| ==> c !in parts[i]
    ensures Join(parts, c) == s
    decreases |s|
  {
    if c in s then
      var i := IndexOf(s, c);
      var tail := Split(s[i + 1..], c);
      assert s == s[..i] + [c] + s[i + 1..];
      [s[..i]] + tail
    else
      [s]
  }

  /** Splitting undoes joining when no part holds the separator, so Split and
      Join are inverse to each other in both directions. */
  lemma {:induction false} SplitJoin(parts: seq<string>, c: char)
    requires |parts| > 0
    requires forall i :: 0 <= i < |parts| ==> c !in parts[i]
    ensures Split(Join(parts, c), c) == parts
    decreases |parts|
  {
    if |parts| > 1 {
      var rest := Join(parts[1..], c);
      var s := parts[0] + [c] + rest;
      assert s[..|parts[0]|] == parts[0];
      IndexOfFirst(s, c, |parts[0]|);
      assert s[|parts[0]| + 1..] == rest;
      SplitJoin(parts[1..], c);
      assert parts == [parts[0]] + parts[1..];
    }
  }

  /** A character absent from the joined text is absent from every part;
      with Split's contract, the parts of a text hold only its characters. */
  lemma {:induction false} AbsentFromParts(parts: seq<string>, c: char, d: char)
    requires |parts| > 0
    requires d !in Join(parts, c)
    ensures forall i :: 0 <= i < |parts| ==> d !in parts[i]
    decreases |parts|
  {
    if |parts| > 1 {
      AbsentFromParts(parts[1..], c, d);
      assert forall i :: 1 <= i < |parts| ==> parts[i] == parts[1..][i - 1];
    }
  }

  /** A character in no part, other than the separator, is not in the
      joined text. */
  lemma {:induction false} JoinAvoids(parts: seq<string>, c: char, d: char)
    requires |parts| > 0 && d != c
    requires forall i :: 0 <= i < |parts| ==> d !in parts[i]
    ensures d !in Join(parts, c)
    decreases |parts|
  {
    if |parts| > 1 {
      assert forall i :: 0 <= i < |parts| - 1 ==> parts[1..][i] == parts[i + 1];
      JoinAvoids(parts[1..], c, d);
    }
  }

  /** Joining one more part appends the separator and the part. */
  lemma {:induction false} JoinSnoc(parts: seq<string>, x: string, c: char)
    requires |parts| > 0
    ensures Join(parts + [x], c) == Join(parts, c) + [c] + x
    decreases |parts|
  {
    if |parts| > 1 {
      assert (parts + [x])[1..] == parts[1..] + [x];
      JoinSnoc(parts[1..], x, c);
    } else {
      assert (parts + [x])[1..] == [x];
    }
  }

  /** Number of occurrences of `c` in `s`. */
  function Count(s: string, c: char): (n: nat)
    ensures n == 0 <==> c !in s
    ensures n <= |s|
  {
    if |s| == 0 then 0
    else (if s[0] == c then 1 else 0) + Count(s[1..], c)
  }

  lemma {:induction false} CountConcat(a: string, b: string, c: char)
    ensures Count(a + b, c) == Count(a, c) + Count(b, c)
    decreases |a|
  {
    if |a| > 0 {
      assert (a + b)[1..] == a[1..] + b;
      CountConcat(a[1..], b, c);
    } else {
      assert a + b == b;
    }
  }

  /** A line as `bufio.Reader.ReadString('\n')` returns it: everything up to
      and including the first newline, and the unread rest. When no newline
      is left the reader reports `io.EOF`, which is `None` here; a trailing
      fragment without a newline is therefore never a line. */
  function ReadLine(s: string): (r: Option<(string, string)>)
    ensures r.None? <==> '\n' !in s
    ensures r.Some? ==> var (line, rest) := r.value;
      && line + rest == s
      && |line| > 0 && line[|line| - 1] == '\n'
      && '\n' !in line[..|line| - 1]
      && Count(line, '\n') == 1
      && Count(rest, '\n') == Count(s, '\n') - 1
  {
    if '\n' in s then
      var i := IndexOf(s, '\n');
      var line := s[..i + 1];
      assert line[..i] == s[..i];
      assert line == line[..i] + ['\n'];
      CountConcat(line[..i], ['\n'], '\n');
      assert s == line + s[i + 1..];
      CountConcat(line, s[i + 1..], '\n');
      Some((line, s[i + 1..]))
    else
      None
  }

  /** Reading from text that starts with one whole line yields that line and
      leaves exactly what follows it. */
  lemma ReadLineOfLine(text: string, rest: string)
    requires '\n' !in text
    ensures ReadLine(text + "\n" + rest) == Some((text + "\n", rest))
  {
    var s := text + "\n" + rest;
    assert s[..|text|] == text;
    IndexOfFirst(s, '\n', |text|);
  }

  /** Appending text after the first newline does not change the line read,
      and appending anything to newline-free text leaves it at end of stream. */
  lemma ReadLineAppend(s: string, more: string)
    ensures ReadLine(s).None? && '\n' !in more ==> ReadLine(s + more).None?
    ensures ReadLine(s).Some? ==>
      ReadLine(s + more) == Some((ReadLine(s).value.0, ReadLine(s).value.1 + more))
  {
    if '\n' in s {
      var i := IndexOf(s, '\n');
      assert (s + more)[..i] == s[..i];
      IndexOfFirst(s + more, '\n', i);
      assert (s + more)[i + 1..] == s[i + 1..] + more;
      assert (s + more)[..i + 1] == s[..i + 1];
    }
  }

  /** A reader's outcome with `more` appended to the unread text. */
  function WithTail<T, E>(r: Result<(T, string), E>, more: string): Result<(T, string), E> {
    match r
    case Ok((x, rest)) => Ok((x, rest + more))
    case Err(e) => Err(e)
  }

  /** The POSIX classes the entry-line pattern uses, in Go's RE2 meaning:
      [[:word:]] is [0-9A-Za-z_], [[:space:]] is [\t\n\v\f\r ],
      [[:digit:]] is [0-9]. */
  datatype CharClass = Word | Space | Digit

  predicate InClass(c: char, k: CharClass) {
    match k
    case Word => ('0' <= c <= '9') || ('a' <= c <= 'z') || ('A' <= c <= 'Z') || c == '_'
    case Space => c == ' ' || (9 <= c as int <= 13)
    case Digit => '0' <= c <= '9'
  }

  predicate AllIn(s: string, k: CharClass) {
    forall i :: 0 <= i < |s| ==> InClass(s[i], k)
  }

  /** Length of the longest prefix of `s` made of class-`k` characters. */
  function Span(s: string, k: CharClass): (n: nat)
    ensures n <= |s|
    ensures AllIn(s[..n], k)
    ensures n == |s| || !InClass(s[n], k)
  {
    if |s| == 0 || !InClass(s[0], k) then 0
    else
      var m := Span(s[1..], k);
      assert s[..m + 1] == [s[0]] + s[1..][..m];
      m + 1
  }

  /** The span of a class-`k` prefix stops exactly where the prefix ends. */
  lemma {:induction false} SpanOfConcat(a: string, b: string, k: CharClass)
    requires AllIn(a, k)
    requires |b| == 0 || !InClass(b[0], k)
    ensures Span(a + b, k) == |a|
    decreases |a|
  {
    if |a| > 0 {
      assert (a + b)[1..] == a[1..] + b;
      SpanOfConcat(a[1..], b, k);
    } else {
      assert a + b == b;
    }
  }
}
