/** `MemStatsSummary`: the accounting fields of all records added up with
    uint64 wrap-around, and the page sizes taken from the first record. */
module Summary {
  import opened Types
  import opened MemStats

  /** The fields the summary adds up; the two page sizes are copied instead. */
  predicate Summed(f: Field) {
    f != KernelPageSize && f != MMUPageSize
  }

  /** Go's `+=` on uint64. */
  function Wrap(x: nat): (r: U64)
    ensures x < U64_LIMIT ==> r == x
  {
    x % U64_LIMIT
  }

  /** The exact (unbounded) sum of field `f` over the records. */
  function Total(rs: seq<MemStat>, f: Field): nat {
    if |rs| == 0 then 0 else Total(rs[..|rs| - 1], f) + Get(rs[|rs| - 1], f)
  }

  /** One iteration of the summary loop: the thirteen summed fields of `ms`
      are added into the running total `t`. */
  function AddRecord(t: MemStat, ms: MemStat): (r: MemStat)
    ensures SameIdentity(r, t)
  {
    t.(size := Wrap(t.size + ms.size),
       rss := Wrap(t.rss + ms.rss),
       pss := Wrap(t.pss + ms.pss),
       sharedClean := Wrap(t.sharedClean + ms.sharedClean),
       sharedDirty := Wrap(t.sharedDirty + ms.sharedDirty),
       privateClean := Wrap(t.privateClean + ms.privateClean),
       privateDirty := Wrap(t.privateDirty + ms.privateDirty),
       referenced := Wrap(t.referenced + ms.referenced),
       anonymous := Wrap(t.anonymous + ms.anonymous),
       anonymousTHP := Wrap(t.anonymousTHP + ms.anonymousTHP),
       swap := Wrap(t.swap + ms.swap),
       locked := Wrap(t.locked + ms.locked),
       nonlinear := Wrap(t.nonlinear + ms.nonlinear))
  }

  /** Adding a record changes exactly the summed fields, each by the
      record's value modulo 2^64. */
  lemma AddRecordField(t: MemStat, ms: MemStat, f: Field)
    ensures Get(AddRecord(t, ms), f) == if Summed(f) then Wrap(Get(t, f) + Get(ms, f)) else Get(t, f)
  {
    match f
    case Size => case Rss => case Pss => case SharedClean => case SharedDirty =>
    case PrivateClean => case PrivateDirty => case Referenced => case Anonymous =>
    case AnonymousTHP => case Swap => case KernelPageSize => case MMUPageSize =>
    case Locked => case Nonlinear =>
  }

  /** Adding to a wrapped running sum is wrapping the exact sum. */
  lemma WrapAdd(a: nat, b: nat)
    ensures Wrap(Wrap(a) + b) == Wrap(a + b)
  {
    var q := a / U64_LIMIT;
    assert a == q * U64_LIMIT + Wrap(a);
    assert a + b == q * U64_LIMIT + (Wrap(a) + b);
  }

  /** Field `f` of the summary of `rs` when the page sizes come from `first`. */
  function SummaryField(rs: seq<MemStat>, f: Field, first: MemStat): nat {
    if Summed(f) then Wrap(Total(rs, f)) else Get(first, f)
  }

  /** The summary: an all-zero record except for the page sizes of the first
      record, with every record then added in. An empty list panics on the
      first record's page sizes. */
  method MemStatsSummary(records: seq<MemStat>) returns (r: Result<MemStat, PanicSite>)
    ensures r.Err? <==> |records| == 0
    ensures r.Err? ==> r.error == NoRecords
    ensures r.Ok? ==> forall f :: Get(r.value, f) == SummaryField(records, f, records[0])
    ensures r.Ok? ==> SameIdentity(r.value, Blank)
  {
    if |records| == 0 {
      return Err(NoRecords);
    }
    var t := Start(records[0]);
    var i := 0;
    while i < |records|
      invariant 0 <= i <= |records|
      invariant forall f :: Get(t, f) == SummaryField(records[..i], f, records[0])
      invariant SameIdentity(t, Blank)
    {
      forall f
        ensures Get(AddRecord(t, records[i]), f) == SummaryField(records[..i + 1], f, records[0])
      {
        SummaryStep(t, records, i, f);
      }
      t := AddRecord(t, records[i]);
      i := i + 1;
    }
    assert records[..i] == records;
    return Ok(t);
  }

  /** The running total before the first record: zero, with the first
      record's page sizes. */
  function Start(first: MemStat): (t: MemStat)
    ensures forall f :: Get(t, f) == SummaryField([], f, first)
    ensures SameIdentity(t, Blank)
  {
    Blank.(kernelPageSize := first.kernelPageSize, mmuPageSize := first.mmuPageSize)
  }

  /** One loop turn extends the summarised prefix by one record. */
  lemma SummaryStep(t: MemStat, records: seq<MemStat>, i: nat, f: Field)
    requires i < |records|
    requires Get(t, f) == SummaryField(records[..i], f, records[0])
    ensures Get(AddRecord(t, records[i]), f) == SummaryField(records[..i + 1], f, records[0])
  {
    AddRecordField(t, records[i], f);
    if Summed(f) {
      assert records[..i + 1][..i] == records[..i];
      assert Total(records[..i + 1], f) == Total(records[..i], f) + Get(records[i], f);
      WrapAdd(Total(records[..i], f), Get(records[i], f));
    }
  }

  /** Splitting the records splits the sum. */
  lemma {:induction false} TotalConcat(a: seq<MemStat>, b: seq<MemStat>, f: Field)
    ensures Total(a + b, f) == Total(a, f) + Total(b, f)
    decreases |b|
  {
    if |b| == 0 {
      assert a + b == a;
    } else {
      var b' := b[..|b| - 1];
      assert (a + b)[..|a + b| - 1] == a + b';
      TotalConcat(a, b', f);
    }
  }

  /** The sum of one record is its field. */
  lemma TotalSingle(ms: MemStat, f: Field)
    ensures Total([ms], f) == Get(ms, f)
  {
    assert [ms][..0] == [];
  }

  /** Taking one record out of the list takes its field out of the sum. */
  lemma TotalRemove(b: seq<MemStat>, k: nat, f: Field)
    requires k < |b|
    ensures Total(b, f) == Total(b[..k] + b[k + 1..], f) + Get(b[k], f)
  {
    assert b == b[..k] + [b[k]] + b[k + 1..];
    TotalConcat(b[..k] + [b[k]], b[k + 1..], f);
    TotalConcat(b[..k], [b[k]], f);
    TotalSingle(b[k], f);
    TotalConcat(b[..k], b[k + 1..], f);
  }

  /** Taking one copy of `x` out of a list takes it out of the multiset. */
  lemma MultisetRemove(b: seq<MemStat>, k: nat)
    requires k < |b|
    ensures multiset(b[..k] + b[k + 1..]) == multiset(b) - multiset{b[k]}
  {
    assert b == b[..k] + [b[k]] + b[k + 1..];
  }

  /** The summed fields do not depend on the order of the records: any
      rearrangement of them gives the same sums. */
  lemma {:induction false} TotalPermutation(a: seq<MemStat>, b: seq<MemStat>, f: Field)
    requires multiset(a) == multiset(b)
    ensures Total(a, f) == Total(b, f)
    decreases |a|
  {
    if |a| == 0 {
      assert |b| == |multiset(b)|;
      assert b == [];
    } else {
      var x := a[|a| - 1];
      var a' := a[..|a| - 1];
      assert x in b by { assert x in multiset(a); }
      var k :| 0 <= k < |b| && b[k] == x;
      var b' := b[..k] + b[k + 1..];
      assert multiset(a') == multiset(b') by {
        MultisetRemove(a, |a| - 1);
        MultisetRemove(b, k);
        assert a[..|a| - 1] + a[|a|..] == a';
      }
      TotalPermutation(a', b', f);
      assert Total(a, f) == Total(a', f) + Get(x, f);
      TotalRemove(b, k, f);
    }
  }
}
