/** The per-mapping record and the table of accounting keys the field block
    is matched against. */
module MemStats {
  import opened Types

  /** One mapping of `/proc/[pid]/smaps`: the header-line fields, the fifteen
      accounting fields (raw kB magnitudes) and the VmFlags tokens. */
  datatype MemStat = MemStat(
    vmStart: U64,
    vmEnd: U64,
    read: bool,
    write: bool,
    exec: bool,
    mayShare: bool,
    pageOffset: U64,
    majorDev: U8,
    minorDev: U8,
    inode: U64,
    fileName: string,
    size: U64,
    rss: U64,
    pss: U64,
    sharedClean: U64,
    sharedDirty: U64,
    privateClean: U64,
    privateDirty: U64,
    referenced: U64,
    anonymous: U64,
    anonymousTHP: U64,
    swap: U64,
    kernelPageSize: U64,
    mmuPageSize: U64,
    locked: U64,
    nonlinear: U64,
    vmFlags: set<string>)

  /** The record every parse starts from: all zero, empty name, no flags. */
  const Blank: MemStat :=
    MemStat(0, 0, false, false, false, false, 0, 0, 0, 0, "",
            0, 0, 0, 0, 0, 0, 0, 0, 0, 0, 0, 0, 0, 0, 0, {})

  /** The accounting fields, one per destination slot of the entry table. */
  datatype Field =
    | Size | Rss | Pss | SharedClean | SharedDirty | PrivateClean | PrivateDirty
    | Referenced | Anonymous | AnonymousTHP | Swap | KernelPageSize | MMUPageSize
    | Locked | Nonlinear

  function Get(ms: MemStat, f: Field): U64 {
    match f
    case Size => ms.size
    case Rss => ms.rss
    case Pss => ms.pss
    case SharedClean => ms.sharedClean
    case SharedDirty => ms.sharedDirty
    case PrivateClean => ms.privateClean
    case PrivateDirty => ms.privateDirty
    case Referenced => ms.referenced
    case Anonymous => ms.anonymous
    case AnonymousTHP => ms.anonymousTHP
    case Swap => ms.swap
    case KernelPageSize => ms.kernelPageSize
    case MMUPageSize => ms.mmuPageSize
    case Locked => ms.locked
    case Nonlinear => ms.nonlinear
  }

  /** The header-line fields and the flags: everything but the accounting. */
  predicate SameIdentity(a: MemStat, b: MemStat) {
    && a.vmStart == b.vmStart && a.vmEnd == b.vmEnd
    && a.read == b.read && a.write == b.write && a.exec == b.exec && a.mayShare == b.mayShare
    && a.pageOffset == b.pageOffset && a.majorDev == b.majorDev && a.minorDev == b.minorDev
    && a.inode == b.inode && a.fileName == b.fileName && a.vmFlags == b.vmFlags
  }

  /** Storing through the entry's pointer: exactly field `f` becomes `v`. */
  function Set(ms: MemStat, f: Field, v: U64): (r: MemStat)
    ensures Get(r, f) == v
    ensures forall g :: g != f ==> Get(r, g) == Get(ms, g)
    ensures SameIdentity(r, ms)
  {
    match f
    case Size => ms.(size := v)
    case Rss => ms.(rss := v)
    case Pss => ms.(pss := v)
    case SharedClean => ms.(sharedClean := v)
    case SharedDirty => ms.(sharedDirty := v)
    case PrivateClean => ms.(privateClean := v)
    case PrivateDirty => ms.(privateDirty := v)
    case Referenced => ms.(referenced := v)
    case Anonymous => ms.(anonymous := v)
    case AnonymousTHP => ms.(anonymousTHP := v)
    case Swap => ms.(swap := v)
    case KernelPageSize => ms.(kernelPageSize := v)
    case MMUPageSize => ms.(mmuPageSize := v)
    case Locked => ms.(locked := v)
    case Nonlinear => ms.(nonlinear := v)
  }

  /** Two records with the same identity and the same value in every
      accounting field are the same record. */
  lemma Extensionality(a: MemStat, b: MemStat)
    requires SameIdentity(a, b)
    requires forall f :: Get(a, f) == Get(b, f)
    ensures a == b
  {
    assert Get(a, Size) == Get(b, Size) && Get(a, Rss) == Get(b, Rss) && Get(a, Pss) == Get(b, Pss);
    assert Get(a, SharedClean) == Get(b, SharedClean) && Get(a, SharedDirty) == Get(b, SharedDirty);
    assert Get(a, PrivateClean) == Get(b, PrivateClean) && Get(a, PrivateDirty) == Get(b, PrivateDirty);
    assert Get(a, Referenced) == Get(b, Referenced) && Get(a, Anonymous) == Get(b, Anonymous);
    assert Get(a, AnonymousTHP) == Get(b, AnonymousTHP) && Get(a, Swap) == Get(b, Swap);
    assert Get(a, KernelPageSize) == Get(b, KernelPageSize) && Get(a, MMUPageSize) == Get(b, MMUPageSize);
    assert Get(a, Locked) == Get(b, Locked) && Get(a, Nonlinear) == Get(b, Nonlinear);
  }

  /** A slot of the entry table: where the value goes, and whether a record
      may lack the key. */
  datatype Entry = Entry(field: Field, optional: bool)

  /** The keys of the field block the parser cares about. `Linear` is the
      key it accepts for the nonlinear field. */
  const Entries: map<string, Entry> := map[
    "Size" := Entry(Size, false),
    "Rss" := Entry(Rss, true),
    "Pss" := Entry(Pss, false),
    "Shared_Clean" := Entry(SharedClean, true),
    "Shared_Dirty" := Entry(SharedDirty, true),
    "Private_Clean" := Entry(PrivateClean, true),
    "Private_Dirty" := Entry(PrivateDirty, false),
    "Referenced" := Entry(Referenced, false),
    "Anonymous" := Entry(Anonymous, true),
    "AnonHugePages" := Entry(AnonymousTHP, false),
    "Swap" := Entry(Swap, false),
    "KernelPageSize" := Entry(KernelPageSize, false),
    "MMUPageSize" := Entry(MMUPageSize, true),
    "Locked" := Entry(Locked, false),
    "Linear" := Entry(Nonlinear, true)
  ]

  /** The key whose line fills field `f`. */
  function KeyOf(f: Field): string {
    match f
    case Size => "Size"
    case Rss => "Rss"
    case Pss => "Pss"
    case SharedClean => "Shared_Clean"
    case SharedDirty => "Shared_Dirty"
    case PrivateClean => "Private_Clean"
    case PrivateDirty => "Private_Dirty"
    case Referenced => "Referenced"
    case Anonymous => "Anonymous"
    case AnonymousTHP => "AnonHugePages"
    case Swap => "Swap"
    case KernelPageSize => "KernelPageSize"
    case MMUPageSize => "MMUPageSize"
    case Locked => "Locked"
    case Nonlinear => "Linear"
  }

  /** The table is one-to-one: every field has exactly one key, and KeyOf
      recovers the key of every table slot. */
  lemma EntriesBijective()
    ensures forall f :: KeyOf(f) in Entries && Entries[KeyOf(f)].field == f
    ensures forall k :: k in Entries ==> KeyOf(Entries[k].field) == k
  {
    forall f ensures KeyOf(f) in Entries && Entries[KeyOf(f)].field == f {
      KeyOfInTable(f);
    }
    forall k | k in Entries ensures KeyOf(Entries[k].field) == k {
      TableKeyOf(k);
    }
  }

  lemma KeyOfInTable(f: Field)
    ensures KeyOf(f) in Entries && Entries[KeyOf(f)].field == f
  {
    match f
    case Size => case Rss => case Pss => case SharedClean => case SharedDirty =>
    case PrivateClean => case PrivateDirty => case Referenced => case Anonymous =>
    case AnonymousTHP => case Swap => case KernelPageSize => case MMUPageSize =>
    case Locked => case Nonlinear =>
  }

  lemma TableKeyOf(k: string)
    requires k in Entries
    ensures KeyOf(Entries[k].field) == k
  {
  }

  /** The slot of a table key fills field `f` exactly when the key is the
      key of `f`. */
  lemma FieldOfKey(key: string, f: Field)
    ensures KeyOf(f) in Entries && Entries[KeyOf(f)].field == f
    ensures key in Entries ==> (Entries[key].field == f <==> key == KeyOf(f))
  {
    EntriesBijective();
  }

  /** Keys a record must carry before its VmFlags line. */
  function RequiredKeys(): set<string> {
    set k | k in Entries && !Entries[k].optional
  }

  /** The required keys are exactly the eight present in every supported
      kernel's output; the other seven default to zero. */
  lemma RequiredKeysAre()
    ensures RequiredKeys() ==
      {"Size", "Pss", "Private_Dirty", "Referenced", "AnonHugePages", "Swap", "KernelPageSize", "Locked"}
    ensures Entries.Keys - RequiredKeys() ==
      {"Rss", "Shared_Clean", "Shared_Dirty", "Private_Clean", "Anonymous", "MMUPageSize", "Linear"}
  {
  }
}
