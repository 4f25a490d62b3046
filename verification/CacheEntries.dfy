/** Cached batches: their five representations, what each one denotes given the
    bytes on disk, and the squeeze policies that move a batch down. */
module CacheEntries {
  import opened Common
  import opened MapSums

  datatype Cell = Null | Value(n: int)
  type Rows = seq<Cell>
  type EntryId = nat

  datatype Backing = LiquidBacking | ArrowBacking

  /** The bytes of a file, by the format they were written in. */
  datatype Blob = ArrowBytes(rows: Rows) | LiquidBytes(rows: Rows)

  type Disk = map<EntryId, Blob>

  datatype CachedBatchType = ArrowType | LiquidType | SqueezedType | DiskLiquidType | DiskArrowType

  datatype CacheEntry =
    | MemoryArrow(rows: Rows, size: nat)
    | MemoryLiquid(rows: Rows, size: nat)
    | MemorySqueezedLiquid(backing: Backing, size: nat)
    | DiskLiquid
    | DiskArrow
  {
    function MemoryUsageBytes(): nat {
      match this
      case MemoryArrow(_, size) => size
      case MemoryLiquid(_, size) => size
      case MemorySqueezedLiquid(_, size) => size
      case DiskLiquid => 0
      case DiskArrow => 0
    }

    predicate OnDisk() { DiskLiquid? || DiskArrow? }

    function Type(): CachedBatchType {
      match this
      case MemoryArrow(_, _) => ArrowType
      case MemoryLiquid(_, _) => LiquidType
      case MemorySqueezedLiquid(_, _) => SqueezedType
      case DiskLiquid => DiskLiquidType
      case DiskArrow => DiskArrowType
    }

    /** Arrow, Liquid, squeezed, disk: squeezing walks this ladder downwards. */
    function Rank(): nat {
      match this
      case MemoryArrow(_, _) => 3
      case MemoryLiquid(_, _) => 2
      case MemorySqueezedLiquid(_, _) => 1
      case DiskLiquid => 0
      case DiskArrow => 0
    }
  }

  function ReadArrow(id: EntryId, disk: Disk): Option<Rows> {
    if id in disk && disk[id].ArrowBytes? then Some(disk[id].rows) else None
  }

  function ReadLiquid(id: EntryId, disk: Disk): Option<Rows> {
    if id in disk && disk[id].LiquidBytes? then Some(disk[id].rows) else None
  }

  function DiskEntry(backing: Backing): CacheEntry {
    if backing.LiquidBacking? then DiskLiquid else DiskArrow
  }

  /** The format of the bytes behind an entry that has them on disk. */
  function BackingOf(e: CacheEntry): Backing
    requires e.Rank() <= 1
  {
    match e
    case MemorySqueezedLiquid(backing, _) => backing
    case DiskLiquid => LiquidBacking
    case DiskArrow => ArrowBacking
  }

  function ReadBacking(backing: Backing, id: EntryId, disk: Disk): Option<Rows> {
    if backing.LiquidBacking? then ReadLiquid(id, disk) else ReadArrow(id, disk)
  }

  /** The rows an entry stands for; None where reading it would fail. A squeezed
      entry is completed from its backing file. */
  function Content(e: CacheEntry, id: EntryId, disk: Disk): Option<Rows> {
    match e
    case MemoryArrow(rows, _) => Some(rows)
    case MemoryLiquid(rows, _) => Some(rows)
    case MemorySqueezedLiquid(backing, _) => ReadBacking(backing, id, disk)
    case DiskLiquid => ReadLiquid(id, disk)
    case DiskArrow => ReadArrow(id, disk)
  }

  /** The files of all other entries are the same. */
  ghost predicate SameFiles(a: Disk, b: Disk, id: EntryId) {
    forall k :: k != id ==> (k in a <==> k in b) && (k in a && k in b ==> a[k] == b[k])
  }

  function Write(disk: Disk, id: EntryId, bytes: Option<Blob>): Disk {
    if bytes.Some? then disk[id := bytes.value] else disk
  }

  /** A call of the policy's `notify_insert`. */
  datatype Notice = Notice(id: EntryId, batchType: CachedBatchType)

  // ----- sums over an index -----

  type Index = map<EntryId, CacheEntry>

  predicate IsResident(index: Index, id: EntryId) { id in index && !index[id].OnDisk() }

  function MemoryMap(index: Index): map<EntryId, nat> {
    map id | id in index :: index[id].MemoryUsageBytes()
  }

  function RankMap(index: Index): map<EntryId, nat> {
    map id | id in index :: index[id].Rank()
  }

  /** The sizes of the entries that are not on disk. */
  function ResidentSizes(index: Index): map<EntryId, nat> {
    map id | id in index && !index[id].DiskLiquid? && !index[id].DiskArrow? :: index[id].size
  }

  ghost function MemoryTotal(index: Index): nat { Sum(ResidentSizes(index)) }

  /** The budget has room for the entry beside the other resident entries. */
  ghost predicate HasRoom(index: Index, id: EntryId, e: CacheEntry, max: nat) {
    e.DiskLiquid? || e.DiskArrow? || e.size + MemoryTotal(index - {id}) <= max
  }

  ghost function RankTotal(index: Index): nat { Sum(RankMap(index)) }

  /** What the entries report as their memory usage adds up to the resident sizes. */
  lemma UsageIsResidentSize(index: Index)
    ensures Sum(MemoryMap(index)) == MemoryTotal(index)
  {
    SumWithoutZeros(MemoryMap(index), ResidentSizes(index));
  }

  /** The total with one more entry: the others, and the entry's size unless it is on disk. */
  lemma MemoryTotalUpdate(index: Index, id: EntryId, e: CacheEntry)
    ensures MemoryTotal(index[id := e]) == MemoryTotal(index - {id}) + (if e.DiskLiquid? || e.DiskArrow? then 0 else e.size)
  {
    var m, n := ResidentSizes(index[id := e]), ResidentSizes(index - {id});
    if e.DiskLiquid? || e.DiskArrow? {
      assert m == n;
    } else {
      SumRemove(m, id);
      assert m - {id} == n;
    }
  }

  // ----- squeeze policies -----

  datatype SqueezePolicy = Evict | TranscodeEvict | TranscodeSqueezeEvict

  /** The bytes that an entry expects in its file. */
  predicate Expects(e: CacheEntry, bytes: Blob) {
    match e
    case MemoryArrow(_, _) => false
    case MemoryLiquid(_, _) => false
    case MemorySqueezedLiquid(backing, _) => if backing.LiquidBacking? then bytes.LiquidBytes? else bytes.ArrowBytes?
    case DiskLiquid => bytes.LiquidBytes?
    case DiskArrow => bytes.ArrowBytes?
  }

  /** What the storage relies on when a policy squeezes e into e': a disk entry
      stays as it is, a memory entry moves down the ladder, and the bytes to be
      written, if any, are the entry's rows in the format that e' expects. */
  predicate Squeezed(e: CacheEntry, e': CacheEntry, bytes: Option<Blob>) {
    match e
    case DiskLiquid => e' == e && bytes.None?
    case DiskArrow => e' == e && bytes.None?
    case MemorySqueezedLiquid(backing, _) => e' == DiskEntry(backing) && bytes.None?
    case MemoryLiquid(rows, _) => bytes.Some? && bytes.value.rows == rows && Expects(e', bytes.value)
    case MemoryArrow(rows, _) =>
      if bytes.Some? then bytes.value.rows == rows && Expects(e', bytes.value)
      else e'.MemoryLiquid? && e'.rows == rows
  }

  /** Squeezing lowers the rank of every resident entry and preserves its rows. */
  lemma SqueezedPreserves(e: CacheEntry, e': CacheEntry, bytes: Option<Blob>, id: EntryId, disk: Disk)
    requires Squeezed(e, e', bytes) && Content(e, id, disk).Some?
    ensures Content(e', id, Write(disk, id, bytes)) == Content(e, id, disk)
    ensures if e.OnDisk() then e' == e else e'.Rank() < e.Rank()
  {
  }

  /** Transcoding to Liquid may not support the data type; the encoded size is up to the encoder. */
  method Transcode(rows: Rows) returns (liquid: Option<CacheEntry>)
    ensures liquid.Some? ==> liquid.value.MemoryLiquid? && liquid.value.rows == rows
  {
    var supported: bool := *;
    var size: nat := *;
    liquid := if supported then Some(MemoryLiquid(rows, size)) else None;
  }

  /** A Liquid array may have a squeezed form, backed by its own serialized bytes. */
  method SqueezeLiquid(rows: Rows) returns (squeezed: Option<CacheEntry>)
    ensures squeezed.Some? ==> squeezed.value.MemorySqueezedLiquid? && squeezed.value.backing.LiquidBacking?
  {
    var supported: bool := *;
    var size: nat := *;
    squeezed := if supported then Some(MemorySqueezedLiquid(LiquidBacking, size)) else None;
  }

  /** With a hint an Arrow array may have a squeezed form, backed by its Arrow bytes. */
  method SqueezeArrow(rows: Rows) returns (squeezed: Option<CacheEntry>)
    ensures squeezed.Some? ==> squeezed.value.MemorySqueezedLiquid? && squeezed.value.backing.ArrowBacking?
  {
    var supported: bool := *;
    var size: nat := *;
    squeezed := if supported then Some(MemorySqueezedLiquid(ArrowBacking, size)) else None;
  }

  /** One step of the chosen policy. Without a hint an Arrow batch is never squeezed. */
  method Squeeze(policy: SqueezePolicy, e: CacheEntry, hinted: bool) returns (e': CacheEntry, bytes: Option<Blob>)
    ensures Squeezed(e, e', bytes)
    ensures e.MemoryArrow? && !hinted ==> e'.MemoryLiquid? || e'.OnDisk()
  {
    match e {
      case MemoryArrow(rows, _) =>
        if policy.TranscodeSqueezeEvict? && hinted {
          var squeezed := SqueezeArrow(rows);
          if squeezed.Some? {
            return squeezed.value, Some(ArrowBytes(rows));
          }
        }
        var liquid: Option<CacheEntry> := None;
        if !policy.Evict? {
          liquid := Transcode(rows);
        }
        if liquid.Some? {
          e', bytes := liquid.value, None;
        } else {
          e', bytes := DiskArrow, Some(ArrowBytes(rows));
        }
      case MemoryLiquid(rows, _) =>
        var squeezed: Option<CacheEntry> := None;
        if policy.TranscodeSqueezeEvict? {
          squeezed := SqueezeLiquid(rows);
        }
        bytes := Some(LiquidBytes(rows));
        e' := if squeezed.Some? then squeezed.value else DiskLiquid;
      case MemorySqueezedLiquid(backing, _) =>
        e', bytes := DiskEntry(backing), None;
      case DiskLiquid =>
        e', bytes := e, None;
      case DiskArrow =>
        e', bytes := e, None;
    }
  }
}
