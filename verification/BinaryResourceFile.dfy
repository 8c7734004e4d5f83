/** A whole resource file as it is written, and the resource it stands for. */
module BinaryResourceFile {
  import opened Bytes
  import Decimal
  import opened BinaryResource
  import opened BinaryResourceWire

  /** A directory path: any text, or the number of a subresource, as the legacy engines write it. */
  datatype WPath = Plain(text: seq<byte>) | Local(negative: bool, magnitude: nat)

  datatype WRow = WRow(kind: seq<byte>, path: seq<byte>, uid: nat)
  datatype WProperty = WProperty(name: WName, value: Wire)
  datatype WRecord = WRecord(path: WPath, kind: seq<byte>, properties: seq<WProperty>)

  /** The `named`, `uids`, `double` and `script` fields are a modern header's; `doubles` is a legacy one's. */
  datatype WFile = WFile(
    order: nat, doubles: nat, major: nat, minor: nat, version: nat, kind: seq<byte>, imported: nat,
    named: bool, uids: bool, double: bool, script: Option<seq<byte>>, spare: nat, uid: nat, reserved: seq<nat>,
    strings: seq<seq<byte>>, externals: seq<WRow>, records: seq<WRecord>)

  function Big(f: WFile): bool
  {
    f.order != 0
  }

  function WithUids(f: WFile): bool
  {
    f.major == 4 && f.uids
  }

  /** Only a modern file with named ids refers to its subresources by place. */
  function ByPlace(f: WFile): bool
  {
    f.major == 4 && f.named
  }

  // ---- paths and ids

  const LOCAL_PREFIX: seq<byte> := [0x6C, 0x6F, 0x63, 0x61, 0x6C, 0x3A, 0x2F, 0x2F]

  function PathText(p: WPath): seq<byte>
  {
    match p
    case Plain(text) => text
    case Local(negative, magnitude) => LOCAL_PREFIX + ((if negative then [0x2D] else []) + Decimal.Digits(magnitude))
  }

  /** A negative number stands for its 32-bit complement. */
  function Id(p: WPath): (id: nat)
    requires p.Local? && PathOk(p)
    ensures id < SPAN32
  {
    if p.negative && p.magnitude > 0 then SPAN32 - p.magnitude else p.magnitude
  }

  /** A plain path does not look like a number, and a number fits 32 bits, or 31 behind a minus. */
  predicate PathOk(p: WPath)
  {
    match p
    case Plain(text) => !(LOCAL_PREFIX <= text)
    case Local(negative, magnitude) => magnitude <= if negative then 0x8000_0000 else 0xFFFF_FFFF
  }

  /** The first `n` records' paths are good, and no two of them have one number. */
  predicate IdsOk(records: seq<WRecord>, n: nat)
    requires n <= |records|
  {
    && (forall k :: 0 <= k < n ==> PathOk(records[k].path))
    && forall j, k :: 0 <= j < k < n && records[j].path.Local? && records[k].path.Local? ==> Id(records[j].path) != Id(records[k].path)
  }

  /** The place of the record behind each number, among the first `n` records. */
  function Ids(records: seq<WRecord>, n: nat): map<nat, nat>
    requires n <= |records| && forall k :: 0 <= k < n ==> PathOk(records[k].path)
  {
    if n == 0 then map[]
    else if records[n - 1].path.Local? then Ids(records, n - 1)[Id(records[n - 1].path) := n - 1]
    else Ids(records, n - 1)
  }

  /** The last record is the main resource, whose path is never a number. */
  function Subresources(f: WFile): nat
  {
    if f.records == [] then 0 else |f.records| - 1
  }

  // ---- what the file settles

  predicate HeadOk(f: WFile, most: nat)
  {
    && f.order < SPAN32 && f.doubles < SPAN32 && f.minor < SPAN32 && f.imported < SPAN64 && f.uid < SPAN64
    && 2 <= f.major <= 4 && f.version <= (if f.major == 2 then 1 else if f.major == 3 then 3 else 6)
    && TextOk(most, f.kind) && (f.script.Some? ==> TextOk(most, f.script.value))
    && f.spare < 0x1000_0000 && |f.reserved| == (if f.major == 4 then 11 else 14)
    && forall i :: 0 <= i < |f.reserved| ==> f.reserved[i] < SPAN32
  }

  predicate TablesOk(f: WFile, most: nat)
  {
    && |f.strings| < SPAN32 && |f.externals| < SPAN32 && |f.records| < SPAN32
    && (forall s :: s in f.strings ==> TextOk(most, s))
    && (forall r :: r in f.externals ==> TextOk(most, r.kind) && TextOk(most, r.path) && r.uid < SPAN64)
    && (forall r :: r in f.records ==> TextOk(most, PathText(r.path)))
    && (!ByPlace(f) ==> IdsOk(f.records, Subresources(f)))
  }

  function Settled(f: WFile, limits: Limits, sizes: Sizes): Terms
    requires TablesOk(f, limits.text)
  {
    Terms(Big(f), if f.major == 4 then f.double else f.doubles != 0, f.major == 4, f.major == 2, ByPlace(f), f.version,
          f.strings, |f.externals|, |f.records|, if ByPlace(f) then map[] else Ids(f.records, Subresources(f)),
          limits.text, limits.depth, sizes)
  }

  function NameOf(t: Terms, n: WName): seq<byte>
    requires NameOk(t, n)
  {
    match n
    case Indexed(place) => t.strings[place]
    case Inline(text) => text
  }

  predicate PropertyOk(t: Terms, p: WProperty)
  {
    NameOk(t, p.name) && NameOf(t, p.name) != [] && Writable(t, p.value) && Shallow(t, p.value, 1)
  }

  predicate RecordOk(t: Terms, r: WRecord)
  {
    TextOk(t.text, r.kind) && |r.properties| < SPAN32 && forall p :: p in r.properties ==> PropertyOk(t, p)
  }

  predicate RecordsOk(t: Terms, records: seq<WRecord>)
  {
    forall r :: r in records ==> RecordOk(t, r)
  }

  predicate FileOk(f: WFile, limits: Limits, sizes: Sizes)
  {
    HeadOk(f, limits.text) && TablesOk(f, limits.text) && RecordsOk(Settled(f, limits, sizes), f.records)
  }

  // ---- the header

  function Flags(f: WFile): nat
  {
    (if f.named then 1 else 0) + (if f.uids then 2 else 0) + (if f.double then 4 else 0) + (if f.script.Some? then 8 else 0) + 16 * f.spare
  }

  function PrintTail(f: WFile): seq<byte>
  {
    if f.major == 4 then
      Num(Big(f), Flags(f), 4) + (Num(Big(f), f.uid, 8)
      + ((if f.script.Some? then PrintText(Big(f), f.script.value) else []) + Nums(Big(f), f.reserved, 4)))
    else Nums(Big(f), f.reserved, 4)
  }

  /** Behind the byte order, which itself is little-endian. */
  function PrintVersions(f: WFile): seq<byte>
  {
    Nums(Big(f), [f.doubles, f.major, f.minor, f.version], 4) + (PrintText(Big(f), f.kind) + (Num(Big(f), f.imported, 8) + PrintTail(f)))
  }

  function PrintHead(f: WFile, magic: bool): seq<byte>
  {
    (if magic then [0x52, 0x53, 0x52, 0x43] else []) + (LittleEndian(f.order, 4) + PrintVersions(f))
  }

  // ---- the tables

  function PrintExternal(big: bool, uids: bool, r: WRow): (b: seq<byte>)
    ensures |b| >= if uids then 16 else 8
  {
    PrintText(big, r.kind) + (PrintText(big, r.path) + if uids then Num(big, r.uid, 8) else [])
  }

  function PrintExternals(big: bool, uids: bool, rs: seq<WRow>): (b: seq<byte>)
    ensures |b| >= |rs| * if uids then 16 else 8
  {
    if rs == [] then [] else PrintExternal(big, uids, rs[0]) + PrintExternals(big, uids, rs[1..])
  }

  function PrintInternal(big: bool, row: Internal): (b: seq<byte>)
    ensures |b| == |row.path| + 13
  {
    PrintText(big, row.path) + Num(big, row.offset, 8)
  }

  function PrintInternals(big: bool, rows: seq<Internal>): (b: seq<byte>)
    ensures |b| >= 12 * |rows|
  {
    if rows == [] then [] else PrintInternal(big, rows[0]) + PrintInternals(big, rows[1..])
  }

  /** The bytes of the directory, whatever its offsets. */
  function DirectorySize(records: seq<WRecord>): nat
  {
    if records == [] then 0 else |PathText(records[0].path)| + 13 + DirectorySize(records[1..])
  }

  function PrintStringTable(f: WFile): seq<byte>
  {
    Num(Big(f), |f.strings|, 4) + PrintTexts(Big(f), f.strings)
  }

  function PrintExternalTable(f: WFile): seq<byte>
  {
    Num(Big(f), |f.externals|, 4) + PrintExternals(Big(f), WithUids(f), f.externals)
  }

  function PrintDirectory(big: bool, rows: seq<Internal>): seq<byte>
  {
    Num(big, |rows|, 4) + PrintInternals(big, rows)
  }

  // ---- the records

  function PrintProperty(t: Terms, p: WProperty): (b: seq<byte>)
    requires PropertyOk(t, p)
    ensures |b| >= 8
  {
    PrintName(t.bigEndian, p.name) + Print(t, p.value)
  }

  function PrintProperties(t: Terms, ps: seq<WProperty>): (b: seq<byte>)
    requires forall p :: p in ps ==> PropertyOk(t, p)
    ensures |b| >= 8 * |ps|
  {
    if ps == [] then [] else PrintProperty(t, ps[0]) + PrintProperties(t, ps[1..])
  }

  function PrintRecord(t: Terms, r: WRecord): seq<byte>
    requires RecordOk(t, r)
  {
    PrintText(t.bigEndian, r.kind) + (Num(t.bigEndian, |r.properties|, 4) + PrintProperties(t, r.properties))
  }

  function PrintRecords(t: Terms, records: seq<WRecord>): seq<byte>
    requires RecordsOk(t, records)
  {
    if records == [] then [] else PrintRecord(t, records[0]) + PrintRecords(t, records[1..])
  }

  /** The directory of records that lie one behind the other from `at` on. */
  function Directory(t: Terms, records: seq<WRecord>, at: nat): (rows: seq<Internal>)
    requires RecordsOk(t, records)
    ensures |rows| == |records|
  {
    if records == [] then []
    else [Internal(PathText(records[0].path), at)] + Directory(t, records[1..], at + |PrintRecord(t, records[0])|)
  }

  // ---- the file

  function RecordsStart(f: WFile, magic: bool): nat
  {
    |PrintHead(f, magic)| + |PrintStringTable(f)| + |PrintExternalTable(f)| + 4 + DirectorySize(f.records)
  }

  /** The header, the three tables, and the records in the order of the directory. */
  function PrintFile(f: WFile, magic: bool, limits: Limits, sizes: Sizes): seq<byte>
    requires FileOk(f, limits, sizes)
  {
    var t := Settled(f, limits, sizes);
    PrintHead(f, magic)
    + (PrintStringTable(f)
       + (PrintExternalTable(f)
          + (PrintDirectory(Big(f), Directory(t, f.records, RecordsStart(f, magic))) + PrintRecords(t, f.records))))
  }

  // ---- the resource

  function Externals(rs: seq<WRow>): seq<External>
  {
    seq(|rs|, i requires 0 <= i < |rs| => External(rs[i].kind, rs[i].path))
  }

  function PropertyOf(t: Terms, p: WProperty, at: nat): Property
    requires PropertyOk(t, p)
  {
    Property(NameOf(t, p.name), Meaning(t, p.value, at + |PrintName(t.bigEndian, p.name)|))
  }

  function PropertiesOf(t: Terms, ps: seq<WProperty>, at: nat): seq<Property>
    requires forall p :: p in ps ==> PropertyOk(t, p)
  {
    if ps == [] then [] else [PropertyOf(t, ps[0], at)] + PropertiesOf(t, ps[1..], at + |PrintProperty(t, ps[0])|)
  }

  function RecordOf(t: Terms, r: WRecord, at: nat): Record
    requires RecordOk(t, r)
  {
    Record(PathText(r.path), r.kind, PropertiesOf(t, r.properties, at + |r.kind| + 9))
  }

  function RecordsOf(t: Terms, records: seq<WRecord>, at: nat): seq<Record>
    requires RecordsOk(t, records)
  {
    if records == [] then []
    else [RecordOf(t, records[0], at)] + RecordsOf(t, records[1..], at + |PrintRecord(t, records[0])|)
  }

  function ResourceOf(f: WFile, magic: bool, limits: Limits, sizes: Sizes): Resource
    requires FileOk(f, limits, sizes)
  {
    var t, at := Settled(f, limits, sizes), RecordsStart(f, magic);
    Resource(Header(f.major, f.minor, f.version, f.kind), Externals(f.externals), Directory(t, f.records, at), RecordsOf(t, f.records, at))
  }

  // ---- what reading it takes

  function HeadCost(f: WFile): nat
  {
    |f.kind| + 1 + if f.major == 4 && f.script.Some? then |f.script.value| + 1 else 0
  }

  function ExternalsCost(rs: seq<WRow>): nat
  {
    if rs == [] then 0 else |rs[0].kind| + 1 + (|rs[0].path| + 1) + ExternalsCost(rs[1..])
  }

  function PathsCost(records: seq<WRecord>): nat
  {
    if records == [] then 0 else |PathText(records[0].path)| + 1 + PathsCost(records[1..])
  }

  function StringsCharge(f: WFile, sizes: Sizes): nat
  {
    |f.strings| * sizes.text + TextsCost(f.strings)
  }

  function ExternalsCharge(f: WFile, sizes: Sizes): nat
  {
    |f.externals| * sizes.external + ExternalsCost(f.externals)
  }

  function DirectoryCharge(f: WFile, sizes: Sizes): nat
  {
    |f.records| * sizes.internal + PathsCost(f.records)
  }

  function TablesCharge(f: WFile, sizes: Sizes): nat
  {
    StringsCharge(f, sizes) + ExternalsCharge(f, sizes) + DirectoryCharge(f, sizes)
  }

  function IdsCharge(f: WFile, sizes: Sizes): nat
  {
    if ByPlace(f) then 0 else Subresources(f) * sizes.id
  }

  function PropertyCost(t: Terms, p: WProperty): nat
    requires PropertyOk(t, p)
  {
    NameCost(t, p.name) + Cost(t, p.value)
  }

  function PropertiesCharge(t: Terms, ps: seq<WProperty>): nat
    requires forall p :: p in ps ==> PropertyOk(t, p)
  {
    |ps| * t.sizes.property + PropertiesCost(t, ps)
  }

  function PropertiesCost(t: Terms, ps: seq<WProperty>): nat
    requires forall p :: p in ps ==> PropertyOk(t, p)
  {
    if ps == [] then 0 else PropertyCost(t, ps[0]) + PropertiesCost(t, ps[1..])
  }

  function PropertiesNodes(ps: seq<WProperty>): (n: nat)
    ensures n >= |ps|
  {
    if ps == [] then 0 else Nodes(ps[0].value) + PropertiesNodes(ps[1..])
  }

  function RecordCost(t: Terms, r: WRecord): nat
    requires RecordOk(t, r)
  {
    |PathText(r.path)| + 1 + (|r.kind| + 1 + PropertiesCharge(t, r.properties))
  }

  function RecordsCost(t: Terms, records: seq<WRecord>): nat
    requires RecordsOk(t, records)
  {
    if records == [] then 0 else RecordCost(t, records[0]) + RecordsCost(t, records[1..])
  }

  function RecordsCharge(t: Terms, records: seq<WRecord>): nat
    requires RecordsOk(t, records)
  {
    |records| * t.sizes.record + RecordsCost(t, records)
  }

  function RecordsNodes(records: seq<WRecord>): nat
  {
    if records == [] then 0 else PropertiesNodes(records[0].properties) + RecordsNodes(records[1..])
  }

  /** The budgets hold the file: its bytes, what reading it allocates, and its values. */
  predicate Within(f: WFile, magic: bool, limits: Limits, sizes: Sizes)
    requires FileOk(f, limits, sizes)
  {
    var t, size := Settled(f, limits, sizes), |PrintFile(f, magic, limits, sizes)|;
    && size <= limits.input && size < SPAN64 && f.imported <= size
    && HeadCost(f) + TablesCharge(f, sizes) + IdsCharge(f, sizes) + RecordsCharge(t, f.records) <= limits.allocation
    && RecordsNodes(f.records) <= limits.nodes
  }
}
