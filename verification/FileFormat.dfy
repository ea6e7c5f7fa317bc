/** The OTA upgrade file: its value, the bytes the packer writes for it and the value the
    parser reads from a byte array (ZigBee Cluster Library Specification 07-5123,
    section 11.4). */
module FileFormat {
  import opened Bytes

  const MANDATORY_HEADER_LENGTH := 56
  const SEGMENT_HEADER_LENGTH := 6
  const FILE_MAGIC: u32 := 0x0BEEF11E
  const VENDOR_LEGRAND: u16 := 0x1021

  datatype SubElement = SubElement(tag: u16, length: u32, data: seq<u8>)

  type HeaderString = s: seq<u8> | |s| == 32 witness seq(32, _ => 0)

  datatype FileData = FileData(
    upgradeFileId: u32,
    headerVersion: u16,
    headerLength: u16,
    headerFieldControl: u16,
    manufacturerCode: u16,
    imageType: u16,
    fileVersion: u32,
    zigBeeStackVersion: u16,
    headerString: HeaderString,
    totalImageSize: u32,
    securityCredentialVersion: u8,
    upgradeFileDestination: u64,
    minHardwareVersion: u16,
    maxHardwareVersion: u16,
    subElements: seq<SubElement>,
    raw: ByteArray)

  // Header field control bits.

  predicate HasSecurity(fc: u16) { fc % 2 == 1 }

  predicate HasDestination(fc: u16) { fc / 2 % 2 == 1 }

  predicate HasHardware(fc: u16) { fc / 4 % 2 == 1 }

  function SecurityLength(fc: u16): nat { if HasSecurity(fc) then 1 else 0 }

  function DestinationLength(fc: u16): nat { if HasDestination(fc) then 8 else 0 }

  function HardwareLength(fc: u16): nat { if HasHardware(fc) then 4 else 0 }

  function HeaderLength(fc: u16): nat {
    MANDATORY_HEADER_LENGTH + SecurityLength(fc) + DestinationLength(fc) + HardwareLength(fc)
  }

  // ---- packing ----

  function PrintElement(e: SubElement): seq<u8> {
    Le(e.tag, 2) + Le(e.length, 4) + e.data
  }

  function PrintElements(es: seq<SubElement>): seq<u8> {
    if es == [] then [] else PrintElement(es[0]) + PrintElements(es[1..])
  }

  function ElementsSize(es: seq<SubElement>): nat {
    if es == [] then 0 else SEGMENT_HEADER_LENGTH + |es[0].data| + ElementsSize(es[1..])
  }

  function PrintedSize(f: FileData): nat {
    HeaderLength(f.headerFieldControl) + ElementsSize(f.subElements)
  }

  /** Packing first recomputes the two size fields, the total one in 32-bit arithmetic. */
  function Sized(f: FileData): FileData {
    f.(headerLength := HeaderLength(f.headerFieldControl),
       totalImageSize := PrintedSize(f) % 0x1_0000_0000)
  }

  function PrintFixedHeader(f: FileData): seq<u8> {
    Le(f.upgradeFileId, 4) + Le(f.headerVersion, 2) + Le(f.headerLength, 2) + Le(f.headerFieldControl, 2)
    + Le(f.manufacturerCode, 2) + Le(f.imageType, 2) + Le(f.fileVersion, 4) + Le(f.zigBeeStackVersion, 2)
    + f.headerString + Le(f.totalImageSize, 4)
  }

  function SecurityBytes(f: FileData): seq<u8> {
    if HasSecurity(f.headerFieldControl) then [f.securityCredentialVersion] else []
  }

  function DestinationBytes(f: FileData): seq<u8> {
    if HasDestination(f.headerFieldControl) then Le(f.upgradeFileDestination, 8) else []
  }

  function HardwareBytes(f: FileData): seq<u8> {
    if HasHardware(f.headerFieldControl) then Le(f.minHardwareVersion, 2) + Le(f.maxHardwareVersion, 2) else []
  }

  function PrintOptionalHeader(f: FileData): seq<u8> {
    SecurityBytes(f) + DestinationBytes(f) + HardwareBytes(f)
  }

  function PrintHeader(f: FileData): seq<u8> {
    PrintFixedHeader(f) + PrintOptionalHeader(f)
  }

  function Print(f: FileData): seq<u8> {
    PrintHeader(Sized(f)) + PrintElements(f.subElements)
  }

  // ---- parsing ----

  /** The four magic bytes stand at position i. */
  predicate MagicAt(arr: seq<u8>, i: nat) {
    i + 4 <= |arr| && arr[i] == 0x1E && arr[i + 1] == 0xF1 && arr[i + 2] == 0xEE && arr[i + 3] == 0x0B
  }

  /** The first position from i on where the magic stands, or -1. */
  function IndexOfMagic(arr: seq<u8>, i: nat): (r: int)
    requires i <= |arr|
    ensures -1 <= r <= |arr|
    decreases |arr| - i
  {
    if MagicAt(arr, i) then i else if i == |arr| then -1 else IndexOfMagic(arr, i + 1)
  }

  function HeaderStringAt(s: seq<u8>): HeaderString {
    seq(32, i requires 0 <= i < 32 => Get8(s, 20 + i))
  }

  /** The fixed header fields, read from s, which starts at the magic. */
  function ReadFixedHeader(f: FileData, s: seq<u8>): FileData {
    f.(upgradeFileId := Get32(s, 0),
       headerVersion := Get16(s, 4),
       headerLength := Get16(s, 6),
       headerFieldControl := Get16(s, 8),
       manufacturerCode := Get16(s, 10),
       imageType := Get16(s, 12),
       fileVersion := Get32(s, 14),
       zigBeeStackVersion := Get16(s, 18),
       headerString := HeaderStringAt(s),
       totalImageSize := Get32(s, 52))
  }

  /** Optional fields keep their previous value when their bit is clear. */
  function ReadOptionalHeader(f: FileData, s: seq<u8>): FileData {
    var fc := f.headerFieldControl;
    var p := MANDATORY_HEADER_LENGTH;
    var q := p + SecurityLength(fc);
    var r := q + DestinationLength(fc);
    f.(securityCredentialVersion := if HasSecurity(fc) then Get8(s, p) else f.securityCredentialVersion,
       upgradeFileDestination := if HasDestination(fc) then Get64(s, q) else f.upgradeFileDestination,
       minHardwareVersion := if HasHardware(fc) then Get16(s, r) else f.minHardwareVersion,
       maxHardwareVersion := if HasHardware(fc) then Get16(s, r + 2) else f.maxHardwareVersion)
  }

  /** Where the elements start: extra header bytes beyond the known fields are discarded. */
  function BodyStart(f: FileData): nat {
    if f.headerLength > HeaderLength(f.headerFieldControl) then f.headerLength
    else HeaderLength(f.headerFieldControl)
  }

  /** The element whose six-byte header starts at p and ends before the end of s. Its data
      is cut at the end of the array. */
  function ElementAt(s: seq<u8>, p: nat): SubElement
    requires p + SEGMENT_HEADER_LENGTH < |s|
  {
    var length := Get32(s, p + 2);
    var b := p + SEGMENT_HEADER_LENGTH;
    SubElement(Get16(s, p), length, s[b..b + Min(length, |s| - b)])
  }

  /** Position behind the element at p. */
  function Next(s: seq<u8>, p: nat): (next: nat)
    requires p + SEGMENT_HEADER_LENGTH < |s|
    ensures p + SEGMENT_HEADER_LENGTH <= next <= |s|
  {
    p + SEGMENT_HEADER_LENGTH + |ElementAt(s, p).data|
  }

  /** The elements read from position p on. A header with nothing behind it is dropped. */
  function ParseElements(s: seq<u8>, p: nat, mfc: u16, total: u32): seq<SubElement>
    decreases if p <= |s| then |s| - p else 0, 0
  {
    if p + SEGMENT_HEADER_LENGTH >= |s| then []
    else [ElementAt(s, p)] + ParseRest(s, Next(s, p), mfc, total)
  }

  /** The elements behind one that ends at p: Legrand files end where the declared total size
      is reached. */
  function ParseRest(s: seq<u8>, p: nat, mfc: u16, total: u32): seq<SubElement>
    decreases if p <= |s| then |s| - p else 0, 1
  {
    if mfc == VENDOR_LEGRAND && p == total then [] else ParseElements(s, p, mfc, total)
  }

  /** The parser on the bytes from the magic on. A header length below the minimum stops it
      after three fields; otherwise it fails exactly when no element was found. */
  function ParseFrom(f: FileData, s: ByteArray): (r: (FileData, bool)) {
    var g := ReadFixedHeader(f, s);
    if g.headerLength < MANDATORY_HEADER_LENGTH then
      (f.(upgradeFileId := g.upgradeFileId, headerVersion := g.headerVersion, headerLength := g.headerLength), false)
    else
      var h := ReadOptionalHeader(g, s);
      var es := ParseElements(s, BodyStart(h), h.manufacturerCode, h.totalImageSize);
      (h.(subElements := es, raw := s[..Min(h.totalImageSize, |s|)]), es != [])
  }

  /** The parser on a whole array, overwriting f. */
  function Parse(f: FileData, arr: ByteArray): (r: (FileData, bool)) {
    if |arr| < MANDATORY_HEADER_LENGTH then (f, false)
    else
      var offset := IndexOfMagic(arr, 0);
      if offset < 0 then (f, false) else ParseFrom(f, arr[offset..])
  }
}
