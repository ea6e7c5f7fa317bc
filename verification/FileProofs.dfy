/** What packing and parsing promise each other. */
module FileProofs {
  import opened Bytes
  import opened FileFormat
  import opened Sequences

  /** Element lists the file format can carry: every element but the last states its exact
      length, the last one may state more than it holds but holds something. */
  predicate Packable(es: seq<SubElement>) {
    es != [] && Exact(es) && Last(es).data != []
  }

  predicate Exact(es: seq<SubElement>) {
    && (forall i :: 0 <= i < |es| - 1 ==> es[i].length == |es[i].data|)
    && (es != [] ==> Last(es).length >= |Last(es).data|)
  }

  /** Position just behind the last element of a parsed file, counted from the magic. */
  function ParsedEnd(f: FileData): nat {
    BodyStart(f) + ElementsSize(f.subElements)
  }

  // ---- the walk over the elements ----

  lemma {:induction false} PrintElementsSize(es: seq<SubElement>)
    ensures |PrintElements(es)| == ElementsSize(es)
  {
    if es != [] { PrintElementsSize(es[1..]); }
  }

  lemma {:induction false} SizePositive(es: seq<SubElement>)
    ensures es != [] ==> ElementsSize(es) >= SEGMENT_HEADER_LENGTH + |Last(es).data|
  {
    if |es| > 1 { SizePositive(es[1..]); }
  }

  lemma {:induction false} ConsElement(e: SubElement, rest: seq<SubElement>)
    ensures PrintElements([e] + rest) == PrintElement(e) + PrintElements(rest)
    ensures ElementsSize([e] + rest) == SEGMENT_HEADER_LENGTH + |e.data| + ElementsSize(rest)
    ensures Last([e] + rest) == if rest == [] then e else Last(rest)
  {
    assert ([e] + rest)[1..] == rest;
  }

  lemma {:induction false} ElementSlices(s: seq<u8>, p: nat)
    requires p + SEGMENT_HEADER_LENGTH < |s|
    ensures PrintElement(ElementAt(s, p)) == s[p..Next(s, p)]
  {
    Write16(s, p);
    Write32(s, p + 2);
  }

  /** What a walk from p that kept es guarantees: the kept elements, packed again, are the
      input bytes in order; every element but the last is whole, and the last is cut only by
      the end of the input; an element at the very end has data; what is left over is at most
      one element header, unless the Legrand stop fired. */
  predicate Walked(s: seq<u8>, p: nat, mfc: u16, total: u32, es: seq<SubElement>) {
    var end := p + ElementsSize(es);
    && end <= |s|
    && PrintElements(es) == s[p..end]
    && Exact(es)
    && (es != [] && Last(es).length > |Last(es).data| ==> end == |s|)
    && (es != [] && end == |s| ==> Last(es).data != [])
    && (|s| - end <= SEGMENT_HEADER_LENGTH || (mfc == VENDOR_LEGRAND && end == total))
  }

  lemma {:induction false} WalkedCons(s: seq<u8>, p: nat, mfc: u16, total: u32, e: SubElement, rest: seq<SubElement>)
    requires p + SEGMENT_HEADER_LENGTH < |s| && e == ElementAt(s, p) && Walked(s, Next(s, p), mfc, total, rest)
    ensures Walked(s, p, mfc, total, [e] + rest)
  {
    var next := Next(s, p);
    var end := next + ElementsSize(rest);
    var es := [e] + rest;
    ElementSlices(s, p);
    ConsElement(e, rest);
    SizePositive(rest);
    assert s[p..next] + s[next..end] == s[p..end];
    assert forall i :: 1 <= i < |es| ==> es[i] == rest[i - 1];
  }

  /** The walk over the elements loses nothing. */
  lemma {:induction false} LosslessWalk(s: seq<u8>, p: nat, mfc: u16, total: u32)
    requires p <= |s|
    ensures Walked(s, p, mfc, total, ParseElements(s, p, mfc, total))
    decreases |s| - p
  {
    if p + SEGMENT_HEADER_LENGTH < |s| {
      var next := Next(s, p);
      if !(mfc == VENDOR_LEGRAND && next == total) { LosslessWalk(s, next, mfc, total); }
      WalkedCons(s, p, mfc, total, ElementAt(s, p), ParseRest(s, next, mfc, total));
    }
  }

  /** The first m bytes hold every element kept by a walk from p, the last one with data in
      it when they end there. */
  predicate Holds(m: nat, p: nat, es: seq<SubElement>) {
    var end := p + ElementsSize(es);
    end < m || (end == m && (es != [] ==> Last(es).data != []))
  }

  lemma {:induction false} HoldsCons(m: nat, p: nat, e: SubElement, rest: seq<SubElement>)
    requires Holds(m, p, [e] + rest)
    ensures Holds(m, p + SEGMENT_HEADER_LENGTH + |e.data|, rest)
    ensures p + SEGMENT_HEADER_LENGTH + |e.data| <= m && p + SEGMENT_HEADER_LENGTH < m
  {
    ConsElement(e, rest);
    SizePositive(rest);
  }

  lemma {:induction false} SameElement(s: seq<u8>, m: nat, p: nat)
    requires p + SEGMENT_HEADER_LENGTH < m <= |s| && Next(s, p) <= m
    ensures ElementAt(s[..m], p) == ElementAt(s, p) && Next(s[..m], p) == Next(s, p)
  {
    var b := p + SEGMENT_HEADER_LENGTH;
    GetOfPrefix(s, m, p);
    GetOfPrefix(s, m, p + 2);
    assert s[..m][b..Next(s, p)] == s[b..Next(s, p)];
  }

  /** Parsing a prefix that still holds every kept element finds the same elements. */
  lemma {:induction false} WalkOfPrefix(s: seq<u8>, m: nat, p: nat, mfc: u16, total: u32)
    requires p <= m <= |s| && Holds(m, p, ParseElements(s, p, mfc, total))
    ensures ParseElements(s[..m], p, mfc, total) == ParseElements(s, p, mfc, total)
    decreases |s| - p
  {
    if p + SEGMENT_HEADER_LENGTH < |s| {
      var next := Next(s, p);
      HoldsCons(m, p, ElementAt(s, p), ParseRest(s, next, mfc, total));
      SameElement(s, m, p);
      if !(mfc == VENDOR_LEGRAND && next == total) { WalkOfPrefix(s, m, next, mfc, total); }
    }
  }

  /** Parsing a cut that does not hold the kept elements finds something else. */
  lemma {:induction false} WalkOfShortPrefix(s: seq<u8>, m: nat, p: nat, mfc: u16, total: u32)
    requires p <= |s| && m <= |s|
    requires var es := ParseElements(s, p, mfc, total); es != [] && !Holds(m, p, es)
    ensures ParseElements(s[..m], p, mfc, total) != ParseElements(s, p, mfc, total)
  {
    SizePositive(ParseElements(s, p, mfc, total));
    if p <= m { LosslessWalk(s[..m], p, mfc, total); }
  }

  lemma {:induction false} Slices(pre: seq<u8>, a: seq<u8>, b: seq<u8>, c: seq<u8>, tail: seq<u8>)
    ensures var s := pre + (a + b + c) + tail; var p := |pre|; var q := p + |a|; var r := q + |b|;
      s[p..q] == a && s[q..r] == b && s[r..r + |c|] == c
  {}

  lemma {:induction false} ElementReadBack(pre: seq<u8>, e: SubElement, tail: seq<u8>)
    requires |e.data| > 0 || tail != []
    requires e.length == |e.data| || (e.length > |e.data| && tail == [])
    ensures var s := pre + PrintElement(e) + tail;
      && |pre| + SEGMENT_HEADER_LENGTH < |s|
      && ElementAt(s, |pre|) == e && Next(s, |pre|) == |pre + PrintElement(e)|
  {
    var s := pre + PrintElement(e) + tail;
    var p := |pre|;
    Slices(pre, Le(e.tag, 2), Le(e.length, 4), e.data, tail);
    Read16(s, p, e.tag);
    Read32(s, p + 2, e.length);
  }

  lemma {:induction false} PackableTail(e: SubElement, rest: seq<SubElement>)
    requires Packable([e] + rest)
    ensures rest == [] ==> e.length >= |e.data| > 0
    ensures rest != [] ==> e.length == |e.data| && Packable(rest)
  {
    var es := [e] + rest;
    ConsElement(e, rest);
    assert forall i :: 0 <= i < |rest| ==> rest[i] == es[i + 1];
    assert rest != [] ==> es[0].length == |es[0].data|;
  }

  /** The packed list, split behind its first element. */
  lemma {:induction false} SplitPacked(pre: seq<u8>, e: SubElement, rest: seq<SubElement>)
    requires Packable([e] + rest)
    ensures var s := pre + PrintElements([e] + rest); var pre' := pre + PrintElement(e);
      && s == pre' + PrintElements(rest)
      && |pre| + SEGMENT_HEADER_LENGTH < |s| && ElementAt(s, |pre|) == e && Next(s, |pre|) == |pre'|
      && |pre'| == |pre| + SEGMENT_HEADER_LENGTH + |e.data|
      && (rest != [] ==> Packable(rest) && ElementsSize(rest) > 0)
  {
    ConsElement(e, rest);
    PackableTail(e, rest);
    PrintElementsSize(rest);
    SizePositive(rest);
    assert pre + (PrintElement(e) + PrintElements(rest)) == (pre + PrintElement(e)) + PrintElements(rest);
    ElementReadBack(pre, e, PrintElements(rest));
  }

  /** Packed elements read back, whatever bytes stand before them. */
  lemma {:induction false} ElementsReadBack(pre: seq<u8>, es: seq<SubElement>, mfc: u16, total: u32)
    requires Packable(es)
    requires total == |pre| + ElementsSize(es)
    ensures ParseElements(pre + PrintElements(es), |pre|, mfc, total) == es
    decreases |es|, 0
  {
    var e, rest := es[0], es[1..];
    var pre' := pre + PrintElement(e);
    assert es == [e] + rest;
    SplitPacked(pre, e, rest);
    ConsElement(e, rest);
    RestReadBack(pre', rest, mfc, total);
  }

  lemma {:induction false} RestReadBack(pre: seq<u8>, es: seq<SubElement>, mfc: u16, total: u32)
    requires es != [] ==> Packable(es) && ElementsSize(es) > 0
    requires total == |pre| + ElementsSize(es)
    ensures ParseRest(pre + PrintElements(es), |pre|, mfc, total) == es
    decreases |es|, 1
  {
    if es != [] { ElementsReadBack(pre, es, mfc, total); }
  }

  // ---- the header ----

  /** s starts with the fixed header of f. */
  predicate Layout(f: FileData, s: seq<u8>) {
    && |s| >= MANDATORY_HEADER_LENGTH
    && s[0..4] == Le(f.upgradeFileId, 4) && s[4..6] == Le(f.headerVersion, 2)
    && s[6..8] == Le(f.headerLength, 2) && s[8..10] == Le(f.headerFieldControl, 2)
    && s[10..12] == Le(f.manufacturerCode, 2) && s[12..14] == Le(f.imageType, 2)
    && s[14..18] == Le(f.fileVersion, 4) && s[18..20] == Le(f.zigBeeStackVersion, 2)
    && s[20..52] == f.headerString && s[52..56] == Le(f.totalImageSize, 4)
  }

  lemma {:induction false} FixedHeaderLayout(f: FileData, tail: seq<u8>)
    ensures |PrintFixedHeader(f)| == MANDATORY_HEADER_LENGTH
    ensures Layout(f, PrintFixedHeader(f) + tail)
  {}

  lemma {:induction false} HeaderStringReadBack(s: seq<u8>, h: HeaderString)
    requires |s| >= 52 && s[20..52] == h
    ensures HeaderStringAt(s) == h
  {
    assert forall i :: 0 <= i < 32 ==> s[20 + i] == s[20..52][i];
  }

  /** g with the fixed header fields of f. */
  function WithHeader(g: FileData, f: FileData): FileData {
    g.(upgradeFileId := f.upgradeFileId, headerVersion := f.headerVersion, headerLength := f.headerLength,
       headerFieldControl := f.headerFieldControl, manufacturerCode := f.manufacturerCode,
       imageType := f.imageType, fileVersion := f.fileVersion, zigBeeStackVersion := f.zigBeeStackVersion,
       headerString := f.headerString, totalImageSize := f.totalImageSize)
  }

  lemma {:induction false} FixedHeaderReadBack(g: FileData, f: FileData, s: seq<u8>)
    requires Layout(f, s)
    ensures ReadFixedHeader(g, s) == WithHeader(g, f)
  {
    Read32(s, 0, f.upgradeFileId);
    Read16(s, 4, f.headerVersion);
    Read16(s, 6, f.headerLength);
    Read16(s, 8, f.headerFieldControl);
    Read16(s, 10, f.manufacturerCode);
    Read16(s, 12, f.imageType);
    Read32(s, 14, f.fileVersion);
    Read16(s, 18, f.zigBeeStackVersion);
    Read32(s, 52, f.totalImageSize);
    HeaderStringReadBack(s, f.headerString);
  }

  /** g with the optional header fields of f whose bit is set. */
  function WithOptional(g: FileData, f: FileData): FileData {
    var fc := f.headerFieldControl;
    g.(securityCredentialVersion := if HasSecurity(fc) then f.securityCredentialVersion else g.securityCredentialVersion,
       upgradeFileDestination := if HasDestination(fc) then f.upgradeFileDestination else g.upgradeFileDestination,
       minHardwareVersion := if HasHardware(fc) then f.minHardwareVersion else g.minHardwareVersion,
       maxHardwareVersion := if HasHardware(fc) then f.maxHardwareVersion else g.maxHardwareVersion)
  }

  lemma {:induction false} HardwareReadBack(s: seq<u8>, r: nat, lo: u16, hi: u16)
    requires r + 4 <= |s| && s[r..r + 4] == Le(lo, 2) + Le(hi, 2)
    ensures Get16(s, r) == lo && Get16(s, r + 2) == hi
  {
    assert s[r..r + 2] == s[r..r + 4][..2] == Le(lo, 2);
    assert s[r + 2..r + 4] == s[r..r + 4][2..] == Le(hi, 2);
    Read16(s, r, lo);
    Read16(s, r + 2, hi);
  }

  lemma {:induction false} OptionalHeaderReadBack(g: FileData, f: FileData, pre: seq<u8>, tail: seq<u8>)
    requires |pre| == MANDATORY_HEADER_LENGTH && g.headerFieldControl == f.headerFieldControl
    ensures ReadOptionalHeader(g, pre + PrintOptionalHeader(f) + tail) == WithOptional(g, f)
  {
    var fc := f.headerFieldControl;
    var s := pre + PrintOptionalHeader(f) + tail;
    var p := MANDATORY_HEADER_LENGTH;
    var q := p + SecurityLength(fc);
    var r := q + DestinationLength(fc);
    Slices(pre, SecurityBytes(f), DestinationBytes(f), HardwareBytes(f), tail);
    if HasSecurity(fc) { assert s[p] == s[p..q][0]; }
    if HasDestination(fc) { Read64(s, q, f.upgradeFileDestination); }
    if HasHardware(fc) { HardwareReadBack(s, r, f.minHardwareVersion, f.maxHardwareVersion); }
  }

  // ---- pack, then parse ----

  /** g holds what f holds: every header field, each optional field whose bit is set, and the
      elements. */
  predicate SameFile(g: FileData, f: FileData) {
    && g.upgradeFileId == f.upgradeFileId && g.headerVersion == f.headerVersion
    && g.headerLength == f.headerLength && g.headerFieldControl == f.headerFieldControl
    && g.manufacturerCode == f.manufacturerCode && g.imageType == f.imageType
    && g.fileVersion == f.fileVersion && g.zigBeeStackVersion == f.zigBeeStackVersion
    && g.headerString == f.headerString && g.totalImageSize == f.totalImageSize
    && (HasSecurity(f.headerFieldControl) ==> g.securityCredentialVersion == f.securityCredentialVersion)
    && (HasDestination(f.headerFieldControl) ==> g.upgradeFileDestination == f.upgradeFileDestination)
    && (HasHardware(f.headerFieldControl) ==>
          g.minHardwareVersion == f.minHardwareVersion && g.maxHardwareVersion == f.maxHardwareVersion)
    && g.subElements == f.subElements
  }

  lemma {:induction false} PrintLength(f: FileData)
    ensures |Print(f)| == PrintedSize(f)
  {
    PrintElementsSize(f.subElements);
    FixedHeaderLayout(Sized(f), []);
  }

  /** The declared total size is the number of packed bytes. */
  lemma {:induction false} PrintedTotal(f: FileData)
    requires |Print(f)| < 0x1_0000_0000
    ensures |Print(f)| == Sized(f).totalImageSize
  {
    PrintLength(f);
  }

  lemma {:induction false} PrintedHeader(g: FileData, f: FileData)
    ensures var z := Sized(f); var arr := Print(f); var h := ReadFixedHeader(g, arr);
      && Layout(z, arr)
      && h == WithHeader(g, z)
      && ReadOptionalHeader(h, arr) == WithOptional(h, z)
  {
    var z := Sized(f);
    var tail := PrintElements(f.subElements);
    FixedHeaderLayout(z, PrintOptionalHeader(z) + tail);
    assert Print(f) == PrintFixedHeader(z) + (PrintOptionalHeader(z) + tail);
    FixedHeaderReadBack(g, z, Print(f));
    OptionalHeaderReadBack(WithHeader(g, z), z, PrintFixedHeader(z), tail);
  }

  /** The search finds the first position with the magic, if there is one. */
  lemma {:induction false} FirstMagic(arr: seq<u8>, i: nat)
    requires i <= |arr|
    ensures var r := IndexOfMagic(arr, i);
      && (r >= 0 ==> i <= r && MagicAt(arr, r))
      && (forall j: nat :: i <= j && MagicAt(arr, j) ==> 0 <= r <= j)
    decreases |arr| - i
  {
    if !MagicAt(arr, i) && i < |arr| { FirstMagic(arr, i + 1); }
  }

  lemma {:induction false} ParseAtStart(g: FileData, s: ByteArray)
    requires |s| >= MANDATORY_HEADER_LENGTH && MagicAt(s, 0)
    ensures Parse(g, s) == ParseFrom(g, s)
  {
    FirstMagic(s, 0);
    assert s[0..] == s;
  }

  /** What parsing arr gives when it starts with the header of z: that header, and the
      elements walked from where it ends. */
  predicate ParsesAs(g: FileData, z: FileData, arr: ByteArray) {
    var (r, ok) := Parse(g, arr);
    && ok == (r.subElements != [])
    && r.subElements == ParseElements(arr, z.headerLength, z.manufacturerCode, z.totalImageSize)
    && SameFile(r, z.(subElements := r.subElements))
    && r.raw == arr && |arr| == z.totalImageSize
  }

  lemma {:induction false} HeaderParsesAs(g: FileData, z: FileData, arr: ByteArray)
    requires z.headerLength == HeaderLength(z.headerFieldControl) && |arr| == z.totalImageSize
    requires Layout(z, arr) && z.upgradeFileId == FILE_MAGIC
    requires ReadFixedHeader(g, arr) == WithHeader(g, z)
    requires ReadOptionalHeader(WithHeader(g, z), arr) == WithOptional(WithHeader(g, z), z)
    ensures ParsesAs(g, z, arr)
  {
    MagicBytes(arr);
    ParseAtStart(g, arr);
    assert arr[..|arr|] == arr;
  }

  /** The parser on packed bytes sees the packed header and walks the packed elements. */
  lemma {:induction false} ParseOfPrint(g: FileData, f: FileData)
    requires |Print(f)| < 0x8000_0000 && f.upgradeFileId == FILE_MAGIC
    ensures ParsesAs(g, Sized(f), Print(f))
  {
    PrintedTotal(f);
    PrintedHeader(g, f);
    HeaderParsesAs(g, Sized(f), Print(f));
  }

  lemma {:induction false} MagicLe()
    ensures Le(FILE_MAGIC, 4) == [0x1E, 0xF1, 0xEE, 0x0B]
  {
    assert Le(0x0BEEF11E, 4) == [0x1E] + Le(0x0BEEF1, 3);
    assert Le(0x0BEEF1, 3) == [0xF1] + Le(0x0BEE, 2);
    assert Le(0x0BEE, 2) == [0xEE] + Le(0x0B, 1);
    assert Le(0x0B, 1) == [0x0B] + Le(0, 0);
  }

  lemma {:induction false} MagicBytes(arr: seq<u8>)
    requires |arr| >= 4 && arr[0..4] == Le(FILE_MAGIC, 4)
    ensures MagicAt(arr, 0)
  {
    MagicLe();
    assert arr[0..4][0] == arr[0] && arr[0..4][1] == arr[1] && arr[0..4][2] == arr[2] && arr[0..4][3] == arr[3];
  }

  /** Whatever is parsed starts with the magic. */
  lemma {:induction false} ParsedMagic(g: FileData, s: ByteArray)
    requires MagicAt(s, 0)
    ensures ParseFrom(g, s).0.upgradeFileId == FILE_MAGIC
  {
    assert s[0..4] == [0x1E, 0xF1, 0xEE, 0x0B] == Le(FILE_MAGIC, 4) by { MagicLe(); }
    Read32(s, 0, FILE_MAGIC);
  }

  /** Round trip, with its exact condition: parsing the packed bytes gives the file back if
      and only if it carries the magic and its element list is one the format can carry. */
  lemma {:induction false} RoundTrip(g: FileData, f: FileData)
    requires |Print(f)| < 0x8000_0000
    ensures var (r, ok) := Parse(g, Print(f));
      (ok && SameFile(r, Sized(f)) && r.raw == Print(f)) <==>
      (f.upgradeFileId == FILE_MAGIC && Packable(f.subElements))
  {
    if f.upgradeFileId == FILE_MAGIC {
      RoundTripWithMagic(g, f);
    } else {
      OtherMagic(g, Sized(f), Print(f));
    }
  }

  lemma {:induction false} RoundTripWithMagic(g: FileData, f: FileData)
    requires |Print(f)| < 0x8000_0000 && f.upgradeFileId == FILE_MAGIC
    ensures var (r, ok) := Parse(g, Print(f));
      (ok && SameFile(r, Sized(f)) && r.raw == Print(f)) <==> Packable(f.subElements)
  {
    ParseOfPrint(g, f);
    PrintedElements(f);
    SameWhenSameElements(g, f, Sized(f), Print(f));
  }

  lemma {:induction false} OtherMagic(g: FileData, z: FileData, arr: ByteArray)
    requires z.upgradeFileId != FILE_MAGIC
    ensures var (r, ok) := Parse(g, arr); !(ok && SameFile(r, z))
  {
    if Parse(g, arr).1 { AcceptedShape(g, arr); }
  }

  lemma {:induction false} SameWhenSameElements(g: FileData, f: FileData, z: FileData, arr: ByteArray)
    requires ParsesAs(g, z, arr) && z.subElements == f.subElements
    ensures var (r, ok) := Parse(g, arr);
      var es := ParseElements(arr, z.headerLength, z.manufacturerCode, z.totalImageSize);
      (ok && SameFile(r, z) && r.raw == arr) <==> (es == f.subElements && es != [])
  {}

  /** The packed elements are found again exactly when the list is packable. */
  lemma {:induction false} PrintedElements(f: FileData)
    requires |Print(f)| < 0x8000_0000
    ensures var z := Sized(f);
      var es := ParseElements(Print(f), z.headerLength, z.manufacturerCode, z.totalImageSize);
      (es == f.subElements && es != []) <==> Packable(f.subElements)
  {
    var pre := PrintHeader(Sized(f));
    var p := HeaderLength(f.headerFieldControl);
    PrintLength(f);
    PrintElementsSize(f.subElements);
    assert |pre| == p;
    if Packable(f.subElements) {
      ElementsReadBack(pre, f.subElements, f.manufacturerCode, Sized(f).totalImageSize);
    }
    LosslessWalk(Print(f), p, f.manufacturerCode, Sized(f).totalImageSize);
  }

  /** Header fields that packing does not recompute. */
  predicate SameButSizes(g: FileData, f: FileData) {
    SameFile(g, f.(headerLength := g.headerLength, totalImageSize := g.totalImageSize))
  }

  lemma {:induction false} AcceptedShape(g: FileData, arr: ByteArray)
    requires Parse(g, arr).1
    ensures var f := Parse(g, arr).0; var s := arr[IndexOfMagic(arr, 0)..];
      && |arr| >= MANDATORY_HEADER_LENGTH && IndexOfMagic(arr, 0) >= 0
      && Parse(g, arr) == ParseFrom(g, s)
      && f.upgradeFileId == FILE_MAGIC
      && Exact(f.subElements) && f.subElements != []
      && ParsedEnd(f) <= |s| && MagicAt(s, 0)
  {
    var s := arr[IndexOfMagic(arr, 0)..];
    FirstMagic(arr, 0);
    ParsedMagic(g, s);
    var h := ReadOptionalHeader(ReadFixedHeader(g, s), s);
    if BodyStart(h) <= |s| {
      LosslessWalk(s, BodyStart(h), h.manufacturerCode, h.totalImageSize);
    }
  }

  /** Saving an accepted file and loading it again keeps the header fields, the sub-elements
      and the over-long length of a cut last element, if and only if the last element has
      data. The recomputed total size is the size of the saved file. */
  lemma {:induction false} SaveAndReload(g: FileData, g': FileData, arr: ByteArray)
    requires Parse(g, arr).1
    ensures |Print(Parse(g, arr).0)| < 0x8000_0000
    ensures var f := Parse(g, arr).0; var (r, ok) := Parse(g', Print(f));
      && ((ok && SameButSizes(r, f)) <==> Last(f.subElements).data != [])
      && (ok && SameButSizes(r, f) ==>
            r.totalImageSize == |Print(f)| && r.headerLength == HeaderLength(f.headerFieldControl) && r.raw == Print(f))
  {
    AcceptedShape(g, arr);
    var f := Parse(g, arr).0;
    PrintLength(f);
    RoundTrip(g', f);
    ParseOfPrint(g', f);
  }

  // ---- the served image ----

  lemma {:induction false} HeaderStringOfPrefix(s: seq<u8>, m: nat)
    requires 52 <= m <= |s|
    ensures HeaderStringAt(s[..m]) == HeaderStringAt(s)
  {
    assert forall i :: 0 <= i < 32 ==> HeaderStringAt(s[..m])[i] == HeaderStringAt(s)[i];
  }

  lemma {:induction false} FixedHeaderOfPrefix(g: FileData, g': FileData, s: seq<u8>, m: nat)
    requires MANDATORY_HEADER_LENGTH <= m <= |s|
    ensures ReadFixedHeader(g', s[..m]) == WithHeader(g', ReadFixedHeader(g, s))
  {
    HeaderStringOfPrefix(s, m);
    GetOfPrefix(s, m, 0);
    GetOfPrefix(s, m, 4);
    GetOfPrefix(s, m, 6);
    GetOfPrefix(s, m, 8);
    GetOfPrefix(s, m, 10);
    GetOfPrefix(s, m, 12);
    GetOfPrefix(s, m, 14);
    GetOfPrefix(s, m, 18);
    GetOfPrefix(s, m, 52);
  }

  /** The header of a prefix that holds it reads the same, whatever it is read over. */
  lemma {:induction false} HeaderOfPrefix(g: FileData, g': FileData, h: FileData, s: seq<u8>, m: nat)
    requires h == ReadOptionalHeader(ReadFixedHeader(g, s), s)
    requires HeaderLength(h.headerFieldControl) <= m <= |s|
    ensures ReadOptionalHeader(ReadFixedHeader(g', s[..m]), s[..m]) == WithOptional(WithHeader(g', h), h)
  {
    FixedHeaderOfPrefix(g, g', s, m);
    var p := MANDATORY_HEADER_LENGTH;
    var q := p + SecurityLength(h.headerFieldControl);
    var r := q + DestinationLength(h.headerFieldControl);
    GetOfPrefix(s, m, p);
    GetOfPrefix(s, m, q);
    GetOfPrefix(s, m, r);
    GetOfPrefix(s, m, r + 2);
  }

  /** Parsing the first m bytes of s, over anything, gives the file parsed from s. */
  predicate Reparses(g: FileData, g': FileData, s: ByteArray, m: nat)
    requires m <= |s|
  {
    var f := ParseFrom(g, s).0;
    var (r, ok) := ParseFrom(g', s[..m]);
    ok && SameFile(r, f) && r.raw == f.raw
  }

  lemma {:induction false} PrefixReparses(g: FileData, g': FileData, s: ByteArray)
    requires ParseFrom(g, s).1
    requires var f := ParseFrom(g, s).0; Holds(|f.raw|, BodyStart(f), f.subElements)
    ensures Reparses(g, g', s, |ParseFrom(g, s).0.raw|)
  {
    var f := ParseFrom(g, s).0;
    var m := |f.raw|;
    var h := ReadOptionalHeader(ReadFixedHeader(g, s), s);
    SizePositive(f.subElements);
    HeaderOfPrefix(g, g', h, s, m);
    WalkOfPrefix(s, m, BodyStart(h), h.manufacturerCode, h.totalImageSize);
    assert s[..m][..Min(h.totalImageSize, m)] == s[..m];
  }

  lemma {:induction false} CutDoesNotReparse(g: FileData, g': FileData, s: ByteArray)
    requires ParseFrom(g, s).1
    requires var f := ParseFrom(g, s).0; BodyStart(f) <= |s| && !Holds(|f.raw|, BodyStart(f), f.subElements)
    ensures !Reparses(g, g', s, |ParseFrom(g, s).0.raw|)
  {
    var f := ParseFrom(g, s).0;
    WalkOfShortPrefix(s, |f.raw|, BodyStart(f), f.manufacturerCode, f.totalImageSize);
  }

  /** What the server serves for an accepted array parses to the same file again, if and only if
      the served slice holds the last element whole and, when it ends there, that element has
      data. */
  lemma {:induction false} ServedImageFixedPoint(g: FileData, g': FileData, arr: ByteArray)
    requires Parse(g, arr).1
    ensures var f := Parse(g, arr).0; var (r, ok) := Parse(g', f.raw); var end := ParsedEnd(f);
      (ok && SameFile(r, f) && r.raw == f.raw) <==>
      (end < |f.raw| || (end == |f.raw| && f.subElements != [] && Last(f.subElements).data != []))
  {
    AcceptedShape(g, arr);
    FirstMagic(arr, 0);
    var f := Parse(g, arr).0;
    var s := arr[IndexOfMagic(arr, 0)..];
    var m := |f.raw|;
    assert f.raw == s[..m];
    if Holds(m, BodyStart(f), f.subElements) {
      SizePositive(f.subElements);
      ParseAtStart(g', s[..m]);
      PrefixReparses(g, g', s);
    } else {
      CutDoesNotReparse(g, g', s);
      if Parse(g', f.raw).1 && SameFile(Parse(g', f.raw).0, f) { ReparseAtStart(g', s, m); }
    }
  }

  /** An accepted prefix of bytes that start with the magic is parsed from its start. */
  lemma {:induction false} ReparseAtStart(g': FileData, s: ByteArray, m: nat)
    requires m <= |s| && MagicAt(s, 0) && Parse(g', s[..m]).1
    ensures Parse(g', s[..m]) == ParseFrom(g', s[..m])
  {
    AcceptedShape(g', s[..m]);
    assert MagicAt(s[..m], 0);
    ParseAtStart(g', s[..m]);
  }
}
