/** Update files that show what can go wrong: one that does not survive saving and whose served
    image is not read back, and names under which a fitting file is not used. */
module FailingFiles {
  import opened Bytes
  import opened FileFormat
  import opened FileProofs
  import opened Tracking
  import opened Transfer
  import opened LocalIndex

  // ---- a last element without data ----

  const EMPTY_ELEMENT := SubElement(0, 0, [])

  /** A file of one element, and that one is empty. */
  predicate Hollow(f: FileData) {
    f.upgradeFileId == FILE_MAGIC && f.headerFieldControl == 0 && f.subElements == [EMPTY_ELEMENT]
  }

  lemma {:induction false} HollowPrints(f: FileData)
    requires Hollow(f)
    ensures Sized(f).headerLength == 56 && Sized(f).totalImageSize == 62
    ensures Print(f) == PrintFixedHeader(Sized(f)) + PrintElement(EMPTY_ELEMENT) && |Print(f)| == 62
  {
    var z := Sized(f);
    FixedHeaderLayout(z, []);
    ConsElement(EMPTY_ELEMENT, []);
    assert [EMPTY_ELEMENT] + [] == [EMPTY_ELEMENT];
    assert PrintOptionalHeader(z) == [];
    assert PrintElements([]) == [];
  }

  /** Its printed bytes and one more. */
  function HollowBytes(f: FileData): ByteArray
    requires Hollow(f)
  {
    HollowPrints(f);
    Print(f) + [0]
  }

  lemma {:induction false} HollowHeader(g: FileData, f: FileData)
    requires Hollow(f)
    ensures ReadFixedHeader(g, HollowBytes(f)) == WithHeader(g, Sized(f))
    ensures ElementAt(HollowBytes(f), 56) == EMPTY_ELEMENT && Next(HollowBytes(f), 56) == 62
    ensures Parse(g, HollowBytes(f)) == ParseFrom(g, HollowBytes(f))
  {
    var z, arr := Sized(f), HollowBytes(f);
    var head, element := PrintFixedHeader(z), PrintElement(EMPTY_ELEMENT);
    HollowPrints(f);
    FixedHeaderLayout(z, element + [0]);
    assert arr == head + (element + [0]) == head + element + [0];
    FixedHeaderReadBack(g, z, arr);
    MagicBytes(arr);
    ParseAtStart(g, arr);
    ElementReadBack(head, EMPTY_ELEMENT, [0]);
  }

  /** They are accepted, with the empty element. */
  lemma {:induction false} HollowParses(g: FileData, f: FileData)
    requires Hollow(f)
    ensures var (r, ok) := Parse(g, HollowBytes(f));
      ok && r.subElements == [EMPTY_ELEMENT] && r.raw == Print(f) && ParsedEnd(r) == 62
  {
    var arr := HollowBytes(f);
    HollowPrints(f);
    HollowHeader(g, f);
    OneElement(arr, f.manufacturerCode);
    ConsElement(EMPTY_ELEMENT, []);
    assert [EMPTY_ELEMENT] + [] == [EMPTY_ELEMENT];
    assert arr[..62] == Print(f);
  }

  lemma {:induction false} OneElement(arr: seq<u8>, mfc: u16)
    requires |arr| == 63 && ElementAt(arr, 56) == EMPTY_ELEMENT && Next(arr, 56) == 62
    ensures ParseElements(arr, 56, mfc, 62) == [EMPTY_ELEMENT]
  {
    assert ParseElements(arr, 62, mfc, 62) == [];
    assert ParseRest(arr, 62, mfc, 62) == [];
  }

  /** So these bytes are accepted, but saving and loading them again fails; the file itself is not
      read back from what it is printed as, and neither is the image that is served of it. */
  lemma {:induction false} HollowFails(g: FileData, g': FileData, f: FileData)
    requires Hollow(f)
    ensures Parse(g, HollowBytes(f)).1
    ensures var (r, ok) := Parse(g, Print(f)); !(ok && SameFile(r, Sized(f)) && r.raw == Print(f))
    ensures var h := Parse(g, HollowBytes(f)).0; |Print(h)| < 0x8000_0000 && var (r, ok) := Parse(g', Print(h)); !(ok && SameButSizes(r, h))
    ensures var h := Parse(g, HollowBytes(f)).0; var (r, ok) := Parse(g', h.raw); !(ok && SameFile(r, h) && r.raw == h.raw)
  {
    HollowParses(g, f);
    HollowPrints(f);
    RoundTrip(g, f);
    SaveAndReload(g, g', HollowBytes(f));
    ServedImageFixedPoint(g, g', HollowBytes(f));
  }

  // ---- names ----

  /** A fitting file that is listed, can be parsed and is the first to fit. */
  predicate OnlyFit(n: NodeData, sh: Shared, path: string, arr: ByteArray, g: FileData) {
    && arr != [] && Parse(g, arr).1 && Upgrades(Parse(g, arr).0, n)
    && CleanPath(path) && '\n' !in path
    && !n.hasData && |sh.tracker.entries| < OTAU_MAX_ACTIVE
  }

  lemma {:induction false} OnlyFitIsFirst(n: NodeData, sh: Shared, path: string, arr: ByteArray, g: FileData, hash: ByteArray -> seq<u8>)
    requires OnlyFit(n, sh, path, arr, g)
    ensures var files, disk := [LocalFile(path, arr)], map[path := arr];
      && Unchanged(files, disk)
      && FirstFit(Index(files, g, hash), WishOf(n), disk.Keys).Some?
      && FirstFit(Index(files, g, hash), WishOf(n), disk.Keys).value.path == path
  {
    var files := [LocalFile(path, arr)];
    assert files[..0] == [] && Index([], g, hash) == [];
    assert !HashIn([], hash(arr));
    var es := Index(files, g, hash);
    assert |es| == 1 && es[0].path == path;
  }

  /** The only fitting file is called u.fw2: the index offers it, and the node is left without
      data. */
  lemma {:induction false} UnusedFile(n: NodeData, sh: Shared, arr: ByteArray, g: FileData, hash: ByteArray -> seq<u8>)
    requires OnlyFit(n, sh, "u.fw2", arr, g)
    ensures var files, disk := [LocalFile("u.fw2", arr)], map["u.fw2" := arr];
      && Unchanged(files, disk) && FirstFit(Index(files, g, hash), WishOf(n), disk.Keys).Some?
      && !CheckForUpdate(n, sh, Found(n, Content(Index(files, g, hash)), disk)).hasData
  {
    OnlyFitIsFirst(n, sh, "u.fw2", arr, g, hash);
    UpdateFoundIff(n, sh, [LocalFile("u.fw2", arr)], g, hash, map["u.fw2" := arr]);
    NotOta();
    OtherNamesFail(n, "u.fw2", arr);
  }

  /** It is called u.bin: the node has data, but the header and the image of the file before. */
  lemma {:induction false} StaleFile(n: NodeData, sh: Shared, arr: ByteArray, g: FileData, hash: ByteArray -> seq<u8>)
    requires OnlyFit(n, sh, "u.bin", arr, g)
    ensures var files, disk := [LocalFile("u.bin", arr)], map["u.bin" := arr];
      var m := CheckForUpdate(n, sh, Found(n, Content(Index(files, g, hash)), disk));
      Unchanged(files, disk) && m.hasData && m.file == n.file.(subElements := m.file.subElements) && m.file.raw == n.file.raw
  {
    OnlyFitIsFirst(n, sh, "u.bin", arr, g, hash);
    UpdateFoundIff(n, sh, [LocalFile("u.bin", arr)], g, hash, map["u.bin" := arr]);
    NotOta();
    OtherNamesFail(n, "u.bin", arr);
  }

  lemma {:induction false} NotOta()
    ensures !OtaName("u.fw2") && !ContainerName("u.fw2")
    ensures !OtaName("u.bin") && ContainerName("u.bin")
  {
    var a, b := "u.fw2", "u.bin";
    assert a[4] == '2' && b[4] == 'n' && b[|b| - 4..] == ".bin";
    LastDiffers(a);
    LastDiffers(b);
  }

  /** The last characters of the names of update files. */
  lemma {:induction false} LastDiffers(path: string)
    requires path != []
    ensures var c := path[|path| - 1];
      && (OtaName(path) ==> c == 'e' || c == 'd' || c == 'a' || c == 'A')
      && (ContainerName(path) ==> c == 'n' || c == 'F')
  {}
}
