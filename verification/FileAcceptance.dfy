/** Which byte arrays are taken for update files, and what is read from where: statements about the
    bytes of an array, wherever the file starts in it. */
module FileAcceptance {
  import opened Bytes
  import opened FileFormat
  import opened FileProofs

  /** The four bytes a file starts with. */
  predicate StartBytes(arr: seq<u8>, i: nat) {
    i + 4 <= |arr| && arr[i..i + 4] == [0x1E, 0xF1, 0xEE, 0x0B]
  }

  /** They stand at i, and nowhere before. */
  predicate StartsAt(arr: seq<u8>, i: nat) {
    StartBytes(arr, i) && forall j: nat :: j < i ==> !StartBytes(arr, j)
  }

  lemma {:induction false} MagicIsBytes(arr: seq<u8>, i: nat)
    ensures MagicAt(arr, i) <==> StartBytes(arr, i)
  {
    if i + 4 <= |arr| {
      var s := arr[i..i + 4];
      assert s == [arr[i], arr[i + 1], arr[i + 2], arr[i + 3]];
      if s == [0x1E, 0xF1, 0xEE, 0x0B] { assert s[0] == 0x1E && s[1] == 0xF1 && s[2] == 0xEE && s[3] == 0x0B; }
    }
  }

  /** The search finds where the file starts. */
  lemma {:induction false} FoundStart(arr: seq<u8>)
    ensures var r := IndexOfMagic(arr, 0);
      if r < 0 then forall i: nat :: !StartsAt(arr, i) else StartsAt(arr, r)
  {
    FirstMagic(arr, 0);
    var r := IndexOfMagic(arr, 0);
    forall i: nat
      ensures MagicAt(arr, i) <==> StartBytes(arr, i)
    {
      MagicIsBytes(arr, i);
    }
  }

  /** There is only one such place. */
  lemma {:induction false} OneStart(arr: seq<u8>, i: nat, j: nat)
    requires StartsAt(arr, i) && StartsAt(arr, j)
    ensures i == j
  {}

  /** How long the header is: as long as it says, at least as long as its known fields. */
  function HeaderEnd(stated: u16, fc: u16): nat {
    var known := 56 + (if fc % 2 == 1 then 1 else 0) + (if fc / 2 % 2 == 1 then 8 else 0) + (if fc / 4 % 2 == 1 then 4 else 0);
    if stated > known then stated else known
  }

  /** What stands at the start of a file that is accepted: a header of at least 56 bytes, and more
      than six bytes behind it. */
  predicate Plausible(arr: seq<u8>, i: nat) {
    && StartsAt(arr, i) && Get16(arr, i + 6) >= 56
    && i + HeaderEnd(Get16(arr, i + 6), Get16(arr, i + 8)) + 6 < |arr|
  }

  lemma {:induction false} SomeElement(s: seq<u8>, p: nat, mfc: u16, total: u32)
    ensures ParseElements(s, p, mfc, total) != [] <==> p + 6 < |s|
  {}

  lemma {:induction false} BodyStartsAt(g: FileData, s: seq<u8>)
    ensures BodyStart(ReadOptionalHeader(ReadFixedHeader(g, s), s)) == HeaderEnd(Get16(s, 6), Get16(s, 8))
  {}

  lemma {:induction false} AcceptedFrom(g: FileData, arr: ByteArray, i: nat)
    requires i <= |arr|
    ensures ParseFrom(g, arr[i..]).1 <==>
      Get16(arr, i + 6) >= 56 && i + HeaderEnd(Get16(arr, i + 6), Get16(arr, i + 8)) + 6 < |arr|
  {
    var s := arr[i..];
    var h := ReadOptionalHeader(ReadFixedHeader(g, s), s);
    GetOfSuffix(arr, i, 6);
    GetOfSuffix(arr, i, 8);
    BodyStartsAt(g, s);
    SomeElement(s, BodyStart(h), h.manufacturerCode, h.totalImageSize);
  }

  lemma {:induction false} StartsParse(g: FileData, arr: ByteArray, i: nat)
    requires |arr| >= 56 && StartsAt(arr, i)
    ensures i <= |arr| && Parse(g, arr) == ParseFrom(g, arr[i..])
  {
    FoundStart(arr);
    OneStart(arr, i, IndexOfMagic(arr, 0));
  }

  lemma {:induction false} NoStartNoParse(g: FileData, arr: ByteArray)
    requires |arr| < 56 || forall i: nat :: !StartsAt(arr, i)
    ensures Parse(g, arr) == (g, false)
  {
    FoundStart(arr);
  }

  /** Over any previous contents: an array is accepted if and only if it has at least 56 bytes and
      at the first place of the magic, wherever that is, such a header stands. */
  lemma {:induction false} AcceptedIff(g: FileData, arr: ByteArray)
    ensures Parse(g, arr).1 <==> |arr| >= 56 && exists i: nat :: Plausible(arr, i)
  {
    if i: nat :| |arr| >= 56 && StartsAt(arr, i) {
      StartsParse(g, arr, i);
      AcceptedFrom(g, arr, i);
      assert Parse(g, arr).1 <==> Plausible(arr, i);
      if j: nat :| Plausible(arr, j) { OneStart(arr, i, j); }
    } else {
      NoStartNoParse(g, arr);
    }
  }

  /** Bytes before the first magic, such as a signature or a wrapping, do not matter. */
  lemma {:induction false} SkippedBytes(g: FileData, pre: seq<u8>, s: ByteArray)
    requires |pre| + |s| < 0x8000_0000 && |s| >= 56 && StartsAt(pre + s, |pre|)
    ensures Parse(g, pre + s) == Parse(g, s)
  {
    var arr := pre + s;
    StartsParse(g, arr, |pre|);
    assert arr[|pre|..] == s;
    assert s[0..4] == arr[|pre|..|pre| + 4];
    MagicIsBytes(s, 0);
    ParseAtStart(g, s);
  }

  // ---- the fields ----

  /** Every field of the fixed header is read from its place. */
  predicate FixedFields(arr: seq<u8>, i: nat, f: FileData) {
    && f.upgradeFileId == Get32(arr, i) && f.headerVersion == Get16(arr, i + 4) && f.headerLength == Get16(arr, i + 6)
    && f.headerFieldControl == Get16(arr, i + 8) && f.manufacturerCode == Get16(arr, i + 10) && f.imageType == Get16(arr, i + 12)
    && f.fileVersion == Get32(arr, i + 14) && f.zigBeeStackVersion == Get16(arr, i + 18)
    && (forall k :: 0 <= k < 32 ==> f.headerString[k] == Get8(arr, i + 20 + k))
    && f.totalImageSize == Get32(arr, i + 52)
  }

  /** Each optional field whose bit is set is read from behind the ones before it; the others keep
      the value of g. */
  predicate OptionalFields(arr: seq<u8>, i: nat, fc: u16, g: FileData, f: FileData) {
    var q := i + 56 + (if fc % 2 == 1 then 1 else 0);
    var r := q + (if fc / 2 % 2 == 1 then 8 else 0);
    && f.securityCredentialVersion == (if fc % 2 == 1 then Get8(arr, i + 56) else g.securityCredentialVersion)
    && f.upgradeFileDestination == (if fc / 2 % 2 == 1 then Get64(arr, q) else g.upgradeFileDestination)
    && f.minHardwareVersion == (if fc / 4 % 2 == 1 then Get16(arr, r) else g.minHardwareVersion)
    && f.maxHardwareVersion == (if fc / 4 % 2 == 1 then Get16(arr, r + 2) else g.maxHardwareVersion)
  }

  lemma {:induction false} StringRead(arr: seq<u8>, i: nat, k: nat)
    requires i <= |arr| && k < 32
    ensures HeaderStringAt(arr[i..])[k] == Get8(arr, i + 20 + k)
  {
    GetOfSuffix(arr, i, 20 + k);
  }

  lemma {:induction false} FixedRead(g: FileData, arr: seq<u8>, i: nat)
    requires i <= |arr|
    ensures FixedFields(arr, i, ReadFixedHeader(g, arr[i..]))
  {
    GetOfSuffix(arr, i, 0);
    GetOfSuffix(arr, i, 4);
    GetOfSuffix(arr, i, 6);
    GetOfSuffix(arr, i, 8);
    GetOfSuffix(arr, i, 10);
    GetOfSuffix(arr, i, 12);
    GetOfSuffix(arr, i, 14);
    GetOfSuffix(arr, i, 18);
    GetOfSuffix(arr, i, 52);
    forall k: nat | k < 32
      ensures HeaderStringAt(arr[i..])[k] == Get8(arr, i + 20 + k)
    {
      StringRead(arr, i, k);
    }
  }

  lemma {:induction false} OptionalRead(f: FileData, arr: seq<u8>, i: nat)
    requires i <= |arr|
    ensures OptionalFields(arr, i, f.headerFieldControl, f, ReadOptionalHeader(f, arr[i..]))
  {
    var q := 56 + SecurityLength(f.headerFieldControl);
    var r := q + DestinationLength(f.headerFieldControl);
    GetOfSuffix(arr, i, 56);
    GetOfSuffix(arr, i, q);
    GetOfSuffix(arr, i, r);
    GetOfSuffix(arr, i, r + 2);
  }

  predicate ReadAt(g: FileData, arr: ByteArray, i: nat)
    requires StartsAt(arr, i)
  {
    var (f, ok) := Parse(g, arr);
    if Get16(arr, i + 6) < 56 then
      !ok && f == g.(upgradeFileId := Get32(arr, i), headerVersion := Get16(arr, i + 4), headerLength := Get16(arr, i + 6))
    else
      && FixedFields(arr, i, f) && OptionalFields(arr, i, Get16(arr, i + 8), g, f)
      && f.raw == arr[i..i + Min(Get32(arr, i + 52), |arr| - i)]
      && (ok <==> f.subElements != [])
  }

  /** What is read over g: all fields from their places, and the image from the magic on, as long as
      the file declares; with too small a header length only the three fields up to it. */
  lemma {:induction false} FieldsRead(g: FileData, arr: ByteArray, i: nat)
    requires |arr| >= 56 && StartsAt(arr, i)
    ensures ReadAt(g, arr, i)
  {
    StartsParse(g, arr, i);
    FieldsFrom(g, arr, i);
  }

  lemma {:induction false} FieldsFrom(g: FileData, arr: ByteArray, i: nat)
    requires StartsAt(arr, i) && Parse(g, arr) == ParseFrom(g, arr[i..])
    ensures ReadAt(g, arr, i)
  {
    var s := arr[i..];
    var h, total := ReadFixedHeader(g, s), Get32(arr, i + 52);
    FixedRead(g, arr, i);
    OptionalRead(h, arr, i);
    assert s[..Min(total, |s|)] == arr[i..i + Min(total, |arr| - i)];
  }

  /** The image is as long as the file declares if and only if the array holds that much of it. */
  lemma {:induction false} WholeImageIff(g: FileData, arr: ByteArray, i: nat)
    requires Parse(g, arr).1 && StartsAt(arr, i)
    ensures var f := Parse(g, arr).0; |f.raw| == f.totalImageSize <==> i + f.totalImageSize <= |arr|
  {
    AcceptedIff(g, arr);
    FieldsRead(g, arr, i);
  }

  // ---- where the elements end ----

  /** The elements end where the input does, but for six bytes at most; those of one vendor end
      where the declared total size is first reached. */
  predicate EndsRight(s: seq<u8>, p: nat, mfc: u16, total: u32, es: seq<SubElement>) {
    && (|s| - (p + ElementsSize(es)) <= 6 || (mfc == 0x1021 && es != [] && p + ElementsSize(es) == total))
    && (mfc == 0x1021 ==> forall k :: 0 < k < |es| ==> p + ElementsSize(es[..k]) != total)
  }

  lemma {:induction false} EndsRightCons(s: seq<u8>, p: nat, mfc: u16, total: u32, e: SubElement, rest: seq<SubElement>)
    requires var next := p + 6 + |e.data|;
      (mfc == 0x1021 && next == total && rest == []) ||
      (!(mfc == 0x1021 && next == total) && EndsRight(s, next, mfc, total, rest))
    ensures EndsRight(s, p, mfc, total, [e] + rest)
  {
    var es, next := [e] + rest, p + 6 + |e.data|;
    ConsElement(e, rest);
    if mfc == 0x1021 {
      forall k | 0 < k < |es|
        ensures p + ElementsSize(es[..k]) != total
      {
        assert es[..k] == [e] + rest[..k - 1];
        ConsElement(e, rest[..k - 1]);
        if k == 1 { assert ElementsSize(rest[..0]) == 0; }
      }
    }
  }

  /** Where the walk over the elements ends. */
  lemma {:induction false} WalkEnds(s: seq<u8>, p: nat, mfc: u16, total: u32)
    requires p <= |s|
    ensures EndsRight(s, p, mfc, total, ParseElements(s, p, mfc, total))
    decreases |s| - p
  {
    if p + 6 < |s| {
      var next := Next(s, p);
      if !(mfc == 0x1021 && next == total) { WalkEnds(s, next, mfc, total); }
      EndsRightCons(s, p, mfc, total, ElementAt(s, p), ParseRest(s, next, mfc, total));
    }
  }

  /** The elements of an accepted file are those of the walk from where its header ends. */
  lemma {:induction false} BodyWalked(g: FileData, arr: ByteArray, i: nat)
    requires Parse(g, arr).1 && StartsAt(arr, i)
    ensures var f := Parse(g, arr).0; var p := HeaderEnd(f.headerLength, f.headerFieldControl);
      i + p <= |arr| && f.subElements == ParseElements(arr[i..], p, f.manufacturerCode, f.totalImageSize)
  {
    AcceptedIff(g, arr);
    StartsParse(g, arr, i);
    GetOfSuffix(arr, i, 6);
    GetOfSuffix(arr, i, 8);
    var j: nat :| Plausible(arr, j);
    OneStart(arr, i, j);
  }

  /** Every accepted file of every other vendor has all its elements read, up to six bytes at the
      end; one of that vendor ends where its total size is first reached. */
  lemma {:induction false} ElementsEnd(g: FileData, arr: ByteArray, i: nat)
    requires Parse(g, arr).1 && StartsAt(arr, i)
    ensures var f := Parse(g, arr).0;
      EndsRight(arr[i..], HeaderEnd(f.headerLength, f.headerFieldControl), f.manufacturerCode, f.totalImageSize, f.subElements)
  {
    var f := Parse(g, arr).0;
    BodyWalked(g, arr, i);
    WalkEnds(arr[i..], HeaderEnd(f.headerLength, f.headerFieldControl), f.manufacturerCode, f.totalImageSize);
  }

  /** The element at position q: a tag of two bytes, a length of four, and as much data as it states
      and the input has. */
  predicate ElementStands(s: seq<u8>, q: nat, e: SubElement) {
    && q + 6 < |s| && e.tag == Get16(s, q) && e.length == Get32(s, q + 2)
    && |e.data| == Min(e.length, |s| - q - 6) && e.data == s[q + 6..q + 6 + |e.data|]
  }

  lemma {:induction false} FirstStands(s: seq<u8>, p: nat)
    requires p + 6 < |s|
    ensures ElementStands(s, p, ElementAt(s, p)) && Next(s, p) == p + 6 + |ElementAt(s, p).data|
  {}

  /** The elements in front of the k-th one of a list that starts with e. */
  lemma {:induction false} SizeBefore(e: SubElement, rest: seq<SubElement>, k: nat)
    requires 0 < k <= |rest|
    ensures ElementsSize(([e] + rest)[..k]) == 6 + |e.data| + ElementsSize(rest[..k - 1])
  {
    assert ([e] + rest)[..k] == [e] + rest[..k - 1];
    ConsElement(e, rest[..k - 1]);
  }

  /** The k-th element of a walk stands behind the ones before it. */
  lemma {:induction false} WalkAt(s: seq<u8>, p: nat, mfc: u16, total: u32, k: nat)
    requires p <= |s| && k < |ParseElements(s, p, mfc, total)|
    ensures var es := ParseElements(s, p, mfc, total); ElementStands(s, p + ElementsSize(es[..k]), es[k])
    decreases |s| - p
  {
    var es, e, rest := ParseElements(s, p, mfc, total), ElementAt(s, p), ParseRest(s, Next(s, p), mfc, total);
    assert es == [e] + rest;
    FirstStands(s, p);
    if k > 0 {
      WalkAt(s, Next(s, p), mfc, total, k - 1);
      SizeBefore(e, rest, k);
    } else {
      assert es[..0] == [];
    }
  }

  /** Every element of an accepted file stands where the header and the elements before it end. */
  lemma {:induction false} ElementsRead(g: FileData, arr: ByteArray, i: nat, k: nat)
    requires Parse(g, arr).1 && StartsAt(arr, i) && k < |Parse(g, arr).0.subElements|
    ensures var f := Parse(g, arr).0;
      ElementStands(arr[i..], HeaderEnd(f.headerLength, f.headerFieldControl) + ElementsSize(f.subElements[..k]), f.subElements[k])
  {
    var f := Parse(g, arr).0;
    BodyWalked(g, arr, i);
    WalkAt(arr[i..], HeaderEnd(f.headerLength, f.headerFieldControl), f.manufacturerCode, f.totalImageSize, k);
  }
}
