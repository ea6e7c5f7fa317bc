/** The file object that packs itself and overwrites itself from a byte array in place, and
    the stream cursor it reads with. */
module OtauFileObject {
  import opened Bytes
  import opened FileFormat

  /** A reading cursor over a byte array. A short read consumes what is left and yields 0. */
  class DataStream {
    const arr: ByteArray
    var pos: nat

    ghost predicate Valid()
      reads this
    {
      pos <= |arr|
    }

    /** The cursor has moved past the first n bytes, or to the end. */
    ghost predicate At(n: nat)
      reads this
    {
      pos == Min(n, |arr|)
    }

    constructor (arr: ByteArray)
      ensures this.arr == arr && At(0)
    {
      this.arr := arr;
      pos := 0;
    }

    predicate AtEnd()
      reads this
    {
      pos >= |arr|
    }

    // Each read names the ghost position o + n it happens at and yields the integer at n
    // counted from o.

    method ReadU8(ghost o: nat, ghost n: nat) returns (v: u8)
      requires o <= |arr| && At(o + n)
      modifies this
      ensures At(o + n + 1) && v == Get8(arr[o..], n)
    {
      GetOfSuffix(arr, o, n);
      v := Get8(arr, pos);
      pos := Min(pos + 1, |arr|);
    }

    method ReadU16(ghost o: nat, ghost n: nat) returns (v: u16)
      requires o <= |arr| && At(o + n)
      modifies this
      ensures At(o + n + 2) && v == Get16(arr[o..], n)
    {
      GetOfSuffix(arr, o, n);
      v := Get16(arr, pos);
      pos := Min(pos + 2, |arr|);
    }

    method ReadU32(ghost o: nat, ghost n: nat) returns (v: u32)
      requires o <= |arr| && At(o + n)
      modifies this
      ensures At(o + n + 4) && v == Get32(arr[o..], n)
    {
      GetOfSuffix(arr, o, n);
      v := Get32(arr, pos);
      pos := Min(pos + 4, |arr|);
    }

    method ReadU64(ghost o: nat, ghost n: nat) returns (v: u64)
      requires o <= |arr| && At(o + n)
      modifies this
      ensures At(o + n + 8) && v == Get64(arr[o..], n)
    {
      GetOfSuffix(arr, o, n);
      v := Get64(arr, pos);
      pos := Min(pos + 8, |arr|);
    }

    method ReadRaw(size: nat, ghost n: nat) returns (data: seq<u8>)
      requires At(n) && n + size <= |arr|
      modifies this
      ensures At(n + size) && data == arr[n..n + size]
    {
      data := arr[pos..pos + size];
      pos := pos + size;
    }
  }

  class OtauFile {
    var upgradeFileId: u32
    var headerVersion: u16
    var headerLength: u16
    var headerFieldControl: u16
    var manufacturerCode: u16
    var imageType: u16
    var fileVersion: u32
    var zigBeeStackVersion: u16
    var headerString: HeaderString
    var totalImageSize: u32
    var securityCredentialVersion: u8
    var upgradeFileDestination: u64
    var minHardwareVersion: u16
    var maxHardwareVersion: u16
    var subElements: seq<SubElement>
    var raw: ByteArray

    /** The file's value. */
    ghost function Data(): FileData
      reads this
    {
      FileData(upgradeFileId, headerVersion, headerLength, headerFieldControl, manufacturerCode, imageType,
               fileVersion, zigBeeStackVersion, headerString, totalImageSize, securityCredentialVersion,
               upgradeFileDestination, minHardwareVersion, maxHardwareVersion, subElements, raw)
    }

    /** A new file; the header string is left as the memory was. */
    constructor (headerString: HeaderString)
      ensures Data() == FileData(FILE_MAGIC, 0x0100, 0, 0, 0, 0, 0, 2, headerString, 0, 0, 0, 0, 0, [], [])
    {
      upgradeFileId := FILE_MAGIC;
      headerVersion := 0x0100;
      headerLength := 0;
      headerFieldControl := 0;
      manufacturerCode := 0;
      imageType := 0;
      fileVersion := 0;
      zigBeeStackVersion := 2;
      this.headerString := headerString;
      totalImageSize := 0;
      securityCredentialVersion := 0;
      upgradeFileDestination := 0;
      minHardwareVersion := 0;
      maxHardwareVersion := 0;
      subElements := [];
      raw := [];
    }

    /** Packs the file after recomputing its two size fields. */
    method ToArray() returns (arr: seq<u8>)
      modifies this`headerLength, this`totalImageSize
      ensures Data() == Sized(old(Data()))
      ensures arr == Print(old(Data()))
    {
      ComputeSizes();
      var body := PackElements(subElements);
      arr := PrintHeader(Value()) + body;
    }

    static method PackElements(es: seq<SubElement>) returns (arr: seq<u8>)
      ensures arr == PrintElements(es)
    {
      arr := [];
      for i := 0 to |es|
        invariant arr + PrintElements(es[i..]) == PrintElements(es)
      {
        var e := es[i];
        ghost var before := arr;
        arr := arr + Le(e.tag, 2) + Le(e.length, 4);
        ghost var header := arr;
        for j := 0 to |e.data|
          invariant arr == header + e.data[..j]
        {
          arr := arr + [e.data[j]];
        }
        assert e.data[..|e.data|] == e.data;
        assert arr == before + PrintElement(e);
        PackStep(before, es, i);
      }
    }

    function Value(): FileData
      reads this
      ensures Value() == Data()
    {
      FileData(upgradeFileId, headerVersion, headerLength, headerFieldControl, manufacturerCode, imageType,
               fileVersion, zigBeeStackVersion, headerString, totalImageSize, securityCredentialVersion,
               upgradeFileDestination, minHardwareVersion, maxHardwareVersion, subElements, raw)
    }

    method ComputeSizes()
      modifies this`headerLength, this`totalImageSize
      ensures Data() == Sized(old(Data()))
    {
      headerLength := MANDATORY_HEADER_LENGTH;
      if HasSecurity(headerFieldControl) {
        headerLength := headerLength + 1;
      }
      if HasDestination(headerFieldControl) {
        headerLength := headerLength + 8;
      }
      if HasHardware(headerFieldControl) {
        headerLength := headerLength + 2;
        headerLength := headerLength + 2;
      }
      totalImageSize := TotalSize(headerLength, subElements);
    }

    /** The total size, summed up in 32-bit arithmetic. */
    static method TotalSize(headerLength: u16, es: seq<SubElement>) returns (total: u32)
      ensures total == (headerLength + ElementsSize(es)) % 0x1_0000_0000
    {
      total := headerLength;
      ghost var size: nat := headerLength;
      for i := 0 to |es|
        invariant size + ElementsSize(es[i..]) == headerLength + ElementsSize(es)
        invariant total == size % 0x1_0000_0000
      {
        AddModulo(size, SEGMENT_HEADER_LENGTH);
        AddModulo(size + SEGMENT_HEADER_LENGTH, |es[i].data|);
        total := (total + SEGMENT_HEADER_LENGTH) % 0x1_0000_0000;
        total := (total + |es[i].data|) % 0x1_0000_0000;
        assert es[i..][1..] == es[i + 1..];
        size := size + SEGMENT_HEADER_LENGTH + |es[i].data|;
      }
    }

    /** Overwrites the file from a byte array. The early failures leave what was already
        overwritten. */
    method FromArray(arr: ByteArray) returns (ok: bool)
      modifies this
      ensures (Data(), ok) == Parse(old(Data()), arr)
    {
      if |arr| < MANDATORY_HEADER_LENGTH {
        return false;
      }
      var offset := IndexOfMagic(arr, 0);
      if offset < 0 {
        return false;
      }
      ghost var s := arr[offset..];
      var stream := new DataStream(arr);
      for i := 0 to offset
        modifies stream
        invariant stream.At(i)
      {
        var dummy := stream.ReadU8(0, i);
      }
      var valid := ReadFixedHeader(stream, offset);
      if !valid {
        return false;
      }
      var processedLength := ReadOptionalHeader(stream, offset);
      ReadSubElements(stream, offset, processedLength);
      TakeRaw(arr, offset);
      ok := subElements != [];
    }

    /** Keeps the image: as much of it as there is. */
    method TakeRaw(arr: ByteArray, offset: nat)
      requires offset <= |arr|
      modifies this`raw
      ensures var s := arr[offset..]; raw == s[..Min(totalImageSize, |s|)]
    {
      var end := Min(offset + totalImageSize, |arr|);
      var image := arr[offset..end];
      assert |image| == end - offset;
      assert image == arr[offset..][..end - offset];
      raw := image;
    }

    /** Reads the fixed header; stops behind the header length when that is too small. */
    method ReadFixedHeader(stream: DataStream, offset: nat) returns (valid: bool)
      requires offset <= |stream.arr| && stream.At(offset)
      modifies this, stream
      ensures var s := stream.arr[offset..]; var g := FileFormat.ReadFixedHeader(old(Data()), s);
        && valid == (g.headerLength >= MANDATORY_HEADER_LENGTH)
        && (valid ==> Data() == g && stream.At(offset + MANDATORY_HEADER_LENGTH))
        && (!valid ==> Data() == old(Data()).(upgradeFileId := g.upgradeFileId, headerVersion := g.headerVersion, headerLength := g.headerLength))
    {
      ghost var s := stream.arr[offset..];
      upgradeFileId := stream.ReadU32(offset, 0);
      headerVersion := stream.ReadU16(offset, 4);
      headerLength := stream.ReadU16(offset, 6);
      if headerLength < MANDATORY_HEADER_LENGTH {
        return false;
      }
      ReadHeaderFields(stream, offset);
      valid := true;
    }

    method ReadHeaderFields(stream: DataStream, offset: nat)
      requires offset <= |stream.arr| && stream.At(offset + 8)
      modifies this`headerFieldControl, this`manufacturerCode, this`imageType, this`fileVersion,
               this`zigBeeStackVersion, this`headerString, this`totalImageSize, stream
      ensures stream.At(offset + MANDATORY_HEADER_LENGTH)
      ensures var s := stream.arr[offset..];
        && headerFieldControl == Get16(s, 8) && manufacturerCode == Get16(s, 10) && imageType == Get16(s, 12)
        && fileVersion == Get32(s, 14) && zigBeeStackVersion == Get16(s, 18)
        && headerString == HeaderStringAt(s) && totalImageSize == Get32(s, 52)
    {
      headerFieldControl := stream.ReadU16(offset, 8);
      manufacturerCode := stream.ReadU16(offset, 10);
      imageType := stream.ReadU16(offset, 12);
      fileVersion := stream.ReadU32(offset, 14);
      zigBeeStackVersion := stream.ReadU16(offset, 18);
      ReadHeaderString(stream, offset);
      totalImageSize := stream.ReadU32(offset, 52);
    }

    method ReadHeaderString(stream: DataStream, offset: nat)
      requires offset <= |stream.arr| && stream.At(offset + 20)
      modifies this`headerString, stream
      ensures stream.At(offset + 52) && headerString == HeaderStringAt(stream.arr[offset..])
    {
      ghost var s := stream.arr[offset..];
      for i := 0 to 32
        invariant stream.At(offset + 20 + i)
        invariant forall j :: 0 <= j < i ==> headerString[j] == HeaderStringAt(s)[j]
      {
        var b := stream.ReadU8(offset, 20 + i);
        headerString := headerString[i := b];
      }
    }

    /** Reads the optional fields and discards extra header bytes; returns the length of the
        header. */
    method ReadOptionalHeader(stream: DataStream, offset: nat) returns (processedLength: u32)
      requires offset <= |stream.arr| && stream.At(offset + MANDATORY_HEADER_LENGTH)
      modifies this`securityCredentialVersion, this`upgradeFileDestination, this`minHardwareVersion,
               this`maxHardwareVersion, stream
      ensures Data() == FileFormat.ReadOptionalHeader(old(Data()), stream.arr[offset..])
      ensures processedLength == BodyStart(Data()) && stream.At(offset + processedLength)
    {
      processedLength := ReadOptionalFields(stream, offset);
      processedLength := SkipUnknownFields(stream, offset, processedLength);
    }

    method ReadOptionalFields(stream: DataStream, offset: nat) returns (processedLength: u32)
      requires offset <= |stream.arr| && stream.At(offset + MANDATORY_HEADER_LENGTH)
      modifies this`securityCredentialVersion, this`upgradeFileDestination, this`minHardwareVersion,
               this`maxHardwareVersion, stream
      ensures processedLength == HeaderLength(headerFieldControl) && stream.At(offset + processedLength)
      ensures var s, fc := stream.arr[offset..], headerFieldControl;
        var q := MANDATORY_HEADER_LENGTH + SecurityLength(fc); var r := q + DestinationLength(fc);
        && securityCredentialVersion == (if HasSecurity(fc) then Get8(s, MANDATORY_HEADER_LENGTH) else old(securityCredentialVersion))
        && upgradeFileDestination == (if HasDestination(fc) then Get64(s, q) else old(upgradeFileDestination))
        && minHardwareVersion == (if HasHardware(fc) then Get16(s, r) else old(minHardwareVersion))
        && maxHardwareVersion == (if HasHardware(fc) then Get16(s, r + 2) else old(maxHardwareVersion))
    {
      processedLength := MANDATORY_HEADER_LENGTH;
      if HasSecurity(headerFieldControl) {
        securityCredentialVersion := stream.ReadU8(offset, processedLength);
        processedLength := processedLength + 1;
      }
      if HasDestination(headerFieldControl) {
        upgradeFileDestination := stream.ReadU64(offset, processedLength);
        processedLength := processedLength + 8;
      }
      if HasHardware(headerFieldControl) {
        minHardwareVersion := stream.ReadU16(offset, processedLength);
        maxHardwareVersion := stream.ReadU16(offset, processedLength + 2);
        processedLength := processedLength + 4;
      }
    }

    /** Discards what the header length announces beyond the known fields. */
    method SkipUnknownFields(stream: DataStream, offset: nat, known: u32) returns (processedLength: u32)
      requires offset <= |stream.arr| && stream.At(offset + known)
      modifies stream
      ensures processedLength == (if headerLength > known then headerLength else known) && stream.At(offset + processedLength)
    {
      processedLength := known;
      while headerLength > processedLength
        invariant known <= processedLength && (processedLength > known ==> processedLength <= headerLength)
        invariant stream.At(offset + processedLength)
      {
        var dummy := stream.ReadU8(offset, processedLength);
        processedLength := processedLength + 1;
      }
    }

    /** Reads the elements. The cursor stays at min(offset + processedLength, size), so the
        remaining size never underflows and processedLength stays a 32-bit value. */
    method ReadSubElements(stream: DataStream, offset: nat, start: u32)
      requires offset <= |stream.arr| && stream.At(offset + start)
      modifies this`subElements, stream
      ensures subElements == ParseElements(stream.arr[offset..], start, manufacturerCode, totalImageSize)
    {
      ghost var s := stream.arr[offset..];
      ghost var all := ParseElements(s, start, manufacturerCode, totalImageSize);
      var processedLength: u32 := start;
      subElements := [];
      while !stream.AtEnd()
        invariant stream.At(offset + processedLength)
        invariant subElements + ParseElements(s, processedLength, manufacturerCode, totalImageSize) == all
        decreases |stream.arr| - stream.pos
      {
        ghost var p: nat := processedLength;
        var found, sub, next := ReadSubElement(stream, offset, processedLength);
        processedLength := next;
        if !found {
          break;
        }
        AppendElement(subElements, s, p, manufacturerCode, totalImageSize);
        subElements := subElements + [sub];
        if manufacturerCode == VENDOR_LEGRAND && processedLength == totalImageSize {
          break;
        }
      }
    }

    /** Reads one element, unless its header is the end of the array. */
    static method ReadSubElement(stream: DataStream, offset: nat, start: u32)
      returns (found: bool, sub: SubElement, processedLength: u32)
      requires offset + start < |stream.arr| && stream.At(offset + start)
      modifies stream
      ensures var s := stream.arr[offset..];
        && found == (start + SEGMENT_HEADER_LENGTH < |s|)
        && (found ==> sub == ElementAt(s, start) && processedLength == Next(s, start))
      ensures stream.At(offset + processedLength) && processedLength > start
    {
      ghost var s := stream.arr[offset..];
      processedLength := start;
      var tag := stream.ReadU16(offset, processedLength);
      processedLength := processedLength + 2;
      var length := stream.ReadU32(offset, processedLength);
      processedLength := processedLength + 4;
      if stream.AtEnd() {
        return false, SubElement(tag, length, []), processedLength;
      }
      var size: nat := if length > |stream.arr| - offset - processedLength then |stream.arr| - offset - processedLength else length;
      var data := stream.ReadRaw(size, offset + processedLength);
      assert data == s[processedLength..processedLength + size];
      processedLength := processedLength + size;
      return true, SubElement(tag, length, data), processedLength;
    }
  }

  lemma {:induction false} AppendElement(acc: seq<SubElement>, s: seq<u8>, p: nat, mfc: u16, total: u32)
    requires p + SEGMENT_HEADER_LENGTH < |s|
    ensures acc + ParseElements(s, p, mfc, total) == acc + [ElementAt(s, p)] + ParseRest(s, Next(s, p), mfc, total)
  {
    var rest := ParseRest(s, Next(s, p), mfc, total);
    assert acc + ([ElementAt(s, p)] + rest) == acc + [ElementAt(s, p)] + rest;
  }

  lemma {:induction false} AddModulo(x: nat, y: nat)
    ensures (x % 0x1_0000_0000 + y) % 0x1_0000_0000 == (x + y) % 0x1_0000_0000
  {}

  lemma {:induction false} PackStep(before: seq<u8>, es: seq<SubElement>, i: nat)
    requires i < |es|
    ensures before + PrintElement(es[i]) + PrintElements(es[i + 1..]) == before + PrintElements(es[i..])
  {
    assert es[i..][1..] == es[i + 1..];
    assert before + (PrintElement(es[i]) + PrintElements(es[i + 1..])) == before + PrintElement(es[i]) + PrintElements(es[i + 1..]);
  }
}
