/** The index of local update files: written as one JSON object per line, read back by searching
    for keys, and used to select the update of a node. */
module LocalIndex {
  import opened Bytes
  import opened JsonText
  import opened Options
  import opened FileFormat
  import opened Tracking
  import opened Transfer

  const MAX_PATH := 2048

  // ---- writing one object ----

  datatype OtaIndexEntry = OtaIndexEntry(path: string, sha512: seq<u8>, mfcode: u32, imageType: u32, fileVersion: u32, fileSize: u32)

  function Parts(e: OtaIndexEntry): seq<string> {
    ["{\"", "fileVersion", "\":", Dec(e.fileVersion),
     ",\"fileSize\":", Dec(e.fileSize),
     ",\"", "manufacturerCode", "\":", Dec(e.mfcode),
     ",\"", "imageType", "\":", Dec(e.imageType),
     ",\"sha512\":\"", Hex(e.sha512), "\",",
     "\"path\"", ":\"", e.path, "\"}"]
  }

  function Flat(ps: seq<string>): string {
    if ps == [] then "" else ps[0] + Flat(ps[1..])
  }

  function Line(e: OtaIndexEntry): string {
    Flat(Parts(e))
  }

  function HexDigit(d: nat): char
    requires d < 16
  {
    if d < 10 then (48 + d) as char else (87 + d) as char
  }

  /** Two lower-case digits per byte. */
  function Hex(bs: seq<u8>): string {
    if bs == [] then "" else Hex(bs[..|bs| - 1]) + [HexDigit(bs[|bs| - 1] / 16), HexDigit(bs[|bs| - 1] % 16)]
  }

  lemma {:induction false} HexDigits(bs: seq<u8>)
    ensures forall i :: 0 <= i < |Hex(bs)| ==> IsDigit(Hex(bs)[i]) || 'a' <= Hex(bs)[i] <= 'f'
  {
    if bs != [] { HexDigits(bs[..|bs| - 1]); }
  }

  /** A path that can be read back. */
  predicate CleanPath(path: string) {
    '\"' !in path && |path| < MAX_PATH && (path == [] || !Blank(path[0]))
  }

  // ---- one object read back ----

  // ---- parts ----

  lemma {:induction false} FlatSplit(ps: seq<string>, i: nat, n: nat)
    requires i <= n <= |ps|
    ensures Flat(ps[i..]) == Flat(ps[i..n]) + Flat(ps[n..])
    decreases n - i
  {
    if i < n {
      FlatSplit(ps, i + 1, n);
      FlatFrom(ps, i);
      assert ps[i..n][1..] == ps[i + 1..n];
    } else {
      assert ps[i..n] == [];
    }
  }

  lemma {:induction false} FlatFrom(ps: seq<string>, i: nat)
    requires i < |ps|
    ensures Flat(ps[i..]) == ps[i] + Flat(ps[i + 1..])
  {
    assert ps[i..][1..] == ps[i + 1..];
  }

  /** The character does not occur in the parts from i on, up to n. */
  predicate Lacks(ps: seq<string>, i: nat, n: nat, c: char)
    requires n <= |ps|
    decreases n
  {
    n <= i || (c !in ps[n - 1] && Lacks(ps, i, n - 1, c))
  }

  lemma {:induction false} FlatLacks(ps: seq<string>, i: nat, n: nat, c: char)
    requires i <= n <= |ps| && Lacks(ps, i, n, c)
    ensures c !in Flat(ps[i..n])
  {
    if i < n {
      FlatLacks(ps, i, n - 1, c);
      var front := ps[..n];
      FlatSplit(front, i, n - 1);
      FlatFrom(front, n - 1);
      assert front[i..] == ps[i..n] && front[i..n - 1] == ps[i..n - 1] && front[n..] == [];
    } else {
      assert ps[i..n] == [];
    }
  }

  /** The number that follows the key in part i is read back. */
  lemma {:induction false} PartRead(ps: seq<string>, i: nat, n: u32, d: nat)
    requires i + 3 < |ps| && ps[i + 1] == "\":" && ps[i + 2] == Dec(n) && ps[i + 3] != [] && !IsDigit(ps[i + 3][0])
    requires d < |ps[i]| && ps[i][d] !in ps[i][..d] && ':' !in ps[i] && Lacks(ps, 0, i, ps[i][d])
    ensures GetU32(Flat(ps), ps[i]) == Some(n)
  {
    FlatSplit(ps, 0, i);
    assert ps[0..] == ps;
    FlatFrom(ps, i);
    FlatFrom(ps, i + 1);
    FlatFrom(ps, i + 2);
    FlatFrom(ps, i + 3);
    FlatLacks(ps, 0, i, ps[i][d]);
    assert "" + (Dec(n) + Flat(ps[i + 3..])) == Dec(n) + Flat(ps[i + 3..]);
    NumberRead(Flat(ps[0..i]), ps[i], "", n, Flat(ps[i + 3..]), d);
  }

  /** The parts of a line and what follows it in the line of the file. */
  function AllParts(e: OtaIndexEntry, tail: string): seq<string> {
    Parts(e) + [tail]
  }

  lemma {:induction false} FlatAll(e: OtaIndexEntry, tail: string)
    ensures Flat(AllParts(e, tail)) == Line(e) + tail
  {
    FlatMore(Parts(e), tail);
  }

  lemma {:induction false} FlatMore(ps: seq<string>, tail: string)
    ensures Flat(ps + [tail]) == Flat(ps) + tail
  {
    var all, n := ps + [tail], |ps|;
    FlatSplit(all, 0, n);
    FlatFrom(all, n);
    assert all[0..] == all && all[0..n] == ps && all[n + 1..] == [];
  }

  /** The parts up to the last key, one by one. */
  predicate Front(ps: seq<string>, e: OtaIndexEntry) {
    && |ps| >= 17
    && ps[0] == "{\"" && ps[1] == "fileVersion" && ps[2] == "\":" && ps[3] == Dec(e.fileVersion)
    && ps[4] == ",\"fileSize\":" && ps[5] == Dec(e.fileSize)
    && ps[6] == ",\"" && ps[7] == "manufacturerCode" && ps[8] == "\":" && ps[9] == Dec(e.mfcode)
    && ps[10] == ",\"" && ps[11] == "imageType" && ps[12] == "\":" && ps[13] == Dec(e.imageType)
    && ps[14] == ",\"sha512\":\"" && ps[15] == Hex(e.sha512) && ps[16] == "\","
  }

  /** All of them. */
  predicate Shape(ps: seq<string>, e: OtaIndexEntry) {
    && |ps| == 22 && Front(ps, e)
    && ps[17] == "\"path\"" && ps[18] == ":\"" && ps[19] == e.path && ps[20] == "\"}"
  }

  lemma {:induction false} PartsHaveShape(e: OtaIndexEntry, tail: string)
    ensures Shape(AllParts(e, tail), e)
  {}

  lemma {:induction false} VersionRead(ps: seq<string>, e: OtaIndexEntry)
    requires Front(ps, e)
    ensures GetU32(Flat(ps), "fileVersion") == Some(e.fileVersion)
  {
    var key := "fileVersion";
    assert key[..4] == "file";
    assert Lacks(ps, 0, 1, 'V');
    PartRead(ps, 1, e.fileVersion, 4);
  }

  lemma {:induction false} ManufacturerRead(ps: seq<string>, e: OtaIndexEntry)
    requires Front(ps, e)
    ensures GetU32(Flat(ps), "manufacturerCode") == Some(e.mfcode)
  {
    assert Lacks(ps, 0, 2, 'm') && Lacks(ps, 0, 4, 'm') && Lacks(ps, 0, 6, 'm') && Lacks(ps, 0, 7, 'm');
    PartRead(ps, 7, e.mfcode, 0);
  }

  lemma {:induction false} ImageTypeRead(ps: seq<string>, e: OtaIndexEntry)
    requires Front(ps, e)
    ensures GetU32(Flat(ps), "imageType") == Some(e.imageType)
  {
    var key := "imageType";
    assert key[..5] == "image";
    assert Lacks(ps, 0, 2, 'T') && Lacks(ps, 0, 4, 'T') && Lacks(ps, 0, 6, 'T') && Lacks(ps, 0, 8, 'T');
    assert Lacks(ps, 0, 10, 'T') && Lacks(ps, 0, 11, 'T');
    PartRead(ps, 11, e.imageType, 5);
  }

  /** Whatever the path and the rest of the line contain: the three numbers are read back. */
  lemma {:induction false} NumbersReadBack(e: OtaIndexEntry, tail: string)
    ensures GetU32(Line(e) + tail, "fileVersion") == Some(e.fileVersion)
    ensures GetU32(Line(e) + tail, "manufacturerCode") == Some(e.mfcode)
    ensures GetU32(Line(e) + tail, "imageType") == Some(e.imageType)
  {
    var ps := AllParts(e, tail);
    FlatAll(e, tail);
    PartsHaveShape(e, tail);
    VersionRead(ps, e);
    ManufacturerRead(ps, e);
    ImageTypeRead(ps, e);
  }

  lemma {:induction false} NoPBeforeA(a: string, a': string, b: string, j: nat)
    requires 'p' !in a && 'p' !in a' && j < |a| + 9 + |a'|
    ensures var s := a + ("imageType" + (a' + ("\"path\"" + b))); !(s[j + 1] == 'p' && s[j + 2] == 'a')
  {
    var s, t := a + ("imageType" + (a' + ("\"path\"" + b))), "imageType";
    if j + 1 < |a| {
      assert s[j + 1] == a[j + 1];
    } else if j + 1 < |a| + 9 {
      assert s[j + 1] == t[j + 1 - |a|];
      if j + 1 == |a| + 7 { assert s[j + 2] == t[8]; }
    } else if j + 1 < |a| + 9 + |a'| {
      assert s[j + 1] == a'[j + 1 - |a| - 9];
    } else {
      assert s[j + 1] == '\"';
    }
  }

  /** The quoted key of the path is found first where it was written: the only p before it is
      the one of imageType, and no a follows that one. */
  lemma {:induction false} PathKey(a: string, a': string, b: string)
    requires 'p' !in a && 'p' !in a'
    ensures var s := a + ("imageType" + (a' + ("\"path\"" + b))); Find(s, "\"path\"", 0) == |a| + 9 + |a'|
  {
    var s, p, key := a + ("imageType" + (a' + ("\"path\"" + b))), |a| + 9 + |a'|, "\"path\"";
    assert s[p..p + 6] == key;
    forall j: nat | j < p
      ensures !StandsAt(s, key, j)
    {
      NoPBeforeA(a, a', b, j);
      if s[j + 1] != 'p' { Differs(s, key, j, 1); } else { Differs(s, key, j, 2); }
    }
    FoundAt(s, key, 0, p);
  }

  /** The path is read back if and only if it has no quote, no leading blank and less than 2048
      characters. */
  lemma {:induction false} PathReadBackIff(e: OtaIndexEntry, tail: string)
    ensures GetString(Line(e) + tail, "path", MAX_PATH) == Some(e.path) <==>
      '\"' !in e.path && |e.path| < 2048 && (e.path == [] || !Blank(e.path[0]))
  {
    var ps := AllParts(e, tail);
    FlatAll(e, tail);
    PartsHaveShape(e, tail);
    NoPButOne(ps, e);
    PathPart(ps, e);
  }

  lemma {:induction false} NoPButOne(ps: seq<string>, e: OtaIndexEntry)
    requires Shape(ps, e)
    ensures 'p' !in Flat(ps[0..11]) && 'p' !in Flat(ps[12..17])
  {
    HexDigits(e.sha512);
    assert Lacks(ps, 0, 2, 'p') && Lacks(ps, 0, 4, 'p') && Lacks(ps, 0, 6, 'p') && Lacks(ps, 0, 8, 'p');
    assert Lacks(ps, 0, 10, 'p') && Lacks(ps, 0, 11, 'p');
    assert Lacks(ps, 12, 14, 'p') && Lacks(ps, 12, 16, 'p') && Lacks(ps, 12, 17, 'p');
    FlatLacks(ps, 0, 11, 'p');
    FlatLacks(ps, 12, 17, 'p');
  }

  lemma {:induction false} PathPlace(ps: seq<string>, e: OtaIndexEntry)
    requires Shape(ps, e)
    ensures Flat(ps) == Flat(ps[0..11]) + ("imageType" + (Flat(ps[12..17]) + ("\"path\"" + (":\"" + (e.path + Flat(ps[20..]))))))
    ensures Flat(ps[20..]) != [] && Flat(ps[20..])[0] == '\"'
  {
    FlatSplit(ps, 0, 11);
    FlatFrom(ps, 11);
    FlatSplit(ps, 12, 17);
    assert ps[0..] == ps;
    FlatFrom(ps, 17);
    FlatFrom(ps, 18);
    FlatFrom(ps, 19);
    FlatFrom(ps, 20);
  }

  lemma {:induction false} PathPart(ps: seq<string>, e: OtaIndexEntry)
    requires Shape(ps, e) && 'p' !in Flat(ps[0..11]) && 'p' !in Flat(ps[12..17])
    ensures GetString(Flat(ps), "path", MAX_PATH) == Some(e.path) <==> CleanPath(e.path)
  {
    var a, mid, b, quoted := Flat(ps[0..11]), Flat(ps[12..17]), Flat(ps[20..]), "\"path\"";
    PathPlace(ps, e);
    PathKey(a, mid, ":\"" + (e.path + b));
    Regroup(a, "imageType", mid, quoted + (":\"" + (e.path + b)));
    PathText(a + "imageType" + mid, e.path, b, Flat(ps));
  }

  lemma {:induction false} PathText(a: string, path: string, b: string, s: string)
    requires b != [] && b[0] == '\"' && s == a + ("\"path\"" + (":\"" + (path + b)))
    requires Find(s, "\"path\"", 0) == |a|
    ensures CleanPath(path) ==> GetString(s, "path", MAX_PATH) == Some(path)
  {
    assert "\"" + "path" + "\"" == "\"path\"";
    TextPlace(a, "\"path\"", path, b);
    if CleanPath(path) { TextRead(a + "\"path\"", "path", path, b, |a|, MAX_PATH, s); }
  }

  lemma {:induction false} SizePlace(ps: seq<string>, e: OtaIndexEntry)
    requires Front(ps, e)
    ensures Flat(ps) == (Flat(ps[0..4]) + ",\"") + ("fileSize" + ("\":" + (Dec(e.fileSize) + Flat(ps[6..]))))
  {
    FlatSplit(ps, 0, 4);
    FlatFrom(ps, 4);
    FlatFrom(ps, 5);
    assert ps[0..] == ps && ps[4] == ",\"" + ("fileSize" + "\":");
    RegroupText(Flat(ps[0..4]), ",\"", "fileSize", "\":", Dec(e.fileSize), Flat(ps[6..]));
  }

  lemma {:induction false} SizeRead(ps: seq<string>, e: OtaIndexEntry)
    requires Front(ps, e) && 'S' !in Flat(ps[0..4])
    ensures GetU32(Flat(ps), "fileSize") == Some(e.fileSize)
  {
    var key, a, b := "fileSize", Flat(ps[0..4]) + ",\"", Flat(ps[6..]);
    SizePlace(ps, e);
    FlatFrom(ps, 6);
    assert key[..4] == "file" && 'S' !in a && "" + (Dec(e.fileSize) + b) == Dec(e.fileSize) + b;
    NumberRead(a, key, "", e.fileSize, b, 4);
  }

  lemma {:induction false} NoCapital(ps: seq<string>, e: OtaIndexEntry)
    requires Front(ps, e)
    ensures 'S' !in Flat(ps[0..4])
  {
    assert Lacks(ps, 0, 2, 'S') && Lacks(ps, 0, 4, 'S');
    FlatLacks(ps, 0, 4, 'S');
  }

  /** The size is written behind its key, too, though nothing reads it. */
  lemma {:induction false} SizeReadBack(e: OtaIndexEntry, tail: string)
    ensures GetU32(Line(e) + tail, "fileSize") == Some(e.fileSize)
  {
    var ps := AllParts(e, tail);
    FlatAll(e, tail);
    PartsHaveShape(e, tail);
    NoCapital(ps, e);
    SizeRead(ps, e);
  }

  lemma {:induction false} NoHash(ps: seq<string>, e: OtaIndexEntry)
    requires Front(ps, e)
    ensures 'h' !in Flat(ps[0..14])
  {
    assert Lacks(ps, 0, 2, 'h') && Lacks(ps, 0, 4, 'h') && Lacks(ps, 0, 6, 'h') && Lacks(ps, 0, 8, 'h');
    assert Lacks(ps, 0, 10, 'h') && Lacks(ps, 0, 12, 'h') && Lacks(ps, 0, 14, 'h');
    FlatLacks(ps, 0, 14, 'h');
  }

  lemma {:induction false} HashPlace(ps: seq<string>, e: OtaIndexEntry)
    requires Front(ps, e)
    ensures Flat(ps) == (Flat(ps[0..14]) + ",") + ("\"sha512\"" + (":\"" + (Hex(e.sha512) + Flat(ps[16..]))))
    ensures Flat(ps[16..]) != [] && Flat(ps[16..])[0] == '\"'
  {
    FlatSplit(ps, 0, 14);
    FlatFrom(ps, 14);
    FlatFrom(ps, 15);
    FlatFrom(ps, 16);
    assert ps[0..] == ps && ps[14] == "," + ("\"sha512\"" + ":\"");
    RegroupText(Flat(ps[0..14]), ",", "\"sha512\"", ":\"", Hex(e.sha512), Flat(ps[16..]));
  }

  /** The hash is read back as its digits. */
  lemma {:induction false} HashReadBack(ps: seq<string>, e: OtaIndexEntry, maxlen: nat)
    requires Front(ps, e) && |Hex(e.sha512)| < maxlen
    ensures GetString(Flat(ps), "sha512", maxlen) == Some(Hex(e.sha512))
  {
    var a, b, quoted := Flat(ps[0..14]) + ",", Flat(ps[16..]), "\"sha512\"";
    NoHash(ps, e);
    HashPlace(ps, e);
    HexDigits(e.sha512);
    assert quoted[..2] == "\"s" && quoted == "\"" + "sha512" + "\"";
    FirstKey(a, quoted, ":\"" + (Hex(e.sha512) + b), 2);
    TextPlace(a, quoted, Hex(e.sha512), b);
    TextRead(a + quoted, "sha512", Hex(e.sha512), b, |a|, maxlen, Flat(ps));
  }

  lemma {:induction false} RegroupText(a: string, b: string, c: string, d: string, x: string, y: string)
    ensures a + ((b + (c + d)) + (x + y)) == (a + b) + (c + (d + (x + y)))
  {}

  lemma {:induction false} OneByte(x: u8, y: u8)
    requires HexDigit(x / 16) == HexDigit(y / 16) && HexDigit(x % 16) == HexDigit(y % 16)
    ensures x == y
  {}

  /** The two digits of each byte stand in its place, the high one first. */
  lemma {:induction false} HexAt(bs: seq<u8>, i: nat)
    requires i < |bs|
    ensures var digits := "0123456789abcdef";
      && |Hex(bs)| == 2 * |bs|
      && Hex(bs)[2 * i] == digits[bs[i] / 16] && Hex(bs)[2 * i + 1] == digits[bs[i] % 16]
  {
    HexLength(bs);
    HexSplit(bs);
    if i < |bs| - 1 {
      var h := Hex(bs);
      HexAt(bs[..|bs| - 1], i);
      assert h[2 * i] == h[..|h| - 2][2 * i] && h[2 * i + 1] == h[..|h| - 2][2 * i + 1];
    } else {
      DigitRead(bs[i] / 16);
      DigitRead(bs[i] % 16);
    }
  }

  lemma {:induction false} DigitRead(d: nat)
    requires d < 16
    ensures HexDigit(d) == "0123456789abcdef"[d]
  {}

  /** The digits determine the hash. */
  lemma {:induction false} HexInjective(a: seq<u8>, b: seq<u8>)
    requires Hex(a) == Hex(b)
    ensures a == b
  {
    HexLength(a);
    HexLength(b);
    if a != [] {
      HexSplit(a);
      HexSplit(b);
      HexInjective(a[..|a| - 1], b[..|b| - 1]);
      OneByte(a[|a| - 1], b[|b| - 1]);
      assert a == a[..|a| - 1] + [a[|a| - 1]] && b == b[..|b| - 1] + [b[|b| - 1]];
    }
  }

  lemma {:induction false} HexSplit(a: seq<u8>)
    requires a != []
    ensures var h, x := Hex(a), a[|a| - 1];
      |h| >= 2 && h[..|h| - 2] == Hex(a[..|a| - 1]) && h[|h| - 2] == HexDigit(x / 16) && h[|h| - 1] == HexDigit(x % 16)
  {}

  lemma {:induction false} HexLength(bs: seq<u8>)
    ensures |Hex(bs)| == 2 * |bs|
  {
    if bs != [] { HexLength(bs[..|bs| - 1]); }
  }

  // ---- the whole file ----

  function Body(es: seq<OtaIndexEntry>): string {
    if es == [] then [] else if |es| == 1 then Line(es[0]) else Line(es[0]) + ",\n" + Body(es[1..])
  }

  function Content(es: seq<OtaIndexEntry>): string {
    "[\n" + Body(es) + "\n]\n"
  }

  function LineEnd(s: string): (r: nat)
    ensures r <= |s| && (forall i :: 0 <= i < r ==> s[i] != '\n') && (r < |s| ==> s[r] == '\n')
  {
    if s == [] || s[0] == '\n' then 0 else LineEnd(s[1..]) + 1
  }

  function Trim(s: string): string {
    if s == [] then s
    else if Blank(s[0]) then Trim(s[1..])
    else if Blank(s[|s| - 1]) then Trim(s[..|s| - 1])
    else s
  }

  predicate AllBlank(s: string) {
    forall i :: 0 <= i < |s| ==> Blank(s[i])
  }

  /** Blanks around a line do not matter, and an empty line is one of blanks. */
  lemma {:induction false} TrimStrips(a: string, x: string, b: string)
    requires AllBlank(a) && AllBlank(b) && (x == [] || (!Blank(x[0]) && !Blank(x[|x| - 1])))
    ensures Trim(a + x + b) == x
    decreases |a| + |b|
  {
    var s := a + x + b;
    if a != [] {
      assert s[1..] == a[1..] + x + b && s[0] == a[0];
      TrimStrips(a[1..], x, b);
    } else if b != [] {
      if x == [] {
        assert s == b && s[1..] == a + x + b[1..];
        TrimStrips(a, x, b[1..]);
      } else {
        assert s[|s| - 1] == b[|b| - 1] && s[0] == x[0] && s[..|s| - 1] == a + x + b[..|b| - 1];
        TrimStrips(a, x, b[..|b| - 1]);
      }
    } else {
      assert s == x;
    }
  }

  /** What an update must offer a node. */
  datatype Wish = Wish(manufacturerId: u32, imageType: u32, above: u32)

  /** The path an object offers, if it fits the wish and the file exists. */
  function Offer(line: string, w: Wish, existing: set<string>): Option<string> {
    if line == [] || line[0] != '{' then None
    else if GetU32(line, "manufacturerCode") != Some(w.manufacturerId) then None
    else if GetU32(line, "imageType") != Some(w.imageType) then None
    else
      match GetU32(line, "fileVersion")
      case None => None
      case Some(version) =>
        if version <= w.above then None
        else
          match GetString(line, "path", MAX_PATH)
          case None => None
          case Some(path) => if path in existing then Some(path) else None
  }

  /** Only an object is offered, that of another manufacturer, type or older version never is, and
      neither is a file that is not there. */
  lemma {:induction false} OfferIff(line: string, w: Wish, existing: set<string>)
    ensures Offer(line, w, existing).Some? <==>
      && (exists rest :: line == "{" + rest)
      && GetU32(line, "manufacturerCode") == Some(w.manufacturerId) && GetU32(line, "imageType") == Some(w.imageType)
      && (exists version :: GetU32(line, "fileVersion") == Some(version) && version > w.above)
      && (exists path :: GetString(line, "path", 2048) == Some(path) && path in existing)
  {
    if line != [] { assert line == line[..1] + line[1..]; }
    if line != [] && line[0] == '{' { assert line == "{" + line[1..]; }
  }

  /** The first offer of the file, read line by line up to the first empty one. */
  function Select(s: string, w: Wish, existing: set<string>): Option<string>
    decreases |s|
  {
    var end := LineEnd(s);
    var line := Trim(s[..end]);
    if line == [] then None
    else
      match Offer(line, w, existing)
      case Some(path) => Some(path)
      case None => Select(s[Min(end + 1, |s|)..], w, existing)
  }

  predicate Fits(e: OtaIndexEntry, w: Wish, existing: set<string>) {
    e.mfcode == w.manufacturerId && e.imageType == w.imageType && e.fileVersion > w.above && e.path in existing
  }

  /** The first entry that fits. */
  function FirstFit(es: seq<OtaIndexEntry>, w: Wish, existing: set<string>): Option<OtaIndexEntry> {
    if es == [] then None
    else if Fits(es[0], w, existing) then Some(es[0])
    else FirstFit(es[1..], w, existing)
  }

  lemma {:induction false} FirstFitIsFirst(es: seq<OtaIndexEntry>, w: Wish, existing: set<string>) returns (i: nat)
    ensures i <= |es| && (forall j :: 0 <= j < i ==> !Fits(es[j], w, existing))
    ensures FirstFit(es, w, existing) == (if i == |es| then None else Some(es[i])) && (i < |es| ==> Fits(es[i], w, existing))
  {
    if es == [] || Fits(es[0], w, existing) {
      i := 0;
    } else {
      var j := FirstFitIsFirst(es[1..], w, existing);
      i := j + 1;
    }
  }

  /** Its path. */
  function FirstPath(es: seq<OtaIndexEntry>, w: Wish, existing: set<string>): Option<string> {
    match FirstFit(es, w, existing)
    case Some(e) => Some(e.path)
    case None => None
  }

  predicate CleanEntry(e: OtaIndexEntry) {
    CleanPath(e.path) && '\n' !in e.path
  }

  lemma {:induction false} FirstChar(e: OtaIndexEntry)
    ensures Line(e) != [] && Line(e)[0] == '{'
  {
    FlatFrom(Parts(e), 0);
    assert Parts(e)[0..] == Parts(e);
  }

  lemma {:induction false} OfferOfEntry(e: OtaIndexEntry, tail: string, w: Wish, existing: set<string>)
    requires CleanEntry(e)
    ensures Offer(Line(e) + tail, w, existing) == if Fits(e, w, existing) then Some(e.path) else None
  {
    NumbersReadBack(e, tail);
    PathReadBackIff(e, tail);
    FirstChar(e);
  }

  lemma {:induction false} FirstLine(x: string, y: string)
    requires '\n' !in x
    ensures LineEnd(x + "\n" + y) == |x|
    ensures (x + "\n" + y)[..|x|] == x && (x + "\n" + y)[|x| + 1..] == y
  {
    var s := x + "\n" + y;
    assert s[|x|] == '\n';
    assert forall i :: 0 <= i < |x| ==> s[i] == x[i];
  }

  /** A line of its own, between nonblank characters. */
  predicate Compact(x: string) {
    '\n' !in x && x != [] && !Blank(x[0]) && !Blank(x[|x| - 1])
  }

  lemma {:induction false} SelectLine(x: string, y: string, w: Wish, existing: set<string>)
    requires Compact(x)
    ensures Select(x + "\n" + y, w, existing) == match Offer(x, w, existing) case Some(path) => Some(path) case None => Select(y, w, existing)
  {
    FirstLine(x, y);
  }

  lemma {:induction false} NoBreak(ps: seq<string>, e: OtaIndexEntry)
    requires Shape(ps, e) && CleanEntry(e)
    ensures '\n' !in Flat(ps[0..21])
  {
    HexDigits(e.sha512);
    assert Lacks(ps, 0, 2, '\n') && Lacks(ps, 0, 4, '\n') && Lacks(ps, 0, 6, '\n') && Lacks(ps, 0, 8, '\n');
    assert Lacks(ps, 0, 10, '\n') && Lacks(ps, 0, 12, '\n') && Lacks(ps, 0, 14, '\n') && Lacks(ps, 0, 16, '\n');
    assert Lacks(ps, 0, 18, '\n') && Lacks(ps, 0, 20, '\n') && Lacks(ps, 0, 21, '\n');
    FlatLacks(ps, 0, 21, '\n');
  }

  lemma {:induction false} Ends(ps: seq<string>, e: OtaIndexEntry)
    requires Shape(ps, e)
    ensures var x := Flat(ps[0..21]); |x| >= 2 && x[0] == '{' && x[|x| - 1] == '}'
  {
    var qs := ps[0..21];
    FlatSplit(qs, 0, 20);
    FlatFrom(qs, 0);
    FlatFrom(qs, 20);
    assert qs[0..] == qs && qs[21..] == [];
  }

  lemma {:induction false} LineIsCompact(e: OtaIndexEntry)
    requires CleanEntry(e)
    ensures Compact(Line(e)) && Compact(Line(e) + ",")
  {
    var ps := AllParts(e, "");
    PartsHaveShape(e, "");
    assert ps[0..21] == Parts(e);
    NoBreak(ps, e);
    Ends(ps, e);
  }

  lemma {:induction false} SelectEntry(e: OtaIndexEntry, tail: string, y: string, w: Wish, existing: set<string>)
    requires CleanEntry(e) && Compact(Line(e) + tail)
    ensures Select(Line(e) + tail + "\n" + y, w, existing) == if Fits(e, w, existing) then Some(e.path) else Select(y, w, existing)
  {
    OfferOfEntry(e, tail, w, existing);
    SelectLine(Line(e) + tail, y, w, existing);
  }

  lemma {:induction false} SelectEnd(w: Wish, existing: set<string>)
    ensures Select("\n]\n", w, existing) == None && Select("]\n", w, existing) == None
  {
    FirstLine("", "]\n");
    assert "" + "\n" + "]\n" == "\n]\n";
    SelectLine("]", "", w, existing);
    assert "]" + "\n" + "" == "]\n";
  }

  lemma {:induction false} SplitLines(x: string, body: string, end: string)
    ensures x + ",\n" + body + end == x + "," + "\n" + (body + end)
  {
    assert ",\n" == "," + "\n";
  }

  /** The last entry has no comma behind it. */
  lemma {:induction false} SelectLast(e: OtaIndexEntry, w: Wish, existing: set<string>)
    requires CleanEntry(e)
    ensures Select(Line(e) + "\n]\n", w, existing) == if Fits(e, w, existing) then Some(e.path) else None
  {
    var x := Line(e);
    LineIsCompact(e);
    SelectEnd(w, existing);
    assert x + "" == x;
    SelectEntry(e, "", "]\n", w, existing);
    assert x + "\n]\n" == x + "\n" + "]\n";
  }

  lemma {:induction false} SelectBody(es: seq<OtaIndexEntry>, w: Wish, existing: set<string>)
    requires forall i :: 0 <= i < |es| ==> CleanEntry(es[i])
    ensures Select(Body(es) + "\n]\n", w, existing) == FirstPath(es, w, existing)
  {
    if es == [] {
      SelectEnd(w, existing);
      assert Body(es) + "\n]\n" == "\n]\n";
    } else if |es| == 1 {
      SelectLast(es[0], w, existing);
      assert FirstFit(es[1..], w, existing) == None;
    } else {
      LineIsCompact(es[0]);
      SplitLines(Line(es[0]), Body(es[1..]), "\n]\n");
      SelectEntry(es[0], ",", Body(es[1..]) + "\n]\n", w, existing);
      SelectBody(es[1..], w, existing);
    }
  }

  /** Reading the index as written selects the first entry that fits. */
  lemma {:induction false} SelectsFirstFit(es: seq<OtaIndexEntry>, w: Wish, existing: set<string>)
    requires forall i :: 0 <= i < |es| ==> CleanEntry(es[i])
    ensures Select(Content(es), w, existing) == FirstPath(es, w, existing)
  {
    assert "[\n" == "[" + "\n";
    Nest("[\n", Body(es), "\n]\n");
    SelectLine("[", Body(es) + "\n]\n", w, existing);
    SelectBody(es, w, existing);
  }

  lemma {:induction false} Nest(a: string, b: string, c: string)
    ensures a + b + c == a + (b + c)
  {}

  // ---- building the index ----

  datatype LocalFile = LocalFile(path: string, bytes: ByteArray)

  predicate HashIn(es: seq<OtaIndexEntry>, sha512: seq<u8>) {
    exists i :: 0 <= i < |es| && es[i].sha512 == sha512
  }

  /** An update file gets an entry if it can be parsed and its hash is new. */
  function AddFile(es: seq<OtaIndexEntry>, file: LocalFile, g: FileData, hash: ByteArray -> seq<u8>): seq<OtaIndexEntry> {
    var (f, ok) := Parse(g, file.bytes);
    if file.bytes == [] || !ok || HashIn(es, hash(file.bytes)) then es
    else es + [OtaIndexEntry(file.path, hash(file.bytes), f.manufacturerCode, f.imageType, f.fileVersion, |file.bytes|)]
  }

  /** The entries of the files, in the order they are listed. */
  function Index(files: seq<LocalFile>, g: FileData, hash: ByteArray -> seq<u8>): seq<OtaIndexEntry> {
    if files == [] then [] else AddFile(Index(files[..|files| - 1], g, hash), files[|files| - 1], g, hash)
  }

  predicate EntryOf(e: OtaIndexEntry, file: LocalFile, g: FileData, hash: ByteArray -> seq<u8>) {
    var (f, ok) := Parse(g, file.bytes);
    && ok && e == OtaIndexEntry(file.path, hash(file.bytes), f.manufacturerCode, f.imageType, f.fileVersion, |file.bytes|)
  }

  /** Entry i is that of some file. */
  predicate Listed(files: seq<LocalFile>, e: OtaIndexEntry, g: FileData, hash: ByteArray -> seq<u8>) {
    exists k :: 0 <= k < |files| && EntryOf(e, files[k], g, hash)
  }

  predicate AllListed(files: seq<LocalFile>, es: seq<OtaIndexEntry>, g: FileData, hash: ByteArray -> seq<u8>) {
    forall i :: 0 <= i < |es| ==> Listed(files, es[i], g, hash)
  }

  predicate DistinctHashes(es: seq<OtaIndexEntry>) {
    forall i, j :: 0 <= i < j < |es| ==> es[i].sha512 != es[j].sha512
  }

  lemma {:induction false} AddFileListed(files: seq<LocalFile>, es: seq<OtaIndexEntry>, g: FileData, hash: ByteArray -> seq<u8>)
    requires files != [] && AllListed(files[..|files| - 1], es, g, hash)
    ensures AllListed(files, AddFile(es, files[|files| - 1], g, hash), g, hash)
  {
    var last := |files| - 1;
    var r := AddFile(es, files[last], g, hash);
    forall i | 0 <= i < |r|
      ensures Listed(files, r[i], g, hash)
    {
      if i < |es| {
        assert r[i] == es[i] && Listed(files[..last], es[i], g, hash);
        ListedMore(files, r[i], g, hash);
      } else {
        assert EntryOf(r[i], files[last], g, hash);
      }
    }
  }

  lemma {:induction false} AddFileDistinct(es: seq<OtaIndexEntry>, file: LocalFile, g: FileData, hash: ByteArray -> seq<u8>)
    requires DistinctHashes(es)
    ensures DistinctHashes(AddFile(es, file, g, hash))
  {}

  /** Every entry is that of a listed file, and no two entries have the same hash. */
  lemma {:induction false} EntriesAreListed(files: seq<LocalFile>, g: FileData, hash: ByteArray -> seq<u8>)
    ensures AllListed(files, Index(files, g, hash), g, hash) && DistinctHashes(Index(files, g, hash))
  {
    if files != [] {
      EntriesAreListed(files[..|files| - 1], g, hash);
      AddFileListed(files, Index(files[..|files| - 1], g, hash), g, hash);
      AddFileDistinct(Index(files[..|files| - 1], g, hash), files[|files| - 1], g, hash);
    }
  }

  lemma {:induction false} HashStays(es: seq<OtaIndexEntry>, file: LocalFile, g: FileData, hash: ByteArray -> seq<u8>, h: seq<u8>)
    requires HashIn(es, h)
    ensures HashIn(AddFile(es, file, g, hash), h)
  {
    var i :| 0 <= i < |es| && es[i].sha512 == h;
    assert AddFile(es, file, g, hash)[i].sha512 == h;
  }

  /** Every file that can be parsed is there, under its hash. */
  lemma {:induction false} ParsedFilesAreIndexed(files: seq<LocalFile>, g: FileData, hash: ByteArray -> seq<u8>, k: nat)
    requires k < |files| && files[k].bytes != [] && Parse(g, files[k].bytes).1
    ensures HashIn(Index(files, g, hash), hash(files[k].bytes))
  {
    var init, last := files[..|files| - 1], |files| - 1;
    var before := Index(init, g, hash);
    if k < last {
      ParsedFilesAreIndexed(init, g, hash, k);
      HashStays(before, files[last], g, hash, hash(files[k].bytes));
    } else if !HashIn(before, hash(files[k].bytes)) {
      assert Index(files, g, hash)[|before|].sha512 == hash(files[k].bytes);
    }
  }

  lemma {:induction false} ListedMore(files: seq<LocalFile>, e: OtaIndexEntry, g: FileData, hash: ByteArray -> seq<u8>)
    requires files != [] && Listed(files[..|files| - 1], e, g, hash)
    ensures Listed(files, e, g, hash)
  {
    var k :| 0 <= k < |files| - 1 && EntryOf(e, files[..|files| - 1][k], g, hash);
    assert EntryOf(e, files[k], g, hash);
  }

  // ---- reading the selected file ----

  predicate EndsWith(path: string, ext: string) {
    |path| >= |ext| && path[|path| - |ext|..] == ext
  }

  predicate ContainerName(path: string) {
    EndsWith(path, ".bin") || EndsWith(path, ".GCF")
  }

  predicate OtaName(path: string) {
    || EndsWith(path, ".zigbee") || EndsWith(path, ".ota.signed") || EndsWith(path, ".ota")
    || EndsWith(path, ".OTA") || EndsWith(path, ".sbl-ota")
  }

  /** What the raw image is wrapped in: an offset, its length, the image and two more bytes. */
  function Container(arr: ByteArray): SubElement {
    var image := arr + [0x77];
    var data := Le(0, 4) + Le(|image|, 4) + image + [0];
    SubElement(0, |data|, data)
  }

  /** A raw image becomes the only element and leaves the header as it was; only the other known
      names are parsed. */
  function ReadFile(f: FileData, path: string, arr: ByteArray): (FileData, bool) {
    if arr == [] then (f, false)
    else
      var cleared := f.(subElements := []);
      if ContainerName(path) then (cleared.(subElements := [Container(arr)]), true)
      else if OtaName(path) then Parse(cleared, arr)
      else (cleared, false)
  }

  /** The file is for the node and newer than its software. */
  predicate Upgrades(f: FileData, n: NodeData) {
    f.manufacturerCode == n.manufacturerId && f.imageType == n.imageType && f.fileVersion > n.softwareVersion
  }

  /** What the parser finds does not depend on the file it overwrites. */
  lemma {:induction false} ParseOverwrites(f: FileData, g: FileData, arr: ByteArray)
    ensures var (r, ok) := Parse(f, arr); var (q, ok') := Parse(g, arr);
      ok == ok' && (ok ==> r.manufacturerCode == q.manufacturerCode && r.imageType == q.imageType && r.fileVersion == q.fileVersion)
  {}

  function WishOf(n: NodeData): Wish {
    Wish(n.manufacturerId, n.imageType, n.softwareVersion)
  }

  /** The update file found for a node, as the transfer engine takes it. */
  function Found(n: NodeData, content: string, disk: map<string, ByteArray>): Load {
    match Select(content, WishOf(n), disk.Keys)
    case None => NoFile
    case Some(path) => if path in disk then var (f, ok) := ReadFile(n.file, path, disk[path]); Load(f, ok) else NoFile
  }

  /** The listed files are still on the disk as they were, under names that can be read back. */
  predicate Unchanged(files: seq<LocalFile>, disk: map<string, ByteArray>) {
    forall k :: 0 <= k < |files| ==>
      && files[k].path in disk && disk[files[k].path] == files[k].bytes
      && CleanPath(files[k].path) && '\n' !in files[k].path
  }

  /** All entries of the index can be read back. */
  lemma {:induction false} EntriesClean(files: seq<LocalFile>, g: FileData, hash: ByteArray -> seq<u8>, disk: map<string, ByteArray>, i: nat)
    requires Unchanged(files, disk) && i < |Index(files, g, hash)|
    ensures var e := Index(files, g, hash)[i];
      CleanEntry(e) && e.path in disk && EntryOf(e, LocalFile(e.path, disk[e.path]), g, hash) && disk[e.path] != []
  {
    EntriesAreListed(files, g, hash);
    var e := Index(files, g, hash)[i];
    assert Listed(files, e, g, hash);
    var k :| 0 <= k < |files| && EntryOf(e, files[k], g, hash);
    assert files[k] == LocalFile(e.path, disk[e.path]);
  }

  /** What the first fitting entry gives the node. */
  function Loaded(n: NodeData, first: Option<OtaIndexEntry>, disk: map<string, ByteArray>): Load {
    match first
    case None => NoFile
    case Some(e) => if e.path in disk then var (f, ok) := ReadFile(n.file, e.path, disk[e.path]); Load(f, ok) else NoFile
  }

  lemma {:induction false} FoundIsFirst(n: NodeData, files: seq<LocalFile>, g: FileData, hash: ByteArray -> seq<u8>, disk: map<string, ByteArray>)
    requires Unchanged(files, disk)
    ensures var es := Index(files, g, hash); Found(n, Content(es), disk) == Loaded(n, FirstFit(es, WishOf(n), disk.Keys), disk)
  {
    var es := Index(files, g, hash);
    forall i: nat | i < |es|
      ensures CleanEntry(es[i])
    {
      EntriesClean(files, g, hash, disk, i);
    }
    SelectsFirstFit(es, WishOf(n), disk.Keys);
  }

  /** A node without data that looks for an update gets one that is for it and newer than its
      software, if and only if some entry fits, and the first one that does has the name of an
      update file; or the name of a raw image, when the header left over from the last file
      fits by chance. */
  lemma {:induction false} UpdateFoundIff(n: NodeData, sh: Shared, files: seq<LocalFile>, g: FileData, hash: ByteArray -> seq<u8>, disk: map<string, ByteArray>)
    requires Unchanged(files, disk) && !n.hasData && |sh.tracker.entries| < OTAU_MAX_ACTIVE
    ensures var es := Index(files, g, hash);
      var m := CheckForUpdate(n, sh, Found(n, Content(es), disk));
      var first := FirstFit(es, WishOf(n), disk.Keys);
      m.hasData && Upgrades(m.file, n) <==>
        first.Some? && (OtaName(first.value.path) || (ContainerName(first.value.path) && Upgrades(n.file, n)))
    ensures var es := Index(files, g, hash);
      var first := FirstFit(es, WishOf(n), disk.Keys);
      first.Some? ==>
        && first.value.path in disk
        && (CheckForUpdate(n, sh, Found(n, Content(es), disk)).file, CheckForUpdate(n, sh, Found(n, Content(es), disk)).hasData)
             == ReadFile(n.file, first.value.path, disk[first.value.path])
  {
    var es := Index(files, g, hash);
    FoundIsFirst(n, files, g, hash, disk);
    var i := FirstFitIsFirst(es, WishOf(n), disk.Keys);
    if i < |es| {
      EntriesClean(files, g, hash, disk, i);
      LoadedIff(n, es[i], g, hash, disk[es[i].path]);
    }
  }

  lemma {:induction false} LoadedIff(n: NodeData, e: OtaIndexEntry, g: FileData, hash: ByteArray -> seq<u8>, arr: ByteArray)
    requires EntryOf(e, LocalFile(e.path, arr), g, hash) && arr != []
    requires e.mfcode == n.manufacturerId && e.imageType == n.imageType && e.fileVersion > n.softwareVersion
    ensures var (f, ok) := ReadFile(n.file, e.path, arr);
      ok && Upgrades(f, n) <==> OtaName(e.path) || (ContainerName(e.path) && Upgrades(n.file, n))
  {
    ParseOverwrites(n.file.(subElements := []), g, arr);
    NotBoth(e.path);
  }

  lemma {:induction false} EndsWithItself(base: string, ext: string)
    ensures EndsWith(base + ext, ext)
  {}

  /** Which names are parsed, which are wrapped, and that no other is loaded. */
  lemma {:induction false} NamesLoaded(f: FileData, base: string, ext: string, arr: ByteArray)
    requires arr != []
    ensures ext in {".zigbee", ".ota.signed", ".ota", ".OTA", ".sbl-ota"} ==>
      ReadFile(f, base + ext, arr) == Parse(f.(subElements := []), arr)
    ensures ext in {".bin", ".GCF"} ==> ReadFile(f, base + ext, arr) == (f.(subElements := [Container(arr)]), true)
  {
    EndsWithItself(base, ext);
    NotBoth(base + ext);
  }

  lemma {:induction false} OtherNames(f: FileData, path: string, arr: ByteArray)
    requires forall ext :: ext in {".zigbee", ".ota.signed", ".ota", ".OTA", ".sbl-ota", ".bin", ".GCF"} ==> !EndsWith(path, ext)
    ensures !ReadFile(f, path, arr).1
  {}

  /** The wrapping of a raw image: offset 0, the length of what follows, the image, a byte 0x77 that
      counts as a part of it, and a zero. */
  lemma {:induction false} Wrapped(arr: ByteArray)
    requires |arr| < 0x7FFF_FFF0
    ensures var e := Container(arr);
      && e.tag == 0 && e.length == |e.data| == |arr| + 10
      && Get32(e.data, 0) == 0 && Get32(e.data, 4) == |arr| + 1
      && e.data[8..] == arr + [0x77, 0]
  {
    var data, image := Container(arr).data, arr + [0x77];
    assert data == Le(0, 4) + Le(|image|, 4) + (image + [0]);
    assert image + [0] == arr + [0x77, 0];
    WrappedParts(Le(0, 4), Le(|image|, 4), image + [0]);
    Read32(data, 0, 0);
    Read32(data, 4, |image|);
  }

  lemma {:induction false} WrappedParts(a: seq<u8>, b: seq<u8>, c: seq<u8>)
    requires |a| == |b| == 4
    ensures var s := a + b + c; s[0..4] == a && s[4..8] == b && s[8..] == c
  {}

  /** No name is both. */
  lemma {:induction false} NotBoth(path: string)
    ensures !(OtaName(path) && ContainerName(path))
  {
    if ContainerName(path) {
      var last := path[|path| - 1];
      assert last == 'n' || last == 'F' by {
        if EndsWith(path, ".bin") { assert path[|path| - 4..][3] == last; } else { assert path[|path| - 4..][3] == last; }
      }
    }
  }

  /** So a fitting file under another name is not used, and one under the name of a raw image
      leaves the header and the image of the file before it. */
  lemma {:induction false} OtherNamesFail(n: NodeData, path: string, arr: ByteArray)
    requires !OtaName(path) && arr != []
    ensures var (f, ok) := ReadFile(n.file, path, arr);
      ok == ContainerName(path) && f == n.file.(subElements := f.subElements)
  {}

  /** The image in the bytes of an update file: from the magic on, as long as the file says. */
  function ImageIn(arr: ByteArray): seq<u8> {
    var offset := IndexOfMagic(arr, 0);
    if offset < 0 then [] else arr[offset..offset + Min(Get32(arr[offset..], 52), |arr| - offset)]
  }

  /** A load that succeeds leaves the image of the new file under the name of an update file, and
      the image of the file before it under the name of a raw image. */
  lemma {:induction false} LoadedImage(f: FileData, path: string, arr: ByteArray)
    ensures var (r, ok) := ReadFile(f, path, arr);
      ok ==> (OtaName(path) || ContainerName(path)) && r.raw == if ContainerName(path) then f.raw else ImageIn(arr)
  {
    var (r, ok) := ReadFile(f, path, arr);
    if ok && !ContainerName(path) { ParsedImage(f.(subElements := []), arr); }
  }

  lemma {:induction false} ParsedImage(f: FileData, arr: ByteArray)
    requires Parse(f, arr).1
    ensures Parse(f, arr).0.raw == ImageIn(arr)
  {
    var offset := IndexOfMagic(arr, 0);
    var s := arr[offset..];
    assert s[..Min(Get32(s, 52), |s|)] == arr[offset..offset + Min(Get32(s, 52), |s|)];
  }

  // ---- the loops ----

  method CreateLocalFileIndex(files: seq<LocalFile>, g: FileData, hash: ByteArray -> seq<u8>) returns (content: string)
    ensures content == Content(Index(files, g, hash))
  {
    var otaEntries: seq<OtaIndexEntry> := [];
    for i := 0 to |files|
      invariant otaEntries == Index(files[..i], g, hash)
    {
      assert files[..i + 1][..i] == files[..i];
      otaEntries := CollectFile(otaEntries, files[i], g, hash);
    }
    assert files[..|files|] == files;
    content := WriteIndex(otaEntries);
  }

  method WriteIndex(otaEntries: seq<OtaIndexEntry>) returns (stream: string)
    ensures stream == Content(otaEntries)
  {
    stream := "[\n";
    ghost var start := stream;
    for i := 0 to |otaEntries|
      invariant stream == start + Body(otaEntries[..i])
    {
      ghost var es, e := otaEntries[..i], otaEntries[i];
      assert otaEntries[..i + 1] == es + [e];
      BodyMore(es, e);
      Appended(start, Body(es), if i > 0 then ",\n" else "", Line(e));
      if i > 0 {
        stream := stream + ",\n";
      }
      stream := stream + Line(otaEntries[i]);
    }
    assert otaEntries[..|otaEntries|] == otaEntries;
    stream := stream + "\n]\n";
  }

  lemma {:induction false} Appended(a: string, b: string, c: string, d: string)
    ensures (a + b) + c + d == a + (b + c + d)
    ensures c == [] ==> (a + b) + c == a + b && (b == [] ==> b + c + d == d)
  {}

  method CollectFile(otaEntries: seq<OtaIndexEntry>, file: LocalFile, g: FileData, hash: ByteArray -> seq<u8>) returns (r: seq<OtaIndexEntry>)
    ensures r == AddFile(otaEntries, file, g, hash)
  {
    if file.bytes == [] {
      return otaEntries;
    }
    var (f, ok) := Parse(g, file.bytes);
    if !ok {
      return otaEntries;
    }
    var sha512 := hash(file.bytes);
    for i := 0 to |otaEntries|
      invariant forall j :: 0 <= j < i ==> otaEntries[j].sha512 != sha512
    {
      if otaEntries[i].sha512 == sha512 {
        return otaEntries;
      }
    }
    r := otaEntries + [OtaIndexEntry(file.path, sha512, f.manufacturerCode, f.imageType, f.fileVersion, |file.bytes|)];
  }

  lemma {:induction false} AppendAll(a: string, b: string, c: string, d: string)
    ensures a + (b + c + d) == a + b + c + d
  {}

  lemma {:induction false} BodyMore(es: seq<OtaIndexEntry>, e: OtaIndexEntry)
    ensures Body(es + [e]) == if es == [] then Line(e) else Body(es) + ",\n" + Line(e)
  {
    if es != [] {
      var all, front := es + [e], Line(es[0]) + ",\n";
      assert all[0] == es[0] && all[1..] == es[1..] + [e];
      BodyMore(es[1..], e);
      if |es| > 1 { AppendAll(front, Body(es[1..]), ",\n", Line(e)); }
    }
  }

  method SelectUpdateFile(content: string, w: Wish, existing: set<string>) returns (updateFile: Option<string>)
    ensures updateFile == Select(content, w, existing)
  {
    var rest := content;
    while true
      invariant Select(rest, w, existing) == Select(content, w, existing)
      decreases |rest|
    {
      var end := LineEnd(rest);
      var line := Trim(rest[..end]);
      if line == [] {
        return None;
      }
      var offer := ReadOffer(line, w, existing);
      if offer.Some? {
        return offer;
      }
      rest := rest[Min(end + 1, |rest|)..];
    }
  }

  method ReadOffer(line: string, w: Wish, existing: set<string>) returns (offer: Option<string>)
    requires line != []
    ensures offer == Offer(line, w, existing)
  {
    if line[0] != '{' {
      return None;
    }
    var mfcode := GetU32(line, "manufacturerCode");
    if mfcode == None || mfcode.value != w.manufacturerId {
      return None;
    }
    var imageType := GetU32(line, "imageType");
    if imageType == None || imageType.value != w.imageType {
      return None;
    }
    var fileVersion := GetU32(line, "fileVersion");
    if fileVersion == None || fileVersion.value <= w.above {
      return None;
    }
    var path := GetString(line, "path", MAX_PATH);
    if path == None || path.value !in existing {
      return None;
    }
    return path;
  }
}
