/** The index of the files that can be downloaded: what is read from the objects of its text. */
module RemoteIndex {
  import opened JsonText
  import opened LocalIndex
  import opened Options
  import opened Sequences
  import opened Downloads

  const MAX_TEXT := 1280

  // ---- one object ----

  /** An object of the remote index has the parts of a local one, with an address for the path. */
  function RemoteParts(e: OtaIndexEntry): seq<string> {
    Parts(e)[17 := "\"url\""]
  }

  function RemoteObject(e: OtaIndexEntry): string {
    Flat(RemoteParts(e))
  }

  /** The parts one by one. */
  predicate RemoteShape(ps: seq<string>, e: OtaIndexEntry) {
    && |ps| == 21 && Front(ps, e)
    && ps[17] == "\"url\"" && ps[18] == ":\"" && ps[19] == e.path && ps[20] == "\"}"
  }

  lemma {:induction false} RemotePartsHaveShape(e: OtaIndexEntry)
    ensures RemoteShape(RemoteParts(e), e)
  {}

  lemma {:induction false} UrlNotBefore(a: string, a': string, b: string, j: nat)
    requires 'u' !in a && 'u' !in a' && j < |a| + 16 + |a'|
    ensures var s := a + ("manufacturerCode" + (a' + ("\"url\"" + b)));
      s[j + 1] != 'u' || s[j + 2] != 'r' || s[j + 3] != 'l'
  {
    var s, t := a + ("manufacturerCode" + (a' + ("\"url\"" + b))), "manufacturerCode";
    if j + 1 < |a| {
      assert s[j + 1] == a[j + 1];
    } else if j + 1 < |a| + 16 {
      assert s[j + 1] == t[j + 1 - |a|];
      if j + 1 == |a| + 3 { assert s[j + 2] == t[4]; }
      if j + 1 == |a| + 8 { assert s[j + 3] == t[10]; }
    } else if j + 1 < |a| + 16 + |a'| {
      assert s[j + 1] == a'[j + 1 - |a| - 16];
    } else {
      assert s[j + 1] == '\"';
    }
  }

  /** The quoted key of the address is found first where it was written. */
  lemma {:induction false} UrlKey(a: string, a': string, b: string)
    requires 'u' !in a && 'u' !in a'
    ensures var s := a + ("manufacturerCode" + (a' + ("\"url\"" + b))); Find(s, "\"url\"", 0) == |a| + 16 + |a'|
  {
    var s, p, key := a + ("manufacturerCode" + (a' + ("\"url\"" + b))), |a| + 16 + |a'|, "\"url\"";
    assert s[p..p + 5] == key;
    forall j: nat | j < p
      ensures !StandsAt(s, key, j)
    {
      UrlNotBefore(a, a', b, j);
      Differs(s, key, j, if s[j + 1] != 'u' then 1 else if s[j + 2] != 'r' then 2 else 3);
    }
    FoundAt(s, key, 0, p);
  }

  lemma {:induction false} NoUButTwo(ps: seq<string>, e: OtaIndexEntry)
    requires Front(ps, e)
    ensures 'u' !in Flat(ps[0..7]) && 'u' !in Flat(ps[8..17])
  {
    HexDigits(e.sha512);
    assert Lacks(ps, 0, 2, 'u') && Lacks(ps, 0, 4, 'u') && Lacks(ps, 0, 6, 'u') && Lacks(ps, 0, 7, 'u');
    assert Lacks(ps, 8, 10, 'u') && Lacks(ps, 8, 12, 'u') && Lacks(ps, 8, 14, 'u') && Lacks(ps, 8, 16, 'u') && Lacks(ps, 8, 17, 'u');
    FlatLacks(ps, 0, 7, 'u');
    FlatLacks(ps, 8, 17, 'u');
  }

  lemma {:induction false} UrlPlace(ps: seq<string>, e: OtaIndexEntry)
    requires RemoteShape(ps, e)
    ensures Flat(ps) == Flat(ps[0..7]) + ("manufacturerCode" + (Flat(ps[8..17]) + ("\"url\"" + (":\"" + (e.path + Flat(ps[20..]))))))
    ensures Flat(ps[20..]) != [] && Flat(ps[20..])[0] == '\"'
  {
    FlatSplit(ps, 0, 7);
    FlatFrom(ps, 7);
    FlatSplit(ps, 8, 17);
    assert ps[0..] == ps;
    FlatFrom(ps, 17);
    FlatFrom(ps, 18);
    FlatFrom(ps, 19);
    FlatFrom(ps, 20);
  }

  /** An address that can be read back from an object that can be found. */
  predicate CleanUrl(url: string) {
    '\"' !in url && '}' !in url && |url| < 1280 && (url == [] || !Blank(url[0]))
  }

  lemma {:induction false} UrlText(a: string, url: string, b: string, s: string)
    requires b != [] && b[0] == '\"' && s == a + ("\"url\"" + (":\"" + (url + b)))
    requires Find(s, "\"url\"", 0) == |a| && CleanUrl(url)
    ensures GetString(s, "url", MAX_TEXT) == Some(url)
  {
    assert "\"" + "url" + "\"" == "\"url\"";
    TextPlace(a, "\"url\"", url, b);
    TextRead(a + "\"url\"", "url", url, b, |a|, MAX_TEXT, s);
  }

  lemma {:induction false} UrlRead(ps: seq<string>, e: OtaIndexEntry)
    requires RemoteShape(ps, e) && CleanUrl(e.path)
    ensures GetString(Flat(ps), "url", MAX_TEXT) == Some(e.path)
  {
    var a, mid, b, quoted := Flat(ps[0..7]), Flat(ps[8..17]), Flat(ps[20..]), "\"url\"";
    NoUButTwo(ps, e);
    UrlPlace(ps, e);
    UrlKey(a, mid, ":\"" + (e.path + b));
    Regroup(a, "manufacturerCode", mid, quoted + (":\"" + (e.path + b)));
    UrlText(a + "manufacturerCode" + mid, e.path, b, Flat(ps));
  }

  /** What an object says. */
  function EntrySaid(e: OtaIndexEntry): IndexEntry {
    IndexEntry(Kind(e.mfcode, e.imageType), e.fileVersion, Some(e.path), Some(Hex(e.sha512)))
  }

  /** Manufacturer, image type, version, address and hash are read from behind their keys. */
  lemma {:induction false} ObjectRead(e: OtaIndexEntry)
    requires CleanUrl(e.path) && |e.sha512| < 640
    ensures ReadEntry(RemoteObject(e)) == Some(EntrySaid(e))
  {
    var ps := RemoteParts(e);
    RemotePartsHaveShape(e);
    VersionRead(ps, e);
    ManufacturerRead(ps, e);
    ImageTypeRead(ps, e);
    HexLength(e.sha512);
    HashReadBack(ps, e, MAX_TEXT);
    UrlRead(ps, e);
  }

  // ---- the whole index ----

  /** Between the braces of an object. */
  function Inside(e: OtaIndexEntry): string {
    var qs := RemoteParts(e);
    "\"" + Flat(qs[1..20]) + "\""
  }

  lemma {:induction false} ObjectIsBraced(e: OtaIndexEntry)
    ensures RemoteObject(e) == "{" + Inside(e) + "}"
  {
    var ps := RemoteParts(e);
    RemotePartsHaveShape(e);
    EndsOf(ps);
    BracesOutside(Flat(ps[1..20]));
  }

  lemma {:induction false} EndsOf(ps: seq<string>)
    requires |ps| == 21
    ensures Flat(ps) == ps[0] + (Flat(ps[1..20]) + ps[20])
  {
    FlatFrom(ps, 0);
    FlatSplit(ps, 1, 20);
    FlatFrom(ps, 20);
    assert ps[0..] == ps && ps[21..] == [] && ps[20] + "" == ps[20];
  }

  lemma {:induction false} BracesOutside(body: string)
    ensures "{\"" + (body + "\"}") == "{" + ("\"" + body + "\"") + "}"
  {}

  lemma {:induction false} NoBraceInside(e: OtaIndexEntry)
    requires CleanUrl(e.path)
    ensures '}' !in Inside(e)
  {
    var ps := RemoteParts(e);
    RemotePartsHaveShape(e);
    HexDigits(e.sha512);
    assert Lacks(ps, 1, 4, '}') && Lacks(ps, 1, 6, '}') && Lacks(ps, 1, 8, '}') && Lacks(ps, 1, 10, '}');
    assert Lacks(ps, 1, 12, '}') && Lacks(ps, 1, 14, '}') && Lacks(ps, 1, 16, '}') && Lacks(ps, 1, 18, '}') && Lacks(ps, 1, 20, '}');
    FlatLacks(ps, 1, 20, '}');
  }

  lemma {:induction false} BracedAt(bodies: seq<string>, i: nat)
    requires i < |bodies|
    ensures |Braced(bodies)| == |bodies| && Braced(bodies)[i] == "{" + bodies[i] + "}"
  {
    if |bodies| > 1 { BracedAt(bodies[1..], if i > 0 then i - 1 else 0); }
  }

  predicate Says(objects: seq<string>, said: seq<IndexEntry>, i: nat)
    requires i < |objects| == |said|
  {
    ReadEntry(objects[i]) == Some(said[i])
  }

  lemma {:induction false} EntriesRead(objects: seq<string>, said: seq<IndexEntry>, n: nat)
    requires n <= |objects| == |said| && forall i: nat :: i < |said| ==> Says(objects, said, i)
    ensures ReadEntries(objects[..n]) == said[..n]
  {
    if n > 0 {
      EntriesRead(objects, said, n - 1);
      assert Says(objects, said, n - 1);
      LastRead(objects[..n - 1], objects[n - 1], said[n - 1]);
      TakeLast(objects, n);
      TakeLast(said, n);
    }
  }

  lemma {:induction false} LastRead(objects: seq<string>, text: string, e: IndexEntry)
    requires ReadEntry(text) == Some(e)
    ensures ReadEntries(objects + [text]) == ReadEntries(objects) + [e]
  {
    assert (objects + [text])[..|objects|] == objects;
  }

  function Insides(es: seq<OtaIndexEntry>): seq<string> {
    seq(|es|, i requires 0 <= i < |es| => Inside(es[i]))
  }

  function Said(es: seq<OtaIndexEntry>): seq<IndexEntry> {
    seq(|es|, i requires 0 <= i < |es| => EntrySaid(es[i]))
  }

  /** An index that starts with an array is read back object by object, whatever stands between the
      objects as long as it opens none. */
  lemma {:induction false} IndexRead(seps: seq<string>, es: seq<OtaIndexEntry>)
    requires |seps| == |es| + 1 && (forall i :: 0 <= i < |seps| ==> '{' !in seps[i]) && seps[0] != [] && seps[0][0] == '['
    requires forall i :: 0 <= i < |es| ==> CleanUrl(es[i].path) && |es[i].sha512| < 640
    ensures ReadIndex(IndexText(seps, Insides(es))) == Said(es)
  {
    var bodies := Insides(es);
    forall i: nat | i < |es|
      ensures '}' !in bodies[i] && |Braced(bodies)| == |es| && Says(Braced(bodies), Said(es), i)
    {
      NoBraceInside(es[i]);
      BracedAt(bodies, i);
      ObjectIsBraced(es[i]);
      ObjectRead(es[i]);
    }
    ObjectsFound(seps, bodies);
    if es == [] { assert Braced(bodies) == []; }
    EntriesRead(Braced(bodies), Said(es), |es|);
    TakeAll(Braced(bodies));
    TakeAll(Said(es));
    FirstOfIndex(seps, bodies);
  }

  lemma {:induction false} FirstOfIndex(seps: seq<string>, bodies: seq<string>)
    requires |seps| == |bodies| + 1 && seps[0] != []
    ensures IndexText(seps, bodies) != [] && IndexText(seps, bodies)[0] == seps[0][0]
  {}

  /** Any other text has no entries. */
  lemma {:induction false} OnlyArrays(data: string)
    requires ReadIndex(data) != []
    ensures data != [] && data[0] == '['
  {}
}
