/** Text of JSON objects, read by searching for keys. */
module JsonText {
  import opened Bytes
  import opened Options

  // ---- strings ----

  predicate IsDigit(c: char) {
    '0' <= c <= '9'
  }

  predicate Blank(c: char) {
    c == ' ' || c == '\t' || c == '\n' || c == '\r'
  }

  /** Decimal digits of n. */
  function Dec(n: nat): (s: string)
    ensures s != [] && forall i :: 0 <= i < |s| ==> IsDigit(s[i])
  {
    var last := [(48 + n % 10) as char];
    if n < 10 then last else Dec(n / 10) + last
  }

  function Number(s: string): int {
    if s == [] then 0 else 10 * Number(s[..|s| - 1]) + s[|s| - 1] as int - 48
  }

  lemma {:induction false} NumberOfDec(n: nat)
    ensures Number(Dec(n)) == n
  {
    if n >= 10 {
      NumberOfDec(n / 10);
      assert Dec(n)[..|Dec(n)| - 1] == Dec(n / 10);
    } else {
      assert Dec(n)[..0] == [];
    }
  }

  /** No digit too many. */
  lemma {:induction false} NoLeadingZero(n: nat)
    ensures n > 0 ==> Dec(n)[0] != '0'
  {
    if n >= 10 { NoLeadingZero(n / 10); }
  }

  predicate StandsAt(s: string, key: string, i: int) {
    0 <= i <= |s| - |key| && s[i..i + |key|] == key
  }

  /** The first place from i on where key stands in s, or -1. */
  function Find(s: string, key: string, i: nat): (r: int)
    requires i <= |s|
    ensures r == -1 || (i <= r && StandsAt(s, key, r))
    ensures forall j :: i <= j < (if r < 0 then |s| + 1 else r) ==> !StandsAt(s, key, j)
    decreases |s| - i
  {
    if StandsAt(s, key, i) then i else if i == |s| then -1 else Find(s, key, i + 1)
  }

  lemma {:induction false} FoundAt(s: string, key: string, i: nat, p: nat)
    requires i <= p && StandsAt(s, key, p) && forall j :: i <= j < p ==> !StandsAt(s, key, j)
    ensures Find(s, key, i) == p
  {}

  function DigitsEnd(s: string, i: nat): (r: nat)
    requires i <= |s|
    ensures i <= r <= |s|
    decreases |s| - i
  {
    if i < |s| && IsDigit(s[i]) then DigitsEnd(s, i + 1) else i
  }

  lemma {:induction false} DigitsEndAt(s: string, i: nat, e: nat)
    requires i <= e < |s| && (forall j :: i <= j < e ==> IsDigit(s[j])) && !IsDigit(s[e])
    ensures DigitsEnd(s, i) == e
    decreases e - i
  {
    if i < e { DigitsEndAt(s, i + 1, e); }
  }

  function SkipBlanks(s: string, i: nat): (r: nat)
    requires i <= |s|
    ensures i <= r <= |s| && (r < |s| ==> !Blank(s[r])) && (i < |s| && !Blank(s[i]) ==> r == i)
    decreases |s| - i
  {
    if i < |s| && Blank(s[i]) then SkipBlanks(s, i + 1) else i
  }

  // ---- reading one object ----

  /** The number behind the first colon behind the first place of the unquoted key; blanks before
      it are skipped. */
  function GetU32(s: string, key: string): Option<u32> {
    var k := Find(s, key, 0);
    if k < 0 then None
    else
      var c := Find(s, ":", k);
      if c < 0 then None
      else
        var d := SkipBlanks(s, c + 1);
        Some(Number(s[d..DigitsEnd(s, d)]) % 0x1_0000_0000)
  }

  /** The text between the first two quotes behind the colon behind the quoted key. */
  function GetString(s: string, key: string, maxlen: nat): (r: Option<string>)
    ensures r.Some? ==> '\"' !in r.value && |r.value| < maxlen && (r.value == [] || !Blank(r.value[0]))
  {
    var k := Find(s, "\"" + key + "\"", 0);
    if k < 0 then None
    else
      var c := Find(s, ":", k);
      if c < 0 then None
      else
        var q := Find(s, "\"", c);
        if q < 0 then None else UpToQuote(s, SkipBlanks(s, q + 1), maxlen)
  }

  function UpToQuote(s: string, p: nat, maxlen: nat): (r: Option<string>)
    requires p <= |s| && (p < |s| ==> !Blank(s[p]))
    ensures r.Some? ==> '\"' !in r.value && |r.value| < maxlen && (r.value == [] || !Blank(r.value[0]))
  {
    var e := Find(s, "\"", p);
    if e < 0 || e - p >= maxlen then None
    else
      assert forall j :: p <= j < e && s[j] == '\"' ==> StandsAt(s, "\"", j);
      Some(s[p..e])
  }

  // ---- what is found first ----

  lemma {:induction false} Differs(s: string, key: string, i: nat, d: nat)
    requires d < |key| && i + d < |s| && s[i + d] != key[d]
    ensures !StandsAt(s, key, i)
  {
    assert i + |key| <= |s| ==> s[i..i + |key|][d] == s[i + d];
  }

  /** A key is found first where it was written if one of its characters did not occur before. */
  lemma {:induction false} FirstKey(a: string, key: string, rest: string, d: nat)
    requires d < |key| && key[d] !in a && key[d] !in key[..d]
    ensures Find(a + (key + rest), key, 0) == |a|
  {
    var s := a + (key + rest);
    assert s[|a|..|a| + |key|] == key;
    forall j: nat | j < |a|
      ensures !StandsAt(s, key, j)
    {
      if j + d < |a| { assert s[j + d] == a[j + d]; } else { assert s[j + d] == key[..d][j + d - |a|]; }
      Differs(s, key, j, d);
    }
    FoundAt(s, key, 0, |a|);
  }

  lemma {:induction false} FindChar(s: string, c: char, i: nat, p: nat)
    requires i <= p < |s| && s[p] == c && c !in s[i..p]
    ensures Find(s, [c], i) == p
  {
    assert s[p..p + 1] == [c];
    forall j: nat | i <= j < p
      ensures !StandsAt(s, [c], j)
    {
      assert s[i..p][j - i] == s[j];
      Differs(s, [c], j, 0);
    }
    FoundAt(s, [c], i, p);
  }

  lemma {:induction false} NotFound(s: string, c: char)
    requires c !in s
    ensures Find(s, [c], 0) == -1
  {
    forall j: nat | j < |s|
      ensures !StandsAt(s, [c], j)
    {
      Differs(s, [c], j, 0);
    }
  }

  // ---- a number behind its key ----

  lemma {:induction false} SkipsTo(s: string, i: nat, e: nat)
    requires i <= e < |s| && (forall j :: i <= j < e ==> Blank(s[j])) && !Blank(s[e])
    ensures SkipBlanks(s, i) == e
    decreases e - i
  {
    if i < e { SkipsTo(s, i + 1, e); }
  }

  /** Blanks, digits, and something else. */
  lemma {:induction false} DigitsRead(a: string, blanks: string, n: u32, b: string)
    requires (forall i :: 0 <= i < |blanks| ==> Blank(blanks[i])) && b != [] && !IsDigit(b[0])
    ensures var s, p := a + blanks + (Dec(n) + b), |a| + |blanks|;
      SkipBlanks(s, |a|) == p && DigitsEnd(s, p) == p + |Dec(n)| && Number(s[p..DigitsEnd(s, p)]) == n
  {
    var x, s, p := Dec(n), a + blanks + (Dec(n) + b), |a| + |blanks|;
    assert forall j :: |a| <= j < p ==> s[j] == blanks[j - |a|];
    assert forall j :: p <= j < p + |x| ==> s[j] == x[j - p];
    assert s[p] == x[0] && s[p + |x|] == b[0] && s[p..p + |x|] == x;
    SkipsTo(s, |a|, p);
    DigitsEndAt(s, p, p + |x|);
    NumberOfDec(n);
  }

  lemma {:induction false} ColonAfter(a: string, key: string, rest: string)
    requires ':' !in key
    ensures Find(a + (key + ("\":" + rest)), ":", |a|) == |a| + |key| + 1
  {
    var s, c := a + (key + ("\":" + rest)), |a| + |key| + 1;
    assert s[c] == ':' && s[|a|..c] == key + "\"";
    FindChar(s, ':', |a|, c);
  }

  lemma {:induction false} NumberAt(s: string, key: string, k: nat, c: nat, p: nat, n: u32)
    requires Find(s, key, 0) == k <= |s| && Find(s, ":", k) == c < |s|
    requires SkipBlanks(s, c + 1) == p && Number(s[p..DigitsEnd(s, p)]) == n
    ensures GetU32(s, key) == Some(n)
  {}

  lemma {:induction false} Regroup5(a: string, b: string, c: string, d: string, e: string)
    ensures a + (b + (c + (d + e))) == a + b + c + d + e
  {}

  /** A number is read behind its key and a colon, with blanks between or without, if some
      character of the key did not occur before. */
  lemma {:induction false} NumberRead(a: string, key: string, blanks: string, n: u32, b: string, d: nat)
    requires d < |key| && key[d] !in a && key[d] !in key[..d] && ':' !in key
    requires (forall i :: 0 <= i < |blanks| ==> Blank(blanks[i])) && b != [] && !IsDigit(b[0])
    ensures GetU32(a + (key + ("\":" + (blanks + (Dec(n) + b)))), key) == Some(n)
  {
    var digits, front := Dec(n) + b, a + key + "\":";
    FirstKey(a, key, "\":" + (blanks + digits), d);
    ColonAfter(a, key, blanks + digits);
    Regroup5(a, key, "\":", blanks, digits);
    NumberBehind(a + (key + ("\":" + (blanks + digits))), key, |a|, front, blanks, n, b);
  }

  lemma {:induction false} NumberBehind(s: string, key: string, k: nat, front: string, blanks: string, n: u32, b: string)
    requires (forall i :: 0 <= i < |blanks| ==> Blank(blanks[i])) && b != [] && !IsDigit(b[0])
    requires s == front + blanks + (Dec(n) + b) && front != []
    requires Find(s, key, 0) == k <= |s| && Find(s, ":", k) == |front| - 1
    ensures GetU32(s, key) == Some(n)
  {
    DigitsRead(front, blanks, n, b);
    NumberAt(s, key, k, |front| - 1, |front| + |blanks|, n);
  }

  lemma {:induction false} Regroup(a: string, b: string, c: string, d: string)
    ensures a + (b + (c + d)) == a + b + c + d
  {}

  // ---- a text behind its key ----

  lemma {:induction false} Regroup3(a: string, b: string, c: string, d: string)
    ensures a + (b + (c + d)) == (a + b) + (c + d) == ((a + b) + c) + d
  {}

  lemma {:induction false} TextBetween(s: string, key: string, k: nat, c: nat, p: nat, text: string, maxlen: nat)
    requires Find(s, "\"" + key + "\"", 0) == k <= |s| && Find(s, ":", k) == c <= |s| && 0 <= Find(s, "\"", c) == p - 1 < |s|
    requires SkipBlanks(s, p) == p && Find(s, "\"", p) == p + |text| <= |s| && s[p..p + |text|] == text && |text| < maxlen
    ensures GetString(s, key, maxlen) == Some(text)
  {}

  /** The colon and the first quote are found where they were written. */
  lemma {:induction false} ColonFound(front: string, rest: string, k: nat, s: string)
    requires s == front + (":\"" + rest) && k <= |front| && ':' !in front[k..]
    ensures var c := |front|; Find(s, ":", k) == c && Find(s, "\"", c) == c + 1
  {
    var c := |front|;
    assert s[k..c] == front[k..] && s[c] == ':' && s[c + 1] == '\"' && s[c..c + 1] == ":";
    FindChar(s, ':', k, c);
    FindChar(s, '\"', c, c + 1);
  }

  /** So is the last quote, behind the text. */
  lemma {:induction false} QuoteFound(front: string, text: string, b: string, s: string)
    requires s == front + (text + b) && b != [] && b[0] == '\"' && '\"' !in text && (text == [] || !Blank(text[0]))
    ensures var p := |front|; SkipBlanks(s, p) == p && Find(s, "\"", p) == p + |text| && s[p..p + |text|] == text
  {
    var p, q := |front|, |front| + |text|;
    assert s[p..q] == text && s[q] == b[0] && (text != [] ==> s[p] == text[0]);
    FindChar(s, '\"', p, q);
  }

  lemma {:induction false} TextBehind(front: string, text: string, b: string, k: nat, s: string)
    requires k <= |front| && ':' !in front[k..] && '\"' !in text && (text == [] || !Blank(text[0]))
    requires b != [] && b[0] == '\"' && s == front + (":\"" + (text + b)) == (front + ":\"") + (text + b)
    ensures var p := |front| + 2;
      && Find(s, ":", k) == p - 2 && Find(s, "\"", p - 2) == p - 1
      && SkipBlanks(s, p) == p && Find(s, "\"", p) == p + |text| && s[p..p + |text|] == text
  {
    ColonFound(front, text + b, k, s);
    QuoteFound(front + ":\"", text, b, s);
  }

  /** A text is read from between the quotes behind its quoted key and a colon. */
  lemma {:induction false} TextRead(front: string, key: string, text: string, b: string, k: nat, maxlen: nat, s: string)
    requires k <= |front| && ':' !in front[k..] && '\"' !in text && |text| < maxlen && (text == [] || !Blank(text[0]))
    requires b != [] && b[0] == '\"' && s == front + (":\"" + (text + b)) == (front + ":\"") + (text + b)
    requires Find(s, "\"" + key + "\"", 0) == k
    ensures GetString(s, key, maxlen) == Some(text)
  {
    var p := |front| + 2;
    TextBehind(front, text, b, k, s);
    TextBetween(s, key, k, p - 2, p, text, maxlen);
  }

  /** The text behind the quoted key, wherever that stands. */
  lemma {:induction false} TextPlace(a: string, quoted: string, text: string, b: string)
    ensures var front, s := a + quoted, a + (quoted + (":\"" + (text + b)));
      s == front + (":\"" + (text + b)) == (front + ":\"") + (text + b) && front[|a|..] == quoted
  {
    Regroup3(a, quoted, ":\"", text + b);
  }
}
