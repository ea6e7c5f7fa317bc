/** The download queue: a state machine driven by one timer and by the callbacks of downloads
    that may come late. Each file is asked for at most twice. */
module Downloads {
  import opened Bytes
  import opened JsonText
  import opened Options

  const MAX_ATTEMPTS := 2
  const HASH_DIGITS := 128
  const MIN_DOWNLOAD_SIZE := 512

  datatype DownloadState =
    | Initial | RequestIndex | WaitIndexResponse | ProcessIndex | RequestOtaFile | WaitOtaFileResponse

  datatype Kind = Kind(manufacturerCode: u32, imageType: u32)

  /** The name is composed of the kind, the version and the first six digits of the hash. */
  datatype FileName = FileName(kind: Kind, fileVersion: u32, digits: string)

  datatype DownloadOtaFile = DownloadOtaFile(retry: nat, sha512: string, url: string, fileName: FileName)

  /** An object of the remote index whose three numbers could be read. */
  datatype IndexEntry = IndexEntry(kind: Kind, fileVersion: u32, url: Option<string>, sha512: Option<string>)

  const MAX_VALUE := 1280

  // ---- the remote index ----

  /** The texts between an opening brace and the next closing one, in order. */
  function Objects(s: string): seq<string>
    decreases |s|
  {
    var open := Find(s, "{", 0);
    if open < 0 then []
    else
      var close := Find(s, "}", open);
      if close < 0 then [] else [s[open..close + 1]] + Objects(s[close + 1..])
  }

  /** An object counts if its three numbers can be read. */
  function ReadEntry(text: string): Option<IndexEntry> {
    match (GetU32(text, "manufacturerCode"), GetU32(text, "imageType"), GetU32(text, "fileVersion"))
    case (Some(manufacturerCode), Some(imageType), Some(fileVersion)) =>
      Some(IndexEntry(Kind(manufacturerCode, imageType), fileVersion,
                      GetString(text, "url", MAX_VALUE), GetString(text, "sha512", MAX_VALUE)))
    case _ => None
  }

  function ReadEntries(objects: seq<string>): seq<IndexEntry> {
    if objects == [] then []
    else
      var before := ReadEntries(objects[..|objects| - 1]);
      match ReadEntry(objects[|objects| - 1])
      case None => before
      case Some(e) => before + [e]
  }

  /** The entries of the index file; a file that does not start with an array has none. */
  function ReadIndex(data: string): seq<IndexEntry> {
    if data == [] || data[0] != '[' then [] else ReadEntries(Objects(data))
  }

  /** Whatever stands before it: an object without a closing brace inside is found as a whole, and
      the search goes on behind it. */
  lemma {:induction false} ObjectFound(before: string, body: string, rest: string)
    requires '{' !in before && '}' !in body
    ensures Objects(before + "{" + body + "}" + rest) == ["{" + body + "}"] + Objects(rest)
  {
    var s, open := before + "{" + body + "}" + rest, |before|;
    var close := open + 1 + |body|;
    assert s[0..open] == before && s[open] == '{' && s[open..close] == "{" + body && s[close] == '}';
    FindChar(s, '{', 0, open);
    FindChar(s, '}', open, close);
    assert s[open..close + 1] == "{" + body + "}" && s[close + 1..] == rest;
  }

  /** An index: separators of any kind, each followed by an object. */
  function IndexText(seps: seq<string>, bodies: seq<string>): string
    requires |seps| == |bodies| + 1
  {
    if bodies == [] then seps[0] else seps[0] + "{" + bodies[0] + "}" + IndexText(seps[1..], bodies[1..])
  }

  function Braced(bodies: seq<string>): seq<string> {
    if bodies == [] then [] else ["{" + bodies[0] + "}"] + Braced(bodies[1..])
  }

  /** Exactly the objects are found, in order, if no separator has an opening brace and no object
      a closing one inside. */
  lemma {:induction false} ObjectsFound(seps: seq<string>, bodies: seq<string>)
    requires |seps| == |bodies| + 1
    requires (forall i :: 0 <= i < |seps| ==> '{' !in seps[i]) && (forall i :: 0 <= i < |bodies| ==> '}' !in bodies[i])
    ensures Objects(IndexText(seps, bodies)) == Braced(bodies)
  {
    if bodies != [] {
      ObjectsFound(seps[1..], bodies[1..]);
      ObjectFound(seps[0], bodies[0], IndexText(seps[1..], bodies[1..]));
    } else {
      NoObject(seps[0]);
    }
  }

  lemma {:induction false} NoObject(s: string)
    requires '{' !in s
    ensures Objects(s) == []
  {
    NotFound(s, '{');
  }

  datatype Queue = Queue(state: DownloadState, downloads: seq<DownloadOtaFile>, timer: bool, enabled: bool)

  const IDLE := Queue(Initial, [], false, false)

  /** What a timer tick finds: the configured url, the age of the index, the kinds of the
      nodes, the index, and the hashes in the local index. */
  datatype World = World(urlEmpty: bool, needRefresh: bool, nodes: seq<Kind>, index: seq<IndexEntry>, local: set<string>)

  /** What the queue does: asks for a download, notes one for a file, gives a file up, hands
      data to the store. Abandoned says that waiting was ended by a failed index download. */
  datatype Act =
    | IndexRequested
    | Queued(sha512: string)
    | Requested(sha512: string, url: string)
    | TimedOut(sha512: string)
    | Abandoned(sha512: string)
    | GaveUp(sha512: string)
    | Stored(sha512: string, fileName: FileName, data: seq<u8>, kept: bool)

  /** Removes the front by moving the back over it. */
  function SwapRemove(ds: seq<DownloadOtaFile>): seq<DownloadOtaFile>
    requires ds != []
  {
    ds[0 := ds[|ds| - 1]][..|ds| - 1]
  }

  /** The kinds of the nodes that told their manufacturer, each once. */
  function KnownKinds(nodes: seq<Kind>): seq<Kind> {
    if nodes == [] then []
    else
      var before, k := KnownKinds(nodes[..|nodes| - 1]), nodes[|nodes| - 1];
      if k.manufacturerCode == 0 || k in before then before else before + [k]
  }

  predicate Wanted(e: IndexEntry, kinds: seq<Kind>, local: set<string>) {
    e.kind in kinds && e.url.Some? && e.sha512.Some? && |e.sha512.value| == HASH_DIGITS && e.sha512.value !in local
  }

  predicate InQueue(ds: seq<DownloadOtaFile>, sha512: string) {
    exists i :: 0 <= i < |ds| && ds[i].sha512 == sha512
  }

  function Enqueue(ds: seq<DownloadOtaFile>, e: IndexEntry, kinds: seq<Kind>, local: set<string>): seq<DownloadOtaFile> {
    if Wanted(e, kinds, local) && !InQueue(ds, e.sha512.value) then
      ds + [DownloadOtaFile(0, e.sha512.value, e.url.value, FileName(e.kind, e.fileVersion, e.sha512.value[..6]))]
    else ds
  }

  function Collect(ds: seq<DownloadOtaFile>, index: seq<IndexEntry>, kinds: seq<Kind>, local: set<string>): (r: seq<DownloadOtaFile>)
    ensures ds <= r
  {
    if index == [] then ds
    else Enqueue(Collect(ds, index[..|index| - 1], kinds, local), index[|index| - 1], kinds, local)
  }

  /** One more object of the index. */
  function EnqueueText(ds: seq<DownloadOtaFile>, text: string, kinds: seq<Kind>, local: set<string>): seq<DownloadOtaFile> {
    match ReadEntry(text)
    case None => ds
    case Some(e) => Enqueue(ds, e, kinds, local)
  }

  lemma {:induction false} CollectText(ds: seq<DownloadOtaFile>, objects: seq<string>, i: nat, kinds: seq<Kind>, local: set<string>)
    requires i < |objects|
    ensures Collect(ds, ReadEntries(objects[..i + 1]), kinds, local)
         == EnqueueText(Collect(ds, ReadEntries(objects[..i]), kinds, local), objects[i], kinds, local)
  {
    assert objects[..i + 1][..i] == objects[..i];
    var before, after := ReadEntries(objects[..i]), ReadEntries(objects[..i + 1]);
    match ReadEntry(objects[i])
    case None =>
    case Some(e) => assert after[..|after| - 1] == before;
  }

  function QueuedActs(ds: seq<DownloadOtaFile>): seq<Act> {
    seq(|ds|, i requires 0 <= i < |ds| => Queued(ds[i].sha512))
  }

  // ---- the handlers ----

  function Cancel(q: Queue): Queue {
    q.(state := Initial)
  }

  function Start(q: Queue, state: DownloadState): Queue {
    q.(state := state, timer := true)
  }

  function RequestFile(q: Queue): (Queue, seq<Act>) {
    if q.downloads == [] then (Cancel(q), [])
    else
      var front := q.downloads[0];
      if front.retry < MAX_ATTEMPTS then
        (Start(q.(downloads := q.downloads[0 := front.(retry := front.retry + 1)]), WaitOtaFileResponse),
         [Requested(front.sha512, front.url)])
      else (Start(q.(downloads := SwapRemove(q.downloads)), RequestOtaFile), [GaveUp(front.sha512)])
  }

  function IndexProcessed(q: Queue, w: World): (Queue, seq<Act>) {
    var kinds := KnownKinds(w.nodes);
    if kinds == [] then (Cancel(q), [])
    else
      var ds := Collect(q.downloads, w.index, kinds, w.local);
      (if ds == [] then Cancel(q) else Start(q.(downloads := ds), RequestOtaFile), QueuedActs(ds[|q.downloads|..]))
  }

  /** The timer is over when it fires. */
  function TimerFired(before: Queue, w: World): (Queue, seq<Act>) {
    var q := before.(timer := false);
    match q.state
    case Initial => (q, [])
    case RequestIndex =>
      if !q.enabled || w.urlEmpty then (Cancel(q), [])
      else if w.needRefresh then (Start(q, WaitIndexResponse), [IndexRequested])
      else (Start(q, ProcessIndex), [])
    case WaitIndexResponse => (Cancel(q), [])
    case ProcessIndex => IndexProcessed(q, w)
    case RequestOtaFile => RequestFile(q)
    case WaitOtaFileResponse =>
      (Start(q, RequestOtaFile), if q.downloads == [] then [] else [TimedOut(q.downloads[0].sha512)])
  }

  /** done: the download succeeded; written: the index could be saved. */
  function IndexArrived(q: Queue, done: bool, size: nat, written: bool): (Queue, seq<Act>) {
    if !done then
      (Cancel(q), if q.state == WaitOtaFileResponse && q.downloads != [] then [Abandoned(q.downloads[0].sha512)] else [])
    else if q.state != WaitIndexResponse then (q, [])
    else if size > MIN_DOWNLOAD_SIZE && written then (Start(q, ProcessIndex), [])
    else (Cancel(q), [])
  }

  /** A failed download changes nothing: it is left to the timer. */
  function FileArrived(q: Queue, done: bool, data: seq<u8>): (Queue, seq<Act>) {
    if !done || q.state != WaitOtaFileResponse || q.downloads == [] then (q, [])
    else
      var front := q.downloads[0];
      (Start(q.(downloads := SwapRemove(q.downloads)), RequestOtaFile),
       [Stored(front.sha512, front.fileName, data, |data| > MIN_DOWNLOAD_SIZE)])
  }

  function Clicked(q: Queue): Queue {
    if q.state == Initial then Start(q.(enabled := true), RequestIndex) else q
  }

  // ---- runs ----

  /** from is the position in the log of the request that a callback belongs to; the callback
      itself does not know it. */
  datatype Event =
    | Tick(world: World)
    | IndexCallback(from: nat, done: bool, size: nat, written: bool)
    | FileCallback(from: nat, done: bool, data: seq<u8>)
    | Click

  predicate Possible(q: Queue, log: seq<Act>, ev: Event) {
    match ev
    case Tick(_) => q.timer
    case IndexCallback(from, _, _, _) => from < |log| && log[from].IndexRequested?
    case FileCallback(from, _, _) => from < |log| && log[from].Requested?
    case Click => true
  }

  function Step(q: Queue, ev: Event): (Queue, seq<Act>) {
    match ev
    case Tick(w) => TimerFired(q, w)
    case IndexCallback(_, done, size, written) => IndexArrived(q, done, size, written)
    case FileCallback(_, done, data) => FileArrived(q, done, data)
    case Click => (Clicked(q), [])
  }

  function Advance(q: Queue, log: seq<Act>, ev: Event): (Queue, seq<Act>) {
    if !Possible(q, log, ev) then (q, log) else var (r, acts) := Step(q, ev); (r, log + acts)
  }

  /** The queue and everything it did, after a run. */
  function Run(es: seq<Event>): (Queue, seq<Act>) {
    if es == [] then (IDLE, [])
    else var (q, log) := Run(es[..|es| - 1]); Advance(q, log, es[|es| - 1])
  }

  // ---- what the log says about one file ----

  /** A file is absent, or queued with so many requests of which so many ended unanswered. */
  datatype Standing = Absent | Waiting(requests: nat, timeouts: nat, abandoned: nat)

  function After(s: Standing, a: Act): Standing {
    match a
    case IndexRequested => s
    case Queued(_) => Waiting(0, 0, 0)
    case Requested(_, _) => if s.Waiting? then s.(requests := s.requests + 1) else s
    case TimedOut(_) => if s.Waiting? then s.(timeouts := s.timeouts + 1) else s
    case Abandoned(_) => if s.Waiting? then s.(abandoned := s.abandoned + 1) else s
    case GaveUp(_) => Absent
    case Stored(_, _, _, _) => Absent
  }

  predicate About(a: Act, sha512: string) {
    !a.IndexRequested? && a.sha512 == sha512
  }

  function StandingOf(log: seq<Act>, sha512: string): Standing {
    if log == [] then Absent
    else
      var s, a := StandingOf(log[..|log| - 1], sha512), log[|log| - 1];
      if About(a, sha512) then After(s, a) else s
  }

  /** Requests that neither timed out nor were abandoned. */
  function Unanswered(s: Standing): int {
    if s.Waiting? then s.requests - s.timeouts - s.abandoned else 0
  }

  /** What a file's standing allows: it is queued once; asked for again only when the last
      request has ended, and at most twice; given up after two requests that ended without an
      answer; handed to the store while a request is open. */
  predicate Allowed(s: Standing, a: Act) {
    match a
    case IndexRequested => true
    case Queued(_) => s.Absent?
    case Requested(_, _) => s.Waiting? && s.requests < MAX_ATTEMPTS && Unanswered(s) == 0
    case TimedOut(_) => Unanswered(s) == 1
    case Abandoned(_) => Unanswered(s) == 1
    case GaveUp(_) => s.Waiting? && s.requests == MAX_ATTEMPTS && s.timeouts + s.abandoned == MAX_ATTEMPTS
    case Stored(_, _, _, _) => Unanswered(s) == 1
  }

  predicate Orderly(log: seq<Act>) {
    forall i :: 0 <= i < |log| ==> log[i].IndexRequested? || Allowed(StandingOf(log[..i], log[i].sha512), log[i])
  }

  /** Distinct hashes, and the open request is that of the front while waiting for it. */
  predicate Distinct(ds: seq<DownloadOtaFile>) {
    forall i, j :: 0 <= i < j < |ds| ==> ds[i].sha512 != ds[j].sha512
  }

  /** The log gives the file at place i its number of requests, all ended but an open one. */
  predicate Accounted(q: Queue, log: seq<Act>, i: nat)
    requires i < |q.downloads|
  {
    var s, d := StandingOf(log, q.downloads[i].sha512), q.downloads[i];
    && s.Waiting? && s.requests == d.retry <= MAX_ATTEMPTS
    && Unanswered(s) == (if q.state == WaitOtaFileResponse && i == 0 then 1 else 0)
  }

  /** The queue holds exactly the files that the log leaves waiting, the timer runs unless the
      queue is at rest, and while a file is awaited its request is the last act. */
  ghost predicate QueueInv(q: Queue, log: seq<Act>) {
    && Orderly(log) && Distinct(q.downloads)
    && (forall i: nat :: i < |q.downloads| ==> Accounted(q, log, i))
    && (forall h: string :: StandingOf(log, h).Waiting? ==> InQueue(q.downloads, h))
    && (q.state != Initial ==> q.timer)
    && (q.state == WaitOtaFileResponse ==>
          q.downloads != [] && log != [] && log[|log| - 1] == Requested(q.downloads[0].sha512, q.downloads[0].url))
  }

  // ---- the invariant is kept ----

  lemma {:induction false} OrderlyMore(log: seq<Act>, a: Act)
    requires Orderly(log) && (a.IndexRequested? || Allowed(StandingOf(log, a.sha512), a))
    ensures Orderly(log + [a])
    ensures forall h: string :: StandingOf(log + [a], h) == if About(a, h) then After(StandingOf(log, h), a) else StandingOf(log, h)
  {
    assert (log + [a])[..|log|] == log;
    forall i | 0 <= i < |log|
      ensures (log + [a])[..i] == log[..i]
    {}
  }

  /** Exactly the front goes. */
  lemma {:induction false} SwapRemoveDropsFront(ds: seq<DownloadOtaFile>)
    requires ds != []
    ensures multiset(SwapRemove(ds)) == multiset(ds) - multiset{ds[0]}
  {
    var r, last := SwapRemove(ds), |ds| - 1;
    if last == 0 {
      assert r == [] && ds == [ds[0]];
    } else {
      var rest := ds[1..last];
      assert r == [ds[last]] + rest;
      assert ds == [ds[0]] + rest + [ds[last]];
    }
  }

  lemma {:induction false} SwapRemoveAt(ds: seq<DownloadOtaFile>, i: nat)
    requires ds != [] && i < |ds| - 1
    ensures SwapRemove(ds)[i] == ds[if i == 0 then |ds| - 1 else i]
  {}

  lemma {:induction false} SwapRemoveKeeps(ds: seq<DownloadOtaFile>)
    requires ds != [] && Distinct(ds)
    ensures var r := SwapRemove(ds); Distinct(r) && !InQueue(r, ds[0].sha512)
    ensures forall h: string :: h != ds[0].sha512 && InQueue(ds, h) ==> InQueue(SwapRemove(ds), h)
  {
    var r, last := SwapRemove(ds), |ds| - 1;
    forall i | 0 <= i < last
      ensures r[i] == ds[if i == 0 then last else i]
    {
      SwapRemoveAt(ds, i);
    }
    forall h: string | h != ds[0].sha512 && InQueue(ds, h)
      ensures InQueue(r, h)
    {
      var i :| 0 <= i < |ds| && ds[i].sha512 == h;
      assert r[if i == last then 0 else i].sha512 == h;
    }
  }

  /** The front is removed and noted as given up or stored. */
  lemma {:induction false} RemoveKeeps(q: Queue, log: seq<Act>, a: Act)
    requires QueueInv(q, log) && q.downloads != [] && (a.GaveUp? || a.Stored?) && a.sha512 == q.downloads[0].sha512
    requires Allowed(StandingOf(log, a.sha512), a)
    ensures QueueInv(Start(q.(downloads := SwapRemove(q.downloads)), RequestOtaFile), log + [a])
  {
    var r := Start(q.(downloads := SwapRemove(q.downloads)), RequestOtaFile);
    OrderlyMore(log, a);
    SwapRemoveKeeps(q.downloads);
    forall i: nat | i < |r.downloads|
      ensures Accounted(r, log + [a], i)
    {
      SwapRemoveAt(q.downloads, i);
      assert Accounted(q, log, if i == 0 then |q.downloads| - 1 else i);
      assert InQueue(r.downloads, r.downloads[i].sha512);
    }
  }

  /** The request of the front ended, was made, or nothing happened to it. */
  lemma {:induction false} FrontKeeps(q: Queue, log: seq<Act>, r: Queue, a: Act)
    requires QueueInv(q, log) && q.downloads != [] && !a.IndexRequested? && a.sha512 == q.downloads[0].sha512
    requires Allowed(StandingOf(log, a.sha512), a) && (r.state != Initial ==> r.timer)
    requires if a.Requested?
      then a == Requested(q.downloads[0].sha512, q.downloads[0].url) && r.state == WaitOtaFileResponse
        && r.downloads == q.downloads[0 := q.downloads[0].(retry := q.downloads[0].retry + 1)]
      else (a.TimedOut? || a.Abandoned?) && r.state != WaitOtaFileResponse && r.downloads == q.downloads
    ensures QueueInv(r, log + [a])
  {
    OrderlyMore(log, a);
    forall i: nat | i < |r.downloads|
      ensures Accounted(r, log + [a], i)
    {
      assert Accounted(q, log, i) && Accounted(q, log, 0);
    }
    forall h: string | StandingOf(log + [a], h).Waiting?
      ensures InQueue(r.downloads, h)
    {
      assert StandingOf(log, h).Waiting? && InQueue(q.downloads, h);
      var i :| 0 <= i < |q.downloads| && q.downloads[i].sha512 == h;
      assert r.downloads[i].sha512 == h;
    }
  }

  /** One more entry of the index. */
  lemma {:induction false} EnqueueKeeps(q: Queue, log: seq<Act>, e: IndexEntry, kinds: seq<Kind>, local: set<string>)
    requires QueueInv(q, log) && q.state != WaitOtaFileResponse
    ensures var ds := Enqueue(q.downloads, e, kinds, local);
      QueueInv(q.(downloads := ds), log + QueuedActs(ds[|q.downloads|..]))
  {
    var ds := Enqueue(q.downloads, e, kinds, local);
    if ds == q.downloads {
      assert log + QueuedActs(ds[|q.downloads|..]) == log;
    } else {
      var d := ds[|q.downloads|];
      var a, r := Queued(d.sha512), q.(downloads := ds);
      assert QueuedActs(ds[|q.downloads|..]) == [a];
      OrderlyMore(log, a);
      forall i: nat | i < |ds|
        ensures Accounted(r, log + [a], i)
      {
        if i < |q.downloads| {
          assert Accounted(q, log, i) && InQueue(q.downloads, q.downloads[i].sha512);
        }
      }
      forall h: string | StandingOf(log + [a], h).Waiting?
        ensures InQueue(ds, h)
      {
        if h == d.sha512 {
          assert ds[|q.downloads|].sha512 == h;
        } else {
          var i :| 0 <= i < |q.downloads| && q.downloads[i].sha512 == h;
          assert ds[i].sha512 == h;
        }
      }
    }
  }

  lemma {:induction false} CollectKeeps(q: Queue, log: seq<Act>, index: seq<IndexEntry>, kinds: seq<Kind>, local: set<string>)
    requires QueueInv(q, log) && q.state != WaitOtaFileResponse
    ensures var ds := Collect(q.downloads, index, kinds, local);
      QueueInv(q.(downloads := ds), log + QueuedActs(ds[|q.downloads|..]))
  {
    if index == [] {
      assert log + QueuedActs(q.downloads[|q.downloads|..]) == log;
    } else {
      var init := Collect(q.downloads, index[..|index| - 1], kinds, local);
      var ds := Collect(q.downloads, index, kinds, local);
      CollectKeeps(q, log, index[..|index| - 1], kinds, local);
      EnqueueKeeps(q.(downloads := init), log + QueuedActs(init[|q.downloads|..]), index[|index| - 1], kinds, local);
      assert QueuedActs(ds[|q.downloads|..]) == QueuedActs(init[|q.downloads|..]) + QueuedActs(ds[|init|..]);
      assert log + QueuedActs(ds[|q.downloads|..]) == log + QueuedActs(init[|q.downloads|..]) + QueuedActs(ds[|init|..]);
    }
  }

  /** The invariant ignores the switch, and the state as long as no file is awaited. */
  lemma {:induction false} StateKeeps(q: Queue, log: seq<Act>, r: Queue)
    requires QueueInv(q, log) && r.downloads == q.downloads && (r.state != Initial ==> r.timer)
    requires r.state == q.state || (q.state != WaitOtaFileResponse && r.state != WaitOtaFileResponse)
    ensures QueueInv(r, log)
  {
    forall i: nat | i < |r.downloads|
      ensures Accounted(r, log, i)
    {
      assert Accounted(q, log, i);
    }
  }

  lemma {:induction false} TickKeeps(q: Queue, log: seq<Act>, w: World)
    requires QueueInv(q, log)
    ensures var (r, acts) := TimerFired(q, w); QueueInv(r, log + acts)
  {
    var (r, acts) := TimerFired(q, w);
    match q.state
    case WaitOtaFileResponse =>
      assert Accounted(q, log, 0);
      FrontKeeps(q, log, r, acts[0]);
    case RequestOtaFile =>
      if q.downloads != [] {
        assert Accounted(q, log, 0);
        if q.downloads[0].retry < MAX_ATTEMPTS { FrontKeeps(q, log, r, acts[0]); } else { RemoveKeeps(q, log, acts[0]); }
      } else {
        StateKeeps(q, log, r);
        assert log + acts == log;
      }
    case ProcessIndex =>
      var kinds := KnownKinds(w.nodes);
      CollectKeeps(q, log, w.index, kinds, w.local);
      var ds := Collect(q.downloads, w.index, kinds, w.local);
      if kinds == [] {
        StateKeeps(q, log, r);
        assert log + acts == log;
      } else {
        StateKeeps(q.(downloads := ds), log + acts, r);
      }
    case RequestIndex =>
      StateKeeps(q, log, r);
      if acts == [] { assert log + acts == log; } else { IndexRequestKeeps(r, log); }
    case WaitIndexResponse => StateKeeps(q, log, r); assert log + acts == log;
    case Initial => StateKeeps(q, log, r); assert log + acts == log;
  }

  lemma {:induction false} IndexRequestKeeps(q: Queue, log: seq<Act>)
    requires QueueInv(q, log) && q.state != WaitOtaFileResponse
    ensures QueueInv(q, log + [IndexRequested])
  {
    OrderlyMore(log, IndexRequested);
    forall i: nat | i < |q.downloads|
      ensures Accounted(q, log + [IndexRequested], i)
    {
      assert Accounted(q, log, i);
    }
  }

  lemma {:induction false} CallbackKeeps(q: Queue, log: seq<Act>, ev: Event)
    requires QueueInv(q, log) && !ev.Tick?
    ensures var (r, acts) := Step(q, ev); QueueInv(r, log + acts)
  {
    var (r, acts) := Step(q, ev);
    if acts == [] {
      StateKeeps(q, log, r);
      assert log + acts == log;
    } else {
      assert Accounted(q, log, 0);
      if ev.FileCallback? { RemoveKeeps(q, log, acts[0]); } else { FrontKeeps(q, log, r, acts[0]); }
    }
  }

  /** In every run, also with late callbacks: the log is orderly and the queue is what it says. */
  lemma {:induction false} Reachable(es: seq<Event>)
    ensures var (q, log) := Run(es); QueueInv(q, log)
  {
    if es != [] {
      var init, ev := es[..|es| - 1], es[|es| - 1];
      Reachable(init);
      var (q, log) := Run(init);
      if Possible(q, log, ev) {
        if ev.Tick? { TickKeeps(q, log, ev.world); } else { CallbackKeeps(q, log, ev); }
      }
    }
  }

  // ---- at most two requests ----

  function Requests(log: seq<Act>, sha512: string): nat {
    if log == [] then 0
    else Requests(log[..|log| - 1], sha512) + (if log[|log| - 1].Requested? && log[|log| - 1].sha512 == sha512 then 1 else 0)
  }

  function Queueings(log: seq<Act>, sha512: string): nat {
    if log == [] then 0
    else Queueings(log[..|log| - 1], sha512) + (if log[|log| - 1] == Queued(sha512) then 1 else 0)
  }

  lemma {:induction false} OrderlyRequests(log: seq<Act>, sha512: string)
    requires Orderly(log)
    ensures var s := StandingOf(log, sha512); var left := if s.Waiting? then MAX_ATTEMPTS - s.requests else 0;
      left >= 0 && Requests(log, sha512) + left <= MAX_ATTEMPTS * Queueings(log, sha512)
  {
    if log != [] {
      var init, a := log[..|log| - 1], log[|log| - 1];
      assert forall i :: 0 <= i < |init| ==> init[..i] == log[..i];
      OrderlyRequests(init, sha512);
      assert a.IndexRequested? || Allowed(StandingOf(init, a.sha512), a);
    }
  }

  /** In every run: at most two requests each time a file is queued. */
  lemma {:induction false} TwoRequestsPerFile(es: seq<Event>, sha512: string)
    ensures var log := Run(es).1; Requests(log, sha512) <= 2 * Queueings(log, sha512)
  {
    Reachable(es);
    OrderlyRequests(Run(es).1, sha512);
  }

  // ---- the queue drains ----

  function Weight(ds: seq<DownloadOtaFile>): int {
    if ds == [] then 0 else Weight(ds[..|ds| - 1]) + 2 * (MAX_ATTEMPTS - ds[|ds| - 1].retry) + 1
  }

  /** How many ticks the queue needs at most. */
  function Measure(q: Queue): int {
    Weight(q.downloads) + (if q.state == WaitOtaFileResponse then 1 else 0) + (if q.state != Initial then 1 else 0)
  }

  lemma {:induction false} WeightAt(ds: seq<DownloadOtaFile>, i: nat, d: DownloadOtaFile)
    requires i < |ds|
    ensures Weight(ds[i := d]) == Weight(ds) + 2 * (ds[i].retry - d.retry)
  {
    var last := |ds| - 1;
    if i < last {
      WeightAt(ds[..last], i, d);
      assert ds[i := d][..last] == ds[..last][i := d];
    } else {
      assert ds[i := d][..last] == ds[..last];
    }
  }

  lemma {:induction false} WeightSwapRemove(ds: seq<DownloadOtaFile>)
    requires ds != []
    ensures Weight(SwapRemove(ds)) == Weight(ds) - 2 * (MAX_ATTEMPTS - ds[0].retry) - 1
  {
    WeightAt(ds, 0, ds[|ds| - 1]);
  }

  predicate Capped(ds: seq<DownloadOtaFile>) {
    forall i :: 0 <= i < |ds| ==> ds[i].retry <= MAX_ATTEMPTS
  }

  /** The queue works on its files. */
  predicate Fetching(q: Queue) {
    && (q.state == RequestOtaFile || (q.state == WaitOtaFileResponse && q.downloads != []))
    && q.timer && Capped(q.downloads)
  }

  lemma {:induction false} WeightPositive(ds: seq<DownloadOtaFile>)
    requires Capped(ds)
    ensures Weight(ds) >= |ds|
  {
    if ds != [] { WeightPositive(ds[..|ds| - 1]); }
  }

  /** Everything but a failed index download. */
  predicate Harmless(ev: Event) {
    ev.IndexCallback? ==> ev.done
  }

  /** Either it is still at work and closer to the end, or it is done. */
  predicate Closer(q: Queue, r: Queue, ticks: nat) {
    if Fetching(r) then Measure(r) <= Measure(q) - ticks else r.state == Initial && r.downloads == []
  }

  lemma {:induction false} FrontWeight(q: Queue)
    requires Fetching(q) && q.downloads != []
    ensures var front := q.downloads[0]; var rest := SwapRemove(q.downloads);
      && Weight(rest) == Weight(q.downloads) - 2 * (MAX_ATTEMPTS - front.retry) - 1 && Capped(rest)
      && Weight(q.downloads[0 := front.(retry := front.retry + 1)]) == Weight(q.downloads) - 2
  {
    WeightSwapRemove(q.downloads);
    WeightAt(q.downloads, 0, q.downloads[0].(retry := q.downloads[0].retry + 1));
  }

  lemma {:induction false} TickDrains(q: Queue, w: World)
    requires Fetching(q)
    ensures Closer(q, TimerFired(q, w).0, 1)
  {
    if q.downloads != [] { FrontWeight(q); }
  }

  lemma {:induction false} ArrivalDrains(q: Queue, done: bool, data: seq<u8>)
    requires Fetching(q)
    ensures Closer(q, FileArrived(q, done, data).0, 0)
  {
    if q.downloads != [] { FrontWeight(q); }
  }

  lemma {:induction false} StepDrains(q: Queue, ev: Event)
    requires Fetching(q) && Harmless(ev)
    ensures Closer(q, Step(q, ev).0, if ev.Tick? then 1 else 0)
  {
    match ev
    case Tick(w) => TickDrains(q, w);
    case FileCallback(_, done, data) => ArrivalDrains(q, done, data);
    case _ =>
  }

  function AfterAll(q: Queue, log: seq<Act>, es: seq<Event>): (Queue, seq<Act>)
    decreases |es|
  {
    if es == [] then (q, log) else var (r, more) := Advance(q, log, es[0]); AfterAll(r, more, es[1..])
  }

  function Ticks(es: seq<Event>): nat {
    if es == [] then 0 else (if es[0].Tick? then 1 else 0) + Ticks(es[1..])
  }

  /** Whatever calls back, early or late: as long as no index download fails, a queue at work is
      empty and at rest after at most Measure ticks of its timer. */
  lemma {:induction false} Drains(q: Queue, log: seq<Act>, es: seq<Event>) returns (i: nat)
    requires Fetching(q) && (forall k :: 0 <= k < |es| ==> Harmless(es[k])) && Ticks(es) >= Measure(q)
    ensures i <= |es| && AfterAll(q, log, es[..i]).0.state == Initial && AfterAll(q, log, es[..i]).0.downloads == []
    decreases |es|
  {
    WeightPositive(q.downloads);
    StepDrains(q, es[0]);
    var (r, more) := Advance(q, log, es[0]);
    if Fetching(r) {
      var j := Drains(r, more, es[1..]);
      i := j + 1;
      assert es[..i][1..] == es[1..][..j];
    } else {
      i := 1;
      assert es[..1] == [es[0]];
    }
  }

  // ---- whether it stops early, over runs ----

  predicate Working(q: Queue) {
    q.state == RequestOtaFile || q.state == WaitOtaFileResponse
  }

  /** In every run: a queue at work is one that drains. */
  lemma {:induction false} WorkingFetches(es: seq<Event>)
    requires Working(Run(es).0)
    ensures Fetching(Run(es).0)
  {
    Reachable(es);
    var (q, log) := Run(es);
    forall i: nat | i < |q.downloads|
      ensures q.downloads[i].retry <= MAX_ATTEMPTS
    {
      assert Accounted(q, log, i);
    }
  }

  /** The run os goes on with es, up to the i-th event. */
  function Until(os: seq<Event>, es: seq<Event>, i: nat): (Queue, seq<Act>)
    requires i <= |es|
  {
    Run(os + es[..i])
  }

  lemma {:induction false} UntilNext(os: seq<Event>, es: seq<Event>, i: nat)
    requires i < |es|
    ensures Until(os, es, i + 1) == Advance(Until(os, es, i).0, Until(os, es, i).1, es[i])
  {
    var all := os + es[..i + 1];
    assert all[..|all| - 1] == os + es[..i];
  }

  /** The i-th event is the failure of an index download, while files are queued. */
  predicate FailsAt(os: seq<Event>, es: seq<Event>, i: nat) {
    && i < |es| && es[i].IndexCallback? && !es[i].done
    && Possible(Until(os, es, i).0, Until(os, es, i).1, es[i]) && Until(os, es, i).0.downloads != []
  }

  /** The queue is at work up to there. */
  predicate WorksUntil(os: seq<Event>, es: seq<Event>, i: nat) {
    i <= |es| && forall j: nat :: j < i ==> Working(Until(os, es, j).0)
  }

  /** The queue comes to rest there, for the first time. */
  predicate RestsAt(os: seq<Event>, es: seq<Event>, i: nat) {
    WorksUntil(os, es, i) && Until(os, es, i).0.state == Initial
  }

  /** One event of a queue at work. */
  lemma {:induction false} EventAtWork(os: seq<Event>, es: seq<Event>, i: nat)
    requires i < |es| && Working(Until(os, es, i).0)
    ensures var q, r := Until(os, es, i).0, Until(os, es, i + 1).0;
      if Working(r) then Measure(r) <= Measure(q) - (if es[i].Tick? then 1 else 0)
      else r.state == Initial && (r.downloads != [] <==> FailsAt(os, es, i))
    ensures FailsAt(os, es, i) ==> Until(os, es, i + 1).0.state == Initial
  {
    var (q, log) := Until(os, es, i);
    UntilNext(os, es, i);
    WorkingFetches(os + es[..i]);
    if Harmless(es[i]) { StepDrains(q, es[i]); }
  }

  /** With as many ticks as the measure of the queue it comes to rest, with files left exactly if
      the event before was the failure of an index download. */
  lemma {:induction false} ComesToRest(os: seq<Event>, es: seq<Event>, i: nat) returns (k: nat)
    requires i <= |es| && WorksUntil(os, es, i) && Working(Until(os, es, i).0)
    requires Ticks(es[i..]) >= Measure(Until(os, es, i).0)
    ensures i < k && RestsAt(os, es, k) && (Until(os, es, k).0.downloads != [] <==> FailsAt(os, es, k - 1))
    decreases |es| - i
  {
    WorkingFetches(os + es[..i]);
    WeightPositive(Until(os, es, i).0.downloads);
    EventAtWork(os, es, i);
    if Working(Until(os, es, i + 1).0) {
      assert es[i..][1..] == es[i + 1..];
      k := ComesToRest(os, es, i + 1);
    } else {
      k := i + 1;
    }
  }

  lemma {:induction false} AtWorkBefore(os: seq<Event>, es: seq<Event>, k: nat, i: nat)
    requires WorksUntil(os, es, k) && i < k
    ensures Working(Until(os, es, i).0)
  {}

  /** It first comes to rest only once, and after a failure at once. */
  lemma {:induction false} RestsOnce(os: seq<Event>, es: seq<Event>, i: nat, k: nat)
    requires RestsAt(os, es, i) && RestsAt(os, es, k)
    ensures i == k
  {
    if i < k { AtWorkBefore(os, es, k, i); }
    if k < i { AtWorkBefore(os, es, i, k); }
  }

  lemma {:induction false} RestsAfterFailure(os: seq<Event>, es: seq<Event>, j: nat)
    requires j < |es| && WorksUntil(os, es, j + 1) && FailsAt(os, es, j)
    ensures RestsAt(os, es, j + 1)
  {
    EventAtWork(os, es, j);
  }

  /** In every run in which a queue at work gets as many ticks as its measure says: it comes to
      rest, and when it first does files are left if and only if an index download failed while
      it was at work with files queued; otherwise it is empty. */
  lemma {:induction false} StopsEarlyIff(os: seq<Event>, es: seq<Event>)
    requires Working(Run(os).0) && Ticks(es) >= Measure(Run(os).0)
    ensures exists k :: RestsAt(os, es, k)
    ensures (exists k :: RestsAt(os, es, k) && Until(os, es, k).0.downloads != []) <==>
      (exists j: nat :: WorksUntil(os, es, j + 1) && FailsAt(os, es, j))
  {
    assert os + es[..0] == os && es[0..] == es;
    var k := ComesToRest(os, es, 0);
    if i: nat :| RestsAt(os, es, i) && Until(os, es, i).0.downloads != [] {
      RestsOnce(os, es, i, k);
      assert WorksUntil(os, es, (k - 1) + 1) && FailsAt(os, es, k - 1);
    }
    if j: nat :| WorksUntil(os, es, j + 1) && FailsAt(os, es, j) {
      RestsAfterFailure(os, es, j);
      RestsOnce(os, es, j + 1, k);
    }
  }

  // ---- which file the data is stored as ----

  /** In every run: data that arrives for the request at from is stored as the file that was
      asked for, if and only if that request was for the same file as the last act. */
  lemma {:induction false} StoredRightIff(es: seq<Event>, ev: Event)
    requires var (q, log) := Run(es);
      Possible(q, log, ev) && ev.FileCallback? && ev.done && q.state == WaitOtaFileResponse
    ensures var (q, log) := Run(es); var acts := Step(q, ev).1;
      && log != [] && log[|log| - 1].Requested?
      && q.downloads != [] && |acts| == 1 && acts[0].Stored? && acts[0].data == ev.data
      && acts[0].fileName == q.downloads[0].fileName && (acts[0].kept <==> |ev.data| > 512)
      && (acts[0].sha512 == log[ev.from].sha512 <==> log[ev.from].sha512 == log[|log| - 1].sha512)
  {
    Reachable(es);
  }

  function LateWorld(a: string, b: string): World {
    var k := Kind(0x1135, 0);
    World(false, false, [k], [IndexEntry(k, 1, Some("a"), Some(a)), IndexEntry(k, 2, Some("b"), Some(b))], {})
  }

  lemma {:induction false} LateIndex(a: string, b: string)
    requires |a| == |b| == HASH_DIGITS && a != b
    ensures var w := LateWorld(a, b); var k := Kind(0x1135, 0);
      KnownKinds(w.nodes) == [k] &&
      Collect([], w.index, [k], {}) ==
        [DownloadOtaFile(0, a, "a", FileName(k, 1, a[..6])), DownloadOtaFile(0, b, "b", FileName(k, 2, b[..6]))]
  {
    var w, k := LateWorld(a, b), Kind(0x1135, 0);
    assert KnownKinds([]) == [] && w.nodes[..0] == [];
    assert w.index[..1] == [w.index[0]] && w.index[..1][..0] == [];
    assert Collect([], [], [k], {}) == [];
    var one := Collect([], w.index[..1], [k], {});
    assert one == [DownloadOtaFile(0, a, "a", FileName(k, 1, a[..6]))];
  }

  predicate Leads(q: Queue, log: seq<Act>, es: seq<Event>, r: Queue, more: seq<Act>) {
    AfterAll(q, log, es).0 == r && AfterAll(q, log, es).1 == more
  }

  lemma {:induction false} OneStep(q: Queue, log: seq<Act>, ev: Event)
    requires Possible(q, log, ev)
    ensures Leads(q, log, [ev], Step(q, ev).0, log + Step(q, ev).1)
  {
    assert [ev][1..] == [];
    var (r, more) := Advance(q, log, ev);
    assert AfterAll(r, more, []) == (r, more);
  }

  lemma {:induction false} Joined(q: Queue, log: seq<Act>, es: seq<Event>, r: Queue, more: seq<Act>, ev: Event)
    requires Leads(q, log, es, r, more) && Possible(r, more, ev)
    ensures Leads(q, log, es + [ev], Step(r, ev).0, more + Step(r, ev).1)
  {
    AfterBoth(q, log, es, [ev]);
    OneStep(r, more, ev);
  }

  lemma {:induction false} AfterBoth(q: Queue, log: seq<Act>, es: seq<Event>, fs: seq<Event>)
    ensures AfterAll(q, log, es + fs) == AfterAll(AfterAll(q, log, es).0, AfterAll(q, log, es).1, fs)
    decreases |es|
  {
    if es == [] {
      assert es + fs == fs;
    } else {
      var (r, more) := Advance(q, log, es[0]);
      AfterBoth(r, more, es[1..], fs);
      assert (es + fs)[1..] == es[1..] + fs;
    }
  }

  lemma {:induction false} RunIsAfterAll(es: seq<Event>)
    ensures Run(es) == AfterAll(IDLE, [], es)
  {
    if es != [] {
      var init, ev := es[..|es| - 1], es[|es| - 1];
      RunIsAfterAll(init);
      AfterBoth(IDLE, [], init, [ev]);
      assert init + [ev] == es && [ev][1..] == [];
    }
  }

  /** The index is read and two files are queued. */
  lemma {:induction false} LateStart(a: string, b: string) returns (es: seq<Event>)
    requires |a| == |b| == HASH_DIGITS && a != b
    ensures var k := Kind(0x1135, 0);
      Leads(IDLE, [], es,
            Queue(RequestOtaFile, [DownloadOtaFile(0, a, "a", FileName(k, 1, a[..6])), DownloadOtaFile(0, b, "b", FileName(k, 2, b[..6]))], true, true),
            [Queued(a), Queued(b)])
  {
    var w := LateWorld(a, b);
    LateIndex(a, b);
    OneStep(IDLE, [], Click);
    var q1, q2 := Queue(RequestIndex, [], true, true), Queue(ProcessIndex, [], true, true);
    Joined(IDLE, [], [Click], q1, [], Tick(w));
    Joined(IDLE, [], [Click] + [Tick(w)], q2, [], Tick(w));
    var acts := Step(q2, Tick(w)).1;
    assert [] + acts == [Queued(a), Queued(b)];
    es := [Click] + [Tick(w)] + [Tick(w)];
  }

  /** The front is asked for in vain. */
  lemma {:induction false} InVain(es: seq<Event>, w: World, d: DownloadOtaFile, rest: seq<DownloadOtaFile>, log: seq<Act>) returns (fs: seq<Event>)
    requires Leads(IDLE, [], es, Queue(RequestOtaFile, [d] + rest, true, true), log) && d.retry < MAX_ATTEMPTS
    ensures Leads(IDLE, [], fs, Queue(RequestOtaFile, [d.(retry := d.retry + 1)] + rest, true, true),
                  log + [Requested(d.sha512, d.url)] + [TimedOut(d.sha512)])
  {
    var q, e := Queue(RequestOtaFile, [d] + rest, true, true), d.(retry := d.retry + 1);
    Joined(IDLE, [], es, q, log, Tick(w));
    assert q.downloads[0 := e] == [e] + rest;
    var r := Queue(WaitOtaFileResponse, [e] + rest, true, true);
    Joined(IDLE, [], es + [Tick(w)], r, log + [Requested(d.sha512, d.url)], Tick(w));
    fs := es + [Tick(w)] + [Tick(w)];
  }

  /** The first file is asked for twice in vain and given up, the second is asked for; then the
      answer to the first request arrives. */
  lemma {:induction false} StoredWrong(a: string, b: string, data: seq<u8>) returns (es: seq<Event>)
    requires |a| == |b| == HASH_DIGITS && a != b
    ensures var (q, log) := Run(es); var ev := FileCallback(2, true, data);
      && Possible(q, log, ev) && log[2] == Requested(a, "a")
      && Step(q, ev).1 == [Stored(b, FileName(Kind(0x1135, 0), 2, b[..6]), data, |data| > MIN_DOWNLOAD_SIZE)]
  {
    var w, k := LateWorld(a, b), Kind(0x1135, 0);
    var d, e := DownloadOtaFile(0, a, "a", FileName(k, 1, a[..6])), DownloadOtaFile(0, b, "b", FileName(k, 2, b[..6]));
    var log := [Queued(a), Queued(b)];
    es := LateStart(a, b);
    assert [d, e] == [d] + [e];
    es := InVain(es, w, d, [e], log);
    log := log + [Requested(a, "a")] + [TimedOut(a)];
    es := InVain(es, w, d.(retry := 1), [e], log);
    log := log + [Requested(a, "a")] + [TimedOut(a)];
    var q := Queue(RequestOtaFile, [d.(retry := 2)] + [e], true, true);
    Joined(IDLE, [], es, q, log, Tick(w));
    assert SwapRemove(q.downloads) == [e];
    Joined(IDLE, [], es + [Tick(w)], Queue(RequestOtaFile, [e], true, true), log + [GaveUp(a)], Tick(w));
    es := es + [Tick(w)] + [Tick(w)];
    assert [e][0 := e.(retry := 1)] == [e.(retry := 1)];
    RunIsAfterAll(es);
  }

  // ---- a run that stops early ----

  /** An index download times out, the next click finds the index good enough, two files are
      queued; then the first download fails after all. */
  lemma {:induction false} StoppedRun(a: string, b: string) returns (es: seq<Event>)
    requires |a| == |b| == HASH_DIGITS && a != b
    ensures es != [] && Working(Run(es[..|es| - 1]).0) && Possible(Run(es[..|es| - 1]).0, Run(es[..|es| - 1]).1, es[|es| - 1])
    ensures es[|es| - 1] == IndexCallback(0, false, 0, false)
    ensures Run(es).0.state == Initial && |Run(es).0.downloads| == 2
  {
    var w, k := LateWorld(a, b), Kind(0x1135, 0);
    var asked := w.(needRefresh := true);
    LateIndex(a, b);
    OneStep(IDLE, [], Click);
    var q1, q2 := Queue(RequestIndex, [], true, true), Queue(WaitIndexResponse, [], true, true);
    var q3, q4 := Queue(Initial, [], false, true), Queue(ProcessIndex, [], true, true);
    var log := [] + [IndexRequested];
    Joined(IDLE, [], [Click], q1, [], Tick(asked));
    es := [Click] + [Tick(asked)];
    Joined(IDLE, [], es, q2, log, Tick(w));
    es := es + [Tick(w)];
    assert log + [] == log;
    Joined(IDLE, [], es, q3, log, Click);
    es := es + [Click];
    Joined(IDLE, [], es, q1, log, Tick(w));
    es := es + [Tick(w)];
    Joined(IDLE, [], es, q4, log, Tick(w));
    es := es + [Tick(w)];
    RunIsAfterAll(es);
    var (q5, log5) := Run(es);
    var failure := IndexCallback(0, false, 0, false);
    assert log5[0] == IndexRequested;
    Joined(IDLE, [], es, q5, log5, failure);
    assert (es + [failure])[..|es|] == es;
    es := es + [failure];
    RunIsAfterAll(es);
  }

  // ---- the object ----

  class Downloader {
    var state: DownloadState
    var downloads: seq<DownloadOtaFile>
    var timer: bool
    var downloadsEnabled: bool

    ghost function View(): Queue
      reads this
    {
      Queue(state, downloads, timer, downloadsEnabled)
    }

    constructor ()
      ensures View() == IDLE
    {
      state := Initial;
      downloads := [];
      timer := false;
      downloadsEnabled := false;
    }

    method DownloadCancelOrError()
      modifies this`state
      ensures View() == Cancel(old(View()))
    {
      state := Initial;
    }

    method StartTimer(next: DownloadState)
      modifies this`state, this`timer
      ensures View() == Start(old(View()), next)
    {
      state := next;
      timer := true;
    }

    static method Known(nodes: seq<Kind>) returns (known: seq<Kind>)
      ensures known == KnownKinds(nodes)
    {
      known := [];
      for i := 0 to |nodes|
        invariant known == KnownKinds(nodes[..i])
      {
        assert nodes[..i + 1][..i] == nodes[..i];
        if nodes[i].manufacturerCode != 0 {
          var j := 0;
          while j < |known| && known[j] != nodes[i]
            invariant j <= |known| && nodes[i] !in known[..j]
          {
            j := j + 1;
          }
          if j == |known| {
            known := known + [nodes[i]];
          }
        }
      }
      assert nodes[..|nodes|] == nodes;
    }

    method FindDownload(sha512: string) returns (found: bool)
      ensures found == InQueue(downloads, sha512)
    {
      for i := 0 to |downloads|
        invariant !InQueue(downloads[..i], sha512)
      {
        if downloads[i].sha512 == sha512 {
          return true;
        }
      }
      assert downloads[..|downloads|] == downloads;
      return false;
    }

    method CollectEntry(e: IndexEntry, known: seq<Kind>, local: set<string>)
      modifies this`downloads
      ensures downloads == Enqueue(old(downloads), e, known, local)
    {
      var readable := e.url.Some? && e.sha512.Some? && |e.sha512.value| == HASH_DIGITS;
      var j := 0;
      while j < |known|
        invariant j <= |known| && downloads == old(downloads)
        invariant readable ==> e.kind !in known[..j]
      {
        if known[j] == e.kind && readable {
          var sha512 := e.sha512.value;
          if sha512 !in local {
            var found := FindDownload(sha512);
            if !found {
              downloads := downloads + [DownloadOtaFile(0, sha512, e.url.value, FileName(e.kind, e.fileVersion, sha512[..6]))];
            }
          }
          return;
        }
        j := j + 1;
      }
    }

    method CollectObject(text: string, known: seq<Kind>, local: set<string>)
      modifies this`downloads
      ensures downloads == EnqueueText(old(downloads), text, known, local)
    {
      var manufacturerCode := GetU32(text, "manufacturerCode");
      var imageType := GetU32(text, "imageType");
      var fileVersion := GetU32(text, "fileVersion");
      if manufacturerCode.Some? && imageType.Some? && fileVersion.Some? {
        CollectEntry(IndexEntry(Kind(manufacturerCode.value, imageType.value), fileVersion.value,
                                GetString(text, "url", MAX_VALUE), GetString(text, "sha512", MAX_VALUE)), known, local);
      }
    }

    /** The next object of the index, and what follows it. */
    static method NextObject(s: string) returns (found: bool, text: string, rest: string)
      ensures found ==> Objects(s) == [text] + Objects(rest) && |rest| < |s|
      ensures !found ==> Objects(s) == []
    {
      found, text, rest := false, "", s;
      var open := Find(s, "{", 0);
      if open >= 0 {
        var close := Find(s, "}", open);
        if close >= 0 {
          found, text, rest := true, s[open..close + 1], s[close + 1..];
        }
      }
    }

    /** Reads the index object by object. */
    method ReadObjects(data: string, known: seq<Kind>, local: set<string>)
      modifies this`downloads
      ensures downloads == Collect(old(downloads), ReadEntries(Objects(data)), known, local)
    {
      ghost var objects := Objects(data);
      ghost var i := 0;
      var found, text, rest := NextObject(data);
      while found
        invariant 0 <= i <= |objects| && objects[i..] == if found then [text] + Objects(rest) else []
        invariant downloads == Collect(old(downloads), ReadEntries(objects[..i]), known, local)
        decreases found, |rest|
      {
        assert objects[i] == objects[i..][0] && objects[i + 1..] == objects[i..][1..] == Objects(rest);
        CollectObject(text, known, local);
        CollectText(old(downloads), objects, i, known, local);
        found, text, rest := NextObject(rest);
        i := i + 1;
      }
      assert objects[..i] == objects;
    }

    method ProcessIndexFile(w: World, data: string) returns (acts: seq<Act>)
      requires w.index == ReadIndex(data)
      modifies this
      ensures (View(), acts) == IndexProcessed(old(View()), w)
    {
      state := Initial;
      acts := [];
      var before := downloads;
      var known := Known(w.nodes);
      if known == [] {
        DownloadCancelOrError();
        return;
      }
      if data != [] && data[0] == '[' {
        ReadObjects(data, known, w.local);
      }
      acts := QueuedActs(downloads[|before|..]);
      if downloads != [] {
        StartTimer(RequestOtaFile);
      } else {
        assert QueuedActs(downloads) == acts;
      }
    }

    method DropFront()
      requires downloads != []
      modifies this`downloads
      ensures downloads == SwapRemove(old(downloads))
    {
      downloads := downloads[0 := downloads[|downloads| - 1]];
      downloads := downloads[..|downloads| - 1];
    }

    method RequestOtaFileFromQueue() returns (acts: seq<Act>)
      modifies this
      ensures (View(), acts) == RequestFile(old(View()))
    {
      if downloads == [] {
        DownloadCancelOrError();
        return [];
      }
      var dl := downloads[0];
      if dl.retry < MAX_ATTEMPTS {
        downloads := downloads[0 := dl.(retry := dl.retry + 1)];
        StartTimer(WaitOtaFileResponse);
        return [Requested(dl.sha512, dl.url)];
      }
      DropFront();
      StartTimer(RequestOtaFile);
      return [GaveUp(dl.sha512)];
    }

    /** data is the text of the index file. */
    method DownloadTimerFired(w: World, data: string) returns (acts: seq<Act>)
      requires timer && w.index == ReadIndex(data)
      modifies this
      ensures (View(), acts) == TimerFired(old(View()), w)
    {
      timer := false;
      acts := [];
      match state
      case Initial =>
      case RequestIndex =>
        if !downloadsEnabled || w.urlEmpty {
          DownloadCancelOrError();
        } else if w.needRefresh {
          StartTimer(WaitIndexResponse);
          acts := [IndexRequested];
        } else {
          StartTimer(ProcessIndex);
        }
      case WaitIndexResponse => DownloadCancelOrError();
      case ProcessIndex => acts := ProcessIndexFile(w, data);
      case RequestOtaFile => acts := RequestOtaFileFromQueue();
      case WaitOtaFileResponse =>
        if downloads != [] {
          acts := [TimedOut(downloads[0].sha512)];
        }
        StartTimer(RequestOtaFile);
    }

    method DownloadIndexCallback(done: bool, size: nat, written: bool) returns (acts: seq<Act>)
      modifies this
      ensures (View(), acts) == IndexArrived(old(View()), done, size, written)
    {
      acts := [];
      if !done {
        if state == WaitOtaFileResponse && downloads != [] {
          acts := [Abandoned(downloads[0].sha512)];
        }
        DownloadCancelOrError();
        return;
      }
      if state != WaitIndexResponse {
        return;
      }
      if size > MIN_DOWNLOAD_SIZE && written {
        StartTimer(ProcessIndex);
      } else {
        DownloadCancelOrError();
      }
    }

    method DownloadOtaFileCallback(done: bool, data: seq<u8>) returns (acts: seq<Act>)
      modifies this
      ensures (View(), acts) == FileArrived(old(View()), done, data)
    {
      if !done || state != WaitOtaFileResponse || downloads == [] {
        return [];
      }
      var dl := downloads[0];
      DropFront();
      acts := [Stored(dl.sha512, dl.fileName, data, |data| > MIN_DOWNLOAD_SIZE)];
      StartTimer(RequestOtaFile);
    }

    method DownloadRequestIndex()
      modifies this
      ensures View() == Clicked(old(View()))
    {
      if state == Initial {
        downloadsEnabled := true;
        StartTimer(RequestIndex);
      }
    }

    /** An event does to the object what it does to its value: so what holds after every run
        holds for the object. */
    method Handle(ev: Event, data: string) returns (acts: seq<Act>)
      requires ev.Tick? ==> timer && ev.world.index == ReadIndex(data)
      modifies this
      ensures (View(), acts) == Step(old(View()), ev)
    {
      acts := [];
      match ev
      case Tick(w) => acts := DownloadTimerFired(w, data);
      case IndexCallback(_, done, size, written) => acts := DownloadIndexCallback(done, size, written);
      case FileCallback(_, done, data) => acts := DownloadOtaFileCallback(done, data);
      case Click => DownloadRequestIndex();
    }
  }
}
