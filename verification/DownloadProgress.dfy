/** That the download queue gets somewhere: what a click, a tick and an index lead to, which files
    are queued, and that every queued file is asked for. */
module DownloadProgress {
  import opened Downloads

  // ---- which files are queued ----

  /** Exactly the kinds of the nodes that told their manufacturer, each once. */
  lemma {:induction false} KindsKnown(nodes: seq<Kind>)
    ensures forall k :: k in KnownKinds(nodes) <==> k in nodes && k.manufacturerCode != 0
    ensures forall i, j :: 0 <= i < j < |KnownKinds(nodes)| ==> KnownKinds(nodes)[i] != KnownKinds(nodes)[j]
  {
    if nodes != [] {
      KindsKnown(nodes[..|nodes| - 1]);
      assert nodes == nodes[..|nodes| - 1] + [nodes[|nodes| - 1]];
    }
  }

  /** A file for one of the nodes, with an address and a hash of 128 digits that no local file has. */
  predicate Useful(e: IndexEntry, nodes: seq<Kind>, local: set<string>) {
    && e.kind in nodes && e.kind.manufacturerCode != 0
    && e.url.Some? && e.sha512.Some? && |e.sha512.value| == 128 && e.sha512.value !in local
  }

  /** d is queued for e. */
  predicate QueuedFor(d: DownloadOtaFile, e: IndexEntry) {
    && e.url.Some? && e.sha512.Some? && |e.sha512.value| >= 6
    && d == DownloadOtaFile(0, e.sha512.value, e.url.value, FileName(e.kind, e.fileVersion, e.sha512.value[..6]))
  }

  /** d is queued for an entry of the index that is useful, the first of its hash. */
  predicate FirstUseful(d: DownloadOtaFile, index: seq<IndexEntry>, nodes: seq<Kind>, local: set<string>) {
    exists i :: 0 <= i < |index| && Useful(index[i], nodes, local) && QueuedFor(d, index[i])
                && forall j :: 0 <= j < i && Useful(index[j], nodes, local) ==> index[j].sha512 != index[i].sha512
  }

  predicate AllQueued(ds: seq<DownloadOtaFile>, index: seq<IndexEntry>, nodes: seq<Kind>, local: set<string>) {
    forall i :: 0 <= i < |index| && Useful(index[i], nodes, local) ==> InQueue(ds, index[i].sha512.value)
  }

  /** What the index adds to the queue: behind what was there, one file for each useful entry whose
      hash is not queued yet. */
  predicate Added(ds: seq<DownloadOtaFile>, r: seq<DownloadOtaFile>, index: seq<IndexEntry>, nodes: seq<Kind>, local: set<string>) {
    && ds <= r
    && (forall i :: |ds| <= i < |r| ==> FirstUseful(r[i], index, nodes, local))
    && AllQueued(r, index, nodes, local)
  }

  lemma {:induction false} InQueueMore(ds: seq<DownloadOtaFile>, r: seq<DownloadOtaFile>, h: string)
    requires ds <= r && InQueue(ds, h)
    ensures InQueue(r, h)
  {
    var i :| 0 <= i < |ds| && ds[i].sha512 == h;
    assert r[i].sha512 == h;
  }

  lemma {:induction false} FirstUsefulMore(d: DownloadOtaFile, index: seq<IndexEntry>, nodes: seq<Kind>, local: set<string>)
    requires index != [] && FirstUseful(d, index[..|index| - 1], nodes, local)
    ensures FirstUseful(d, index, nodes, local)
  {
    var init := index[..|index| - 1];
    var i :| 0 <= i < |init| && Useful(init[i], nodes, local) && QueuedFor(d, init[i])
             && forall j :: 0 <= j < i && Useful(init[j], nodes, local) ==> init[j].sha512 != init[i].sha512;
    assert index[i] == init[i];
    assert forall j :: 0 <= j < i ==> index[j] == init[j];
  }

  /** The last entry is queued: it is the first of its hash. */
  lemma {:induction false} NewFile(before: seq<DownloadOtaFile>, index: seq<IndexEntry>, nodes: seq<Kind>, local: set<string>)
    requires index != [] && |Enqueue(before, index[|index| - 1], KnownKinds(nodes), local)| > |before|
    requires AllQueued(before, index[..|index| - 1], nodes, local)
    ensures FirstUseful(Enqueue(before, index[|index| - 1], KnownKinds(nodes), local)[|before|], index, nodes, local)
  {
    var init, last := index[..|index| - 1], |index| - 1;
    KindsKnown(nodes);
    forall j | 0 <= j < last && Useful(index[j], nodes, local)
      ensures index[j].sha512 != index[last].sha512
    {
      assert init[j] == index[j];
    }
    assert Useful(index[last], nodes, local);
  }

  lemma {:induction false} AllQueuedMore(before: seq<DownloadOtaFile>, index: seq<IndexEntry>, nodes: seq<Kind>, local: set<string>)
    requires index != [] && AllQueued(before, index[..|index| - 1], nodes, local)
    ensures AllQueued(Enqueue(before, index[|index| - 1], KnownKinds(nodes), local), index, nodes, local)
  {
    var init, last := index[..|index| - 1], |index| - 1;
    var r := Enqueue(before, index[last], KnownKinds(nodes), local);
    KindsKnown(nodes);
    forall i | 0 <= i < |index| && Useful(index[i], nodes, local)
      ensures InQueue(r, index[i].sha512.value)
    {
      if i < last {
        assert index[i] == init[i];
        InQueueMore(before, r, index[i].sha512.value);
      } else if r != before {
        assert r[|before|].sha512 == index[last].sha512.value;
      }
    }
  }

  /** One more entry. */
  lemma {:induction false} AddedMore(ds: seq<DownloadOtaFile>, before: seq<DownloadOtaFile>, index: seq<IndexEntry>,
                                     nodes: seq<Kind>, local: set<string>)
    requires index != [] && Added(ds, before, index[..|index| - 1], nodes, local)
    ensures Added(ds, Enqueue(before, index[|index| - 1], KnownKinds(nodes), local), index, nodes, local)
  {
    var r := Enqueue(before, index[|index| - 1], KnownKinds(nodes), local);
    AllQueuedMore(before, index, nodes, local);
    forall i | |ds| <= i < |r|
      ensures FirstUseful(r[i], index, nodes, local)
    {
      if i < |before| {
        FirstUsefulMore(r[i], index, nodes, local);
      } else {
        NewFile(before, index, nodes, local);
      }
    }
  }

  lemma {:induction false} CollectAdds(ds: seq<DownloadOtaFile>, index: seq<IndexEntry>, nodes: seq<Kind>, local: set<string>)
    ensures Added(ds, Collect(ds, index, KnownKinds(nodes), local), index, nodes, local)
  {
    if index != [] {
      CollectAdds(ds, index[..|index| - 1], nodes, local);
      AddedMore(ds, Collect(ds, index[..|index| - 1], KnownKinds(nodes), local), index, nodes, local);
    }
  }

  // ---- what an event leads to ----

  lemma {:induction false} RunNext(es: seq<Event>, ev: Event)
    ensures Run(es + [ev]) == Advance(Run(es).0, Run(es).1, ev)
  {
    assert (es + [ev])[..|es|] == es;
  }

  /** In every run, downloads are enabled while the queue is not at rest. */
  lemma {:induction false} EnabledAtWork(es: seq<Event>)
    ensures Run(es).0.state != Initial ==> Run(es).0.enabled
  {
    if es != [] { EnabledAtWork(es[..|es| - 1]); }
  }

  /** In every run: a click starts a queue at rest, and does nothing else. */
  lemma {:induction false} ClickStarts(es: seq<Event>)
    ensures var (q, log) := Run(es); var (r, more) := Run(es + [Click]);
      && more == log && r.downloads == q.downloads
      && (if q.state == Initial then r.state == RequestIndex && r.timer else r == q)
  {
    RunNext(es, Click);
  }

  /** In every run: the index is asked for if and only if there is an address for it and it is
      out of date; otherwise the one that is there is used, or without an address the queue
      rests. */
  lemma {:induction false} IndexRequestedIff(es: seq<Event>, w: World)
    requires Run(es).0.state == RequestIndex
    ensures var (q, log) := Run(es); var (r, more) := Run(es + [Tick(w)]);
      && r.downloads == q.downloads
      && (more == log + [IndexRequested] <==> !w.urlEmpty && w.needRefresh)
      && (r.state == WaitIndexResponse <==> !w.urlEmpty && w.needRefresh)
      && (r.state == ProcessIndex <==> !w.urlEmpty && !w.needRefresh)
      && (r.state == Initial <==> w.urlEmpty)
      && (more == log || more == log + [IndexRequested])
  {
    Reachable(es);
    EnabledAtWork(es);
    RunNext(es, Tick(w));
  }

  /** In every run: the index that was waited for is used if and only if it arrived, has more than
      512 bytes and was saved; then the timer runs. Otherwise the queue rests. */
  lemma {:induction false} IndexUsedIff(es: seq<Event>, ev: Event)
    requires Possible(Run(es).0, Run(es).1, ev) && ev.IndexCallback? && Run(es).0.state == WaitIndexResponse
    ensures var (q, log) := Run(es); var (r, more) := Run(es + [ev]);
      && more == log && r.downloads == q.downloads
      && (r.state == ProcessIndex <==> ev.done && ev.size > 512 && ev.written)
      && (r.state == ProcessIndex ==> r.timer)
      && (r.state == ProcessIndex || r.state == Initial)
  {
    RunNext(es, ev);
  }

  /** In every run: a success that nobody waits for changes nothing; a failure lets the queue rest,
      also when a file is awaited, whose request is then abandoned. */
  lemma {:induction false} LateIndex(es: seq<Event>, ev: Event)
    requires Possible(Run(es).0, Run(es).1, ev) && ev.IndexCallback? && Run(es).0.state != WaitIndexResponse
    ensures var (q, log) := Run(es); var (r, more) := Run(es + [ev]);
      && r.downloads == q.downloads && (ev.done ==> r == q && more == log) && (!ev.done ==> r.state == Initial)
      && (q.state == WaitOtaFileResponse ==> q.downloads != [])
      && (!ev.done ==> more == log + if q.state == WaitOtaFileResponse then [Abandoned(q.downloads[0].sha512)] else [])
  {
    Reachable(es);
    RunNext(es, ev);
    assert Run(es).1 + [] == Run(es).1;
  }

  /** In every run: processing the index queues what it adds, and then asks for files; it rests if
      no node is known or nothing is queued. */
  lemma {:induction false} IndexAdds(es: seq<Event>, w: World)
    requires Run(es).0.state == ProcessIndex
    ensures var (q, log) := Run(es); var (r, more) := Run(es + [Tick(w)]);
      var known := exists k :: k in w.nodes && k.manufacturerCode != 0;
      && (known ==> Added(q.downloads, r.downloads, w.index, w.nodes, w.local)) && (!known ==> r.downloads == q.downloads)
      && (r.state == RequestOtaFile <==> known && r.downloads != []) && (r.state == RequestOtaFile || r.state == Initial)
      && (r.state == RequestOtaFile ==> r.timer)
      && more == log + QueuedActs(r.downloads[|q.downloads|..])
  {
    Reachable(es);
    RunNext(es, Tick(w));
    var q, kinds := Run(es).0, KnownKinds(w.nodes);
    CollectAdds(q.downloads, w.index, w.nodes, w.local);
    KindsKnown(w.nodes);
    if k :| k in w.nodes && k.manufacturerCode != 0 { assert k in kinds; }
    if kinds != [] { assert kinds[0] in kinds; }
  }

  /** In every run: the front is asked for if and only if it was asked for less than twice since it
      was queued, and given up otherwise; an empty queue rests. */
  lemma {:induction false} FrontRequestedIff(es: seq<Event>, w: World)
    requires Run(es).0.state == RequestOtaFile
    ensures var (q, log) := Run(es); var (r, more) := Run(es + [Tick(w)]);
      if q.downloads == [] then r.state == Initial && more == log
      else
        var front := q.downloads[0]; var s := StandingOf(log, front.sha512);
        && s.Waiting?
        && |more| == |log| + 1 && more[..|log|] == log
        && (more[|log|] == Requested(front.sha512, front.url) <==> s.requests < 2)
        && (more[|log|] == GaveUp(front.sha512) <==> s.requests >= 2)
        && (s.requests < 2 ==> r.state == WaitOtaFileResponse && r.downloads[1..] == q.downloads[1..] && r.downloads[0].sha512 == front.sha512)
        && (s.requests >= 2 ==> r.state == RequestOtaFile)
  {
    Reachable(es);
    RunNext(es, Tick(w));
    var (q, log) := Run(es);
    if q.downloads != [] {
      assert Accounted(q, log, 0);
    } else {
      assert log + [] == log;
    }
  }

  /** In every run: data is handed to the store exactly when it arrives while a file is awaited,
      under the name of the front, and kept if it has more than 512 bytes; exactly the front leaves
      the queue, which goes on. Any other callback of a file changes nothing. */
  lemma {:induction false} FileStoredIff(es: seq<Event>, ev: Event)
    requires Possible(Run(es).0, Run(es).1, ev) && ev.FileCallback?
    ensures var (q, log) := Run(es); var (r, more) := Run(es + [ev]);
      if ev.done && q.state == WaitOtaFileResponse then
        && q.downloads != [] && multiset(r.downloads) == multiset(q.downloads) - multiset{q.downloads[0]}
        && r.state == RequestOtaFile && r.timer
        && more == log + [Stored(q.downloads[0].sha512, q.downloads[0].fileName, ev.data, |ev.data| > 512)]
      else r == q && more == log
  {
    Reachable(es);
    RunNext(es, ev);
    assert Run(es).1 + [] == Run(es).1;
    if Run(es).0.downloads != [] { SwapRemoveDropsFront(Run(es).0.downloads); }
  }

  /** In every run: a tick ends the waiting. An awaited index is given up, and so is the request for
      a file, but not the file. */
  lemma {:induction false} WaitingEnds(es: seq<Event>, w: World)
    requires Run(es).0.state == WaitIndexResponse || Run(es).0.state == WaitOtaFileResponse
    ensures var (q, log) := Run(es); var (r, more) := Run(es + [Tick(w)]);
      && r.downloads == q.downloads
      && (q.state == WaitIndexResponse ==> r.state == Initial && more == log)
      && (q.state == WaitOtaFileResponse ==>
            q.downloads != [] && r.state == RequestOtaFile && r.timer && more == log + [TimedOut(q.downloads[0].sha512)])
  {
    Reachable(es);
    RunNext(es, Tick(w));
    assert Run(es).1 + [] == Run(es).1;
  }

  // ---- every file is asked for ----

  /** A file that was not asked for yet waits on, or is asked for. */
  lemma {:induction false} WaitsOrRequested(q: Queue, log: seq<Act>, ev: Event, d: DownloadOtaFile)
    requires QueueInv(q, log) && d in q.downloads && d.retry == 0
    ensures var (r, acts) := Step(q, ev); d in r.downloads || acts == [Requested(d.sha512, d.url)]
  {
    var i: nat :| i < |q.downloads| && q.downloads[i] == d;
    assert Accounted(q, log, i);
    match ev
    case Tick(w) => TickWaits(q, log, w, d, i);
    case FileCallback(_, done, data) =>
      if i > 0 && FileArrived(q, done, data).0 != q { BehindFront(q, d, i, d); }
    case _ =>
  }

  lemma {:induction false} BehindFront(q: Queue, d: DownloadOtaFile, i: nat, e: DownloadOtaFile)
    requires 0 < i < |q.downloads| && q.downloads[i] == d
    ensures d in SwapRemove(q.downloads) && d in q.downloads[0 := e]
  {
    var r := SwapRemove(q.downloads);
    assert r[if i == |q.downloads| - 1 then 0 else i] == d;
    assert q.downloads[0 := e][i] == d;
  }

  lemma {:induction false} TickWaits(q: Queue, log: seq<Act>, w: World, d: DownloadOtaFile, i: nat)
    requires QueueInv(q, log) && i < |q.downloads| && q.downloads[i] == d && d.retry == 0
    ensures var (r, acts) := TimerFired(q, w); d in r.downloads || acts == [Requested(d.sha512, d.url)]
  {
    match q.state
    case RequestOtaFile => if i > 0 { BehindFront(q, d, i, q.downloads[0].(retry := q.downloads[0].retry + 1)); }
    case ProcessIndex => assert Collect(q.downloads, w.index, KnownKinds(w.nodes), w.local)[i] == d;
    case _ =>
  }

  /** The file was asked for after the run es. */
  predicate RequestedSince(es: seq<Event>, more: seq<Event>, d: DownloadOtaFile) {
    exists j :: |Run(es).1| <= j < |Run(es + more).1| && Run(es + more).1[j] == Requested(d.sha512, d.url)
  }

  lemma {:induction false} LogGrows(es: seq<Event>, more: seq<Event>)
    ensures Run(es).1 <= Run(es + more).1
    decreases |more|
  {
    if more == [] {
      assert es + more == es;
    } else {
      LogGrows(es, more[..|more| - 1]);
      assert es + more == (es + more[..|more| - 1]) + [more[|more| - 1]];
      RunNext(es + more[..|more| - 1], more[|more| - 1]);
    }
  }

  lemma {:induction false} SinceMore(es: seq<Event>, more: seq<Event>, d: DownloadOtaFile, ev: Event)
    requires RequestedSince(es, more, d)
    ensures RequestedSince(es, more + [ev], d)
  {
    var j :| |Run(es).1| <= j < |Run(es + more).1| && Run(es + more).1[j] == Requested(d.sha512, d.url);
    assert es + (more + [ev]) == (es + more) + [ev];
    LogGrows(es + more, [ev]);
    assert Run(es + (more + [ev])).1[j] == Requested(d.sha512, d.url);
  }

  lemma {:induction false} WaitsUntilRequested(es: seq<Event>, more: seq<Event>, d: DownloadOtaFile)
    requires d in Run(es).0.downloads && d.retry == 0
    ensures d in Run(es + more).0.downloads || RequestedSince(es, more, d)
    decreases |more|
  {
    if more == [] {
      assert es + more == es;
    } else {
      var init, ev := more[..|more| - 1], more[|more| - 1];
      assert more == init + [ev] && es + more == (es + init) + [ev];
      WaitsUntilRequested(es, init, d);
      if RequestedSince(es, init, d) { SinceMore(es, init, d, ev); } else { WaitsOneMore(es, init, d, ev); }
    }
  }

  lemma {:induction false} WaitsOneMore(es: seq<Event>, init: seq<Event>, d: DownloadOtaFile, ev: Event)
    requires d in Run(es + init).0.downloads && d.retry == 0
    ensures d in Run(es + (init + [ev])).0.downloads || RequestedSince(es, init + [ev], d)
  {
    var (q, log) := Run(es + init);
    assert es + (init + [ev]) == (es + init) + [ev];
    RunNext(es + init, ev);
    Reachable(es + init);
    LogGrows(es, init);
    if Possible(q, log, ev) {
      WaitsOrRequested(q, log, ev, d);
      var (r, acts) := Step(q, ev);
      if d !in r.downloads { assert Run(es + (init + [ev])).1[|log|] == Requested(d.sha512, d.url); }
    }
  }

  /** In every run in which a queue at work gets as many ticks as its measure, and no index download
      fails while files are queued: every file in it that was not asked for yet is asked for, under
      its own address. */
  lemma {:induction false} EveryFileRequested(es: seq<Event>, more: seq<Event>, d: DownloadOtaFile) returns (k: nat)
    requires Working(Run(es).0) && Ticks(more) >= Measure(Run(es).0) && (forall j: nat :: !FailsAt(es, more, j))
    requires d in Run(es).0.downloads && d.retry == 0
    ensures k <= |more| && RequestedSince(es, more[..k], d)
  {
    assert es + more[..0] == es && more[0..] == more;
    k := ComesToRest(es, more, 0);
    WaitsUntilRequested(es, more[..k], d);
    assert !FailsAt(es, more, k - 1);
  }

  // ---- from the click to the request ----

  /** A click, an index that is out of date, is downloaded and saved, and a tick that finds ready. */
  function IndexRun(es: seq<Event>, asks: World, size: nat, ready: World): seq<Event> {
    es + [Click] + [Tick(asks)] + [IndexCallback(|Run(es).1|, true, size, true)] + [Tick(ready)]
  }

  /** The downloaded index is processed. */
  lemma {:induction false} IndexIsRead(es: seq<Event>, asks: World, size: nat)
    requires Run(es).0.state == Initial && !asks.urlEmpty && asks.needRefresh && size > 512
    ensures var (q, log) := Run(es); var before := es + [Click] + [Tick(asks)]; var callback := IndexCallback(|log|, true, size, true);
      && Possible(Run(before).0, Run(before).1, callback)
      && Run(before + [callback]).0.state == ProcessIndex && Run(before + [callback]).0.timer
      && Run(before + [callback]).0.downloads == q.downloads && Run(before + [callback]).1 == log + [IndexRequested]
  {
    var asked := es + [Click] + [Tick(asks)];
    ClickStarts(es);
    IndexRequestedIff(es + [Click], asks);
    IndexUsedIff(asked, IndexCallback(|Run(es).1|, true, size, true));
  }

  /** From a queue at rest: a useful file of the new index that is not queued yet is queued, and the
      queue works. */
  lemma {:induction false} NewFileQueued(es: seq<Event>, asks: World, size: nat, ready: World, i: nat) returns (d: DownloadOtaFile)
    requires Run(es).0.state == Initial && !asks.urlEmpty && asks.needRefresh && size > 512
    requires i < |ready.index| && Useful(ready.index[i], ready.nodes, ready.local)
    requires !InQueue(Run(es).0.downloads, ready.index[i].sha512.value)
    ensures var q := Run(IndexRun(es, asks, size, ready)).0;
      && q.state == RequestOtaFile && q.timer && d in q.downloads && d.retry == 0
      && d.sha512 == ready.index[i].sha512.value && FirstUseful(d, ready.index, ready.nodes, ready.local)
  {
    var before := es + [Click] + [Tick(asks)] + [IndexCallback(|Run(es).1|, true, size, true)];
    IndexIsRead(es, asks, size);
    IndexAdds(before, ready);
    var ds, r := Run(es).0.downloads, Run(IndexRun(es, asks, size, ready)).0.downloads;
    assert ready.index[i].kind in ready.nodes;
    var k :| 0 <= k < |r| && r[k].sha512 == ready.index[i].sha512.value;
    assert forall j :: 0 <= j < |ds| ==> r[j] == ds[j] && r[j].sha512 != ready.index[i].sha512.value;
    d := r[k];
  }

  /** And it is asked for, when the timer ticks on and no index download fails meanwhile. */
  lemma {:induction false} NewFileRequested(es: seq<Event>, asks: World, size: nat, ready: World, i: nat, more: seq<Event>)
    returns (d: DownloadOtaFile, k: nat)
    requires Run(es).0.state == Initial && !asks.urlEmpty && asks.needRefresh && size > 512
    requires i < |ready.index| && Useful(ready.index[i], ready.nodes, ready.local)
    requires !InQueue(Run(es).0.downloads, ready.index[i].sha512.value)
    requires var all := IndexRun(es, asks, size, ready);
      Ticks(more) >= Measure(Run(all).0) && forall j: nat :: !FailsAt(all, more, j)
    ensures d.sha512 == ready.index[i].sha512.value && FirstUseful(d, ready.index, ready.nodes, ready.local)
    ensures k <= |more| && RequestedSince(IndexRun(es, asks, size, ready), more[..k], d)
  {
    d := NewFileQueued(es, asks, size, ready, i);
    k := EveryFileRequested(IndexRun(es, asks, size, ready), more, d);
  }
}
