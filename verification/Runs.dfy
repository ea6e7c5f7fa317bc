/** The whole plugin as a state machine over its nodes and timers, and what holds after every
    run of it. */
module Runs {
  import opened Bytes
  import opened Sequences
  import opened Tracking
  import opened Transfer
  import opened PageHistory
  import opened PageInvariant

  datatype Plugin = Plugin(nodes: seq<NodeData>, shared: Shared)

  const INITIAL := Plugin([], Shared(MAX_ASDU_SIZE, 0, false, Tracker([], false)))

  /** One node's share of a page timer tick. */
  datatype VisitInput = VisitInput(env: Env, expired: bool)

  datatype Occurrence =
    | AtNode(k: nat, ev: Event, now: nat)
    | PageTimer(otauActive: bool, visits: seq<VisitInput>)
    | CleanupTimer(expired: seq<bool>)
    | ActivityTimer(now: nat)
    | NewNode(node: NodeData)

  predicate AnyActive(nodes: seq<NodeData>) {
    exists k :: 0 <= k < |nodes| && Active(nodes[k])
  }

  /** The occurrence can happen: the node exists, the timer runs, each node has its input. */
  predicate Possible(p: Plugin, o: Occurrence) {
    match o
    case AtNode(k, ev, _) => k < |p.nodes| && !ev.Visit? && !ev.Cleanup?
    case PageTimer(_, visits) => p.shared.pageTimer && |visits| == |p.nodes|
    case CleanupTimer(expired) => |expired| == |p.nodes|
    case ActivityTimer(_) => p.shared.tracker.timer
    case NewNode(n) => Fresh(n)
  }

  /** The event of node k in an occurrence, if the occurrence reaches it. */
  datatype Reach = Untouched | Reached(ev: Event, shared: Shared, now: nat)

  /** A timer is over when it fires. */
  function TimerOver(sh: Shared): Shared {
    sh.(pageTimer := false)
  }

  function ReachOf(p: Plugin, o: Occurrence, k: nat): Reach
    requires Possible(p, o) && k < |p.nodes|
  {
    match o
    case AtNode(i, ev, now) => if i == k then Reached(ev, p.shared, now) else Untouched
    case PageTimer(active, visits) =>
      if active then Reached(Visit(visits[k].env, visits[k].expired), TimerOver(p.shared), 0) else Untouched
    case CleanupTimer(expired) => Reached(Cleanup(expired[k]), p.shared, 0)
    case ActivityTimer(_) => Untouched
    case NewNode(_) => Untouched
  }

  function NodeAfter(p: Plugin, o: Occurrence, k: nat): NodeData
    requires Possible(p, o) && k < |p.nodes|
  {
    match ReachOf(p, o, k)
    case Untouched => p.nodes[k]
    case Reached(ev, sh, now) => Step(p.nodes[k], sh, now, ev).node
  }

  function OutsOf(p: Plugin, o: Occurrence, k: nat): seq<Out>
    requires Possible(p, o) && k < |p.nodes|
  {
    match ReachOf(p, o, k)
    case Untouched => []
    case Reached(ev, sh, now) => Step(p.nodes[k], sh, now, ev).outs
  }

  /** A page timer tick restarts the timer exactly when some node was waiting; a tick while the
      server is switched off does nothing. */
  function SharedAfter(p: Plugin, o: Occurrence): Shared
    requires Possible(p, o)
  {
    match o
    case AtNode(k, ev, now) => Step(p.nodes[k], p.shared, now, ev).shared
    case PageTimer(active, _) => p.shared.(pageTimer := active && AnyActive(p.nodes))
    case CleanupTimer(_) => p.shared
    case ActivityTimer(now) => p.shared.(tracker := Tick(p.shared.tracker, now))
    case NewNode(_) => p.shared
  }

  function Advance(p: Plugin, o: Occurrence): Plugin {
    if !Possible(p, o) then p
    else
      var nodes := seq(|p.nodes|, k requires 0 <= k < |p.nodes| => NodeAfter(p, o, k));
      Plugin(if o.NewNode? then nodes + [o.node] else nodes, SharedAfter(p, o))
  }

  /** The state after a run. */
  function Run(os: seq<Occurrence>): Plugin
    decreases |os|
  {
    if os == [] then INITIAL else Advance(Run(os[..|os| - 1]), os[|os| - 1])
  }

  function HistoryAfter(p: Plugin, hs: seq<History>, o: Occurrence, k: nat): History
    requires Possible(p, o) && k < |p.nodes| == |hs|
  {
    match ReachOf(p, o, k)
    case Untouched => hs[k]
    case Reached(ev, _, _) => Observe(hs[k], p.nodes[k], ev, OutsOf(p, o, k))
  }

  function Follow(p: Plugin, hs: seq<History>, o: Occurrence): seq<History>
    requires |hs| == |p.nodes|
  {
    if !Possible(p, o) then hs
    else
      var next := seq(|hs|, k requires 0 <= k < |hs| => HistoryAfter(p, hs, o, k));
      if o.NewNode? then next + [EMPTY] else next
  }

  /** The histories observed along a run. */
  function Histories(os: seq<Occurrence>): (hs: seq<History>)
    ensures |hs| == |Run(os).nodes|
    decreases |os|
  {
    if os == [] then []
    else Follow(Run(os[..|os| - 1]), Histories(os[..|os| - 1]), os[|os| - 1])
  }

  // ---- the invariant of the plugin ----

  predicate PluginInv(p: Plugin, hs: seq<History>) {
    && |hs| == |p.nodes|
    && (forall k :: 0 <= k < |hs| ==> NodeInv(p.nodes[k], hs[k]))
    && LimitInv(p.shared)
    && Tracking.Valid(p.shared.tracker)
  }

  /** What one node's event does to the shared state: the tracker is marked or not, the limit
      does not rise, the page timer is not stopped, and runs if the node starts a page. */
  predicate SharedOk(n: NodeData, sh: Shared, now: nat, r: Result) {
    && (r.shared.tracker == sh.tracker || r.shared.tracker == Mark(sh.tracker, n.ext, now))
    && r.shared.maxAsduDataSize <= sh.maxAsduDataSize
    && (LimitInv(sh) ==> LimitInv(r.shared))
    && (sh.pageTimer ==> r.shared.pageTimer)
    && (Active(r.node) ==> Active(n) || r.shared.pageTimer)
  }

  lemma {:induction false} RequestShared(n: NodeData, sh: Shared, now: nat, ev: Event)
    requires ev.Query? || ev.BlockReq? || ev.PageReq? || ev.UpgradeEnd?
    ensures SharedOk(n, sh, now, Step(n, sh, now, ev))
  {}

  lemma {:induction false} PageShared(n: NodeData, sh: Shared, now: nat, ev: Event)
    requires ev.Confirm? || ev.Visit?
    ensures SharedOk(n, sh, now, Step(n, sh, now, ev))
  {
    PagingOutput(OnPage(n, ev), sh, ev.env);
  }

  lemma {:induction false} StepShared(n: NodeData, sh: Shared, now: nat, ev: Event)
    ensures SharedOk(n, sh, now, Step(n, sh, now, ev))
  {
    if ev.Query? || ev.BlockReq? || ev.PageReq? || ev.UpgradeEnd? {
      RequestShared(n, sh, now, ev);
    } else if ev.Confirm? || ev.Visit? {
      PageShared(n, sh, now, ev);
    }
  }

  lemma {:induction false} AdvanceKeeps(p: Plugin, hs: seq<History>, o: Occurrence)
    requires PluginInv(p, hs)
    ensures PluginInv(Advance(p, o), Follow(p, hs, o))
  {
    if Possible(p, o) {
      var q, gs := Advance(p, o), Follow(p, hs, o);
      forall k | 0 <= k < |gs|
        ensures NodeInv(q.nodes[k], gs[k])
      {
        if k < |p.nodes| {
          NodeKeeps(p, hs, o, k);
        } else {
          FreshKeeps(o.node);
        }
      }
      SharedKeeps(p, hs, o);
    }
  }

  lemma {:induction false} NodeKeeps(p: Plugin, hs: seq<History>, o: Occurrence, k: nat)
    requires PluginInv(p, hs) && Possible(p, o) && k < |p.nodes|
    ensures NodeInv(NodeAfter(p, o, k), HistoryAfter(p, hs, o, k))
  {
    match ReachOf(p, o, k)
    case Untouched =>
    case Reached(ev, sh, now) => StepKeeps(p.nodes[k], sh, now, hs[k], ev);
  }

  lemma {:induction false} SharedKeeps(p: Plugin, hs: seq<History>, o: Occurrence)
    requires PluginInv(p, hs) && Possible(p, o)
    ensures LimitInv(SharedAfter(p, o)) && Tracking.Valid(SharedAfter(p, o).tracker)
  {
    match o
    case AtNode(k, ev, now) =>
      StepKeeps(p.nodes[k], p.shared, now, hs[k], ev);
      StepShared(p.nodes[k], p.shared, now, ev);
      MarkKeepsValid(p.shared.tracker, p.nodes[k].ext, now);
    case ActivityTimer(now) => TickKeepsValid(p.shared.tracker, now);
    case PageTimer(_, _) =>
    case CleanupTimer(_) =>
    case NewNode(_) =>
  }

  /** The invariant holds after every run. */
  lemma {:induction false} Reachable(os: seq<Occurrence>)
    ensures PluginInv(Run(os), Histories(os))
    decreases |os|
  {
    if os != [] {
      Reachable(os[..|os| - 1]);
      AdvanceKeeps(Run(os[..|os| - 1]), Histories(os[..|os| - 1]), os[|os| - 1]);
    }
  }

  // ---- page delivery, termination, retries ----

  /** In every run, as long as the answers to a page request were blocks: what the device has
      confirmed is exactly the requested stretch of the captured image, whatever sends and
      confirms failed on the way, and when the node waits for the next request it is the whole
      page. */
  lemma {:induction false} PageDelivered(os: seq<Occurrence>, k: nat)
    requires k < |Run(os).nodes|
    ensures var n, h := Run(os).nodes[k], Histories(os)[k];
      Active(n) ==>
        && h.page.Page? && h.page.firstCredit <= |h.credits|
        && (AllBlocks(h.log, h.page.firstSent) ==>
              var o, got := h.page.req.offset, Collected(h.log, h.credits[h.page.firstCredit..]);
              && n.imgBlockReq.offset == o + n.imgBlockReq.pageBytesDone
              && |got| == n.imgBlockReq.pageBytesDone <= h.page.req.pageSize
              && (got != [] ==> o + |got| <= |n.rawFile| && got == n.rawFile[o..o + |got|])
              && (n.state == WaitNextRequest ==> |got| == h.page.req.pageSize))
  {
    Reachable(os);
  }

  /** In every run: a page whose counters cannot wrap is credited at most once per byte of it,
      also when it is answered with errors. */
  lemma {:induction false} PageTerminates(os: seq<Occurrence>, k: nat)
    requires k < |Run(os).nodes|
    ensures var n, h := Run(os).nodes[k], Histories(os)[k];
      Active(n) ==> h.page.Page? && (Sane(h.page.req) ==>
        && PageCredits(h) <= h.page.req.pageSize
        && PageCredits(h) <= n.imgBlockReq.pageBytesDone && n.imgBlockReq.maxDataSize >= 1
        && (Pending(n) ==> n.imgBlockReq.pageBytesDone < h.page.req.pageSize))
  {
    Reachable(os);
  }

  /** In every run: what the program counts as failed sends and as silences of the device stays
      below the numbers at which it gives up, nothing failed while a block is awaited, and a page
      request is followed by at most two image notifies. What its counters count, and that it
      then gives up, is stated in Retries. */
  lemma {:induction false} RetriesBounded(os: seq<Occurrence>, k: nat)
    requires k < |Run(os).nodes|
    ensures var n, h := Run(os).nodes[k], Histories(os)[k];
      Active(n) ==>
        && (n.state == WaitPageSpacing ==> n.imgBlockResponseRetry <= 9)
        && (Pending(n) ==> n.imgBlockResponseRetry == 0)
        && 0 <= n.imgPageRequestRetry <= 4
        && h.page.Page? && h.page.notifies <= 2
  {
    Reachable(os);
  }

  /** In every run: the awaited confirm is that of the last reply, a pending block is booked
      with the size of its data, and no reply is credited twice. */
  lemma {:induction false} InFlight(os: seq<Occurrence>, k: nat)
    requires k < |Run(os).nodes|
    ensures var n, h := Run(os).nodes[k], Histories(os)[k];
      && (Pending(n) ==>
            && h.log != [] && Last(h.log).id == n.apsRequestId && CommandId(Last(h.log).frame) == n.zclCommandId
            && (IsBlock(Last(h.log)) ==> n.imgBlockReq.maxDataSize == |Last(h.log).frame.block.data|)
            && (|h.log| - 1) !in h.credits)
      && (forall i, j :: 0 <= i < j < |h.credits| ==> h.credits[i] != h.credits[j])
      && (forall i :: 0 <= i < |h.credits| ==> h.credits[i] < |h.log| && h.log[h.credits[i]].frame.BlockResponse?)
      && (Active(n) ==> h.page.Page? && forall i :: h.page.firstSent <= i < |h.log| ==>
            h.log[i].frame.BlockResponse? && h.log[i].frame.seqNo == (h.page.seqNo + h.log[i].nth) % 0x100)
  {
    Reachable(os);
  }

  // ---- what a block may be ----

  /** The most data the device asked for in the request that an event answers. */
  function Requested(h: History, ev: Event): nat {
    match ev
    case BlockReq(_, payload, _) => Get8(payload, 13)
    case _ => if h.page.Page? then h.page.req.maxDataSize else 0
  }

  /** The node as the page is served: a confirmed block is credited first. */
  function OnPage(n: NodeData, ev: Event): NodeData {
    if ev.Confirm? then CreditBlock(n.(apsRequestId := INVALID_APS_REQ_ID)) else n
  }

  /** A data block lies within the captured image and holds its bytes; it respects the request,
      the vendor limit and the payload limit; and the update is permitted. The request names the
      node's file, and so does the block. On a page, something of the page is left, and the block
      is a part of that. */
  predicate BlockOk(n: NodeData, sh: Shared, h: History, ev: Event, b: BlockBody) {
    && b.Block?
    && b.offset + |b.data| <= |n.rawFile| && b.data == n.rawFile[b.offset..b.offset + |b.data|]
    && |b.data| <= Requested(h, ev)
    && (n.manufacturerId == VENDOR_DDEL || n.manufacturerId == VENDOR_BUSCH_JAEGER ==> |b.data| <= 40)
    && ZCL_HEADER_SIZE + IMAGE_BLOCK_RSP_HEADER_SIZE + |b.data| <= sh.maxAsduDataSize
    && n.permitUpdate && n.hasData
    && b.manufacturerCode == n.file.manufacturerCode && b.imageType == n.file.imageType && b.fileVersion == n.file.fileVersion
    && (ev.BlockReq? ==> AsksFor(ev.payload, n.file))
    && (!ev.BlockReq? ==> h.page.Page? && Names(h.page.req, n.file))
    && (!ev.BlockReq? ==>
          var req := OnPage(n, ev).imgBlockReq;
          req.pageBytesDone < req.pageSize && 1 <= |b.data| <= req.pageSize - req.pageBytesDone)
  }

  predicate SendsBlock(outs: seq<Out>) {
    |outs| == 1 && outs[0].Reply? && outs[0].frame.BlockResponse? && outs[0].frame.block.Block?
  }

  /** A block that is sent on a page n, of which something is left. */
  lemma {:induction false} PageBlockOk(n: NodeData, sh: Shared, h: History, env: Env, ev: Event)
    requires NodeInv(n, h) && LimitInv(sh) && Active(n) && ev.Visit?
    requires SendsBlock(ImagePageResponse(n, sh, env).outs)
    ensures BlockOk(n, sh, h, ev, ImagePageResponse(n, sh, env).outs[0].frame.block)
  {
    BlockResponseEffect(n, sh.maxAsduDataSize, env);
    PageBlockEffect(n, sh.maxAsduDataSize, env);
  }

  lemma {:induction false} RequestBlockOk(n: NodeData, sh: Shared, now: nat, h: History, ev: Event)
    requires NodeInv(n, h) && LimitInv(sh) && ev.BlockReq? && SendsBlock(Step(n, sh, now, ev).outs)
    ensures BlockOk(n, sh, h, ev, Step(n, sh, now, ev).outs[0].frame.block)
  {
    BlockResponseEffect(AskedBlock(Heard(n, IMAGE_BLOCK_REQUEST), ev.seqNo, ev.payload), sh.maxAsduDataSize, ev.env);
  }

  lemma {:induction false} ConfirmBlockOk(n: NodeData, sh: Shared, h: History, ev: Event)
    requires NodeInv(n, h) && LimitInv(sh) && ev.Confirm? && SendsBlock(ApsdeDataConfirm(n, sh, ev.id, ev.status, ev.env).outs)
    ensures BlockOk(n, sh, h, ev, ApsdeDataConfirm(n, sh, ev.id, ev.status, ev.env).outs[0].frame.block)
  {
    var c := OnPage(n, ev);
    CreditKeeps(n, c, h);
    PageBlockOk(c, sh, Credited(h), ev.env, Visit(ev.env, false));
  }

  lemma {:induction false} StepBlockOk(n: NodeData, sh: Shared, now: nat, h: History, ev: Event)
    requires NodeInv(n, h) && LimitInv(sh) && SendsBlock(Step(n, sh, now, ev).outs)
    ensures BlockOk(n, sh, h, ev, Step(n, sh, now, ev).outs[0].frame.block)
  {
    match ev
    case BlockReq(_, _, _) => RequestBlockOk(n, sh, now, h, ev);
    case Confirm(_, _, _) => ConfirmBlockOk(n, sh, h, ev);
    case Visit(env, _) => PageBlockOk(n, sh, h, env, ev);
    case _ =>
  }

  /** In every run, every data block is such a block; and the payload limit never rises. */
  lemma {:induction false} BlocksBounded(os: seq<Occurrence>, o: Occurrence, k: nat)
    requires Possible(Run(os), o) && k < |Run(os).nodes|
    ensures SendsBlock(OutsOf(Run(os), o, k)) ==>
      var r := ReachOf(Run(os), o, k);
      BlockOk(Run(os).nodes[k], Run(os).shared, Histories(os)[k], r.ev, OutsOf(Run(os), o, k)[0].frame.block)
  {
    Reachable(os);
    match ReachOf(Run(os), o, k)
    case Untouched =>
    case Reached(ev, sh, now) =>
      if SendsBlock(OutsOf(Run(os), o, k)) { StepBlockOk(Run(os).nodes[k], sh, now, Histories(os)[k], ev); }
  }

  lemma {:induction false} LimitFalls(p: Plugin, hs: seq<History>, o: Occurrence)
    requires PluginInv(p, hs)
    ensures Advance(p, o).shared.maxAsduDataSize <= p.shared.maxAsduDataSize
  {
    if Possible(p, o) && o.AtNode? { StepShared(p.nodes[o.k], p.shared, o.now, o.ev); }
  }

  /** The payload limit is one of two values and never rises. */
  lemma {:induction false} LimitNeverRises(os: seq<Occurrence>, more: seq<Occurrence>)
    ensures Run(os + more).shared.maxAsduDataSize <= Run(os).shared.maxAsduDataSize
    ensures Run(os).shared.maxAsduDataSize in {82, 57}
    decreases |more|
  {
    Reachable(os);
    if more == [] {
      assert os + more == os;
    } else {
      var init := more[..|more| - 1];
      LimitNeverRises(os, init);
      assert (os + more)[..|os + more| - 1] == os + init;
      Reachable(os + init);
      LimitFalls(Run(os + init), Histories(os + init), more[|more| - 1]);
    }
  }
}
