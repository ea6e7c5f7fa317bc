/** The page timer over whole runs: who is served, who is stranded, and who stalls. */
module Timers {
  import opened Bytes
  import opened Transfer
  import opened PageHistory
  import opened PageInvariant
  import opened Runs

  /** No page timer tick fell into a time when the server was switched off. */
  predicate AlwaysOn(os: seq<Occurrence>) {
    forall i :: 0 <= i < |os| ==> os[i].PageTimer? ==> os[i].otauActive
  }

  /** Nodes that wait for the page timer while it is not running. */
  predicate Stranded(p: Plugin) {
    AnyActive(p.nodes) && !p.shared.pageTimer
  }

  lemma {:induction false} AdvanceActive(p: Plugin, o: Occurrence)
    requires Possible(p, o) && AnyActive(Advance(p, o).nodes)
    ensures AnyActive(p.nodes) || SharedAfter(p, o).pageTimer
  {
    var q := Advance(p, o);
    var k :| 0 <= k < |q.nodes| && Active(q.nodes[k]);
    if k < |p.nodes| && !Active(p.nodes[k]) {
      match ReachOf(p, o, k)
      case Untouched =>
      case Reached(ev, sh, now) =>
        StepShared(p.nodes[k], sh, now, ev);
        if o.PageTimer? { VisitStartsNone(p.nodes[k], sh, ev); }
    }
  }

  lemma {:induction false} VisitStartsNone(n: NodeData, sh: Shared, ev: Event)
    requires ev.Visit? && !Active(n)
    ensures Step(n, sh, 0, ev).node == n
  {}

  /** An occurrence strands waiting nodes if and only if it is a page timer tick while the
      server is switched off. */
  lemma {:induction false} StrandsIff(p: Plugin, o: Occurrence)
    requires Possible(p, o) && !Stranded(p)
    ensures Stranded(Advance(p, o)) <==> (o.PageTimer? && !o.otauActive && AnyActive(p.nodes))
  {
    var q := Advance(p, o);
    if o.PageTimer? && !o.otauActive {
      assert q.nodes == p.nodes;
    } else {
      if o.AtNode? { StepShared(p.nodes[o.k], p.shared, o.now, o.ev); }
      if AnyActive(q.nodes) { AdvanceActive(p, o); }
    }
  }

  /** While the server stays switched on, no run strands a node. */
  lemma {:induction false} NoStrandedNode(os: seq<Occurrence>)
    requires AlwaysOn(os)
    ensures !Stranded(Run(os))
    decreases |os|
  {
    if os != [] {
      var init := os[..|os| - 1];
      assert forall i :: 0 <= i < |init| ==> init[i] == os[i];
      NoStrandedNode(init);
      if Possible(Run(init), os[|os| - 1]) { StrandsIff(Run(init), os[|os| - 1]); }
    }
  }

  /** The credited block was the last of the page, or the next one has to wait for the spacing. */
  predicate Rests(n: NodeData, ev: Event)
    requires ev.Confirm?
  {
    var c := OnPage(n, ev);
    && Credits(n, ev) && n.state == WaitPageSpacing && n.lastZclCmd == 0x04
    && !(c.apsRequestId != INVALID_APS_REQ_ID && c.zclCommandId == IMAGE_BLOCK_RESPONSE)
    && (c.imgBlockReq.pageBytesDone >= c.imgBlockReq.pageSize || ev.env.spacing)
  }

  lemma {:induction false} PagingTimer(n: NodeData, sh: Shared, env: Env)
    requires n.state == WaitPageSpacing
    ensures ImagePageResponse(n, sh, env).shared.pageTimer <==>
      || sh.pageTimer
      || (n.lastZclCmd == IMAGE_PAGE_REQUEST && !(n.apsRequestId != INVALID_APS_REQ_ID && n.zclCommandId == IMAGE_BLOCK_RESPONSE)
          && (n.imgBlockReq.pageBytesDone >= n.imgBlockReq.pageSize || env.spacing))
  {}

  /** So a stranded node is taken up again exactly by the next accepted page request of any node, or
      by a confirm after which its page rests. */
  lemma {:induction false} TimerStartsIff(p: Plugin, o: Occurrence)
    requires Possible(p, o) && o.AtNode? && !p.shared.pageTimer
    ensures Advance(p, o).shared.pageTimer <==>
      AcceptsPage(p.nodes[o.k], o.ev) || (o.ev.Confirm? && Rests(p.nodes[o.k], o.ev))
  {
    if o.ev.Confirm? && Credits(p.nodes[o.k], o.ev) && p.nodes[o.k].state == WaitPageSpacing {
      PagingTimer(OnPage(p.nodes[o.k], o.ev), p.shared, o.ev.env);
    }
  }

  // ---- stalls ----

  function WithRecent(ev: Event, recent: bool): Event {
    match ev
    case BlockReq(seqNo, payload, env) => BlockReq(seqNo, payload, env.(recent := recent))
    case Confirm(id, status, env) => Confirm(id, status, env.(recent := recent))
    case Visit(env, expired) => Visit(env.(recent := recent), expired)
    case _ => ev
  }

  lemma {:induction false} RecentIsIgnored(n: NodeData, asdu: u8, env: Env, recent: bool)
    requires !Pending(n)
    ensures ImageBlockResponse(n, asdu, env) == ImageBlockResponse(n, asdu, env.(recent := recent))
  {}

  lemma {:induction false} PagingIgnoresRecent(n: NodeData, sh: Shared, h: History, env: Env, recent: bool)
    requires NodeInv(n, h) && n.state == WaitPageSpacing
    ensures ImagePageResponse(n, sh, env) == ImagePageResponse(n, sh, env.(recent := recent))
  {
    if !Pending(n) { RecentIsIgnored(n, sh.maxAsduDataSize, env, recent); }
  }

  lemma {:induction false} StepIgnoresRecent(n: NodeData, sh: Shared, now: nat, h: History, ev: Event, recent: bool)
    requires NodeInv(n, h) && LimitInv(sh)
    ensures Step(n, sh, now, WithRecent(ev, recent)) == Step(n, sh, now, ev)
  {
    match ev
    case BlockReq(seqNo, payload, env) =>
      RecentIsIgnored(AskedBlock(Heard(n, IMAGE_BLOCK_REQUEST), seqNo, payload), sh.maxAsduDataSize, env, recent);
    case Confirm(id, status, env) =>
      if Credits(n, ev) && n.state == WaitPageSpacing {
        var c := CreditBlock(n.(apsRequestId := INVALID_APS_REQ_ID));
        CreditKeeps(n, c, h);
        PagingIgnoresRecent(c, sh, Credited(h), env, recent);
      }
    case Visit(env, _) =>
      if n.state == WaitPageSpacing { PagingIgnoresRecent(n, sh, h, env, recent); }
    case _ =>
  }

  /** The guard that should resend after ten seconds without a confirm never matters: in every
      reachable state every event does the same whatever that clock says. */
  lemma {:induction false} StallGuardIsDead(os: seq<Occurrence>, k: nat, now: nat, ev: Event, recent: bool)
    requires k < |Run(os).nodes|
    ensures var p := Run(os); Step(p.nodes[k], p.shared, now, WithRecent(ev, recent)) == Step(p.nodes[k], p.shared, now, ev)
  {
    Reachable(os);
    StepIgnoresRecent(Run(os).nodes[k], Run(os).shared, now, Histories(os)[k], ev, recent);
  }

  predicate IsFrame(ev: Event) {
    ev.Query? || ev.BlockReq? || ev.PageReq? || ev.UpgradeEnd? || ev.ProfileFrame?
  }

  /** The command id of a received frame. */
  function FrameId(ev: Event): u8
    requires IsFrame(ev)
  {
    match ev
    case Query(_, _, _, _) => 0x01
    case BlockReq(_, _, _) => 0x03
    case PageReq(_, _, _, _) => 0x04
    case UpgradeEnd(_, _, _, _) => 0x06
    case ProfileFrame(commandId) => commandId
  }

  /** The command id of the last frame that came from the device of node k, 0 before the first;
      frames outside the cluster count as well. */
  function LastHeard(os: seq<Occurrence>, k: nat): u8
    decreases |os|
  {
    if os == [] then 0
    else
      var init, o := os[..|os| - 1], os[|os| - 1];
      if o.AtNode? && o.k == k < |Run(init).nodes| && IsFrame(o.ev) then FrameId(o.ev) else LastHeard(init, k)
  }

  lemma {:induction false} BlockKeepsHeard(n: NodeData, asdu: u8, env: Env)
    ensures ImageBlockResponse(n, asdu, env).node.lastZclCmd == n.lastZclCmd
  {}

  lemma {:induction false} PagingKeepsHeard(n: NodeData, sh: Shared, env: Env)
    ensures ImagePageResponse(n, sh, env).node.lastZclCmd == n.lastZclCmd
  {
    BlockKeepsHeard(n, sh.maxAsduDataSize, env);
  }

  lemma {:induction false} StepHears(n: NodeData, sh: Shared, now: nat, ev: Event)
    ensures Step(n, sh, now, ev).node.lastZclCmd == if IsFrame(ev) then FrameId(ev) else n.lastZclCmd
  {
    if ev.Confirm? || ev.Visit? { PagingKeepsHeard(OnPage(n, ev), sh, ev.env); }
    if ev.BlockReq? {
      BlockKeepsHeard(AskedBlock(Heard(n, IMAGE_BLOCK_REQUEST), ev.seqNo, ev.payload), sh.maxAsduDataSize, ev.env);
    }
  }

  lemma {:induction false} NothingHeard(os: seq<Occurrence>, k: nat)
    requires k >= |Run(os).nodes|
    ensures LastHeard(os, k) == 0
    decreases |os|
  {
    if os != [] { NothingHeard(os[..|os| - 1], k); }
  }

  /** In every run: the program remembers the last frame of each device. */
  lemma {:induction false} HeardIsRemembered(os: seq<Occurrence>, k: nat)
    requires k < |Run(os).nodes|
    ensures Run(os).nodes[k].lastZclCmd == LastHeard(os, k)
    decreases |os|
  {
    if os != [] {
      var init, o := os[..|os| - 1], os[|os| - 1];
      var p := Run(init);
      if k < |p.nodes| {
        HeardIsRemembered(init, k);
        if Possible(p, o) {
          match ReachOf(p, o, k)
          case Untouched =>
          case Reached(ev, sh, now) => StepHears(p.nodes[k], sh, now, ev);
        }
      } else {
        NothingHeard(init, k);
      }
    }
  }

  /** The page timer can do nothing for the node, whatever the stack and the clocks say. */
  ghost predicate Stuck(n: NodeData, sh: Shared) {
    forall env, expired :: PageTick(n, sh, env, expired).node == n && PageTick(n, sh, env, expired).outs == []
  }

  /** So a page whose confirm is lost stalls: in page spacing the timer is powerless if and only
      if a block is still unconfirmed or the last frame heard of the device was no page request. */
  lemma {:induction false} StallsIff(os: seq<Occurrence>, k: nat)
    requires k < |Run(os).nodes| && Run(os).nodes[k].state == WaitPageSpacing
    ensures var p := Run(os); var n := p.nodes[k];
      Stuck(n, p.shared) <==> (Pending(n) || LastHeard(os, k) != 0x04)
  {
    Reachable(os);
    HeardIsRemembered(os, k);
    var p := Run(os);
    var n := p.nodes[k];
    if !Pending(n) && n.lastZclCmd == IMAGE_PAGE_REQUEST {
      var env := Env(Rejected, false, false);
      BlockResponseEffect(n, p.shared.maxAsduDataSize, env);
      assert PageTick(n, p.shared, env, false).node != n;
    }
  }
}
