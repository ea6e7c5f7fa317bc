/** Giving up: the failed sends and the silences of a device are counted by an observer, the
    program's counters agree with the observer in every run, and the tenth failed send and the
    fifth silence end the page. */
module Retries {
  import opened Bytes
  import opened Transfer
  import opened PageHistory
  import opened Runs

  const MAX_FAILURES := 10
  const MAX_SILENCES := 5

  /** What the observer has counted since the last accepted page request: tries to send a block
      that the stack did not take since the last one it took, and visits of the page timer that
      found the device silent for too long when the next request was due. */
  datatype Tally = Tally(failures: nat, silences: nat)

  const NOTHING := Tally(0, 0)

  /** A block is due: the page is not done, the last one is confirmed, the spacing is over, and
      no other frame was heard. */
  predicate Due(n: NodeData, env: Env) {
    && n.state == WaitPageSpacing && n.lastZclCmd == IMAGE_PAGE_REQUEST
    && !(n.apsRequestId != INVALID_APS_REQ_ID && n.zclCommandId == IMAGE_BLOCK_RESPONSE)
    && n.imgBlockReq.pageBytesDone < n.imgBlockReq.pageSize && !env.spacing
  }

  /** The event makes the server try to send the next block of the page. */
  predicate Tries(n: NodeData, ev: Event) {
    match ev
    case Visit(env, _) => Due(n, env)
    case Confirm(_, _, env) => Credits(n, ev) && Due(OnPage(n, ev), env)
    case _ => false
  }

  /** The page timer finds the device silent for too long. */
  predicate FindsSilence(n: NodeData, ev: Event) {
    ev.Visit? && ev.expired && n.state == WaitNextRequest
  }

  function Count(t: Tally, n: NodeData, ev: Event, outs: seq<Out>): Tally {
    if AcceptsPage(n, ev) then NOTHING
    else if Tries(n, ev) then t.(failures := if outs == [] then t.failures + 1 else 0)
    else if FindsSilence(n, ev) then t.(silences := t.silences + 1)
    else t
  }

  /** What the observer of node k has counted along a run. */
  function TallyOf(os: seq<Occurrence>, k: nat): Tally
    decreases |os|
  {
    if os == [] then NOTHING
    else
      var p, before, o := Run(os[..|os| - 1]), TallyOf(os[..|os| - 1], k), os[|os| - 1];
      if !Possible(p, o) || k >= |p.nodes| then before
      else
        match ReachOf(p, o, k)
        case Untouched => before
        case Reached(ev, _, _) => Count(before, p.nodes[k], ev, OutsOf(p, o, k))
  }

  /** The program counts what the observer counts, and has not had enough of it. */
  predicate Counted(n: NodeData, t: Tally) {
    Active(n) ==>
      && n.imgBlockResponseRetry == t.failures < MAX_FAILURES
      && n.imgPageRequestRetry == t.silences < MAX_SILENCES
  }

  /** The step keeps the count, and ends the page exactly when it is enough. */
  predicate CountOk(n: NodeData, m: NodeData, t: Tally, ev: Event, outs: seq<Out>) {
    var after := Count(t, n, ev, outs);
    && Counted(m, after)
    && (ev.Visit? && Active(n) ==>
          (m.state == Idle <==>
             (Tries(n, ev) && after.failures >= MAX_FAILURES) || (FindsSilence(n, ev) && after.silences >= MAX_SILENCES)))
  }

  /** One try, or none. */
  lemma {:induction false} PagingCounts(n: NodeData, sh: Shared, env: Env)
    requires n.state == WaitPageSpacing
    ensures var p := ImagePageResponse(n, sh, env); var m := p.node;
      && m.imgPageRequestRetry == n.imgPageRequestRetry
      && (Due(n, env) ==> (p.ok <==> p.outs != []) && m.imgBlockResponseRetry == if p.ok then 0 else n.imgBlockResponseRetry + 1)
      && (!Due(n, env) ==> p.outs == [] && m.imgBlockResponseRetry == n.imgBlockResponseRetry)
      && (!p.ok ==> m.state == WaitPageSpacing)
      && (m.state == WaitPageSpacing || m.state == WaitNextRequest || m.state == Abort)
  {
    if Due(n, env) { SendingOutput(n, sh.maxAsduDataSize, env); }
  }

  lemma {:induction false} SendingOutput(n: NodeData, asdu: u8, env: Env)
    ensures var s := ImageBlockResponse(n, asdu, env);
      && (s.ok <==> s.outs != []) && (s.node.state == n.state || s.node.state == Abort)
      && s.node.imgPageRequestRetry == n.imgPageRequestRetry && s.node.imgBlockResponseRetry == n.imgBlockResponseRetry
  {}

  lemma {:induction false} VisitCounts(n: NodeData, sh: Shared, t: Tally, ev: Event)
    requires Counted(n, t) && ev.Visit?
    ensures var r := PageTick(n, sh, ev.env, ev.expired); CountOk(n, r.node, t, ev, r.outs)
  {
    if n.state == WaitPageSpacing { PagingCounts(n, sh, ev.env); }
  }

  lemma {:induction false} ConfirmCounts(n: NodeData, sh: Shared, h: History, t: Tally, ev: Event)
    requires NodeInv(n, h) && Counted(n, t) && ev.Confirm?
    ensures var r := ApsdeDataConfirm(n, sh, ev.id, ev.status, ev.env); CountOk(n, r.node, t, ev, r.outs)
  {
    if Credits(n, ev) && n.state == WaitPageSpacing { PagingCounts(OnPage(n, ev), sh, ev.env); }
  }

  /** Outside the page timer and the confirms nothing is counted; only a page request makes a
      node active. */
  lemma {:induction false} OthersCount(n: NodeData, sh: Shared, now: nat, t: Tally, ev: Event)
    requires Counted(n, t) && !ev.Visit? && !ev.Confirm?
    ensures var r := Step(n, sh, now, ev); CountOk(n, r.node, t, ev, r.outs)
  {}

  lemma {:induction false} StepCounts(n: NodeData, sh: Shared, now: nat, h: History, t: Tally, ev: Event)
    requires NodeInv(n, h) && Counted(n, t)
    ensures var r := Step(n, sh, now, ev); CountOk(n, r.node, t, ev, r.outs)
  {
    if ev.Visit? {
      VisitCounts(n, sh, t, ev);
    } else if ev.Confirm? {
      ConfirmCounts(n, sh, h, t, ev);
    } else {
      OthersCount(n, sh, now, t, ev);
    }
  }

  /** In every run: while a page is served, the program's counters are the observed numbers, at
      most nine failed sends and at most four silences. */
  lemma {:induction false} CountersAgree(os: seq<Occurrence>, k: nat)
    requires k < |Run(os).nodes|
    ensures var n, t := Run(os).nodes[k], TallyOf(os, k);
      Active(n) ==>
        && n.imgBlockResponseRetry == t.failures <= 9
        && n.imgPageRequestRetry == t.silences <= 4
    decreases |os|
  {
    if os != [] {
      var init, o := os[..|os| - 1], os[|os| - 1];
      var p := Run(init);
      if k < |p.nodes| {
        CountersAgree(init, k);
        Reachable(init);
        if Possible(p, o) {
          match ReachOf(p, o, k)
          case Untouched =>
          case Reached(ev, sh, now) => StepCounts(p.nodes[k], sh, now, Histories(init)[k], TallyOf(init, k), ev);
        }
      }
    }
  }

  /** In every run: a visit of the page timer ends the page if and only if it is the tenth failed
      send in a row or the fifth silence. */
  lemma {:induction false} GivesUpIff(os: seq<Occurrence>, o: Occurrence, k: nat)
    requires Possible(Run(os), o) && o.PageTimer? && o.otauActive && k < |Run(os).nodes| && Active(Run(os).nodes[k])
    ensures var n, ev := Run(os).nodes[k], ReachOf(Run(os), o, k).ev;
      var t, after := TallyOf(os, k), TallyOf(os + [o], k);
      && k < |Run(os + [o]).nodes|
      && (Run(os + [o]).nodes[k].state == Idle <==>
            || (Tries(n, ev) && OutsOf(Run(os), o, k) == [] && t.failures == 9 && after.failures == 10)
            || (FindsSilence(n, ev) && t.silences == 4 && after.silences == 5))
  {
    CountersAgree(os, k);
    Reachable(os);
    assert (os + [o])[..|os|] == os;
    match ReachOf(Run(os), o, k)
    case Untouched =>
    case Reached(ev, sh, now) => StepCounts(Run(os).nodes[k], sh, now, Histories(os)[k], TallyOf(os, k), ev);
  }

  // ---- a stack that takes nothing, a device that stays silent ----

  /** The node after that many visits at which the stack takes nothing. */
  function Refusals(n: NodeData, sh: Shared, count: nat): NodeData {
    if count == 0 then n else PageTick(Refusals(n, sh, count - 1), sh, Env(Rejected, false, false), false).node
  }

  /** So many tries were refused. */
  predicate Refused(m: NodeData, count: nat) {
    && m.imgBlockResponseRetry == count && m.apsRequestId == INVALID_APS_REQ_ID
    && (if count >= 10 then m.state == Idle else Due(m, Env(Rejected, false, false)))
  }

  /** One visit at which the stack takes nothing. */
  lemma {:induction false} OneRefusal(m: NodeData, sh: Shared, count: nat)
    requires Refused(m, count) && count < 10
    ensures Refused(PageTick(m, sh, Env(Rejected, false, false), false).node, count + 1)
  {}

  /** Ten visits in a row at which the stack takes nothing end a page that was due. */
  lemma {:induction false} TenRefusals(n: NodeData, sh: Shared, count: nat)
    requires Due(n, Env(Rejected, false, false)) && n.imgBlockResponseRetry == 0 && count <= 10
    requires n.apsRequestId == INVALID_APS_REQ_ID
    ensures Refused(Refusals(n, sh, count), count)
  {
    if count > 0 {
      TenRefusals(n, sh, count - 1);
      OneRefusal(Refusals(n, sh, count - 1), sh, count - 1);
    }
  }
}
