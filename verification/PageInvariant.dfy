/** Every handler keeps the node invariant. */
module PageInvariant {
  import opened Bytes
  import opened Transfer
  import opened PageHistory

  // ---- confirms ----

  function Credited(h: History): History
    requires h.log != []
  {
    h.(credits := h.credits + [|h.log| - 1])
  }

  lemma {:induction false} DeliveredMore(raw: ByteArray, start: nat, done: nat, size: nat, got: seq<u8>, b: BlockBody)
    requires Delivered(raw, start, done, got) && Continues(raw, start, done, size, b)
    ensures Delivered(raw, start, done + |b.data|, got + b.data)
  {
    if done > 0 {
      assert raw[start..start + done] + raw[start + done..start + done + |b.data|] == raw[start..start + done + |b.data|];
    }
  }

  /** Within the page and the image no counter wraps. */
  lemma {:induction false} CreditCounters(n: NodeData, size: u16)
    requires n.imgBlockReq.pageBytesDone + n.imgBlockReq.maxDataSize <= size
    requires n.imgBlockReq.offset + n.imgBlockReq.maxDataSize < 0x8000_0000
    ensures CreditBlock(n).imgBlockReq.pageBytesDone == n.imgBlockReq.pageBytesDone + n.imgBlockReq.maxDataSize
    ensures CreditBlock(n).imgBlockReq.offset == n.imgBlockReq.offset + n.imgBlockReq.maxDataSize
  {}

  /** What the delivery invariant says about an awaited block. */
  lemma {:induction false} AwaitedBlock(n: NodeData, h: History)
    requires PageShape(n, h) && PageNumbers(n, h) && PageDelivery(n, h) && PendingInv(n, h) && Pending(n)
    requires AllBlocks(h.log, h.page.firstSent)
    ensures var i := |h.log| - 1; var start, done := h.page.req.offset, n.imgBlockReq.pageBytesDone;
      && IsBlock(h.log[i]) && n.imgBlockReq.maxDataSize == |h.log[i].frame.block.data|
      && n.imgBlockReq.offset == start + done
      && Continues(h.page.raw, start, done, h.page.req.pageSize, h.log[i].frame.block)
      && Delivered(h.page.raw, start, done, Collected(h.log, h.credits[h.page.firstCredit..]))
  {
    assert IsBlock(h.log[|h.log| - 1]);
  }

  lemma {:induction false} CreditDelivery(n: NodeData, c: NodeData, h: History)
    requires PageShape(n, h) && PageNumbers(n, h) && PageDelivery(n, h) && PendingInv(n, h) && Pending(n)
    requires c == CreditBlock(n.(apsRequestId := INVALID_APS_REQ_ID))
    ensures PageDelivery(c, Credited(h))
  {
    if AllBlocks(h.log, h.page.firstSent) {
      AwaitedBlock(n, h);
      CreditAwaited(n.imgBlockReq.pageBytesDone, n, c, h, h.log[|h.log| - 1].frame.block);
    }
  }

  /** What was collected, with the data of the last reply. */
  lemma {:induction false} CollectedAwaited(done: nat, h: History, b: BlockBody)
    requires h.page.Page? && h.page.firstCredit <= |h.credits| && h.log != []
    requires b.Block? && DataAt(h.log, |h.log| - 1) == b.data
    requires Continues(h.page.raw, h.page.req.offset, done, h.page.req.pageSize, b)
    requires Delivered(h.page.raw, h.page.req.offset, done, Collected(h.log, h.credits[h.page.firstCredit..]))
    ensures Delivered(h.page.raw, h.page.req.offset, done + |b.data|, Collected(h.log, Credited(h).credits[h.page.firstCredit..]))
  {
    CollectedCredit(h.log, h.credits, h.page.firstCredit, |h.log| - 1);
    DeliveredMore(h.page.raw, h.page.req.offset, done, h.page.req.pageSize, Collected(h.log, h.credits[h.page.firstCredit..]), b);
  }

  lemma {:induction false} CreditAwaited(done: u16, n: NodeData, c: NodeData, h: History, b: BlockBody)
    requires h.page.Page? && h.page.firstCredit <= |h.credits| && h.log != []
    requires b.Block? && DataAt(h.log, |h.log| - 1) == b.data
    requires n.imgBlockReq.maxDataSize == |b.data| && done == n.imgBlockReq.pageBytesDone
    requires n.imgBlockReq.offset == h.page.req.offset + done
    requires Continues(h.page.raw, h.page.req.offset, done, h.page.req.pageSize, b)
    requires Delivered(h.page.raw, h.page.req.offset, done, Collected(h.log, h.credits[h.page.firstCredit..]))
    requires c == CreditBlock(n.(apsRequestId := INVALID_APS_REQ_ID))
    ensures PageDelivery(c, Credited(h))
  {
    CollectedAwaited(done, h, b);
    CreditCounters(n.(apsRequestId := INVALID_APS_REQ_ID), h.page.req.pageSize);
    DeliveryFrom(c, Credited(h), done + |b.data|, Collected(h.log, Credited(h).credits[h.page.firstCredit..]));
  }

  lemma {:induction false} DeliveryFrom(c: NodeData, h: History, done: nat, got: seq<u8>)
    requires h.page.Page? && h.page.firstCredit <= |h.credits| && !Pending(c)
    requires c.imgBlockReq.pageBytesDone == done <= h.page.req.pageSize && c.imgBlockReq.offset == h.page.req.offset + done
    requires got == Collected(h.log, h.credits[h.page.firstCredit..]) && Delivered(h.page.raw, h.page.req.offset, done, got)
    ensures PageDelivery(c, h)
  {}

  lemma {:induction false} CreditProgress(n: NodeData, c: NodeData, h: History)
    requires PageShape(n, h) && PageProgress(n, h) && Pending(n) && h.log != []
    requires c == CreditBlock(n.(apsRequestId := INVALID_APS_REQ_ID))
    ensures PageProgress(c, Credited(h))
  {}

  lemma {:induction false} CreditShape(n: NodeData, c: NodeData, h: History)
    requires PageShape(n, h) && PageNumbers(n, h) && PageRetries(n, h) && Pending(n) && h.log != []
    requires c == CreditBlock(n.(apsRequestId := INVALID_APS_REQ_ID))
    ensures PageShape(c, Credited(h)) && PageNumbers(c, Credited(h)) && PageRetries(c, Credited(h))
  {}

  /** A credited block: the books move on by exactly its size. */
  lemma {:induction false} CreditKeeps(n: NodeData, c: NodeData, h: History)
    requires NodeInv(n, h) && Pending(n) && n.zclCommandId == IMAGE_BLOCK_RESPONSE
    requires c == CreditBlock(n.(apsRequestId := INVALID_APS_REQ_ID))
    ensures NodeInv(c, Credited(h))
  {
    if Active(n) {
      CreditDelivery(n, c, h);
      CreditProgress(n, c, h);
      CreditShape(n, c, h);
    }
  }

  /** m is n with its failed tries counted anew. */
  lemma {:induction false} RetryKeeps(m: NodeData, h: History)
    requires PageInv(m.(imgBlockResponseRetry := 0), h) && !Pending(m) && 0 <= m.imgBlockResponseRetry < MAX_IMG_BLOCK_RSP_RETRY
    ensures PageInv(m, h)
  {}

  lemma {:induction false} ConfirmKeeps(n: NodeData, sh: Shared, h: History, ev: Event)
    requires NodeInv(n, h) && LimitInv(sh) && ev.Confirm?
    ensures var r := ApsdeDataConfirm(n, sh, ev.id, ev.status, ev.env);
      NodeInv(r.node, Observe(h, n, ev, r.outs)) && LimitInv(r.shared) && |r.outs| <= 1
  {
    if Credits(n, ev) {
      var c := CreditBlock(n.(apsRequestId := INVALID_APS_REQ_ID));
      CreditKeeps(n, c, h);
      if n.state == WaitPageSpacing {
        PageResponseKeeps(c, sh, Credited(h), ev.env, ev);
        var p := ImagePageResponse(c, sh, ev.env);
        PagingOutput(c, sh, ev.env);
        if !p.ok && p.node != c { RetryKeeps(p.node, Credited(h)); }
      }
    }
  }

  lemma {:induction false} PagingOutput(n: NodeData, sh: Shared, env: Env)
    ensures var p := ImagePageResponse(n, sh, env);
      |p.outs| <= 1 && p.shared == sh.(pageTimer := p.shared.pageTimer) && (sh.pageTimer ==> p.shared.pageTimer)
  {}

  // ---- requests ----

  /** A page has just begun: nothing is sent, awaited or credited on it. */
  lemma {:induction false} PageBegins(m: NodeData, g: History)
    requires g.page.Page? && g.page.firstSent == |g.log| && g.page.firstCredit == |g.credits| && g.page.notifies == 0
    requires m.state == WaitPageSpacing && !Pending(m) && m.imgPageRequestRetry == m.imgBlockResponseRetry == 0
    requires m.imgBlockReq == g.page.req && m.imgBlockReq.pageBytesDone == 0
    requires m.rawFile == g.page.raw && m.reqSequenceNumber == g.page.seqNo
    ensures PageInv(m, g)
  {
    assert g.credits[g.page.firstCredit..] == [];
    assert Collected(g.log, []) == [];
  }

  lemma {:induction false} PageRequestKeeps(n: NodeData, sh: Shared, now: nat, h: History, ev: Event)
    requires NodeInv(n, h) && ev.PageReq?
    ensures var r := ImagePageRequest(Heard(n, IMAGE_PAGE_REQUEST), sh, now, ev.seqNo, ev.payload, ev.enabled, ev.tx);
      NodeInv(r.node, Observe(h, n, ev, r.outs)) && |r.outs| <= 1
  {
    var m := Heard(n, IMAGE_PAGE_REQUEST);
    if AcceptsPage(n, ev) {
      PageBegins(AskedPage(m, ev.seqNo, ev.payload), Book(h, n, ev));
    } else if ev.enabled {
      SendingKeeps(m.(reqSequenceNumber := ev.seqNo), h, DefaultResponse(ev.seqNo, IMAGE_PAGE_REQUEST, OTAU_ABORT), ev.tx);
    } else {
      SameKeeps(n, m, h);
    }
  }

  /** Outside a page, any reply but a block may be sent. */
  lemma {:induction false} SendingKeeps(m: NodeData, h: History, f: Frame, tx: Tx)
    requires Booked(h) && PendingInv(m, h) && !Active(m) && !f.BlockResponse?
    ensures var s := Send(m, f, tx);
      |s.outs| <= 1 && NodeInv(s.node, if s.outs == [] then h else Append(h, f, s.outs[0].id))
  {
    if tx.Accepted? { SendKeeps(Send(m, f, tx).node, h, f, tx.id); }
  }

  lemma {:induction false} BlockRequestKeeps(n: NodeData, sh: Shared, now: nat, h: History, ev: Event)
    requires NodeInv(n, h) && LimitInv(sh) && ev.BlockReq?
    ensures var r := ImageBlockRequest(Heard(n, IMAGE_BLOCK_REQUEST), sh, now, ev.seqNo, ev.payload, ev.env);
      NodeInv(r.node, Observe(h, n, ev, r.outs)) && |r.outs| <= 1
  {
    var m := AskedBlock(Heard(n, IMAGE_BLOCK_REQUEST), ev.seqNo, ev.payload);
    var s := ImageBlockResponse(m, sh.maxAsduDataSize, ev.env);
    BlockResponseEffect(m, sh.maxAsduDataSize, ev.env);
    if s.ok { SendKeeps(s.node.(state := WaitConfirm), h, s.outs[0].frame, s.outs[0].id); }
  }

  lemma {:induction false} QueryAnswerKeeps(m: NodeData, sh: Shared, now: nat, h: History, tx: Tx, next: NodeState)
    requires Booked(h) && PendingInv(m, h) && next != WaitPageSpacing && next != WaitNextRequest
    ensures var q := QueryNextImageResponse(m, sh, now, tx);
      && |q.outs| <= 1 && q.shared == sh.(tracker := q.shared.tracker)
      && NodeInv(q.node.(state := next), if q.outs == [] then h else Append(h, q.outs[0].frame, q.outs[0].id))
      && (q.outs != [] ==> q.outs[0].Reply?)
  {
    var q := QueryNextImageResponse(m, sh, now, tx);
    if q.outs != [] { SendKeeps(q.node.(state := next), h, q.outs[0].frame, q.outs[0].id); }
  }

  lemma {:induction false} QueryKeeps(n: NodeData, sh: Shared, now: nat, h: History, ev: Event)
    requires NodeInv(n, h) && ev.Query?
    ensures var r := QueryNextImageRequest(Heard(n, QUERY_NEXT_IMAGE_REQUEST), sh, now, ev.seqNo, ev.payload, ev.load, ev.tx);
      NodeInv(r.node, Observe(h, n, ev, r.outs)) && |r.outs| <= 1 && r.shared == sh.(tracker := r.shared.tracker)
  {
    var heard := Heard(n, QUERY_NEXT_IMAGE_REQUEST);
    if |ev.payload| != 9 && |ev.payload| != 11 {
      SameKeeps(n, heard, h);
    } else {
      var m := CheckForUpdate(ReadQuery(heard, ev.seqNo, ev.payload), sh, ev.load);
      QueryAnswerKeeps(m, sh, now, h, ev.tx, if QueryNextImageResponse(m, sh, now, ev.tx).ok then WaitConfirm else Idle);
    }
  }

  lemma {:induction false} EndKeeps(n: NodeData, sh: Shared, h: History, ev: Event)
    requires NodeInv(n, h) && ev.UpgradeEnd?
    ensures var r := UpgradeEndRequest(Heard(n, UPGRADE_END_REQUEST), sh, ev.seqNo, ev.payload, ev.upgradeTime, ev.tx);
      NodeInv(r.node, Observe(h, n, ev, r.outs)) && |r.outs| <= 1 && r.shared == sh
  {
    var m := Ended(Heard(n, UPGRADE_END_REQUEST), ev.seqNo, ev.payload);
    if m.upgradeEndReq.status != OTAU_SUCCESS {
      SendingKeeps(m, h, DefaultResponse(ev.seqNo, UPGRADE_END_REQUEST, 0), ev.tx);
    } else if m.imgBlockReq.offset == 0 {
      SendingKeeps(m, h, DefaultResponse(ev.seqNo, UPGRADE_END_REQUEST, OTAU_ABORT), ev.tx);
    } else {
      SendingKeeps(m.(file := m.file.(subElements := []), hasData := false, permitUpdate := false), h,
                   UpgradeEndResponse(ev.seqNo, m.upgradeEndReq, ev.upgradeTime), ev.tx);
    }
  }

  // ---- the page timer ----

  lemma {:induction false} VisitKeeps(n: NodeData, sh: Shared, h: History, ev: Event)
    requires NodeInv(n, h) && LimitInv(sh) && ev.Visit?
    ensures var r := PageTick(n, sh, ev.env, ev.expired);
      && NodeInv(r.node, Observe(h, n, ev, r.outs)) && |r.outs| <= 1
      && r.shared == sh.(pageTimer := r.shared.pageTimer) && (sh.pageTimer ==> r.shared.pageTimer)
  {
    if n.state == WaitPageSpacing {
      SpacingKeeps(n, sh, h, ev);
    } else if n.state == WaitNextRequest && ev.expired {
      WaitKeeps(n, sh, h, ev);
    }
  }

  lemma {:induction false} SpacingKeeps(n: NodeData, sh: Shared, h: History, ev: Event)
    requires NodeInv(n, h) && LimitInv(sh) && ev.Visit? && n.state == WaitPageSpacing
    ensures var r := PageTick(n, sh, ev.env, ev.expired);
      && NodeInv(r.node, Observe(h, n, ev, r.outs)) && |r.outs| <= 1
      && r.shared == sh.(pageTimer := r.shared.pageTimer) && (sh.pageTimer ==> r.shared.pageTimer)
  {
    PageResponseKeeps(n, sh, h, ev.env, ev);
    PagingOutput(n, sh, ev.env);
    var p := ImagePageResponse(n, sh, ev.env);
    if !p.ok && p.node != n && p.node.imgBlockResponseRetry < MAX_IMG_BLOCK_RSP_RETRY { RetryKeeps(p.node, h); }
  }

  /** One more retry, and perhaps one more notify. */
  lemma {:induction false} RetriedKeeps(n: NodeData, m: NodeData, h: History, g: History)
    requires PageInv(n, h) && n.state == WaitNextRequest && n.apsRequestId == INVALID_APS_REQ_ID
    requires m == n.(imgPageRequestRetry := n.imgPageRequestRetry + 1) && m.imgPageRequestRetry < MAX_IMG_PAGE_REQ_RETRY
    requires g == h.(page := g.page) && g.page.Page? && g.page == h.page.(notifies := g.page.notifies)
    requires g.page.notifies <= Min(m.imgPageRequestRetry, 2)
    ensures PageInv(m, g)
  {
    DeliverySame(n, m, h, g);
  }

  lemma {:induction false} WaitKeeps(n: NodeData, sh: Shared, h: History, ev: Event)
    requires NodeInv(n, h) && ev.Visit? && n.state == WaitNextRequest
    ensures var r := SilenceFound(n, sh, ev.env.tx); NodeInv(r.node, Observe(h, n, ev, r.outs))
  {
    var r := SilenceFound(n, sh, ev.env.tx);
    if r.node.state != Idle { RetriedKeeps(n, r.node, h, Observe(h, n, ev, r.outs)); }
  }

  /** The delivery depends neither on the retries nor on the notifies. */
  lemma {:induction false} DeliverySame(n: NodeData, m: NodeData, h: History, g: History)
    requires PageDelivery(n, h) && h.page.Page?
    requires n.imgBlockReq == m.imgBlockReq && n.apsRequestId == m.apsRequestId
    requires g == h.(page := g.page) && g.page.Page? && g.page == h.page.(notifies := g.page.notifies)
    ensures PageDelivery(m, g)
  {}

  // ---- all events ----

  /** The event keeps the invariant and the limit, and hands over at most one thing. */
  predicate StepOk(n: NodeData, sh: Shared, now: nat, h: History, ev: Event) {
    var r := Step(n, sh, now, ev);
    NodeInv(r.node, Observe(h, n, ev, r.outs)) && LimitInv(r.shared) && |r.outs| <= 1
  }

  lemma {:induction false} RequestKeeps(n: NodeData, sh: Shared, now: nat, h: History, ev: Event)
    requires NodeInv(n, h) && LimitInv(sh) && (ev.Query? || ev.BlockReq? || ev.PageReq? || ev.UpgradeEnd?)
    ensures StepOk(n, sh, now, h, ev)
  {
    match ev
    case Query(_, _, _, _) => QueryKeeps(n, sh, now, h, ev);
    case BlockReq(_, _, _) => BlockRequestKeeps(n, sh, now, h, ev);
    case PageReq(_, _, _, _) => PageRequestKeeps(n, sh, now, h, ev);
    case UpgradeEnd(_, _, _, _) => EndKeeps(n, sh, h, ev);
  }

  /** The fields the invariant speaks about. */
  predicate SameBooks(n: NodeData, m: NodeData) {
    && n.apsRequestId == m.apsRequestId && n.zclCommandId == m.zclCommandId && n.imgBlockReq == m.imgBlockReq
    && n.reqSequenceNumber == m.reqSequenceNumber && n.rawFile == m.rawFile
    && n.imgPageRequestRetry == m.imgPageRequestRetry && n.imgBlockResponseRetry == m.imgBlockResponseRetry
  }

  lemma {:induction false} SameKeeps(n: NodeData, m: NodeData, h: History)
    requires NodeInv(n, h) && SameBooks(n, m) && (m.state == n.state || !Active(m))
    ensures NodeInv(m, h)
  {
    if Active(m) { DeliverySame(n, m, h, h); }
  }

  lemma {:induction false} LocalKeeps(n: NodeData, sh: Shared, now: nat, h: History, ev: Event)
    requires NodeInv(n, h) && LimitInv(sh)
    requires ev.ProfileFrame? || ev.Cleanup? || ev.AbortClick? || ev.UpdateClick? || ev.FileSelect?
    ensures StepOk(n, sh, now, h, ev)
  {
    var r := Step(n, sh, now, ev);
    SameKeeps(n, r.node, h);
  }

  /** Every event keeps the invariant and the limit, and hands over at most one thing. */
  lemma {:induction false} StepKeeps(n: NodeData, sh: Shared, now: nat, h: History, ev: Event)
    requires NodeInv(n, h) && LimitInv(sh)
    ensures StepOk(n, sh, now, h, ev)
  {
    match ev
    case Confirm(_, _, _) => ConfirmKeeps(n, sh, h, ev);
    case Visit(_, _) => VisitKeeps(n, sh, h, ev);
    case Query(_, _, _, _) => RequestKeeps(n, sh, now, h, ev);
    case BlockReq(_, _, _) => RequestKeeps(n, sh, now, h, ev);
    case PageReq(_, _, _, _) => RequestKeeps(n, sh, now, h, ev);
    case UpgradeEnd(_, _, _, _) => RequestKeeps(n, sh, now, h, ev);
    case ProfileFrame(_) => LocalKeeps(n, sh, now, h, ev);
    case Cleanup(_) => LocalKeeps(n, sh, now, h, ev);
    case AbortClick => LocalKeeps(n, sh, now, h, ev);
    case UpdateClick(_) => LocalKeeps(n, sh, now, h, ev);
    case FileSelect(_, _) => LocalKeeps(n, sh, now, h, ev);
  }

  lemma {:induction false} FreshKeeps(n: NodeData)
    requires Fresh(n)
    ensures NodeInv(n, EMPTY)
  {}
}
