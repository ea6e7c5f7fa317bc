/** A page that is only answered with errors: when it ends. A page request is accepted also when
    the update is not permitted, a page can run past the end of the image, and a confirmed error
    counts as if it had delivered data: the page counter then runs in steps of the maximal data
    size and wraps at 16 bits. */
module ErrorPages {
  import opened Bytes
  import opened Sequences
  import opened Transfer
  import opened PageHistory
  import opened Runs
  import opened PageExchange
  import opened WrappingCounter

  // ---- pages that are answered with errors ----

  predicate Refused(n: NodeData) {
    !n.permitUpdate || !n.hasData
  }

  /** The offset stands behind the image, and does not wrap within that many credits. */
  predicate PastEnd(n: NodeData, credits: nat) {
    n.imgBlockReq.offset >= |n.rawFile| && n.imgBlockReq.offset + credits * n.imgBlockReq.maxDataSize < 0x1_0000_0000
  }

  /** The page is for the node's file and the next answers are errors, for that many credits at
      least: the update is not permitted, there is no data, or the image is at its end. */
  predicate Erring(n: NodeData, credits: nat) {
    && n.state == WaitPageSpacing && n.lastZclCmd == IMAGE_PAGE_REQUEST
    && n.imgBlockReq.fileVersion == n.file.fileVersion && n.imgBlockReq.imageType == n.file.imageType
    && n.imgBlockReq.manufacturerCode == n.file.manufacturerCode
    && (Refused(n) || PastEnd(n, credits))
  }

  /** The page waits to be served. */
  predicate Ready(n: NodeData, credits: nat) {
    Erring(n, credits) && n.apsRequestId == INVALID_APS_REQ_ID
  }

  function ErrorOf(n: NodeData): u8 {
    if Refused(n) then OTAU_NO_IMAGE_AVAILABLE else OTAU_MALFORMED_COMMAND
  }

  /** Where the counter of the page can get at most. */
  function TopOf(n: NodeData): int {
    Top(n.imgBlockReq.pageBytesDone, n.imgBlockReq.maxDataSize)
  }

  /** The counter got as far as size within k steps. */
  predicate Over(d: nat, m: nat, size: nat, k: nat) {
    exists j: nat :: j < k && Counter(d, m, j) >= size
  }

  predicate IsOver(n: NodeData, k: nat) {
    Over(n.imgBlockReq.pageBytesDone, n.imgBlockReq.maxDataSize, n.imgBlockReq.pageSize, k)
  }

  /** The page still runs after k credits: one more error was just handed over. */
  predicate GoesOn(n: NodeData, r: Result, k: nat, id: u8, credits: nat) {
    && Erring(r.node, credits) && r.node.apsRequestId == id && r.node.zclCommandId == IMAGE_BLOCK_RESPONSE
    && r.node.imgBlockReq.pageSize == n.imgBlockReq.pageSize && r.node.imgBlockReq.maxDataSize == n.imgBlockReq.maxDataSize
    && r.node.imgBlockReq.pageBytesDone == Counter(n.imgBlockReq.pageBytesDone, n.imgBlockReq.maxDataSize, k)
    && Refused(r.node) == Refused(n)
    && r.outs == [Reply(BlockResponse(r.node.reqSequenceNumber, BlockStatus(ErrorOf(n))), id)]
  }

  // ---- the exchange follows the counter ----

  /** One try on such a page. */
  lemma {:induction false} ErrorTry(n: NodeData, sh: Shared, id: u8)
    requires Ready(n, 0)
    ensures var p := ImagePageResponse(n, sh, Env(Accepted(id), false, false));
      if n.imgBlockReq.pageBytesDone >= n.imgBlockReq.pageSize then p.node == n.(state := WaitNextRequest) && p.outs == []
      else
        && p.node == n.(apsRequestId := id, zclCommandId := IMAGE_BLOCK_RESPONSE, imgBlockResponseRetry := 0) && p.ok
        && p.outs == [Reply(BlockResponse(n.reqSequenceNumber, BlockStatus(ErrorOf(n))), id)]
  {}

  lemma {:induction false} FewerCredits(n: NodeData, credits: nat)
    requires Erring(n, credits)
    ensures Erring(n, 0)
  {
    assert credits * n.imgBlockReq.maxDataSize >= 0;
  }

  lemma {:induction false} FirstAnswer(n: NodeData, sh: Shared, id: u8, credits: nat)
    requires Ready(n, credits)
    ensures var r := Step(n, sh, 0, Visit(Env(Accepted(id), false, false), false));
      if n.imgBlockReq.pageBytesDone >= n.imgBlockReq.pageSize then Done(r.node) else GoesOn(n, r, 0, id, credits)
  {
    FewerCredits(n, credits);
    ErrorTry(n, sh, id);
    assert Counter(n.imgBlockReq.pageBytesDone, n.imgBlockReq.maxDataSize, 0) == n.imgBlockReq.pageBytesDone;
  }

  /** A credit uses one up. */
  lemma {:induction false} CreditErrs(n: NodeData, credits: nat)
    requires Erring(n, credits + 1)
    ensures var c := CreditBlock(n.(apsRequestId := INVALID_APS_REQ_ID));
      && Ready(c, credits) && Refused(c) == Refused(n)
      && c.imgBlockReq.pageSize == n.imgBlockReq.pageSize && c.imgBlockReq.maxDataSize == n.imgBlockReq.maxDataSize
      && c.imgBlockReq.pageBytesDone == (n.imgBlockReq.pageBytesDone + n.imgBlockReq.maxDataSize) % WRAP
  {
    Distribute(credits, 1, n.imgBlockReq.maxDataSize);
    assert credits * n.imgBlockReq.maxDataSize >= 0;
  }

  lemma {:induction false} NextAnswer(n: NodeData, r: Result, k: nat, id: u8, next: u8, credits: nat)
    requires GoesOn(n, r, k, id, credits + 1)
    ensures var s := Step(r.node, r.shared, 0, Confirm(id, ConfirmSuccess, Env(Accepted(next), false, false)));
      if Counter(n.imgBlockReq.pageBytesDone, n.imgBlockReq.maxDataSize, k + 1) >= n.imgBlockReq.pageSize then Done(s.node)
      else GoesOn(n, s, k + 1, next, credits)
  {
    var c := CreditBlock(r.node.(apsRequestId := INVALID_APS_REQ_ID));
    CounterNext(n.imgBlockReq.pageBytesDone, n.imgBlockReq.maxDataSize, k);
    CreditErrs(r.node, credits);
    FewerCredits(c, credits);
    ErrorTry(c, r.shared, next);
  }

  /** The exchange runs until the counter gets as far as the page size. */
  lemma {:induction false} ExchangeCounts(n: NodeData, sh: Shared, ids: seq<u8>, credits: nat)
    requires ids != [] && Ready(n, |ids| - 1 + credits)
    ensures var r := Exchange(n, sh, ids);
      if IsOver(n, |ids|) then Done(r.node) else GoesOn(n, r, |ids| - 1, ids[|ids| - 1], credits)
    decreases |ids|
  {
    var init, last := ids[..|ids| - 1], |ids| - 1;
    OverNext(n, last);
    if init == [] {
      FirstAnswer(n, sh, ids[0], credits);
      assert Counter(n.imgBlockReq.pageBytesDone, n.imgBlockReq.maxDataSize, 0) == n.imgBlockReq.pageBytesDone;
      assert Exchange(n, sh, init) == Result(n, sh, []);
    } else {
      ExchangeCounts(n, sh, init, credits + 1);
      AnswerCounts(n, Exchange(n, sh, init), ids, credits);
    }
  }

  lemma {:induction false} AnswerCounts(n: NodeData, r: Result, ids: seq<u8>, credits: nat)
    requires |ids| > 1
    requires if IsOver(n, |ids| - 1) then Done(r.node) else GoesOn(n, r, |ids| - 2, ids[|ids| - 2], credits + 1)
    ensures var s := Step(r.node, r.shared, 0, EventAt(ids));
      if IsOver(n, |ids|) then Done(s.node) else GoesOn(n, s, |ids| - 1, ids[|ids| - 1], credits)
  {
    OverNext(n, |ids| - 1);
    if IsOver(n, |ids| - 1) {
      DoneStays(r, ids[|ids| - 2], Env(Accepted(ids[|ids| - 1]), false, false));
    } else {
      NextAnswer(n, r, |ids| - 2, ids[|ids| - 2], ids[|ids| - 1], credits);
    }
  }

  lemma {:induction false} OverNext(n: NodeData, k: nat)
    ensures IsOver(n, k + 1) <==>
      IsOver(n, k) || Counter(n.imgBlockReq.pageBytesDone, n.imgBlockReq.maxDataSize, k) >= n.imgBlockReq.pageSize
    ensures !IsOver(n, 0)
  {}

  /** The page has room for all the counter can do. */
  predicate Beyond(n: NodeData) {
    n.imgBlockReq.pageSize > TopOf(n)
  }

  /** When the page size is beyond the counter, every confirmed error is followed by another one:
      without end on a refused page, and until the offset wraps on one past the end. */
  lemma {:induction false} ErrorPageGoesOn(n: NodeData, sh: Shared, ids: seq<u8>)
    requires ids != [] && Ready(n, |ids| - 1) && Beyond(n)
    ensures GoesOn(n, Exchange(n, sh, ids), |ids| - 1, ids[|ids| - 1], 0)
  {
    ReachesIff(n.imgBlockReq.pageBytesDone, n.imgBlockReq.maxDataSize, n.imgBlockReq.pageSize);
    ExchangeCounts(n, sh, ids, 0);
  }

  /** Otherwise it ends, within fewer credits than the wrap. */
  lemma {:induction false} ErrorPageEnds(n: NodeData, sh: Shared) returns (ids: seq<u8>)
    requires Ready(n, WRAP) && !Beyond(n)
    ensures ids != [] && |ids| <= WRAP && Done(Exchange(n, sh, ids).node)
  {
    var d, m, size := n.imgBlockReq.pageBytesDone, n.imgBlockReq.maxDataSize, n.imgBlockReq.pageSize;
    ReachesIff(d, m, size);
    var k: nat :| k < WRAP && Counter(d, m, k) >= size;
    ids := seq(k + 1, i => 0);
    LongEnough(n, k);
    ExchangeCounts(n, sh, ids, WRAP - k);
    assert IsOver(n, |ids|);
  }

  lemma {:induction false} LongEnough(n: NodeData, k: nat)
    requires Ready(n, WRAP) && k < WRAP
    ensures Ready(n, k + (WRAP - k))
  {}

  /** A refused page whose answers are taken and confirmed ends at some time if and only if its
      size is not beyond the counter: from the start of a page, if it is at most the wrap less the
      lowest bit of the maximal data size. So a page of maximal data size 0 never does. */
  lemma {:induction false} RefusedPageEndsIff(n: NodeData, sh: Shared)
    requires Ready(n, 0) && Refused(n)
    ensures (exists ids: seq<u8> :: Exchange(n, sh, ids).node.state == WaitNextRequest) <==> n.imgBlockReq.pageSize <= TopOf(n)
    ensures n.imgBlockReq.pageBytesDone == 0 && n.imgBlockReq.maxDataSize > 0 ==> TopOf(n) == WRAP - LowBit(n.imgBlockReq.maxDataSize)
  {
    if Beyond(n) {
      forall ids: seq<u8>
        ensures Exchange(n, sh, ids).node.state != WaitNextRequest
      {
        if ids != [] { ErrorPageGoesOn(n, sh, ids); }
      }
    } else {
      var ids := ErrorPageEnds(n, sh);
      assert Exchange(n, sh, ids).node.state == WaitNextRequest;
    }
  }

  /** A page past the end of the image, with no wrap of its offset in sight, ends within as many
      answers as the wrap if and only if its size is not beyond the counter. */
  lemma {:induction false} MalformedPageEndsIff(n: NodeData, sh: Shared)
    requires Ready(n, 0) && !Refused(n) && n.imgBlockReq.offset < 0x1_0000_0000 - 0x100_0000
    ensures (exists ids: seq<u8> :: |ids| <= WRAP && Exchange(n, sh, ids).node.state == WaitNextRequest)
       <==> n.imgBlockReq.pageSize <= TopOf(n)
  {
    NoWrap(n);
    if Beyond(n) {
      forall ids: seq<u8> | |ids| <= WRAP
        ensures Exchange(n, sh, ids).node.state != WaitNextRequest
      {
        if ids != [] {
          Monotone(n.imgBlockReq.maxDataSize, WRAP, |ids| - 1);
          ErrorPageGoesOn(n, sh, ids);
        }
      }
    } else {
      var ids := ErrorPageEnds(n, sh);
    }
  }

  lemma {:induction false} NoWrap(n: NodeData)
    requires Ready(n, 0) && n.imgBlockReq.offset < 0x1_0000_0000 - 0x100_0000
    ensures Ready(n, WRAP)
  {}

  /** A page request for the node's file, while the update is not permitted, begins such a page. */
  lemma {:induction false} PageRequestBegins(n: NodeData, sh: Shared, now: nat, seqNo: u8, payload: seq<u8>, tx: Tx)
    requires n.state != Abort && Refused(n)
    requires Get16(payload, 1) == n.file.manufacturerCode && Get16(payload, 3) == n.file.imageType
    requires Get32(payload, 5) == n.file.fileVersion || Get32(payload, 5) == DONT_CARE_FILE_VERSION
    ensures var m := Step(n, sh, now, PageReq(seqNo, payload, true, tx)).node;
      && Refused(m) && (forall credits: nat :: Ready(m, credits)) && m.imgBlockReq.pageBytesDone == 0
      && m.imgBlockReq.maxDataSize == Get8(payload, 13) && m.imgBlockReq.pageSize == Get16(payload, 14)
  {}

  // ---- any run ----

  /** The node has not come to the end of a page beyond the counter. */
  predicate Held(n: NodeData) {
    n.state != WaitNextRequest && (n.state == WaitPageSpacing ==> Beyond(n))
  }

  /** The occurrence finds node k refused, and is no page request that it accepts. */
  predicate StaysRefused(p: Plugin, o: Occurrence, k: nat) {
    k < |p.nodes| ==>
      && (p.nodes[k].state == WaitPageSpacing ==> Refused(p.nodes[k]))
      && !(o.AtNode? && o.k == k && AcceptsPage(p.nodes[k], o.ev))
  }

  lemma {:induction false} RefusedTryHeld(n: NodeData, sh: Shared, env: Env)
    requires n.state == WaitPageSpacing && Refused(n) && Beyond(n)
    ensures var m := ImagePageResponse(n, sh, env).node; m.imgBlockReq == n.imgBlockReq && m.state != WaitNextRequest
  {
    TopStays(n.imgBlockReq.pageBytesDone, n.imgBlockReq.maxDataSize);
  }

  lemma {:induction false} ConfirmHeld(n: NodeData, sh: Shared, ev: Event)
    requires ev.Confirm? && Held(n) && (n.state == WaitPageSpacing ==> Refused(n))
    ensures Held(Step(n, sh, 0, ev).node)
  {
    if Credits(n, ev) && n.state == WaitPageSpacing {
      TopStays(n.imgBlockReq.pageBytesDone, n.imgBlockReq.maxDataSize);
      RefusedTryHeld(OnPage(n, ev), sh, ev.env);
    }
  }

  lemma {:induction false} StepHeld(n: NodeData, sh: Shared, now: nat, ev: Event)
    requires Held(n) && (n.state == WaitPageSpacing ==> Refused(n)) && !AcceptsPage(n, ev)
    ensures Held(Step(n, sh, now, ev).node)
  {
    if ev.Confirm? {
      ConfirmHeld(n, sh, ev);
    } else if ev.Visit? {
      if n.state == WaitPageSpacing { RefusedTryHeld(n, sh, ev.env); }
    } else {
      OthersHeld(n, sh, now, ev);
    }
  }

  lemma {:induction false} OthersHeld(n: NodeData, sh: Shared, now: nat, ev: Event)
    requires Held(n) && !AcceptsPage(n, ev) && !ev.Confirm? && !ev.Visit?
    ensures Held(Step(n, sh, now, ev).node)
  {}

  lemma {:induction false} AdvanceHeld(p: Plugin, o: Occurrence, k: nat)
    requires k < |p.nodes| && Held(p.nodes[k]) && StaysRefused(p, o, k)
    ensures k < |Advance(p, o).nodes| && Held(Advance(p, o).nodes[k])
  {
    if Possible(p, o) {
      match ReachOf(p, o, k)
      case Untouched =>
      case Reached(ev, sh, now) => StepHeld(p.nodes[k], sh, now, ev);
    }
  }

  lemma {:induction false} HeldMore(os: seq<Occurrence>, o: Occurrence, k: nat)
    requires k < |Run(os).nodes| && Held(Run(os).nodes[k]) && StaysRefused(Run(os), o, k)
    ensures k < |Run(os + [o]).nodes| && Held(Run(os + [o]).nodes[k])
  {
    AdvanceHeld(Run(os), o, k);
    Then(os, o);
  }

  /** Node k stays refused while the run os goes on with more. */
  predicate RefusedThroughout(os: seq<Occurrence>, more: seq<Occurrence>, k: nat) {
    forall i: nat :: i < |more| ==> StaysRefused(Run(os + more[..i]), more[i], k)
  }

  lemma {:induction false} RefusedBefore(os: seq<Occurrence>, more: seq<Occurrence>, k: nat)
    requires more != [] && RefusedThroughout(os, more, k)
    ensures var init, last := more[..|more| - 1], |more| - 1;
      RefusedThroughout(os, init, k) && StaysRefused(Run(os + init), more[last], k)
  {
    var init := more[..|more| - 1];
    forall i: nat | i < |init|
      ensures StaysRefused(Run(os + init[..i]), init[i], k)
    {
      assert init[..i] == more[..i] && StaysRefused(Run(os + more[..i]), more[i], k);
    }
  }

  /** In every run, whatever sends and confirms fail: a page whose size is beyond the counter never
      ends while the node stays refused and no other page is begun. */
  lemma {:induction false} RefusedPageNeverEnds(os: seq<Occurrence>, more: seq<Occurrence>, k: nat)
    requires k < |Run(os).nodes| && Held(Run(os).nodes[k]) && RefusedThroughout(os, more, k)
    ensures k < |Run(os + more).nodes| && Held(Run(os + more).nodes[k])
    decreases |more|
  {
    AppendLast(os, more);
    if more != [] {
      var init, o := more[..|more| - 1], more[|more| - 1];
      RefusedBefore(os, more, k);
      RefusedPageNeverEnds(os, init, k);
      HeldMore(os + init, o, k);
    }
  }
}
