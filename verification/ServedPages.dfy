/** A permitted page inside the image: when its answers are taken and confirmed, the device gets
    all of it, in at most one answer per byte. */
module ServedPages {
  import opened Bytes
  import opened Transfer
  import opened PageHistory
  import opened Runs
  import opened PageExchange

  /** The page is permitted, for the node's file, and inside the captured image. */
  predicate Inside(n: NodeData) {
    && n.state == WaitPageSpacing && n.lastZclCmd == IMAGE_PAGE_REQUEST
    && Names(n.imgBlockReq, n.file) && n.permitUpdate && n.hasData && n.imgBlockReq.maxDataSize >= 1
    && n.imgBlockReq.pageBytesDone <= n.imgBlockReq.pageSize
    && n.imgBlockReq.offset + n.imgBlockReq.pageSize - n.imgBlockReq.pageBytesDone <= |n.rawFile|
  }

  predicate Waiting(n: NodeData) {
    Inside(n) && n.apsRequestId == INVALID_APS_REQ_ID
  }

  /** The same page of the same image, where it began and where it ends. */
  predicate SamePage(n: NodeData, m: NodeData) {
    && m.imgBlockReq.pageSize == n.imgBlockReq.pageSize && m.rawFile == n.rawFile
    && m.imgBlockReq.offset - m.imgBlockReq.pageBytesDone == n.imgBlockReq.offset - n.imgBlockReq.pageBytesDone
  }

  /** A block of the page was just handed over: the bytes that are next, and it is booked. */
  predicate Serves(n: NodeData, r: Result, id: u8) {
    var m := r.node;
    && Inside(m) && SamePage(n, m) && m.apsRequestId == id && m.zclCommandId == IMAGE_BLOCK_RESPONSE
    && m.imgBlockReq.pageBytesDone + m.imgBlockReq.maxDataSize <= m.imgBlockReq.pageSize
    && SendsBlock(r.outs)
    && r.outs[0].frame.block.data == m.rawFile[m.imgBlockReq.offset..m.imgBlockReq.offset + m.imgBlockReq.maxDataSize]
  }

  /** The page is over, and whole. */
  predicate Whole(n: NodeData, m: NodeData) {
    && Done(m) && SamePage(n, m) && m.imgBlockReq.pageBytesDone == m.imgBlockReq.pageSize
  }

  /** What has happened after that many answers: the page is whole, or a block is on its way and
      at least one byte was confirmed for each answer before. */
  predicate Served(n: NodeData, r: Result, answers: nat, id: u8) {
    || Whole(n, r.node)
    || (Serves(n, r, id) && r.node.imgBlockReq.pageBytesDone + 1 >= n.imgBlockReq.pageBytesDone + answers)
  }

  /** One try. */
  lemma {:induction false} BlockTry(n: NodeData, sh: Shared, id: u8)
    requires Waiting(n) && LimitInv(sh)
    ensures var p := ImagePageResponse(n, sh, Env(Accepted(id), false, false));
      && p.shared == sh.(pageTimer := p.shared.pageTimer) && p.ok
      && (if n.imgBlockReq.pageBytesDone == n.imgBlockReq.pageSize then Whole(n, p.node)
          else Serves(n, Result(p.node, p.shared, p.outs), id) && p.node.imgBlockReq.pageBytesDone == n.imgBlockReq.pageBytesDone)
  {
    if n.imgBlockReq.pageBytesDone < n.imgBlockReq.pageSize { BlockSizeBounds(n, sh.maxAsduDataSize); }
  }

  lemma {:induction false} FirstServed(n: NodeData, sh: Shared, id: u8)
    requires Waiting(n) && LimitInv(sh)
    ensures var r := Step(n, sh, 0, Visit(Env(Accepted(id), false, false), false)); Served(n, r, 1, id) && LimitInv(r.shared)
  {
    BlockTry(n, sh, id);
  }

  /** A confirmed block: nothing wraps. */
  lemma {:induction false} BlockCredited(n: NodeData, r: Result, id: u8)
    requires Serves(n, r, id)
    ensures var c := CreditBlock(r.node.(apsRequestId := INVALID_APS_REQ_ID));
      && Waiting(c) && SamePage(n, c) && c.imgBlockReq.pageBytesDone == r.node.imgBlockReq.pageBytesDone + r.node.imgBlockReq.maxDataSize
  {}

  lemma {:induction false} NextServed(n: NodeData, r: Result, answers: nat, id: u8, next: u8)
    requires Served(n, r, answers, id) && LimitInv(r.shared)
    ensures var s := Step(r.node, r.shared, 0, Confirm(id, ConfirmSuccess, Env(Accepted(next), false, false)));
      Served(n, s, answers + 1, next) && LimitInv(s.shared)
  {
    if Whole(n, r.node) {
      DoneStays(r, id, Env(Accepted(next), false, false));
    } else {
      var c := CreditBlock(r.node.(apsRequestId := INVALID_APS_REQ_ID));
      BlockCredited(n, r, id);
      BlockTry(c, r.shared, next);
    }
  }

  lemma {:induction false} ExchangeServes(n: NodeData, sh: Shared, ids: seq<u8>)
    requires Waiting(n) && LimitInv(sh) && ids != []
    ensures var r := Exchange(n, sh, ids); Served(n, r, |ids|, ids[|ids| - 1]) && LimitInv(r.shared)
  {
    var init := ids[..|ids| - 1];
    if init == [] {
      FirstServed(n, sh, ids[0]);
      assert Exchange(n, sh, init) == Result(n, sh, []);
    } else {
      ExchangeServes(n, sh, init);
      assert init[|init| - 1] == ids[|ids| - 2];
      NextServed(n, Exchange(n, sh, init), |init|, ids[|ids| - 2], ids[|ids| - 1]);
    }
  }

  /** After as many confirmed answers as the page has bytes left it is whole, and all of it came
      from the image. */
  lemma {:induction false} PageCompletes(n: NodeData, sh: Shared, ids: seq<u8>)
    requires Waiting(n) && LimitInv(sh) && |ids| > n.imgBlockReq.pageSize - n.imgBlockReq.pageBytesDone
    ensures Whole(n, Exchange(n, sh, ids).node)
  {
    ExchangeServes(n, sh, ids);
  }

  /** A page request for the node's file, within the image and permitted, begins such a page. */
  lemma {:induction false} PageRequestServes(n: NodeData, sh: Shared, now: nat, seqNo: u8, payload: seq<u8>, tx: Tx)
    requires n.state != Abort && n.permitUpdate && n.hasData && AsksFor(payload, n.file)
    requires Get8(payload, 13) >= 1 && Get32(payload, 9) + Get16(payload, 14) <= |n.rawFile|
    ensures var r := Step(n, sh, now, PageReq(seqNo, payload, true, tx));
      Waiting(r.node) && r.shared.pageTimer && r.node.imgBlockReq.pageBytesDone == 0 && r.node.imgBlockReq.pageSize == Get16(payload, 14)
  {}

  /** In every run of one node that comes to such a page, and then has its answers taken and
      confirmed: the next request is due, and what was confirmed is the whole page. */
  lemma {:induction false} PageCompletesInRun(os: seq<Occurrence>, ids: seq<u8>)
    requires |Run(os).nodes| == 1 && Waiting(Run(os).nodes[0]) && Run(os).shared.pageTimer
    requires |ids| > Run(os).nodes[0].imgBlockReq.pageSize - Run(os).nodes[0].imgBlockReq.pageBytesDone
    ensures var all := os + Answers(ids);
      |Run(all).nodes| == 1 && Whole(Run(os).nodes[0], Run(all).nodes[0])
  {
    var n, sh := Run(os).nodes[0], Run(os).shared;
    Reachable(os);
    RunFollows(os, n, sh, ids);
    PageCompletes(n, TimerOver(sh), ids);
  }
}
