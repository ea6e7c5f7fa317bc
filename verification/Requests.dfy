/** What a device is answered, read off the bytes of its request: which block, which offer, which
    status, or nothing; and what each event makes of the state, the data and the identity of a
    node. The numbers are those of section 11.13 of the ZigBee Cluster Library Specification,
    07-5123. */
module Requests {
  import opened Bytes
  import opened FileFormat
  import opened Tracking
  import opened Transfer
  import opened PageHistory
  import opened PageInvariant
  import opened Runs
  import opened Retries

  // ---- blocks ----

  /** The most data a block carries: what the payload limit leaves, 50 bytes, 40 for two vendors. */
  function BlockLimit(n: NodeData, asdu: u8): int {
    Min(if n.manufacturerId == 0x1135 || n.manufacturerId == 0x112E then 40 else 50, asdu - 17)
  }

  /** The data of the next block starts at offset and is that long. */
  predicate DataFrom(n: NodeData, offset: u32, size: int, b: BlockBody) {
    && b.Block? && b.offset == offset && |b.data| == size >= 0 && offset + size <= |n.rawFile|
    && b.data == n.rawFile[offset..offset + size]
    && b.manufacturerCode == n.file.manufacturerCode && b.imageType == n.file.imageType && b.fileVersion == n.file.fileVersion
  }

  /** Exactly one of four answers to a request for max bytes from offset on: aborted, no image,
      beyond the end, or the block. */
  predicate BlockAnswer(n: NodeData, asdu: u8, named: bool, offset: u32, max: int, b: BlockBody) {
    && (b == BlockStatus(0x95) <==> !named || n.state == Abort)
    && (b == BlockStatus(0x98) <==> named && n.state != Abort && !(n.permitUpdate && n.hasData))
    && (b == BlockStatus(0x80) <==> named && n.state != Abort && n.permitUpdate && n.hasData && offset >= |n.rawFile|)
    && (b.Block? <==> named && n.state != Abort && n.permitUpdate && n.hasData && offset < |n.rawFile|)
    && (b.Block? ==> DataFrom(n, offset, Min(Min(max, BlockLimit(n, asdu)), |n.rawFile| - offset), b))
  }

  /** The size of the next block, without the widths it is computed in. */
  lemma {:induction false} SizeOfBlock(n: NodeData, asdu: u8)
    requires asdu == 82 || asdu == 57
    requires n.imgBlockReq.offset < |n.rawFile|
    requires n.lastZclCmd == IMAGE_PAGE_REQUEST ==> n.imgBlockReq.pageBytesDone <= n.imgBlockReq.pageSize
    ensures var req := n.imgBlockReq;
      var size := Min(Min(req.maxDataSize, BlockLimit(n, asdu)), |n.rawFile| - req.offset);
      BlockSize(n, asdu) == if n.lastZclCmd == IMAGE_PAGE_REQUEST then Min(size, req.pageSize - req.pageBytesDone) else size
  {}

  /** The most data the answer may carry. */
  function Room(n: NodeData): int {
    var req := n.imgBlockReq;
    if n.lastZclCmd == IMAGE_PAGE_REQUEST then Min(req.maxDataSize, req.pageSize - req.pageBytesDone) else req.maxDataSize
  }

  /** Nothing is sent on a page only if the device asked for blocks of no data. */
  predicate AsksNothing(c: NodeData) {
    && Names(c.imgBlockReq, c.file) && c.permitUpdate && c.hasData
    && c.imgBlockReq.offset < |c.rawFile| && c.imgBlockReq.maxDataSize == 0
  }

  lemma {:induction false} AnswerComposed(n: NodeData, asdu: u8)
    requires asdu == 82 || asdu == 57
    requires n.lastZclCmd == IMAGE_PAGE_REQUEST ==> n.imgBlockReq.pageBytesDone < n.imgBlockReq.pageSize
    ensures var (m, answer) := AnswerBlock(n, asdu);
      && m == n.(state := m.state, imgBlockReq := m.imgBlockReq) && m.state == (if Names(n.imgBlockReq, n.file) then n.state else Abort)
      && (answer.NoAnswer? <==> n.state != Abort && n.lastZclCmd == IMAGE_PAGE_REQUEST && AsksNothing(n))
      && (answer.Answer? ==> BlockAnswer(n, asdu, Names(n.imgBlockReq, n.file), n.imgBlockReq.offset, Room(n), answer.body))
  {
    if n.imgBlockReq.offset < |n.rawFile| { SizeOfBlock(n, asdu); }
  }

  /** What is composed is sent, if the stack takes it. */
  lemma {:induction false} BlockReplied(n: NodeData, asdu: u8, env: Env)
    requires !Pending(n)
    ensures var s := ImageBlockResponse(n, asdu, env); var (m, answer) := AnswerBlock(n, asdu);
      && (s.ok <==> env.tx.Accepted? && answer.Answer?) && s.node.state == m.state
      && s.outs == (if s.ok then [Reply(BlockResponse(n.reqSequenceNumber, answer.body), env.tx.id)] else [])
      && (s.ok ==> s.node.apsRequestId == env.tx.id)
  {}

  predicate AnswersRequest(n: NodeData, asdu: u8, ev: Event, m: NodeData, outs: seq<Out>)
    requires ev.BlockReq?
  {
    match ev.env.tx
    case Rejected => outs == [] && m.state == Idle
    case Accepted(id) =>
      && |outs| == 1 && outs[0].Reply? && outs[0].id == id && outs[0].frame.BlockResponse? && outs[0].frame.seqNo == ev.seqNo
      && m.state == WaitConfirm && m.apsRequestId == id
      && BlockAnswer(n, asdu, AsksFor(ev.payload, n.file), Get32(ev.payload, 9), Get8(ev.payload, 13), outs[0].frame.block)
  }

  lemma {:induction false} RequestAnswered(n: NodeData, sh: Shared, now: nat, ev: Event)
    requires LimitInv(sh) && ev.BlockReq?
    ensures var r := Step(n, sh, now, ev); AnswersRequest(n, sh.maxAsduDataSize, ev, r.node, r.outs)
  {
    var m := AskedBlock(Heard(n, IMAGE_BLOCK_REQUEST), ev.seqNo, ev.payload);
    AnswerComposed(m, sh.maxAsduDataSize);
    BlockReplied(m, sh.maxAsduDataSize, ev.env);
  }

  /** In every run: a block request is answered if and only if the stack takes the answer; with
      ABORT if and only if it names another file than that of the node or the node was aborted;
      with NO_IMAGE or MALFORMED exactly without permission or data, or beyond the image; and
      otherwise with the block of the asked place, as long as request, image, vendor and payload
      limit allow. An abort does not outlast the answer. */
  lemma {:induction false} BlockRequestAnswered(os: seq<Occurrence>, o: Occurrence, k: nat)
    requires Possible(Run(os), o) && k < |Run(os).nodes| && o.AtNode? && o.k == k && o.ev.BlockReq?
    ensures AnswersRequest(Run(os).nodes[k], Run(os).shared.maxAsduDataSize, o.ev, Advance(Run(os), o).nodes[k], OutsOf(Run(os), o, k))
  {
    Reachable(os);
    RequestAnswered(Run(os).nodes[k], Run(os).shared, o.now, o.ev);
  }

  // ---- pages ----

  /** The answer of a page that asks for the next block; c is the node once the last one is
      credited. */
  predicate AnswersPage(c: NodeData, asdu: u8, env: Env, m: NodeData, outs: seq<Out>) {
    var req := c.imgBlockReq;
    && req.pageBytesDone < req.pageSize
    && (outs == [] <==> env.tx.Rejected? || AsksNothing(c))
    && (outs == [] ==> m.state == WaitPageSpacing || m.state == Idle)
    && (outs != [] ==>
          && |outs| == 1 && outs[0].Reply? && outs[0].id == env.tx.id && outs[0].frame.BlockResponse?
          && outs[0].frame.seqNo == c.reqSequenceNumber
          && (m.state == if Names(req, c.file) then WaitPageSpacing else Abort)
          && BlockAnswer(c, asdu, Names(req, c.file), req.offset, Room(c), outs[0].frame.block))
  }

  lemma {:induction false} TryAnswered(c: NodeData, asdu: u8, env: Env)
    requires asdu == 82 || asdu == 57
    requires c.lastZclCmd == IMAGE_PAGE_REQUEST && c.state == WaitPageSpacing && !Pending(c)
    requires c.imgBlockReq.pageBytesDone < c.imgBlockReq.pageSize
    ensures var s := ImageBlockResponse(c, asdu, env);
      (s.ok <==> s.outs != []) && AnswersPage(c, asdu, env, s.node.(state := if s.ok then s.node.state else WaitPageSpacing), s.outs)
  {
    AnswerComposed(c, asdu);
    BlockReplied(c, asdu, env);
  }

  lemma {:induction false} DueAnswered(c: NodeData, sh: Shared, h: History, env: Env)
    requires NodeInv(c, h) && LimitInv(sh) && Due(c, env)
    ensures var p := ImagePageResponse(c, sh, env); AnswersPage(c, sh.maxAsduDataSize, env, p.node, p.outs) && (p.ok <==> p.outs != [])
  {
    TryAnswered(c, sh.maxAsduDataSize, env);
  }

  /** A visit of the page timer or a confirm that does not make the server try sends no block. */
  predicate AnswersTimer(n: NodeData, asdu: u8, ev: Event, m: NodeData, outs: seq<Out>)
    requires ev.Visit? || ev.Confirm?
  {
    if Tries(n, ev) then AnswersPage(OnPage(n, ev), asdu, ev.env, m, outs)
    else outs == [] || (FindsSilence(n, ev) && outs == [Notify])
  }

  lemma {:induction false} VisitAnswered(n: NodeData, sh: Shared, h: History, ev: Event)
    requires NodeInv(n, h) && LimitInv(sh) && ev.Visit?
    ensures var r := PageTick(n, sh, ev.env, ev.expired); AnswersTimer(n, sh.maxAsduDataSize, ev, r.node, r.outs)
  {
    if Due(n, ev.env) {
      DueAnswered(n, sh, h, ev.env);
    } else if n.state == WaitPageSpacing {
      PagingCounts(n, sh, ev.env);
    }
  }

  lemma {:induction false} ConfirmAnswered(n: NodeData, sh: Shared, h: History, ev: Event)
    requires NodeInv(n, h) && LimitInv(sh) && ev.Confirm?
    ensures var r := ApsdeDataConfirm(n, sh, ev.id, ev.status, ev.env); AnswersTimer(n, sh.maxAsduDataSize, ev, r.node, r.outs)
  {
    if Credits(n, ev) && n.state == WaitPageSpacing {
      var c := OnPage(n, ev);
      CreditKeeps(n, c, h);
      if Due(c, ev.env) { DueAnswered(c, sh, Credited(h), ev.env); } else { PagingCounts(c, sh, ev.env); }
    }
  }

  /** In every run: when a page is due, the page timer or the confirm of the last block sends
      exactly one of these answers, unless the stack rejects it or the device asked for blocks of
      no data; a page that no longer names the node's file aborts it. Otherwise they send no
      block. */
  lemma {:induction false} PageAnswered(os: seq<Occurrence>, o: Occurrence, k: nat)
    requires Possible(Run(os), o) && k < |Run(os).nodes|
    ensures var r := ReachOf(Run(os), o, k);
      r.Reached? && (r.ev.Visit? || r.ev.Confirm?) ==>
        AnswersTimer(Run(os).nodes[k], Run(os).shared.maxAsduDataSize, r.ev, Advance(Run(os), o).nodes[k], OutsOf(Run(os), o, k))
  {
    Reachable(os);
    var n, h := Run(os).nodes[k], Histories(os)[k];
    match ReachOf(Run(os), o, k)
    case Untouched =>
    case Reached(ev, sh, now) =>
      if ev.Visit? { VisitAnswered(n, sh, h, ev); }
      if ev.Confirm? { ConfirmAnswered(n, sh, h, ev); }
  }

  // ---- page requests ----

  /** The page as the device asked for it, the spacing between 20 and 500. */
  predicate PageAsAsked(payload: seq<u8>, fileVersion: u32, req: ImageBlockReq) {
    && req.manufacturerCode == Get16(payload, 1) && req.imageType == Get16(payload, 3)
    && req.fileVersion == (if Get32(payload, 5) == 0xFFFF_FFFF then fileVersion else Get32(payload, 5))
    && req.offset == Get32(payload, 9) && req.maxDataSize == Get8(payload, 13)
    && req.pageSize == Get16(payload, 14) && req.pageBytesDone == 0
    && 20 <= req.responseSpacing <= 500
    && (20 <= Get16(payload, 16) <= 500 ==> req.responseSpacing == Get16(payload, 16))
    && (Get16(payload, 16) < 20 ==> req.responseSpacing == 20) && (Get16(payload, 16) > 500 ==> req.responseSpacing == 500)
  }

  predicate AnswersPageRequest(n: NodeData, ev: Event, r: Result, page: Page)
    requires ev.PageReq?
  {
    if !ev.enabled then r.outs == [] && r.node == n.(lastZclCmd := 0x04)
    else if n.state == Abort then
      && r.node.state == Abort
      && r.outs == if ev.tx.Rejected? then [] else [Reply(DefaultResponse(ev.seqNo, 0x04, 0x95), ev.tx.id)]
    else
      && r.outs == [] && r.node.state == WaitPageSpacing && r.shared.pageTimer && !Pending(r.node)
      && r.node.reqSequenceNumber == ev.seqNo && PageAsAsked(ev.payload, n.file.fileVersion, r.node.imgBlockReq)
      && page.Page? && page.req == r.node.imgBlockReq && page.raw == n.rawFile && page.seqNo == ev.seqNo
  }

  /** In every run: a page request is not answered itself. It begins the page that was asked for,
      unless pages are switched off, or the node was aborted, which it is told. */
  lemma {:induction false} PageRequestAnswered(os: seq<Occurrence>, o: Occurrence, k: nat)
    requires Possible(Run(os), o) && k < |Run(os).nodes| && o.AtNode? && o.k == k && o.ev.PageReq?
    ensures var q := Advance(Run(os), o);
      AnswersPageRequest(Run(os).nodes[k], o.ev, Result(q.nodes[k], q.shared, OutsOf(Run(os), o, k)),
                         Runs.Follow(Run(os), Histories(os), o)[k].page)
  {}

  // ---- queries ----

  /** The lamps with these versions must not be given an older image. */
  predicate OldLamp(payload: seq<u8>, fileVersion: u32) {
    && Get16(payload, 1) == 0x1135 && Get16(payload, 3) == 0
    && 0x2000_0050 <= Get32(payload, 5) <= 0x2000_0054 && fileVersion < 0x2010_00EB
  }

  /** A node without data looks for a file while fewer than four devices are upgrading; without
      one its file loses its elements. */
  predicate LooksUp(n: NodeData, full: bool, load: Load, m: NodeData) {
    if n.hasData || full then m.file == n.file && m.hasData == n.hasData
    else if load.Load? then m.file == load.file && m.hasData == load.ok
    else m.file == n.file.(subElements := []) && !m.hasData
  }

  /** What a query of a device comes to; m is the node after it. */
  predicate Offerable(n: NodeData, payload: seq<u8>, m: NodeData) {
    n.state != Abort && !OldLamp(payload, m.file.fileVersion) && n.permitUpdate && m.hasData && m.file.raw != []
  }

  /** No answer: four devices are upgrading, or an OSRAM device has nothing to expect. */
  predicate Unanswerable(n: NodeData, full: bool, m: NodeData) {
    (n.state != Abort && full) || (n.ext / 0x100_0000_0000 == 0x84_1826 && !(n.permitUpdate && m.hasData))
  }

  predicate QueryBodyIs(n: NodeData, payload: seq<u8>, m: NodeData, q: QueryBody) {
    && (q.NewImage? <==> Offerable(n, payload, m))
    && (q.NewImage? ==>
          && q.manufacturerCode == m.file.manufacturerCode && q.imageType == m.file.imageType
          && q.fileVersion == m.file.fileVersion && q.size == m.file.totalImageSize)
    && (q == QueryStatus(0x95) <==>
          n.state == Abort || (!Offerable(n, payload, m) && !OldLamp(payload, m.file.fileVersion) && Get16(payload, 1) == 0x112E))
    && (q.QueryStatus? ==> q.status == 0x95 || q.status == 0x98)
  }

  predicate AnswersQuery(n: NodeData, ev: Event, full: bool, m: NodeData, outs: seq<Out>)
    requires ev.Query?
  {
    && LooksUp(n, full, ev.load, m)
    && (outs == [] <==> ev.tx.Rejected? || Unanswerable(n, full, m))
    && m.state == (if outs == [] then Idle else WaitConfirm)
    && (outs != [] ==>
          && |outs| == 1 && outs[0].Reply? && outs[0].id == ev.tx.id && outs[0].frame.QueryResponse?
          && outs[0].frame.seqNo == ev.seqNo && QueryBodyIs(n, ev.payload, m, outs[0].frame.query))
    && m.rawFile == (if Offerable(n, ev.payload, m) && !full then m.file.raw else n.rawFile)
  }

  /** What the node knows of the device is what the query said. */
  predicate Told(m: NodeData, payload: seq<u8>) {
    m.manufacturerId == Get16(payload, 1) && m.imageType == Get16(payload, 3) && m.softwareVersion == Get32(payload, 5)
  }

  lemma {:induction false} QueryComposed(m: NodeData, sh: Shared, payload: seq<u8>)
    requires Told(m, payload) && (m.state == Abort || |sh.tracker.entries| < 4)
    ensures QueryBodyIs(m, payload, m, QueryAnswer(m, sh))
  {}

  lemma {:induction false} QueryReplied(m: NodeData, sh: Shared, now: nat, payload: seq<u8>, tx: Tx)
    requires Told(m, payload)
    ensures var q := QueryNextImageResponse(m, sh, now, tx); var full := |sh.tracker.entries| >= 4;
      && (q.ok <==> q.outs != [])
      && (q.outs == [] <==> tx.Rejected? || Unanswerable(m, full, m))
      && (q.outs != [] ==> q.outs == [Reply(QueryResponse(m.reqSequenceNumber, QueryAnswer(m, sh)), tx.id)])
  {}

  lemma {:induction false} QueryCaptures(m: NodeData, sh: Shared, now: nat, payload: seq<u8>, tx: Tx)
    requires Told(m, payload)
    ensures var q := QueryNextImageResponse(m, sh, now, tx);
      var captures := Offerable(m, payload, m) && |sh.tracker.entries| < 4;
      && q.node == m.(rawFile := if captures then m.file.raw else m.rawFile, apsRequestId := q.node.apsRequestId, zclCommandId := q.node.zclCommandId)
      && q.shared == sh.(tracker := if captures then Mark(sh.tracker, m.ext, now) else sh.tracker)
  {}

  lemma {:induction false} QueryAsked(n: NodeData, sh: Shared, ev: Event, m: NodeData)
    requires ev.Query? && m == CheckForUpdate(ReadQuery(Heard(n, QUERY_NEXT_IMAGE_REQUEST), ev.seqNo, ev.payload), sh, ev.load)
    ensures LooksUp(n, |sh.tracker.entries| >= 4, ev.load, m) && Told(m, ev.payload)
    ensures m.state == n.state && m.permitUpdate == n.permitUpdate && m.rawFile == n.rawFile && m.ext == n.ext
    ensures m.reqSequenceNumber == ev.seqNo
  {}

  /** The answer to the query, once the node knows what was asked. */
  lemma {:induction false} QueryDone(m: NodeData, sh: Shared, now: nat, ev: Event, r: Result)
    requires ev.Query? && Told(m, ev.payload) && m.reqSequenceNumber == ev.seqNo
    requires var q := QueryNextImageResponse(m, sh, now, ev.tx);
      r == Result(q.node.(state := if q.ok then WaitConfirm else Idle), q.shared, q.outs)
    ensures var full := |sh.tracker.entries| >= 4;
      && AnswersQuery(m, ev.(load := Load(m.file, m.hasData)), full, r.node, r.outs)
      && r.node.file == m.file && r.node.hasData == m.hasData
      && r.shared == sh.(tracker := if Offerable(m, ev.payload, m) && !full then Mark(sh.tracker, m.ext, now) else sh.tracker)
  {
    QueryReplied(m, sh, now, ev.payload, ev.tx);
    QueryCaptures(m, sh, now, ev.payload, ev.tx);
    if m.state == Abort || |sh.tracker.entries| < 4 { QueryComposed(m, sh, ev.payload); }
  }

  lemma {:induction false} QueryAnswered(n: NodeData, sh: Shared, now: nat, ev: Event)
    requires ev.Query? && (|ev.payload| == 9 || |ev.payload| == 11)
    ensures var r := Step(n, sh, now, ev);
      && AnswersQuery(n, ev, |sh.tracker.entries| >= 4, r.node, r.outs)
      && r.shared == sh.(tracker := if Offerable(n, ev.payload, r.node) && |sh.tracker.entries| < 4
                                    then Mark(sh.tracker, n.ext, now) else sh.tracker)
  {
    var m := CheckForUpdate(ReadQuery(Heard(n, QUERY_NEXT_IMAGE_REQUEST), ev.seqNo, ev.payload), sh, ev.load);
    QueryAsked(n, sh, ev, m);
    QueryDone(m, sh, now, ev, Step(n, sh, now, ev));
  }

  /** In every run: a query of 9 or 11 bytes is answered with the ids, the version and the total
      size of the node's file after it, if and only if the node was not aborted, the update is
      permitted, there is an image, and the device is none of the old lamps; with ABORT exactly
      when the node was aborted, or for one vendor; with NO_IMAGE otherwise; and not at all exactly
      when four devices are upgrading, an OSRAM device has nothing to expect, or the stack
      rejects. Any other query changes nothing. */
  lemma {:induction false} QueryRequestAnswered(os: seq<Occurrence>, o: Occurrence, k: nat)
    requires Possible(Run(os), o) && k < |Run(os).nodes| && o.AtNode? && o.k == k && o.ev.Query?
    ensures var p, q := Run(os), Advance(Run(os), o);
      if |o.ev.payload| == 9 || |o.ev.payload| == 11
      then AnswersQuery(p.nodes[k], o.ev, |p.shared.tracker.entries| >= 4, q.nodes[k], OutsOf(p, o, k))
      else q.nodes[k] == p.nodes[k].(lastZclCmd := 0x01) && q.shared == p.shared && OutsOf(p, o, k) == []
  {
    if |o.ev.payload| == 9 || |o.ev.payload| == 11 { QueryAnswered(Run(os).nodes[k], Run(os).shared, o.now, o.ev); }
  }

  // ---- the end ----

  predicate AnswersEnd(n: NodeData, ev: Event, m: NodeData, outs: seq<Out>)
    requires ev.UpgradeEnd?
  {
    var status := Get8(ev.payload, 0);
    var ended := status == 0 && n.imgBlockReq.offset != 0;
    && m.state == Idle && m.hasData == (n.hasData && !ended) && m.permitUpdate == (n.permitUpdate && !ended)
    && m.upgradeEndReq == UpgradeEndReq(status, Get16(ev.payload, 1), Get16(ev.payload, 3), Get32(ev.payload, 5))
    && (outs == [] <==> ev.tx.Rejected?)
    && (outs != [] ==>
          && |outs| == 1 && outs[0].Reply? && outs[0].id == ev.tx.id && outs[0].frame.seqNo == ev.seqNo
          && (outs[0].frame.UpgradeEndResponse? <==> ended)
          && (ended ==> outs[0].frame.end == m.upgradeEndReq && outs[0].frame.upgradeTime == ev.upgradeTime)
          && (!ended ==> outs[0].frame.DefaultResponse? && outs[0].frame.commandId == 0x06
                         && outs[0].frame.status == if status == 0 then 0x95 else 0))
  }

  /** In every run: an upgrade end request is answered with the time of the upgrade, which ends the
      permission and the data, if and only if it reports success on an image of which the offset
      is beyond the start; a success without that is answered with ABORT, and a failure is only
      acknowledged. */
  lemma {:induction false} EndAnswered(os: seq<Occurrence>, o: Occurrence, k: nat)
    requires Possible(Run(os), o) && k < |Run(os).nodes| && o.AtNode? && o.k == k && o.ev.UpgradeEnd?
    ensures AnswersEnd(Run(os).nodes[k], o.ev, Advance(Run(os), o).nodes[k], OutsOf(Run(os), o, k))
  {}

  // ---- reminders ----

  /** Some firmware must not be reminded. */
  predicate Remindable(n: NodeData) {
    n.manufacturerId == 0x1135 ==>
      && !(n.imageType == 4 && 0 < n.softwareVersion < 0x2010_00C4)
      && !(n.imageType == 2 && 0 < n.softwareVersion < 0x2000_00C8)
  }

  /** In every run: the device is reminded of a page that is overdue if and only if it was silent
      fewer than twice before, its firmware bears it and the stack takes it. */
  lemma {:induction false} SilenceAnswered(os: seq<Occurrence>, o: Occurrence, k: nat)
    requires Possible(Run(os), o) && o.PageTimer? && o.otauActive && k < |Run(os).nodes|
    requires FindsSilence(Run(os).nodes[k], ReachOf(Run(os), o, k).ev)
    ensures var outs := OutsOf(Run(os), o, k);
      && (outs == [] || outs == [Notify])
      && (outs == [Notify] <==> TallyOf(os, k).silences < 2 && Remindable(Run(os).nodes[k]) && o.visits[k].env.tx.Accepted?)
  {
    CountersAgree(os, k);
  }

  /** The Update click ends an abort. With data it permits the update and tells the device,
      firmware and stack permitting. */
  lemma {:induction false} ClickAnswered(n: NodeData, sh: Shared, now: nat, tx: Tx)
    ensures var r := Step(n, sh, now, UpdateClick(tx));
      && r.node == n.(state := Idle, permitUpdate := n.permitUpdate || n.hasData) && r.shared == sh
      && (r.outs == [] || r.outs == [Notify])
      && (r.outs == [Notify] <==> n.hasData && Remindable(n) && tx.Accepted?)
  {}

  // ---- who is aborted, who has data, who the device is ----

  /** The page is answered, and its ids are no longer those of the node's file. */
  predicate LosesFile(n: NodeData, ev: Event, outs: seq<Out>) {
    Tries(n, ev) && outs != [] && !Names(OnPage(n, ev).imgBlockReq, n.file)
  }

  predicate LiftsAbort(ev: Event) {
    match ev
    case BlockReq(_, _, _) => true
    case UpdateClick(_) => true
    case UpgradeEnd(_, _, _, _) => true
    case Query(_, payload, _, _) => |payload| == 9 || |payload| == 11
    case _ => false
  }

  lemma {:induction false} TimerAborts(n: NodeData, sh: Shared, now: nat, h: History, ev: Event)
    requires NodeInv(n, h) && LimitInv(sh) && (ev.Visit? || ev.Confirm?)
    ensures var r := Step(n, sh, now, ev); r.node.state == Abort <==> n.state == Abort || LosesFile(n, ev, r.outs)
  {
    if Tries(n, ev) {
      if ev.Visit? { VisitAnswered(n, sh, h, ev); } else { ConfirmAnswered(n, sh, h, ev); }
    } else if n.state == WaitPageSpacing {
      PagingCounts(OnPage(n, ev), sh, ev.env);
    }
  }

  lemma {:induction false} OthersAbort(n: NodeData, sh: Shared, now: nat, ev: Event)
    requires !ev.Visit? && !ev.Confirm?
    ensures Step(n, sh, now, ev).node.state == Abort <==> ev.AbortClick? || (n.state == Abort && !LiftsAbort(ev))
  {}

  /** In every run: a node is aborted by the Abort click, or by an answer to a page of another
      file, and stays so until a block request, a query, an upgrade end or the Update click. */
  lemma {:induction false} AbortedIff(os: seq<Occurrence>, o: Occurrence, k: nat)
    requires Possible(Run(os), o) && k < |Run(os).nodes| && ReachOf(Run(os), o, k).Reached?
    ensures var n, ev := Run(os).nodes[k], ReachOf(Run(os), o, k).ev;
      Advance(Run(os), o).nodes[k].state == Abort <==>
        ev.AbortClick? || LosesFile(n, ev, OutsOf(Run(os), o, k)) || (n.state == Abort && !LiftsAbort(ev))
  {
    Reachable(os);
    match ReachOf(Run(os), o, k)
    case Reached(ev, sh, now) =>
      if ev.Visit? || ev.Confirm? {
        TimerAborts(Run(os).nodes[k], sh, now, Histories(os)[k], ev);
      } else {
        OthersAbort(Run(os).nodes[k], sh, now, ev);
      }
  }

  predicate SameDevice(n: NodeData, m: NodeData) {
    && m.hasData == n.hasData && m.manufacturerId == n.manufacturerId && m.softwareVersion == n.softwareVersion
    && m.imageType == n.imageType && m.ext == n.ext && m.upgradeEndReq == n.upgradeEndReq
  }

  lemma {:induction false} BlockKeepsDevice(n: NodeData, asdu: u8, env: Env)
    ensures SameDevice(n, ImageBlockResponse(n, asdu, env).node)
  {}

  lemma {:induction false} TryKeepsDevice(n: NodeData, sh: Shared, env: Env)
    ensures SameDevice(n, ImagePageResponse(n, sh, env).node)
  {
    BlockKeepsDevice(n, sh.maxAsduDataSize, env);
  }

  /** A load, a selected file, a cleanup, an accepted end and its confirm decide whether there is
      data; nothing else does. */
  lemma {:induction false} DataIff(n: NodeData, sh: Shared, now: nat, ev: Event)
    ensures Step(n, sh, now, ev).node.hasData <==>
      match ev
      case Query(_, payload, load, _) =>
        n.hasData || ((|payload| == 9 || |payload| == 11) && |sh.tracker.entries| < 4 && load.Load? && load.ok)
      case UpgradeEnd(_, payload, _, _) => n.hasData && !(Get8(payload, 0) == 0 && n.imgBlockReq.offset != 0)
      case Confirm(id, status, _) =>
        n.hasData && !(status == ConfirmSuccess && n.state != Abort && n.apsRequestId == id && n.zclCommandId == 0x07)
      case Cleanup(expired) => n.hasData && !expired
      case FileSelect(_, ok) => n.hasData || ok
      case _ => n.hasData
  {
    if ev.Confirm? || ev.Visit? { TryKeepsDevice(OnPage(n, ev), sh, ev.env); }
  }

  /** The end that was reported last holds until the next query or request. */
  predicate EndKept(n: NodeData, ev: Event, m: NodeData) {
    m.upgradeEndReq ==
      if ev.UpgradeEnd? then
        UpgradeEndReq(Get8(ev.payload, 0), Get16(ev.payload, 1), Get16(ev.payload, 3), Get32(ev.payload, 5))
      else if ev.BlockReq? || AcceptsPage(n, ev) || (ev.Query? && (|ev.payload| == 9 || |ev.payload| == 11)) then
        UpgradeEndReq(0, 0, 0, 0)
      else n.upgradeEndReq
  }

  predicate Identity(n: NodeData, ev: Event, m: NodeData) {
    var asks := ev.Query? && (|ev.payload| == 9 || |ev.payload| == 11);
    && m.ext == n.ext && EndKept(n, ev, m)
    && m.manufacturerId == (if asks then Get16(ev.payload, 1) else n.manufacturerId)
    && m.softwareVersion == (if asks then Get32(ev.payload, 5) else n.softwareVersion)
    && m.imageType == (if asks || ev.BlockReq? || AcceptsPage(n, ev) then Get16(ev.payload, 3)
                       else if ev.UpgradeEnd? && n.hasData then n.imgBlockReq.imageType else n.imageType)
  }

  lemma {:induction false} TimerIdentity(n: NodeData, sh: Shared, now: nat, ev: Event)
    requires ev.Confirm? || ev.Visit?
    ensures Identity(n, ev, Step(n, sh, now, ev).node)
  {
    TryKeepsDevice(OnPage(n, ev), sh, ev.env);
  }

  lemma {:induction false} BlockIdentity(n: NodeData, sh: Shared, now: nat, ev: Event)
    requires ev.BlockReq?
    ensures Identity(n, ev, Step(n, sh, now, ev).node)
  {
    BlockKeepsDevice(AskedBlock(Heard(n, IMAGE_BLOCK_REQUEST), ev.seqNo, ev.payload), sh.maxAsduDataSize, ev.env);
  }

  lemma {:induction false} QueryIdentity(n: NodeData, sh: Shared, now: nat, ev: Event)
    requires ev.Query?
    ensures Identity(n, ev, Step(n, sh, now, ev).node)
  {}

  lemma {:induction false} OthersIdentity(n: NodeData, sh: Shared, now: nat, ev: Event)
    requires !ev.Confirm? && !ev.Visit? && !ev.BlockReq? && !ev.Query?
    ensures Identity(n, ev, Step(n, sh, now, ev).node)
  {}

  /** What the program takes the device for: manufacturer and version as of its last query, and the
      image type as of its last query or request, or of its last block request once it ends. */
  lemma {:induction false} IdentityKept(n: NodeData, sh: Shared, now: nat, ev: Event)
    ensures Identity(n, ev, Step(n, sh, now, ev).node)
  {
    if ev.Confirm? || ev.Visit? {
      TimerIdentity(n, sh, now, ev);
    } else if ev.BlockReq? {
      BlockIdentity(n, sh, now, ev);
    } else if ev.Query? {
      QueryIdentity(n, sh, now, ev);
    } else {
      OthersIdentity(n, sh, now, ev);
    }
  }

  /** The file after an event, with its elements: a load or a selection replaces it; without a load, an
      accepted end and a cleanup clear its elements. */
  predicate FileKept(n: NodeData, full: bool, ev: Event, f: FileData) {
    match ev
    case Query(_, payload, load, _) =>
      if (|payload| != 9 && |payload| != 11) || n.hasData || full then f == n.file
      else if load.Load? then f == load.file
      else f == n.file.(subElements := [])
    case UpgradeEnd(_, payload, _, _) =>
      f == if Get8(payload, 0) == 0 && n.imgBlockReq.offset != 0 then n.file.(subElements := []) else n.file
    case Cleanup(expired) => f == if n.hasData && expired then n.file.(subElements := []) else n.file
    case FileSelect(file, _) => f == file
    case _ => f == n.file
  }

  lemma {:induction false} TimerKeepsFile(n: NodeData, sh: Shared, now: nat, ev: Event)
    requires ev.Confirm? || ev.Visit?
    ensures Step(n, sh, now, ev).node.file == n.file
  {
    TryKeepsFile(OnPage(n, ev), sh, ev.env);
  }

  lemma {:induction false} TryKeepsFile(n: NodeData, sh: Shared, env: Env)
    ensures ImagePageResponse(n, sh, env).node.file == n.file
  {}

  lemma {:induction false} FileAfter(n: NodeData, sh: Shared, now: nat, ev: Event)
    ensures FileKept(n, |sh.tracker.entries| >= 4, ev, Step(n, sh, now, ev).node.file)
  {
    if ev.Confirm? || ev.Visit? { TimerKeepsFile(n, sh, now, ev); }
  }

  // ---- what is awaited, and under which number ----

  predicate SendsReply(outs: seq<Out>) {
    outs != [] && outs[0].Reply?
  }

  /** An event that ends the waiting for a confirm: the confirm, a new request, an overdue page. */
  predicate EndsWaiting(n: NodeData, ev: Event) {
    match ev
    case BlockReq(_, _, _) => true
    case PageReq(_, _, enabled, _) => enabled && n.state != Abort
    case Confirm(id, _, _) => n.state != Abort && n.apsRequestId == id
    case Visit(_, expired) => expired && n.state == WaitNextRequest && n.imgPageRequestRetry < 4
    case _ => false
  }

  /** A reply that the stack took is awaited until its confirm comes or something ends the waiting;
      the numbers of the requests are answered, and go up by one with each credited block. */
  predicate Bookkeeping(n: NodeData, ev: Event, m: NodeData, outs: seq<Out>) {
    && (if SendsReply(outs) then m.apsRequestId == outs[0].id && m.zclCommandId == CommandId(outs[0].frame)
        else if EndsWaiting(n, ev) then !Pending(m)
        else m.apsRequestId == n.apsRequestId && m.zclCommandId == n.zclCommandId)
    && m.reqSequenceNumber ==
         (match ev
          case BlockReq(seqNo, _, _) => seqNo
          case PageReq(seqNo, _, enabled, _) => if enabled then seqNo else n.reqSequenceNumber
          case Query(seqNo, payload, _, _) => if |payload| == 9 || |payload| == 11 then seqNo else n.reqSequenceNumber
          case UpgradeEnd(seqNo, _, _, _) => seqNo
          case _ => if Credits(n, ev) then (n.reqSequenceNumber + 1) % 0x100 else n.reqSequenceNumber)
  }

  predicate Tried(n: NodeData, m: NodeData, outs: seq<Out>) {
    && m.reqSequenceNumber == n.reqSequenceNumber
    && (if SendsReply(outs) then m.apsRequestId == outs[0].id && m.zclCommandId == CommandId(outs[0].frame)
        else outs == [] && m.apsRequestId == n.apsRequestId && m.zclCommandId == n.zclCommandId)
  }

  lemma {:induction false} BlockTried(n: NodeData, asdu: u8, env: Env)
    ensures var s := ImageBlockResponse(n, asdu, env); Tried(n, s.node, s.outs)
  {}

  lemma {:induction false} TryBooks(n: NodeData, sh: Shared, env: Env)
    ensures var p := ImagePageResponse(n, sh, env); Tried(n, p.node, p.outs)
  {
    BlockTried(n, sh.maxAsduDataSize, env);
  }

  lemma {:induction false} TimerBooks(n: NodeData, sh: Shared, now: nat, ev: Event)
    requires ev.Visit? || ev.Confirm?
    ensures var r := Step(n, sh, now, ev); Bookkeeping(n, ev, r.node, r.outs)
  {
    TryBooks(OnPage(n, ev), sh, ev.env);
  }

  lemma {:induction false} BlockBooks(n: NodeData, sh: Shared, now: nat, ev: Event)
    requires ev.BlockReq?
    ensures var r := Step(n, sh, now, ev); Bookkeeping(n, ev, r.node, r.outs)
  {
    BlockTried(AskedBlock(Heard(n, IMAGE_BLOCK_REQUEST), ev.seqNo, ev.payload), sh.maxAsduDataSize, ev.env);
  }

  lemma {:induction false} QueryBooks(n: NodeData, sh: Shared, now: nat, ev: Event)
    requires ev.Query?
    ensures var r := Step(n, sh, now, ev); Bookkeeping(n, ev, r.node, r.outs)
  {}

  lemma {:induction false} OthersBook(n: NodeData, sh: Shared, now: nat, ev: Event)
    requires !ev.Visit? && !ev.Confirm? && !ev.BlockReq? && !ev.Query?
    ensures var r := Step(n, sh, now, ev); Bookkeeping(n, ev, r.node, r.outs)
  {}

  lemma {:induction false} Awaits(n: NodeData, sh: Shared, now: nat, ev: Event)
    ensures var r := Step(n, sh, now, ev); Bookkeeping(n, ev, r.node, r.outs)
  {
    if ev.Visit? || ev.Confirm? {
      TimerBooks(n, sh, now, ev);
    } else if ev.BlockReq? {
      BlockBooks(n, sh, now, ev);
    } else if ev.Query? {
      QueryBooks(n, sh, now, ev);
    } else {
      OthersBook(n, sh, now, ev);
    }
  }

  // ---- the device as it told about itself ----

  /** The payload of the last query of node k that had a length of 9 or 11 bytes, if any. */
  function LastQuery(os: seq<Occurrence>, k: nat): seq<u8>
    decreases |os|
  {
    if os == [] then []
    else
      var init, o := os[..|os| - 1], os[|os| - 1];
      if o.AtNode? && o.k == k < |Run(init).nodes| && o.ev.Query? && (|o.ev.payload| == 9 || |o.ev.payload| == 11)
      then o.ev.payload else LastQuery(init, k)
  }

  lemma {:induction false} NoQueryBefore(os: seq<Occurrence>, k: nat)
    requires k >= |Run(os).nodes|
    ensures LastQuery(os, k) == []
    decreases |os|
  {
    if os != [] { NoQueryBefore(os[..|os| - 1], k); }
  }

  /** In every run: manufacturer and version are those of the last query, and 0 before the first. */
  lemma {:induction false} KnownFromQuery(os: seq<Occurrence>, k: nat)
    requires k < |Run(os).nodes|
    ensures var n, q := Run(os).nodes[k], LastQuery(os, k);
      n.manufacturerId == Get16(q, 1) && n.softwareVersion == Get32(q, 5)
    decreases |os|
  {
    if os != [] {
      var init, o := os[..|os| - 1], os[|os| - 1];
      var p := Run(init);
      if k < |p.nodes| {
        KnownFromQuery(init, k);
        if Possible(p, o) {
          match ReachOf(p, o, k)
          case Untouched =>
          case Reached(ev, sh, now) => IdentityKept(p.nodes[k], sh, now, ev);
        }
      } else {
        NoQueryBefore(init, k);
      }
    }
  }
}
