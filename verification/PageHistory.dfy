/** What an observer at the radio stack notes down about one node, and the invariant that ties
    the node's bookkeeping to it. */
module PageHistory {
  import opened Bytes
  import opened FileFormat
  import opened Sequences
  import opened Transfer

  /** A reply handed to the stack; nth counts the blocks of the current page credited before. */
  datatype Sent = Sent(frame: Frame, id: u8, nth: nat)

  /** The last accepted page request: its fields, its sequence number, the image captured at
      that time, where its part of the log and of the credits begins, and how many image
      notifies the page timer has sent since. */
  datatype Page =
    | NoPage
    | Page(req: ImageBlockReq, seqNo: u8, raw: ByteArray, firstSent: nat, firstCredit: nat, notifies: nat)

  /** All replies in order, the positions of the block responses that were credited, and the
      current page. */
  datatype History = History(log: seq<Sent>, credits: seq<nat>, page: Page)

  const EMPTY := History([], [], NoPage)

  /** A success confirm that the node books as a delivered block. */
  predicate Credits(n: NodeData, ev: Event) {
    ev.Confirm? && ev.status == ConfirmSuccess && Matches(n, ev.id) && n.zclCommandId == IMAGE_BLOCK_RESPONSE
  }

  predicate AcceptsPage(n: NodeData, ev: Event) {
    ev.PageReq? && ev.enabled && n.state != Abort
  }

  /** Blocks of the current page credited so far. */
  function PageCredits(h: History): nat {
    if h.page.Page? && h.page.firstCredit <= |h.credits| then |h.credits| - h.page.firstCredit else 0
  }

  /** A credit is booked on the last reply, a page request starts a page. */
  function Book(h: History, n: NodeData, ev: Event): History {
    if Credits(n, ev) && h.log != [] then
      h.(credits := h.credits + [|h.log| - 1])
    else if AcceptsPage(n, ev) then
      h.(page := Page(ReadPageReq(n.imgBlockReq, n.file, ev.payload), ev.seqNo, n.rawFile, |h.log|, |h.credits|, 0))
    else h
  }

  /** Notes down what the step handed to the stack; a step hands over at most one thing. */
  function Note(h: History, ev: Event, outs: seq<Out>): History {
    if outs == [] then h
    else
      match outs[0]
      case Reply(frame, id) => h.(log := h.log + [Sent(frame, id, PageCredits(h))])
      case Notify => if ev.Visit? && h.page.Page? then h.(page := h.page.(notifies := h.page.notifies + 1)) else h
  }

  function Observe(h: History, n: NodeData, ev: Event, outs: seq<Out>): History {
    Note(Book(h, n, ev), ev, outs)
  }

  // ---- naming a file ----

  /** The request names the file. */
  predicate Names(req: ImageBlockReq, f: FileData) {
    req.manufacturerCode == f.manufacturerCode && req.imageType == f.imageType && req.fileVersion == f.fileVersion
  }

  /** So does the payload of a block or page request; the version may be left open. */
  predicate AsksFor(payload: seq<u8>, f: FileData) {
    && Get16(payload, 1) == f.manufacturerCode && Get16(payload, 3) == f.imageType
    && (Get32(payload, 5) == f.fileVersion || Get32(payload, 5) == 0xFFFF_FFFF)
  }

  predicate SameIds(req: ImageBlockReq, other: ImageBlockReq) {
    && req.manufacturerCode == other.manufacturerCode && req.imageType == other.imageType && req.fileVersion == other.fileVersion
  }

  // ---- reading the history ----

  predicate IsBlock(s: Sent) {
    s.frame.BlockResponse? && s.frame.block.Block?
  }

  function DataAt(log: seq<Sent>, i: nat): seq<u8> {
    if i < |log| && IsBlock(log[i]) then log[i].frame.block.data else []
  }

  /** The data of the credited blocks, in order of their credits. */
  function Collected(log: seq<Sent>, credits: seq<nat>): seq<u8> {
    if credits == [] then [] else Collected(log, credits[..|credits| - 1]) + DataAt(log, Last(credits))
  }

  /** Every reply from position i on is a block with status SUCCESS. */
  predicate AllBlocks(log: seq<Sent>, i: nat) {
    forall j :: i <= j < |log| ==> IsBlock(log[j])
  }

  // ---- the invariant ----

  /** No reply is credited twice: the credited positions increase and name block responses. */
  predicate Booked(h: History) {
    && (forall i, j :: 0 <= i < j < |h.credits| ==> h.credits[i] < h.credits[j])
    && (forall i :: 0 <= i < |h.credits| ==> h.credits[i] < |h.log| && h.log[h.credits[i]].frame.BlockResponse?)
  }

  predicate Pending(n: NodeData) {
    n.apsRequestId != INVALID_APS_REQ_ID
  }

  /** The awaited confirm is that of the last reply, which is not credited yet; if it is a
      block, the booked size is the size of its data. */
  predicate PendingInv(n: NodeData, h: History) {
    Pending(n) ==>
      && h.log != []
      && Last(h.log).id == n.apsRequestId && CommandId(Last(h.log).frame) == n.zclCommandId
      && (h.credits != [] ==> Last(h.credits) < |h.log| - 1)
      && (IsBlock(Last(h.log)) ==> n.imgBlockReq.maxDataSize == |Last(h.log).frame.block.data|)
  }

  /** The node serves a page or waits for the next one. */
  predicate Active(n: NodeData) {
    n.state == WaitPageSpacing || n.state == WaitNextRequest
  }

  predicate PageShape(n: NodeData, h: History) {
    && h.page.Page?
    && h.page.firstSent <= |h.log| && h.page.firstCredit <= |h.credits|
    && (forall i :: h.page.firstCredit <= i < |h.credits| ==> h.page.firstSent <= h.credits[i])
    && n.imgBlockReq.pageSize == h.page.req.pageSize && SameIds(n.imgBlockReq, h.page.req)
    && n.imgBlockReq.maxDataSize <= h.page.req.maxDataSize
    && n.rawFile == h.page.raw
    && (n.state == WaitNextRequest ==> n.imgBlockReq.pageBytesDone >= n.imgBlockReq.pageSize)
    && (Pending(n) ==> n.state == WaitPageSpacing && n.zclCommandId == IMAGE_BLOCK_RESPONSE && h.page.firstSent < |h.log|)
  }

  /** The k-th block of a page and its retransmissions carry the request's number plus k. */
  predicate PageNumbers(n: NodeData, h: History) {
    h.page.Page? ==>
      && n.reqSequenceNumber == (h.page.seqNo + PageCredits(h)) % 0x100
      && (forall i :: h.page.firstSent <= i < |h.log| ==>
            h.log[i].frame.BlockResponse? && h.log[i].frame.seqNo == (h.page.seqNo + h.log[i].nth) % 0x100)
  }

  predicate PageRetries(n: NodeData, h: History) {
    && (n.state == WaitPageSpacing ==> 0 <= n.imgBlockResponseRetry < MAX_IMG_BLOCK_RSP_RETRY)
    && (Pending(n) && n.state == WaitPageSpacing ==> n.imgBlockResponseRetry == 0)
    && 0 <= n.imgPageRequestRetry < MAX_IMG_PAGE_REQ_RETRY
    && (h.page.Page? ==> h.page.notifies <= Min(n.imgPageRequestRetry, 2))
  }

  /** got is the image from start on, done bytes long. */
  predicate Delivered(raw: ByteArray, start: nat, done: nat, got: seq<u8>) {
    |got| == done && (done > 0 ==> start + done <= |raw| && got == raw[start..start + done])
  }

  /** The block holds the image bytes that follow the first done ones, and fits the page. */
  predicate Continues(raw: ByteArray, start: nat, done: nat, size: nat, b: BlockBody) {
    && b.Block? && b.offset == start + done && done + |b.data| <= size
    && start + done + |b.data| <= |raw| && b.data == raw[start + done..start + done + |b.data|]
  }

  /** As long as every answer was a block: the credited data is exactly the requested stretch of
      the captured image, and the block on its way continues it. */
  predicate PageDelivery(n: NodeData, h: History) {
    h.page.Page? && h.page.firstSent <= |h.log| && h.page.firstCredit <= |h.credits| && AllBlocks(h.log, h.page.firstSent) ==>
      var start, done := h.page.req.offset, n.imgBlockReq.pageBytesDone;
      && n.imgBlockReq.offset == start + done
      && done <= h.page.req.pageSize
      && Delivered(h.page.raw, start, done, Collected(h.log, h.credits[h.page.firstCredit..]))
      && (Pending(n) && h.page.firstSent < |h.log| && Last(h.log).frame.BlockResponse? ==>
            Continues(h.page.raw, start, done, h.page.req.pageSize, Last(h.log).frame.block))
  }

  /** A page request whose counters cannot wrap. */
  predicate Sane(req: ImageBlockReq) {
    req.maxDataSize >= 1 && req.pageSize + req.maxDataSize <= 0x1_0000
  }

  /** Every credit moves a sane page forward, also the credit of an error answer. */
  predicate PageProgress(n: NodeData, h: History) {
    h.page.Page? && Sane(h.page.req) ==>
      && n.imgBlockReq.maxDataSize >= 1
      && PageCredits(h) <= n.imgBlockReq.pageBytesDone && PageCredits(h) <= h.page.req.pageSize
      && (Pending(n) && n.state == WaitPageSpacing ==> n.imgBlockReq.pageBytesDone < h.page.req.pageSize)
  }

  predicate PageInv(n: NodeData, h: History) {
    PageShape(n, h) && PageNumbers(n, h) && PageRetries(n, h) && PageDelivery(n, h) && PageProgress(n, h)
  }

  predicate NodeInv(n: NodeData, h: History) {
    Booked(h) && PendingInv(n, h) && (Active(n) ==> PageInv(n, h))
  }

  /** The payload limit is the normal or the safe one. */
  predicate LimitInv(sh: Shared) {
    sh.maxAsduDataSize == MAX_ASDU_SIZE || sh.maxAsduDataSize == MAX_SAFE_ASDU_SIZE
  }

  // ---- sending a block ----

  /** What a data block promises: it is the requested place of the captured image, within the
      image, the requested size, the payload limit and the vendor limit. */
  predicate GoodBlock(n: NodeData, asdu: u8, b: BlockBody) {
    && b.Block? && b.offset == n.imgBlockReq.offset
    && b.manufacturerCode == n.file.manufacturerCode && b.imageType == n.file.imageType && b.fileVersion == n.file.fileVersion
    && b.offset + |b.data| <= |n.rawFile| && b.data == n.rawFile[b.offset..b.offset + |b.data|]
    && |b.data| <= n.imgBlockReq.maxDataSize
    && ZCL_HEADER_SIZE + IMAGE_BLOCK_RSP_HEADER_SIZE + |b.data| <= asdu
    && (n.manufacturerId == VENDOR_DDEL || n.manufacturerId == VENDOR_BUSCH_JAEGER ==> |b.data| <= 40)
  }

  lemma {:induction false} BlockSizeBounds(n: NodeData, asdu: u8)
    requires n.imgBlockReq.offset < |n.rawFile|
    requires asdu == MAX_ASDU_SIZE || asdu == MAX_SAFE_ASDU_SIZE
    ensures var size := BlockSize(n, asdu); var req := n.imgBlockReq;
      && size <= req.maxDataSize && req.offset + size <= |n.rawFile| && 17 + size <= asdu
      && (n.manufacturerId == VENDOR_DDEL || n.manufacturerId == VENDOR_BUSCH_JAEGER ==> size <= 40)
      && (n.lastZclCmd == IMAGE_PAGE_REQUEST && req.pageBytesDone < req.pageSize ==> size <= req.pageSize - req.pageBytesDone)
      && (n.lastZclCmd != IMAGE_PAGE_REQUEST || req.pageBytesDone < req.pageSize ==> (size == 0 <==> req.maxDataSize == 0))
  {}

  /** n became m by sending the block response f under request id. */
  predicate BlockSent(n: NodeData, m: NodeData, asdu: u8, f: Frame, id: u8) {
    && m == n.(state := m.state, apsRequestId := id, zclCommandId := IMAGE_BLOCK_RESPONSE,
               imgBlockReq := n.imgBlockReq.(maxDataSize := m.imgBlockReq.maxDataSize))
    && (m.state == n.state || m.state == Abort)
    && m.imgBlockReq.maxDataSize <= n.imgBlockReq.maxDataSize
    && f.BlockResponse? && f.seqNo == n.reqSequenceNumber
    && (f.block.Block? ==>
          && GoodBlock(n, asdu, f.block) && m.imgBlockReq.maxDataSize == |f.block.data| && Names(n.imgBlockReq, n.file)
          && m.state == n.state && n.permitUpdate && n.hasData)
  }

  /** n became m by a block response that was not sent. */
  predicate BlockNotSent(n: NodeData, m: NodeData) {
    && m == n.(state := m.state, imgBlockReq := n.imgBlockReq.(maxDataSize := m.imgBlockReq.maxDataSize))
    && (m.state == n.state || m.state == Abort)
    && m.imgBlockReq.maxDataSize <= n.imgBlockReq.maxDataSize
  }

  /** The effect of a block response on the node, whether or not the stack takes it. */
  lemma {:induction false} BlockResponseEffect(n: NodeData, asdu: u8, env: Env)
    requires asdu == MAX_ASDU_SIZE || asdu == MAX_SAFE_ASDU_SIZE
    ensures var s := ImageBlockResponse(n, asdu, env);
      if s.ok then
        && env.tx.Accepted? && |s.outs| == 1 && s.outs[0].Reply? && s.outs[0].id == env.tx.id
        && s.outs == [Reply(s.outs[0].frame, s.outs[0].id)]
        && BlockSent(n, s.node, asdu, s.outs[0].frame, s.outs[0].id)
      else s.outs == [] && BlockNotSent(n, s.node)
  {
    if n.imgBlockReq.offset < |n.rawFile| { BlockSizeBounds(n, asdu); }
  }

  /** A block fits what is left of the page and is not empty. */
  predicate FitsPage(n: NodeData, f: Frame) {
    f.BlockResponse? && f.block.Block? ==>
      1 <= |f.block.data| <= n.imgBlockReq.pageSize - n.imgBlockReq.pageBytesDone
  }

  lemma {:induction false} PageBlockEffect(n: NodeData, asdu: u8, env: Env)
    requires asdu == MAX_ASDU_SIZE || asdu == MAX_SAFE_ASDU_SIZE
    requires n.lastZclCmd == IMAGE_PAGE_REQUEST && n.imgBlockReq.pageBytesDone < n.imgBlockReq.pageSize
    ensures var s := ImageBlockResponse(n, asdu, env);
      && (n.imgBlockReq.maxDataSize >= 1 ==> s.node.imgBlockReq.maxDataSize >= 1)
      && (s.ok ==> FitsPage(n, s.outs[0].frame))
  {
    if n.imgBlockReq.offset < |n.rawFile| { BlockSizeBounds(n, asdu); }
  }

  // ---- the invariant is kept by sending ----

  /** The log with one more reply. */
  function Append(h: History, f: Frame, id: u8): History {
    h.(log := h.log + [Sent(f, id, PageCredits(h))])
  }

  /** A reply that the stack took becomes the pending one. */
  lemma {:induction false} SendKeeps(n: NodeData, h: History, f: Frame, id: u8)
    requires Booked(h)
    requires n.apsRequestId == id && n.zclCommandId == CommandId(f)
    requires f.BlockResponse? && f.block.Block? ==> n.imgBlockReq.maxDataSize == |f.block.data|
    ensures Booked(Append(h, f, id)) && PendingInv(n, Append(h, f, id))
  {}

  /** Data collected does not change when the log grows. */
  lemma {:induction false} CollectedGrow(log: seq<Sent>, s: Sent, credits: seq<nat>)
    requires forall i :: 0 <= i < |credits| ==> credits[i] < |log|
    ensures Collected(log + [s], credits) == Collected(log, credits)
  {
    if credits != [] {
      CollectedGrow(log, s, credits[..|credits| - 1]);
    }
  }

  lemma {:induction false} CollectedCredit(log: seq<Sent>, credits: seq<nat>, from: nat, i: nat)
    requires from <= |credits|
    ensures Collected(log, (credits + [i])[from..]) == Collected(log, credits[from..]) + DataAt(log, i)
  {
    assert (credits + [i])[from..] == credits[from..] + [i];
    assert (credits[from..] + [i])[..|credits[from..]|] == credits[from..];
  }

  lemma {:induction false} SendDelivery(n: NodeData, m: NodeData, h: History, asdu: u8, f: Frame, id: u8)
    requires Booked(h) && PageShape(n, h) && PageDelivery(n, h) && !Pending(n)
    requires BlockSent(n, m, asdu, f, id) && FitsPage(n, f)
    ensures PageDelivery(m, Append(h, f, id))
  {
    var g := Append(h, f, id);
    CollectedGrow(h.log, Last(g.log), h.credits[h.page.firstCredit..]);
    if AllBlocks(g.log, g.page.firstSent) {
      assert forall j :: g.page.firstSent <= j < |h.log| ==> h.log[j] == g.log[j];
      assert AllBlocks(h.log, h.page.firstSent);
      assert IsBlock(Last(g.log));
    }
  }

  /** One more block on the page: sent, not yet credited. */
  lemma {:induction false} PageSendKeeps(n: NodeData, m: NodeData, h: History, asdu: u8, f: Frame, id: u8)
    requires Booked(h) && PageInv(n, h) && !Pending(n)
    requires BlockSent(n, m, asdu, f, id) && FitsPage(n, f) && n.imgBlockReq.pageBytesDone < n.imgBlockReq.pageSize
    requires m.state == n.state == WaitPageSpacing
    requires n.imgBlockReq.maxDataSize >= 1 ==> m.imgBlockReq.maxDataSize >= 1
    ensures PageInv(m.(imgBlockResponseRetry := 0), Append(h, f, id))
  {
    SendDelivery(n, m, h, asdu, f, id);
    DeliveryIgnoresRetry(m, Append(h, f, id), 0);
  }

  lemma {:induction false} DeliveryIgnoresRetry(n: NodeData, h: History, retry: int)
    requires PageDelivery(n, h)
    ensures PageDelivery(n.(imgBlockResponseRetry := retry), h)
  {}

  /** The next block of a page is tried. */
  lemma {:induction false} PageTryKeeps(n: NodeData, asdu: u8, h: History, env: Env)
    requires NodeInv(n, h) && n.state == WaitPageSpacing && !Pending(n) && (asdu == MAX_ASDU_SIZE || asdu == MAX_SAFE_ASDU_SIZE)
    requires n.lastZclCmd == IMAGE_PAGE_REQUEST && n.imgBlockReq.pageBytesDone < n.imgBlockReq.pageSize
    ensures var s := ImageBlockResponse(n, asdu, env);
      if s.ok then
        var g := Append(h, s.outs[0].frame, s.outs[0].id);
        && NodeInvBut(s.node.(imgBlockResponseRetry := 0), g)
        && (Active(s.node) ==> PageInv(s.node.(imgBlockResponseRetry := 0), g))
      else !Pending(s.node) && PageInv(s.node.(state := WaitPageSpacing, imgBlockResponseRetry := 0), h)
  {
    var s := ImageBlockResponse(n, asdu, env);
    BlockResponseEffect(n, asdu, env);
    PageBlockEffect(n, asdu, env);
    if s.ok {
      var f, id := s.outs[0].frame, s.outs[0].id;
      SendKeeps(s.node, h, f, id);
      if s.node.state != Abort { PageSendKeeps(n, s.node, h, asdu, f, id); }
    } else {
      FailedTryKeeps(n, s.node, h);
    }
  }

  /** A page response from page spacing: the page invariant is kept, or the node leaves the
      page, or one more failure is counted. */
  lemma {:induction false} PageResponseKeeps(n: NodeData, sh: Shared, h: History, env: Env, ev: Event)
    requires NodeInv(n, h) && LimitInv(sh) && n.state == WaitPageSpacing
    ensures var p := ImagePageResponse(n, sh, env); var g := Note(h, ev, p.outs);
      && NodeInvBut(p.node, g)
      && (p.ok && Active(p.node) ==> PageInv(p.node, g))
      && (!p.ok ==> p.outs == [] && p.node.state == WaitPageSpacing && FailedTry(n, p.node, h))
  {
    if n.lastZclCmd == IMAGE_PAGE_REQUEST && !Pending(n) {
      if n.imgBlockReq.pageBytesDone >= n.imgBlockReq.pageSize {
        PageDone(n, h);
      } else if !env.spacing {
        PageTryKeeps(n, sh.maxAsduDataSize, h, env);
        BlockResponseEffect(n, sh.maxAsduDataSize, env);
      }
    }
  }

  lemma {:induction false} PageDone(n: NodeData, h: History)
    requires NodeInv(n, h) && n.state == WaitPageSpacing && !Pending(n) && n.imgBlockReq.pageBytesDone >= n.imgBlockReq.pageSize
    ensures NodeInv(n.(state := WaitNextRequest), h)
  {}

  /** The part of the invariant that holds in every state. */
  predicate NodeInvBut(n: NodeData, h: History) {
    Booked(h) && PendingInv(n, h)
  }

  /** m is n after a page response that failed: unchanged, or with one more failure counted and
      otherwise as good as before. */
  predicate FailedTry(n: NodeData, m: NodeData, h: History) {
    || m == n
    || (!Pending(m) && m.imgBlockResponseRetry == n.imgBlockResponseRetry + 1 && PageInv(m.(imgBlockResponseRetry := 0), h))
  }

  lemma {:induction false} FailedTryKeeps(n: NodeData, m: NodeData, h: History)
    requires PageInv(n, h) && n.state == WaitPageSpacing && !Pending(n) && BlockNotSent(n, m)
    requires n.imgBlockReq.maxDataSize >= 1 ==> m.imgBlockReq.maxDataSize >= 1
    ensures PageInv(m.(state := WaitPageSpacing, imgBlockResponseRetry := 0), h)
  {}
}
