/** The image transfer engine on values: one node's upgrade state, the plugin state it shares
    with the other nodes, and what each handler makes of them. The radio stack, the clocks and
    the switches of the control panel are inputs of each step. Server side of the OTA Upgrade
    cluster, ZigBee Cluster Library Specification 07-5123, section 11.13. */
module Transfer {
  import opened Bytes
  import opened FileFormat
  import opened Tracking

  const INVALID_APS_REQ_ID := 0x100

  const QUERY_NEXT_IMAGE_REQUEST: u8 := 0x01
  const QUERY_NEXT_IMAGE_RESPONSE: u8 := 0x02
  const IMAGE_BLOCK_REQUEST: u8 := 0x03
  const IMAGE_PAGE_REQUEST: u8 := 0x04
  const IMAGE_BLOCK_RESPONSE: u8 := 0x05
  const UPGRADE_END_REQUEST: u8 := 0x06
  const UPGRADE_END_RESPONSE: u8 := 0x07
  const DEFAULT_RESPONSE: u8 := 0x0B

  const OTAU_SUCCESS: u8 := 0x00
  const OTAU_MALFORMED_COMMAND: u8 := 0x80
  const OTAU_ABORT: u8 := 0x95
  const OTAU_NO_IMAGE_AVAILABLE: u8 := 0x98

  const VENDOR_BUSCH_JAEGER: u16 := 0x112E
  const VENDOR_DDEL: u16 := 0x1135
  const DONT_CARE_FILE_VERSION: u32 := 0xFFFF_FFFF

  const MAX_ASDU_SIZE: u8 := 82
  const ZCL_HEADER_SIZE := 3
  const IMAGE_BLOCK_RSP_HEADER_SIZE := 14
  const MAX_SAFE_ASDU_SIZE: u8 := 57
  const NO_ACK_THRESHOLD := 3
  const MAX_IMG_PAGE_REQ_RETRY := 5
  const MAX_IMG_BLOCK_RSP_RETRY := 10

  datatype NodeState = Idle | Busy | WaitPageSpacing | WaitNextRequest | WaitConfirm | Error | Abort

  datatype ImageBlockReq = ImageBlockReq(
    fieldControl: u8,
    manufacturerCode: u16,
    imageType: u16,
    fileVersion: u32,
    offset: u32,
    maxDataSize: u8,
    pageBytesDone: u16,
    pageSize: u16,
    responseSpacing: u16)

  datatype UpgradeEndReq = UpgradeEndReq(status: u8, manufacturerCode: u16, imageType: u16, fileVersion: u32)

  /** The upgrade end request of a node that has not ended. */
  const NO_END := UpgradeEndReq(0, 0, 0, 0)

  datatype NodeData = NodeData(
    ext: u64,
    state: NodeState,
    lastZclCmd: u8,
    softwareVersion: u32,
    imageType: u16,
    manufacturerId: u16,
    hasData: bool,
    permitUpdate: bool,
    apsRequestId: u16,
    zclCommandId: u8,
    reqSequenceNumber: u8,
    file: FileData,
    rawFile: ByteArray,
    imgBlockReq: ImageBlockReq,
    upgradeEndReq: UpgradeEndReq,
    imgPageRequestRetry: int,
    imgBlockResponseRetry: int)

  /** What the nodes share: the payload limit, the no-ack counter, the page timer and the
      activity tracker. */
  datatype Shared = Shared(maxAsduDataSize: u8, noAckErrors: u8, pageTimer: bool, tracker: Tracker)

  // ---- frames ----

  datatype BlockBody =
    | Block(manufacturerCode: u16, imageType: u16, fileVersion: u32, offset: u32, data: seq<u8>)
    | BlockStatus(status: u8)

  datatype QueryBody =
    | NewImage(manufacturerCode: u16, imageType: u16, fileVersion: u32, size: u32)
    | QueryStatus(status: u8)

  datatype Frame =
    | BlockResponse(seqNo: u8, block: BlockBody)
    | QueryResponse(seqNo: u8, query: QueryBody)
    | UpgradeEndResponse(seqNo: u8, end: UpgradeEndReq, upgradeTime: u32)
    | DefaultResponse(seqNo: u8, commandId: u8, status: u8)

  function CommandId(f: Frame): u8 {
    match f
    case BlockResponse(_, _) => IMAGE_BLOCK_RESPONSE
    case QueryResponse(_, _) => QUERY_NEXT_IMAGE_RESPONSE
    case UpgradeEndResponse(_, _, _) => UPGRADE_END_RESPONSE
    case DefaultResponse(_, _, _) => DEFAULT_RESPONSE
  }

  /** What a step hands to the radio stack: a reply accepted under a request id, or an image
      notify. */
  datatype Out = Reply(frame: Frame, id: u8) | Notify

  // ---- the environment ----

  /** The stack's answer to a data request. */
  datatype Tx = Rejected | Accepted(id: u8)

  /** One sending opportunity: the stack's answer, whether the last response is less than ten
      seconds old, and whether the packet spacing since it is not over yet. */
  datatype Env = Env(tx: Tx, recent: bool, spacing: bool)

  datatype ConfirmStatus = ConfirmSuccess | ConfirmNoAck | ConfirmOther

  /** An update file that was read: the file it left behind and whether reading succeeded. */
  datatype Load = NoFile | Load(file: FileData, ok: bool)

  // ---- the image block response ----

  function MaxDataSize(asdu: u8): int {
    Min(50, asdu - (ZCL_HEADER_SIZE + IMAGE_BLOCK_RSP_HEADER_SIZE))
  }

  /** Data size of the next block, in the widths the code computes it with. */
  function BlockSize(n: NodeData, asdu: u8): u8
    requires n.imgBlockReq.offset < |n.rawFile|
  {
    var capped := if n.imgBlockReq.maxDataSize > MaxDataSize(asdu) then MaxDataSize(asdu) % 0x100 else n.imgBlockReq.maxDataSize;
    var vendor := if (n.manufacturerId == VENDOR_DDEL || n.manufacturerId == VENDOR_BUSCH_JAEGER) && capped > 40 then 40 else capped;
    var left := Min(vendor, |n.rawFile| - n.imgBlockReq.offset);
    if n.lastZclCmd == IMAGE_PAGE_REQUEST
    then Min(left, (n.imgBlockReq.pageSize - n.imgBlockReq.pageBytesDone) % 0x1_0000_0000)
    else left
  }

  datatype Answer = NoAnswer | Answer(body: BlockBody)

  /** The block the node is answered with, and the node after composing it. */
  function AnswerBlock(n: NodeData, asdu: u8): (NodeData, Answer) {
    var req := n.imgBlockReq;
    if req.fileVersion != n.file.fileVersion || req.imageType != n.file.imageType
       || req.manufacturerCode != n.file.manufacturerCode then
      (n.(state := Abort), Answer(BlockStatus(OTAU_ABORT)))
    else if n.state == Abort then
      (n, Answer(BlockStatus(OTAU_ABORT)))
    else if !n.permitUpdate || !n.hasData then
      (n, Answer(BlockStatus(OTAU_NO_IMAGE_AVAILABLE)))
    else if req.offset < |n.rawFile| then
      var size := BlockSize(n, asdu);
      if n.lastZclCmd == IMAGE_PAGE_REQUEST && size == 0 then (n, NoAnswer)
      else
        (n.(imgBlockReq := req.(maxDataSize := size)),
         Answer(Block(n.file.manufacturerCode, n.file.imageType, n.file.fileVersion, req.offset,
                      n.rawFile[req.offset..req.offset + size])))
    else
      (n, Answer(BlockStatus(OTAU_MALFORMED_COMMAND)))
  }

  /** The node and the frames after an attempt to send, and whether the stack took it. */
  datatype Sending = Sending(node: NodeData, outs: seq<Out>, ok: bool)

  /** Hands a frame to the stack and remembers its request id and command. */
  function Send(n: NodeData, f: Frame, tx: Tx): Sending {
    match tx
    case Rejected => Sending(n, [], false)
    case Accepted(id) => Sending(n.(apsRequestId := id, zclCommandId := CommandId(f)), [Reply(f, id)], true)
  }

  function ImageBlockResponse(n: NodeData, asdu: u8, env: Env): Sending {
    if n.apsRequestId != INVALID_APS_REQ_ID && env.recent then Sending(n, [], false)
    else
      var (m, answer) := AnswerBlock(n, asdu);
      match answer
      case NoAnswer => Sending(m, [], false)
      case Answer(body) => Send(m, BlockResponse(m.reqSequenceNumber, body), env.tx)
  }

  // ---- handlers ----

  /** What a handler leaves behind. */
  datatype Result = Result(node: NodeData, shared: Shared, outs: seq<Out>)

  function StartPageTimer(sh: Shared): Shared {
    sh.(pageTimer := true)
  }

  function DontCare(fileVersion: u32, file: FileData): u32 {
    if fileVersion == DONT_CARE_FILE_VERSION then file.fileVersion else fileVersion
  }

  /** The six fields a block request and a page request start with. */
  function ReadBlockReq(req: ImageBlockReq, file: FileData, payload: seq<u8>): ImageBlockReq {
    req.(fieldControl := Get8(payload, 0),
         manufacturerCode := Get16(payload, 1),
         imageType := Get16(payload, 3),
         fileVersion := DontCare(Get32(payload, 5), file),
         offset := Get32(payload, 9),
         maxDataSize := Get8(payload, 13))
  }

  function ClampSpacing(spacing: u16): u16 {
    if spacing > 500 then 500 else if spacing < 20 then 20 else spacing
  }

  function ReadPageReq(req: ImageBlockReq, file: FileData, payload: seq<u8>): ImageBlockReq {
    ReadBlockReq(req, file, payload).(pageSize := Get16(payload, 14),
                                      responseSpacing := ClampSpacing(Get16(payload, 16)),
                                      pageBytesDone := 0)
  }

  /** The node once it has read a block request. */
  function AskedBlock(n: NodeData, seqNo: u8, payload: seq<u8>): NodeData {
    var req := ReadBlockReq(n.imgBlockReq, n.file, payload);
    n.(upgradeEndReq := NO_END,
       imgBlockReq := req,
       imageType := req.imageType,
       reqSequenceNumber := seqNo,
       apsRequestId := INVALID_APS_REQ_ID)
  }

  function ImageBlockRequest(n: NodeData, sh: Shared, now: nat, seqNo: u8, payload: seq<u8>, env: Env): Result {
    var s := ImageBlockResponse(AskedBlock(n, seqNo, payload), sh.maxAsduDataSize, env);
    Result(s.node.(state := if s.ok then WaitConfirm else Idle),
           sh.(tracker := Mark(sh.tracker, n.ext, now)), s.outs)
  }

  /** The node once it has read a page request. */
  function AskedPage(n: NodeData, seqNo: u8, payload: seq<u8>): NodeData {
    var req := ReadPageReq(n.imgBlockReq, n.file, payload);
    n.(upgradeEndReq := NO_END,
       imgBlockReq := req,
       imageType := req.imageType,
       reqSequenceNumber := seqNo,
       apsRequestId := INVALID_APS_REQ_ID,
       imgPageRequestRetry := 0,
       imgBlockResponseRetry := 0,
       state := WaitPageSpacing)
  }

  function ImagePageRequest(n: NodeData, sh: Shared, now: nat, seqNo: u8, payload: seq<u8>, enabled: bool, tx: Tx): Result {
    var sh' := sh.(tracker := Mark(sh.tracker, n.ext, now));
    if !enabled then Result(n, sh', [])
    else if n.state == Abort then
      var s := Send(n.(reqSequenceNumber := seqNo), DefaultResponse(seqNo, IMAGE_PAGE_REQUEST, OTAU_ABORT), tx);
      Result(s.node, sh', s.outs)
    else Result(AskedPage(n, seqNo, payload), StartPageTimer(sh'), [])
  }

  datatype Paging = Paging(node: NodeData, shared: Shared, outs: seq<Out>, ok: bool)

  function ImagePageResponse(n: NodeData, sh: Shared, env: Env): Paging {
    if n.lastZclCmd != IMAGE_PAGE_REQUEST then Paging(n, sh, [], false)
    else if n.state == Abort then
      var s := ImageBlockResponse(n, sh.maxAsduDataSize, env);
      Paging(s.node, sh, s.outs, s.ok)
    else if n.apsRequestId != INVALID_APS_REQ_ID && n.zclCommandId == IMAGE_BLOCK_RESPONSE then
      Paging(n, sh, [], true)
    else if n.imgBlockReq.pageBytesDone >= n.imgBlockReq.pageSize then
      Paging(n.(state := WaitNextRequest), StartPageTimer(sh), [], true)
    else if env.spacing then
      Paging(n.(state := WaitPageSpacing), StartPageTimer(sh), [], true)
    else
      var s := ImageBlockResponse(n, sh.maxAsduDataSize, env);
      if s.ok then Paging(s.node.(imgBlockResponseRetry := 0), sh, s.outs, true)
      else
        Paging(s.node.(state := WaitPageSpacing, imgBlockResponseRetry := s.node.imgBlockResponseRetry + 1),
               sh, s.outs, false)
  }

  /** The payload limit falls to the safe size after more than three no-ack errors, or after
      one on the first block of an image. */
  function CountNoAck(n: NodeData, sh: Shared, status: ConfirmStatus): Shared {
    if status == ConfirmNoAck then
      var errors := (sh.noAckErrors + 1) % 0x100;
      var lower := errors > NO_ACK_THRESHOLD || (n.zclCommandId == IMAGE_BLOCK_RESPONSE && n.imgBlockReq.offset == 0);
      sh.(noAckErrors := errors,
          maxAsduDataSize := if lower && sh.maxAsduDataSize > MAX_SAFE_ASDU_SIZE then MAX_SAFE_ASDU_SIZE else sh.maxAsduDataSize)
    else sh.(noAckErrors := 0)
  }

  function CreditBlock(n: NodeData): NodeData {
    var req := n.imgBlockReq;
    n.(imgBlockReq := req.(pageBytesDone := (req.pageBytesDone + req.maxDataSize) % 0x1_0000,
                           offset := (req.offset + req.maxDataSize) % 0x1_0000_0000),
       reqSequenceNumber := (n.reqSequenceNumber + 1) % 0x100)
  }

  /** The confirm is the one the node waits for. */
  predicate Matches(n: NodeData, id: u8) {
    n.state != Abort && n.apsRequestId == id
  }

  function ApsdeDataConfirm(n: NodeData, sh: Shared, id: u8, status: ConfirmStatus, env: Env): Result {
    if !Matches(n, id) then Result(n, sh, [])
    else
      var m := n.(apsRequestId := INVALID_APS_REQ_ID);
      if status != ConfirmSuccess then Result(m, CountNoAck(n, sh, status), [])
      else if n.zclCommandId == IMAGE_BLOCK_RESPONSE then
        var c := CreditBlock(m);
        if c.state == WaitPageSpacing then
          var p := ImagePageResponse(c, sh, env);
          Result(p.node, p.shared, p.outs)
        else Result(c, sh, [])
      else if n.zclCommandId == UPGRADE_END_RESPONSE then Result(m.(hasData := false), sh, [])
      else Result(m, sh, [])
  }

  predicate OsramAddress(ext: u64) {
    ext / 0x100_0000_0000 == 0x84_1826
  }

  /** Old FLS-H devices are not offered older FLS-PP images. */
  predicate FlsHException(n: NodeData) {
    && n.manufacturerId == VENDOR_DDEL && n.imageType == 0
    && 0x2000_0050 <= n.softwareVersion <= 0x2000_0054 && n.file.fileVersion < 0x2010_00EB
  }

  /** The query is answered with the image: it is permitted, present and not empty. */
  predicate OffersImage(n: NodeData, sh: Shared) {
    && n.state != Abort && |sh.tracker.entries| < OTAU_MAX_ACTIVE && !FlsHException(n)
    && n.permitUpdate && n.hasData && n.file.raw != []
  }

  function QueryAnswer(n: NodeData, sh: Shared): QueryBody {
    if n.state == Abort then QueryStatus(OTAU_ABORT)
    else if OffersImage(n, sh) then
      NewImage(n.file.manufacturerCode, n.file.imageType, n.file.fileVersion, n.file.totalImageSize)
    else if !FlsHException(n) && n.manufacturerId == VENDOR_BUSCH_JAEGER then QueryStatus(OTAU_ABORT)
    else QueryStatus(OTAU_NO_IMAGE_AVAILABLE)
  }

  datatype Querying = Querying(node: NodeData, shared: Shared, outs: seq<Out>, ok: bool)

  function QueryNextImageResponse(n: NodeData, sh: Shared, now: nat, tx: Tx): Querying {
    if n.state != Abort && |sh.tracker.entries| >= OTAU_MAX_ACTIVE then Querying(n, sh, [], false)
    else
      var offers := OffersImage(n, sh);
      var m := if offers then n.(rawFile := n.file.raw) else n;
      var sh' := if offers then sh.(tracker := Mark(sh.tracker, n.ext, now)) else sh;
      if OsramAddress(n.ext) && !(n.permitUpdate && n.hasData) then Querying(m, sh', [], false)
      else
        var s := Send(m, QueryResponse(n.reqSequenceNumber, QueryAnswer(n, sh)), tx);
        Querying(s.node, sh', s.outs, s.ok)
  }

  /** Looks for an update file when there is none and a tracker place is free. */
  function CheckForUpdate(n: NodeData, sh: Shared, load: Load): NodeData {
    if n.hasData || |sh.tracker.entries| >= OTAU_MAX_ACTIVE then n
    else
      match load
      case NoFile => n.(file := n.file.(subElements := []))
      case Load(file, ok) => n.(file := file, hasData := ok)
  }

  function ReadQuery(n: NodeData, seqNo: u8, payload: seq<u8>): NodeData {
    n.(upgradeEndReq := NO_END,
       reqSequenceNumber := seqNo,
       manufacturerId := Get16(payload, 1),
       imageType := Get16(payload, 3),
       softwareVersion := Get32(payload, 5))
  }

  function QueryNextImageRequest(n: NodeData, sh: Shared, now: nat, seqNo: u8, payload: seq<u8>, load: Load, tx: Tx): Result {
    if |payload| != 9 && |payload| != 11 then Result(n, sh, [])
    else
      var m := CheckForUpdate(ReadQuery(n, seqNo, payload), sh, load);
      var q := QueryNextImageResponse(m, sh, now, tx);
      Result(q.node.(state := if q.ok then WaitConfirm else Idle), q.shared, q.outs)
  }

  /** The upgrade end was accepted: the device reports success on an image it has fetched
      beyond its start. */
  predicate AcceptsEnd(n: NodeData, payload: seq<u8>) {
    Get8(payload, 0) == OTAU_SUCCESS && n.imgBlockReq.offset != 0
  }

  /** The node once it has read an upgrade end request. */
  function Ended(n: NodeData, seqNo: u8, payload: seq<u8>): NodeData {
    n.(upgradeEndReq := UpgradeEndReq(Get8(payload, 0), Get16(payload, 1), Get16(payload, 3), Get32(payload, 5)),
       imageType := if n.hasData then n.imgBlockReq.imageType else n.imageType,
       reqSequenceNumber := seqNo,
       state := Idle)
  }

  function UpgradeEndRequest(n: NodeData, sh: Shared, seqNo: u8, payload: seq<u8>, upgradeTime: u32, tx: Tx): Result {
    var m := Ended(n, seqNo, payload);
    if m.upgradeEndReq.status != OTAU_SUCCESS then
      var s := Send(m, DefaultResponse(seqNo, UPGRADE_END_REQUEST, 0), tx);
      Result(s.node, sh, s.outs)
    else if m.imgBlockReq.offset == 0 then
      var s := Send(m, DefaultResponse(seqNo, UPGRADE_END_REQUEST, OTAU_ABORT), tx);
      Result(s.node, sh, s.outs)
    else
      var done := m.(file := m.file.(subElements := []), hasData := false, permitUpdate := false);
      var s := Send(done, UpgradeEndResponse(seqNo, m.upgradeEndReq, upgradeTime), tx);
      Result(s.node, sh, s.outs)
  }

  /** Some firmware must not be sent an image notify. */
  predicate NotifyAllowed(n: NodeData) {
    n.manufacturerId == VENDOR_DDEL ==>
      && !(n.imageType == 4 && 0 < n.softwareVersion < 0x2010_00C4)
      && !(n.imageType == 2 && 0 < n.softwareVersion < 0x2000_00C8)
  }

  function UnicastImageNotify(n: NodeData, tx: Tx): seq<Out> {
    if NotifyAllowed(n) && tx.Accepted? then [Notify] else []
  }

  /** The next page request is overdue: the device is reminded twice, and given up at the fifth
      time. */
  function SilenceFound(n: NodeData, sh: Shared, tx: Tx): Result {
    var m := n.(imgPageRequestRetry := n.imgPageRequestRetry + 1);
    if m.imgPageRequestRetry >= MAX_IMG_PAGE_REQ_RETRY then Result(m.(state := Idle), sh, [])
    else
      Result(m.(apsRequestId := INVALID_APS_REQ_ID), sh,
             if m.imgPageRequestRetry < 3 then UnicastImageNotify(m, tx) else [])
  }

  /** The page timer's visit of one node; expired says that the device has been silent for a
      minute. */
  function PageTick(n: NodeData, sh: Shared, env: Env, expired: bool): Result {
    if n.state == WaitPageSpacing then
      var p := ImagePageResponse(n, sh, env);
      if !p.ok && p.node.imgBlockResponseRetry >= MAX_IMG_BLOCK_RSP_RETRY
      then Result(p.node.(state := Idle), p.shared, p.outs)
      else Result(p.node, p.shared, p.outs)
    else if n.state == WaitNextRequest && expired then SilenceFound(n, sh, env.tx)
    else Result(n, sh, [])
  }

  function UpdateClicked(n: NodeData, sh: Shared, tx: Tx): Result {
    if n.hasData then
      var m := n.(state := Idle, permitUpdate := true);
      Result(m, sh, UnicastImageNotify(m, tx))
    else Result(n.(state := Idle), sh, [])
  }

  // ---- one event at one node ----

  datatype Event =
    | Query(seqNo: u8, payload: seq<u8>, load: Load, tx: Tx)
    | BlockReq(seqNo: u8, payload: seq<u8>, env: Env)
    | PageReq(seqNo: u8, payload: seq<u8>, enabled: bool, tx: Tx)
    | UpgradeEnd(seqNo: u8, payload: seq<u8>, upgradeTime: u32, tx: Tx)
    | ProfileFrame(commandId: u8)
    | Confirm(id: u8, status: ConfirmStatus, env: Env)
    | Visit(env: Env, expired: bool)
    | Cleanup(expired: bool)
    | AbortClick
    | UpdateClick(tx: Tx)
    | FileSelect(file: FileData, ok: bool)

  /** Every received frame but a default response is remembered by its command id, also frames
      of no cluster. */
  function Heard(n: NodeData, commandId: u8): NodeData {
    n.(lastZclCmd := commandId)
  }

  function Step(n: NodeData, sh: Shared, now: nat, ev: Event): Result {
    match ev
    case Query(seqNo, payload, load, tx) =>
      QueryNextImageRequest(Heard(n, QUERY_NEXT_IMAGE_REQUEST), sh, now, seqNo, payload, load, tx)
    case BlockReq(seqNo, payload, env) =>
      ImageBlockRequest(Heard(n, IMAGE_BLOCK_REQUEST), sh, now, seqNo, payload, env)
    case PageReq(seqNo, payload, enabled, tx) =>
      ImagePageRequest(Heard(n, IMAGE_PAGE_REQUEST), sh, now, seqNo, payload, enabled, tx)
    case UpgradeEnd(seqNo, payload, upgradeTime, tx) =>
      UpgradeEndRequest(Heard(n, UPGRADE_END_REQUEST), sh, seqNo, payload, upgradeTime, tx)
    case ProfileFrame(commandId) => Result(Heard(n, commandId), sh, [])
    case Confirm(id, status, env) => ApsdeDataConfirm(n, sh, id, status, env)
    case Visit(env, expired) => PageTick(n, sh, env, expired)
    case Cleanup(expired) =>
      Result(if n.hasData && expired then n.(file := n.file.(subElements := []), hasData := false) else n, sh, [])
    case AbortClick => Result(n.(permitUpdate := false, state := Abort), sh, [])
    case UpdateClick(tx) => UpdateClicked(n, sh, tx)
    case FileSelect(file, ok) => Result(n.(file := file, hasData := n.hasData || ok), sh, [])
  }

  /** A node as it is created; fields the source leaves uninitialised are arbitrary. */
  predicate Fresh(n: NodeData) {
    && n.state == Idle && n.lastZclCmd == 0 && n.softwareVersion == 0 && n.imageType == 0 && n.manufacturerId == 0
    && !n.hasData && !n.permitUpdate && n.apsRequestId == INVALID_APS_REQ_ID
    && n.imgBlockReq == ImageBlockReq(0, 0, 0, 0, 0, 0, 0, 0, 0)
    && n.upgradeEndReq == NO_END && n.rawFile == []
  }
}
