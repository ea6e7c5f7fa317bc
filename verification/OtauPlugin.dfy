/** The node and plugin objects, updated in place by the handlers. Each handler does to the
    objects what its function in Transfer says, and an occurrence of any kind advances the
    plugin exactly as the state machine of Runs. */
module OtauPluginObjects {
  import opened Bytes
  import opened FileFormat
  import opened Tracking
  import opened Transfer
  import opened PageHistory
  import opened Runs
  import PageExchange

  class OtauNode {
    const ext: u64
    var state: NodeState
    var lastZclCmd: u8
    var softwareVersion: u32
    var imageType: u16
    var manufacturerId: u16
    var hasData: bool
    var permitUpdate: bool
    var apsRequestId: u16
    var zclCommandId: u8
    var reqSequenceNumber: u8
    var file: FileData
    var rawFile: ByteArray
    var imgBlockReq: ImageBlockReq
    var upgradeEndReq: UpgradeEndReq
    var imgPageRequestRetry: int
    var imgBlockResponseRetry: int

    ghost function View(): NodeData
      reads this
    {
      NodeData(ext, state, lastZclCmd, softwareVersion, imageType, manufacturerId, hasData, permitUpdate,
               apsRequestId, zclCommandId, reqSequenceNumber, file, rawFile, imgBlockReq, upgradeEndReq,
               imgPageRequestRetry, imgBlockResponseRetry)
    }

    /** A new node; n holds what the memory held in the fields that are not initialised. */
    constructor (n: NodeData)
      requires Fresh(n)
      ensures View() == n
    {
      ext := n.ext;
      state := Idle;
      lastZclCmd := 0;
      softwareVersion := 0;
      imageType := 0;
      manufacturerId := 0;
      hasData := false;
      permitUpdate := false;
      apsRequestId := INVALID_APS_REQ_ID;
      zclCommandId := n.zclCommandId;
      reqSequenceNumber := n.reqSequenceNumber;
      file := n.file;
      rawFile := [];
      imgBlockReq := ImageBlockReq(0, 0, 0, 0, 0, 0, 0, 0, 0);
      upgradeEndReq := UpgradeEndReq(0, 0, 0, 0);
      imgPageRequestRetry := n.imgPageRequestRetry;
      imgBlockResponseRetry := n.imgBlockResponseRetry;
    }

    /** Hands a frame to the stack and remembers its request id and command. */
    method ApsdeDataRequest(frame: Frame, tx: Tx) returns (ok: bool, outs: seq<Out>)
      modifies this`apsRequestId, this`zclCommandId
      ensures Sending(View(), outs, ok) == Send(old(View()), frame, tx)
    {
      match tx
      case Rejected =>
        return false, [];
      case Accepted(id) =>
        apsRequestId := id;
        zclCommandId := CommandId(frame);
        return true, [Reply(frame, id)];
    }

    method InvalidateUpdateEndRequest()
      modifies this`upgradeEndReq
      ensures upgradeEndReq == NO_END
    {
      upgradeEndReq := UpgradeEndReq(0, 0, 0, 0);
    }

    /** The six fields a block request and a page request start with. */
    method ReadBlockReq(payload: seq<u8>)
      modifies this`imgBlockReq
      ensures imgBlockReq == Transfer.ReadBlockReq(old(imgBlockReq), file, payload)
    {
      var fileVersion := Get32(payload, 5);
      if fileVersion == DONT_CARE_FILE_VERSION {
        fileVersion := file.fileVersion;
      }
      imgBlockReq := imgBlockReq.(fieldControl := Get8(payload, 0),
                                  manufacturerCode := Get16(payload, 1),
                                  imageType := Get16(payload, 3),
                                  fileVersion := fileVersion,
                                  offset := Get32(payload, 9),
                                  maxDataSize := Get8(payload, 13));
    }

    method AskBlock(seqNo: u8, payload: seq<u8>)
      modifies this
      ensures View() == AskedBlock(old(View()), seqNo, payload)
    {
      InvalidateUpdateEndRequest();
      ReadBlockReq(payload);
      imageType := imgBlockReq.imageType;
      reqSequenceNumber := seqNo;
      apsRequestId := INVALID_APS_REQ_ID;
    }

    method ReadPageReq(payload: seq<u8>)
      modifies this`imgBlockReq
      ensures imgBlockReq == Transfer.ReadPageReq(old(imgBlockReq), file, payload)
    {
      ReadBlockReq(payload);
      var spacing := Get16(payload, 16);
      if spacing > 500 {
        spacing := 500;
      } else if spacing < 20 {
        spacing := 20;
      }
      imgBlockReq := imgBlockReq.(pageSize := Get16(payload, 14), responseSpacing := spacing, pageBytesDone := 0);
    }

    method ReadPage(seqNo: u8, payload: seq<u8>)
      modifies this`reqSequenceNumber, this`upgradeEndReq, this`imgBlockReq, this`imageType
      ensures imgBlockReq == Transfer.ReadPageReq(old(imgBlockReq), file, payload) && imageType == imgBlockReq.imageType
      ensures reqSequenceNumber == seqNo && upgradeEndReq == NO_END
    {
      reqSequenceNumber := seqNo;
      InvalidateUpdateEndRequest();
      ReadPageReq(payload);
      imageType := imgBlockReq.imageType;
    }

    method AskPage(seqNo: u8, payload: seq<u8>)
      modifies this
      ensures View() == AskedPage(old(View()), seqNo, payload)
    {
      ReadPage(seqNo, payload);
      StartPage();
    }

    method StartPage()
      modifies this`apsRequestId, this`imgPageRequestRetry, this`imgBlockResponseRetry, this`state
      ensures apsRequestId == INVALID_APS_REQ_ID && imgPageRequestRetry == imgBlockResponseRetry == 0 && state == WaitPageSpacing
    {
      apsRequestId := INVALID_APS_REQ_ID;
      imgPageRequestRetry := 0;
      imgBlockResponseRetry := 0;
      state := WaitPageSpacing;
    }

    method AskImage(seqNo: u8, payload: seq<u8>)
      modifies this
      ensures View() == ReadQuery(old(View()), seqNo, payload)
    {
      InvalidateUpdateEndRequest();
      reqSequenceNumber := seqNo;
      manufacturerId := Get16(payload, 1);
      imageType := Get16(payload, 3);
      softwareVersion := Get32(payload, 5);
    }

    method End(seqNo: u8, payload: seq<u8>)
      modifies this
      ensures View() == Ended(old(View()), seqNo, payload)
    {
      upgradeEndReq := UpgradeEndReq(Get8(payload, 0), Get16(payload, 1), Get16(payload, 3), Get32(payload, 5));
      if hasData {
        imageType := imgBlockReq.imageType;
      }
      reqSequenceNumber := seqNo;
      state := Idle;
    }

    /** Books the confirmed block. */
    method Credit()
      modifies this`imgBlockReq, this`reqSequenceNumber
      ensures View() == CreditBlock(old(View()))
    {
      var req := imgBlockReq;
      imgBlockReq := req.(pageBytesDone := (req.pageBytesDone + req.maxDataSize) % 0x1_0000,
                          offset := (req.offset + req.maxDataSize) % 0x1_0000_0000);
      reqSequenceNumber := (reqSequenceNumber + 1) % 0x100;
    }

    /** The bytes of the captured image from offset on. */
    method CopyData(dataSize: u8) returns (data: seq<u8>)
      requires imgBlockReq.offset + dataSize <= |rawFile|
      ensures data == rawFile[imgBlockReq.offset..imgBlockReq.offset + dataSize]
    {
      data := [];
      var offset: nat := imgBlockReq.offset;
      var i := 0;
      while i < dataSize && offset < |rawFile|
        invariant 0 <= i <= dataSize && offset == imgBlockReq.offset + i
        invariant data == rawFile[imgBlockReq.offset..offset]
      {
        data := data + [rawFile[offset]];
        offset := offset + 1;
        i := i + 1;
      }
    }

    /** Data size of the next block. */
    method DataSize(asdu: u8) returns (dataSize: u8)
      requires imgBlockReq.offset < |rawFile|
      ensures dataSize == BlockSize(View(), asdu)
    {
      if imgBlockReq.maxDataSize > MaxDataSize(asdu) {
        dataSize := MaxDataSize(asdu) % 0x100;
      } else {
        dataSize := imgBlockReq.maxDataSize;
      }
      if (manufacturerId == VENDOR_DDEL || manufacturerId == VENDOR_BUSCH_JAEGER) && dataSize > 40 {
        dataSize := 40;
      }
      dataSize := Min(dataSize, |rawFile| - imgBlockReq.offset);
      if lastZclCmd == IMAGE_PAGE_REQUEST {
        dataSize := Min(dataSize, (imgBlockReq.pageSize - imgBlockReq.pageBytesDone) % 0x1_0000_0000);
      }
    }

    method ComposeBlock(asdu: u8) returns (answer: Answer)
      modifies this`state, this`imgBlockReq
      ensures (View(), answer) == AnswerBlock(old(View()), asdu)
    {
      if imgBlockReq.fileVersion != file.fileVersion || imgBlockReq.imageType != file.imageType
         || imgBlockReq.manufacturerCode != file.manufacturerCode {
        state := Abort;
        return Answer(BlockStatus(OTAU_ABORT));
      } else if state == Abort {
        return Answer(BlockStatus(OTAU_ABORT));
      } else if !permitUpdate || !hasData {
        return Answer(BlockStatus(OTAU_NO_IMAGE_AVAILABLE));
      } else if imgBlockReq.offset < |rawFile| {
        var dataSize := DataSize(asdu);
        if lastZclCmd == IMAGE_PAGE_REQUEST && dataSize == 0 {
          return NoAnswer;
        }
        // never acts: DataSize already stops at the end of the image
        var avail := |rawFile| - imgBlockReq.offset;
        if avail < dataSize {
          dataSize := avail;
        }
        var data := CopyData(dataSize);
        answer := Answer(Block(file.manufacturerCode, file.imageType, file.fileVersion, imgBlockReq.offset, data));
        imgBlockReq := imgBlockReq.(maxDataSize := dataSize);
      } else {
        return Answer(BlockStatus(OTAU_MALFORMED_COMMAND));
      }
    }

    method ImageBlockResponse(asdu: u8, env: Env) returns (ok: bool, outs: seq<Out>)
      modifies this`state, this`imgBlockReq, this`apsRequestId, this`zclCommandId
      ensures Sending(View(), outs, ok) == Transfer.ImageBlockResponse(old(View()), asdu, env)
    {
      if apsRequestId != INVALID_APS_REQ_ID && env.recent {
        return false, [];
      }
      var answer := ComposeBlock(asdu);
      if answer.NoAnswer? {
        return false, [];
      }
      ok, outs := ApsdeDataRequest(BlockResponse(reqSequenceNumber, answer.body), env.tx);
    }

    /** One try to send the next block of a page. */
    method TryBlock(asdu: u8, env: Env) returns (ok: bool, outs: seq<Out>)
      modifies this`state, this`imgBlockReq, this`apsRequestId, this`zclCommandId, this`imgBlockResponseRetry
      ensures var s := Transfer.ImageBlockResponse(old(View()), asdu, env);
        && ok == s.ok && outs == s.outs
        && View() == if ok then s.node.(imgBlockResponseRetry := 0)
                     else s.node.(state := WaitPageSpacing, imgBlockResponseRetry := s.node.imgBlockResponseRetry + 1)
    {
      ok, outs := ImageBlockResponse(asdu, env);
      if ok {
        imgBlockResponseRetry := 0;
      } else {
        state := WaitPageSpacing;
        imgBlockResponseRetry := imgBlockResponseRetry + 1;
      }
    }
  }

  class StdOtauPlugin {
    var nodes: seq<OtauNode>
    var maxAsduDataSize: u8
    var noAckErrors: u8
    var imagePageTimer: bool
    const tracker: ActivityTracker

    ghost predicate Valid()
      reads this
    {
      forall i, j :: 0 <= i < j < |nodes| ==> nodes[i] != nodes[j]
    }

    ghost function SharedView(): Shared
      reads this, tracker
    {
      Shared(maxAsduDataSize, noAckErrors, imagePageTimer, tracker.View())
    }

    ghost function Views(ns: seq<OtauNode>): (vs: seq<NodeData>)
      reads ns
    {
      seq(|ns|, k requires 0 <= k < |ns| reads ns => ns[k].View())
    }

    ghost function View(): Plugin
      reads this, tracker, nodes
    {
      Plugin(Views(nodes), SharedView())
    }

    constructor ()
      ensures Valid() && View() == INITIAL && fresh(tracker)
    {
      nodes := [];
      maxAsduDataSize := MAX_ASDU_SIZE;
      noAckErrors := 0;
      imagePageTimer := false;
      tracker := new ActivityTracker();
    }

    method StartPageTimer()
      modifies this`imagePageTimer
      ensures SharedView() == Transfer.StartPageTimer(old(SharedView()))
    {
      if !imagePageTimer {
        imagePageTimer := true;
      }
    }

    method ImageBlockRequest(node: OtauNode, now: nat, seqNo: u8, payload: seq<u8>, env: Env) returns (outs: seq<Out>)
      modifies node, tracker
      ensures Result(node.View(), SharedView(), outs) == Transfer.ImageBlockRequest(old(node.View()), old(SharedView()), now, seqNo, payload, env)
    {
      tracker.MarkOtauActivity(node.ext, now);
      node.AskBlock(seqNo, payload);
      var ok;
      ok, outs := node.ImageBlockResponse(maxAsduDataSize, env);
      node.state := if ok then WaitConfirm else Idle;
    }

    method ImagePageRequest(node: OtauNode, now: nat, seqNo: u8, payload: seq<u8>, enabled: bool, tx: Tx) returns (outs: seq<Out>)
      modifies this`imagePageTimer, node, tracker
      ensures Result(node.View(), SharedView(), outs) == Transfer.ImagePageRequest(old(node.View()), old(SharedView()), now, seqNo, payload, enabled, tx)
    {
      tracker.MarkOtauActivity(node.ext, now);
      if !enabled {
        return [];
      }
      if node.state == Abort {
        node.reqSequenceNumber := seqNo;
        var _, sent := node.ApsdeDataRequest(DefaultResponse(seqNo, IMAGE_PAGE_REQUEST, OTAU_ABORT), tx);
        return sent;
      }
      node.AskPage(seqNo, payload);
      StartPageTimer();
      return [];
    }

    method ImagePageResponse(node: OtauNode, env: Env) returns (ok: bool, outs: seq<Out>)
      modifies this`imagePageTimer, node
      ensures Paging(node.View(), SharedView(), outs, ok) == Transfer.ImagePageResponse(old(node.View()), old(SharedView()), env)
    {
      if node.lastZclCmd != IMAGE_PAGE_REQUEST {
        return false, [];
      }
      if node.state == Abort {
        ok, outs := node.ImageBlockResponse(maxAsduDataSize, env);
        return;
      }
      if node.apsRequestId != INVALID_APS_REQ_ID && node.zclCommandId == IMAGE_BLOCK_RESPONSE {
        return true, []; // a block is still unconfirmed
      }
      if node.imgBlockReq.pageBytesDone >= node.imgBlockReq.pageSize {
        node.state := WaitNextRequest;
        StartPageTimer();
        return true, [];
      }
      if env.spacing {
        node.state := WaitPageSpacing;
        StartPageTimer();
        return true, [];
      }
      ok, outs := node.TryBlock(maxAsduDataSize, env);
    }

    /** Watches for lost acknowledgements and lowers the payload limit. */
    method NoteFailedConfirm(node: OtauNode, status: ConfirmStatus)
      modifies this`noAckErrors, this`maxAsduDataSize
      ensures SharedView() == CountNoAck(node.View(), old(SharedView()), status)
    {
      if status == ConfirmNoAck {
        noAckErrors := (noAckErrors + 1) % 0x100;
        if noAckErrors > NO_ACK_THRESHOLD || (node.zclCommandId == IMAGE_BLOCK_RESPONSE && node.imgBlockReq.offset == 0) {
          if maxAsduDataSize > MAX_SAFE_ASDU_SIZE {
            maxAsduDataSize := MAX_SAFE_ASDU_SIZE;
          }
        }
      } else {
        noAckErrors := 0;
      }
    }

    method ApsdeDataConfirm(node: OtauNode, id: u8, status: ConfirmStatus, env: Env) returns (outs: seq<Out>)
      modifies this`imagePageTimer, this`noAckErrors, this`maxAsduDataSize, node
      ensures Result(node.View(), SharedView(), outs) == Transfer.ApsdeDataConfirm(old(node.View()), old(SharedView()), id, status, env)
    {
      outs := [];
      if node.state == Abort || node.apsRequestId != id {
        return;
      }
      node.apsRequestId := INVALID_APS_REQ_ID;
      if status != ConfirmSuccess {
        NoteFailedConfirm(node, status);
      } else if node.zclCommandId == IMAGE_BLOCK_RESPONSE {
        node.Credit();
        if node.state == WaitPageSpacing {
          var _, sent := ImagePageResponse(node, env);
          outs := sent;
        }
      } else if node.zclCommandId == UPGRADE_END_RESPONSE {
        node.hasData := false;
      }
    }

    method QueryNextImageResponse(node: OtauNode, now: nat, tx: Tx) returns (ok: bool, outs: seq<Out>)
      modifies node, tracker
      ensures Querying(node.View(), SharedView(), outs, ok) == Transfer.QueryNextImageResponse(old(node.View()), old(SharedView()), now, tx)
    {
      var body := QueryStatus(OTAU_NO_IMAGE_AVAILABLE);
      ghost var n, sh := node.View(), SharedView();
      if node.state == Abort {
        body := QueryStatus(OTAU_ABORT);
      } else if |tracker.entries| >= OTAU_MAX_ACTIVE {
        return false, [];
      } else if node.manufacturerId == VENDOR_DDEL && node.imageType == 0 && node.softwareVersion >= 0x2000_0050
                && node.softwareVersion <= 0x2000_0054 && node.file.fileVersion < 0x2010_00EB {
        body := QueryStatus(OTAU_NO_IMAGE_AVAILABLE);
      } else if node.permitUpdate && node.hasData && |node.file.raw| != 0 {
        node.rawFile := node.file.raw;
        body := NewImage(node.file.manufacturerCode, node.file.imageType, node.file.fileVersion, node.file.totalImageSize);
        tracker.MarkOtauActivity(node.ext, now);
      } else if node.manufacturerId == VENDOR_BUSCH_JAEGER {
        body := QueryStatus(OTAU_ABORT);
      }
      assert body == QueryAnswer(n, sh);
      if OsramAddress(node.ext) && !(node.permitUpdate && node.hasData) {
        return false, [];
      }
      ok, outs := node.ApsdeDataRequest(QueryResponse(node.reqSequenceNumber, body), tx);
    }

    method CheckForUpdate(node: OtauNode, load: Load)
      modifies node
      ensures node.View() == Transfer.CheckForUpdate(old(node.View()), SharedView(), load)
    {
      if !node.hasData && |tracker.entries| < OTAU_MAX_ACTIVE {
        node.file := node.file.(subElements := []);
        node.hasData := false;
        if load.Load? {
          node.file := load.file;
          node.hasData := load.ok;
        }
      }
    }

    method QueryNextImageRequest(node: OtauNode, now: nat, seqNo: u8, payload: seq<u8>, load: Load, tx: Tx) returns (outs: seq<Out>)
      modifies node, tracker
      ensures Result(node.View(), SharedView(), outs) == Transfer.QueryNextImageRequest(old(node.View()), old(SharedView()), now, seqNo, payload, load, tx)
    {
      if |payload| != 9 && |payload| != 11 {
        return [];
      }
      node.AskImage(seqNo, payload);
      CheckForUpdate(node, load);
      var ok;
      ok, outs := QueryNextImageResponse(node, now, tx);
      node.state := if ok then WaitConfirm else Idle;
    }

    method UpgradeEndRequest(node: OtauNode, seqNo: u8, payload: seq<u8>, upgradeTime: u32, tx: Tx) returns (outs: seq<Out>)
      modifies node
      ensures Result(node.View(), SharedView(), outs) == Transfer.UpgradeEndRequest(old(node.View()), SharedView(), seqNo, payload, upgradeTime, tx)
    {
      node.End(seqNo, payload);
      var ok;
      if node.upgradeEndReq.status == OTAU_SUCCESS {
        if node.imgBlockReq.offset == 0 {
          ok, outs := node.ApsdeDataRequest(DefaultResponse(seqNo, UPGRADE_END_REQUEST, OTAU_ABORT), tx);
          return;
        }
        node.file := node.file.(subElements := []);
        node.hasData := false;
        node.permitUpdate := false;
        ok, outs := node.ApsdeDataRequest(UpgradeEndResponse(seqNo, node.upgradeEndReq, upgradeTime), tx);
      } else {
        ok, outs := node.ApsdeDataRequest(DefaultResponse(seqNo, UPGRADE_END_REQUEST, 0), tx);
      }
    }

    method UnicastImageNotify(node: OtauNode, tx: Tx) returns (outs: seq<Out>)
      ensures outs == Transfer.UnicastImageNotify(node.View(), tx)
    {
      if node.manufacturerId == VENDOR_DDEL {
        if node.imageType == 4 {
          if node.softwareVersion > 0 && node.softwareVersion < 0x2010_00C4 {
            return [];
          }
        } else if node.imageType == 2 {
          if node.softwareVersion > 0 && node.softwareVersion < 0x2000_00C8 {
            return [];
          }
        }
      }
      if tx.Accepted? {
        return [Notify];
      }
      return [];
    }

    /** The page timer's visit of one node; refire says that the node was waiting. */
    method VisitNode(node: OtauNode, visit: VisitInput) returns (refire: bool, outs: seq<Out>)
      modifies this`imagePageTimer, node
      ensures Result(node.View(), SharedView(), outs) == PageTick(old(node.View()), old(SharedView()), visit.env, visit.expired)
      ensures refire == Active(old(node.View()))
    {
      refire, outs := false, [];
      if node.state == WaitPageSpacing {
        refire := true;
        var ok;
        ok, outs := ImagePageResponse(node, visit.env);
        if !ok {
          if node.imgBlockResponseRetry >= MAX_IMG_BLOCK_RSP_RETRY {
            node.state := Idle;
          }
        }
      } else if node.state == WaitNextRequest {
        refire := true;
        if visit.expired {
          node.imgPageRequestRetry := node.imgPageRequestRetry + 1;
          if node.imgPageRequestRetry >= MAX_IMG_PAGE_REQ_RETRY {
            node.state := Idle;
          } else {
            node.apsRequestId := INVALID_APS_REQ_ID;
            if node.imgPageRequestRetry < 3 {
              outs := UnicastImageNotify(node, visit.env.tx);
            }
          }
        }
      }
    }

    // ---- what arrives from the stack and the control panel ----

    /** A received frame: remembered by its command, then handed to its handler. */
    method ApsdeDataIndication(node: OtauNode, ev: Event, now: nat) returns (outs: seq<Out>)
      requires ev.Query? || ev.BlockReq? || ev.PageReq? || ev.UpgradeEnd? || ev.ProfileFrame?
      modifies this`imagePageTimer, node, tracker
      ensures Result(node.View(), SharedView(), outs) == Step(old(node.View()), old(SharedView()), now, ev)
    {
      outs := [];
      match ev
      case Query(seqNo, payload, load, tx) =>
        node.lastZclCmd := QUERY_NEXT_IMAGE_REQUEST;
        outs := QueryNextImageRequest(node, now, seqNo, payload, load, tx);
      case BlockReq(seqNo, payload, env) =>
        node.lastZclCmd := IMAGE_BLOCK_REQUEST;
        outs := ImageBlockRequest(node, now, seqNo, payload, env);
      case PageReq(seqNo, payload, enabled, tx) =>
        node.lastZclCmd := IMAGE_PAGE_REQUEST;
        outs := ImagePageRequest(node, now, seqNo, payload, enabled, tx);
      case UpgradeEnd(seqNo, payload, upgradeTime, tx) =>
        node.lastZclCmd := UPGRADE_END_REQUEST;
        outs := UpgradeEndRequest(node, seqNo, payload, upgradeTime, tx);
      case ProfileFrame(commandId) =>
        node.lastZclCmd := commandId;
    }

    method AbortClicked(node: OtauNode)
      modifies node
      ensures Result(node.View(), SharedView(), []) == Step(old(node.View()), SharedView(), 0, AbortClick)
    {
      node.permitUpdate := false;
      node.state := Abort;
    }

    method UpdateClicked(node: OtauNode, tx: Tx) returns (outs: seq<Out>)
      modifies node
      ensures Result(node.View(), SharedView(), outs) == Step(old(node.View()), SharedView(), 0, UpdateClick(tx))
    {
      outs := [];
      node.state := Idle;
      if node.hasData {
        node.permitUpdate := true;
        outs := UnicastImageNotify(node, tx);
      }
    }

    /** The user picked a file; ok says that it could be read. */
    method FileSelectClicked(node: OtauNode, file: FileData, ok: bool)
      modifies node
      ensures Result(node.View(), SharedView(), []) == Step(old(node.View()), SharedView(), 0, FileSelect(file, ok))
    {
      node.file := file;
      if ok {
        node.hasData := true;
      }
    }

    method NodeEvent(node: OtauNode, ev: Event, now: nat) returns (outs: seq<Out>)
      requires !ev.Visit? && !ev.Cleanup?
      modifies this, node, tracker
      ensures nodes == old(nodes)
      ensures Result(node.View(), SharedView(), outs) == Step(old(node.View()), old(SharedView()), now, ev)
    {
      outs := [];
      if ev.Confirm? {
        outs := ApsdeDataConfirm(node, ev.id, ev.status, ev.env);
      } else if ev.AbortClick? {
        AbortClicked(node);
      } else if ev.UpdateClick? {
        outs := UpdateClicked(node, ev.tx);
      } else if ev.FileSelect? {
        FileSelectClicked(node, ev.file, ev.ok);
      } else {
        outs := ApsdeDataIndication(node, ev, now);
      }
    }

    // ---- timers ----

    /** The tick visits every node; refire says that some node was waiting. */
    method VisitNodes(visits: seq<VisitInput>, ghost p: Plugin, ghost o: Occurrence, ghost after: seq<NodeData>, ghost sent: seq<seq<Out>>, ghost waits: seq<bool>)
      returns (refire: bool, outs: seq<seq<Out>>)
      requires Valid() && Possible(p, o) && o == PageTimer(true, visits) && SharedView() == TimerOver(p.shared)
      requires |nodes| == |p.nodes| && forall k :: 0 <= k < |nodes| ==> nodes[k].View() == p.nodes[k]
      requires Foreseen(p, o, after, sent) && Waits(p.nodes, waits)
      modifies this`imagePageTimer, nodes
      ensures outs == sent && forall k :: 0 <= k < |nodes| ==> nodes[k].View() == after[k]
      ensures refire == waits[|nodes|] && (imagePageTimer ==> refire)
    {
      refire, outs := false, [];
      assert !ActiveBefore(p.nodes, 0);
      var i := 0;
      while i < |nodes|
        invariant 0 <= i == |outs| <= |nodes| == |p.nodes|
        invariant outs == sent[..i]
        invariant forall k :: 0 <= k < |nodes| ==> nodes[k].View() == if k < i then after[k] else p.nodes[k]
        invariant refire == waits[i] && (imagePageTimer ==> refire)
      {
        var out;
        refire, out := VisitNext(nodes[i], visits[i], refire, p, o, i, after, sent, waits);
        outs := outs + [out];
        i := i + 1;
      }
    }

    method VisitNext(node: OtauNode, visit: VisitInput, before: bool, ghost p: Plugin, ghost o: Occurrence, ghost k: nat, ghost after: seq<NodeData>, ghost sent: seq<seq<Out>>, ghost waits: seq<bool>)
      returns (refire: bool, out: seq<Out>)
      requires Possible(p, o) && o.PageTimer? && o.otauActive && k < |p.nodes| && o.visits[k] == visit
      requires node.View() == p.nodes[k] && SharedView() == p.shared.(pageTimer := imagePageTimer)
      requires Foreseen(p, o, after, sent) && Waits(p.nodes, waits)
      requires before == waits[k] && (imagePageTimer ==> before)
      modifies this`imagePageTimer, node
      ensures node.View() == after[k] && out == sent[k]
      ensures refire == waits[k + 1] && (imagePageTimer ==> refire)
    {
      VisitIgnoresTimer(p.nodes[k], SharedView(), TimerOver(p.shared), visit);
      assert NodeAfter(p, o, k) == PageTick(p.nodes[k], TimerOver(p.shared), visit.env, visit.expired).node;
      var waiting;
      waiting, out := VisitNode(node, visit);
      refire := before || waiting;
      assert ActiveBefore(p.nodes, k + 1) == (ActiveBefore(p.nodes, k) || Active(p.nodes[k]));
    }

    /** A tick with the server switched on; the timer is already over. */
    method ServeNodes(visits: seq<VisitInput>, ghost p: Plugin) returns (outs: seq<seq<Out>>)
      requires Valid() && Possible(p, PageTimer(true, visits)) && View() == p.(shared := TimerOver(p.shared))
      modifies this`imagePageTimer, nodes
      ensures Handled(Views(nodes), SharedView(), outs, p, PageTimer(true, visits))
    {
      ghost var o := PageTimer(true, visits);
      ghost var after, sent := Foresee(p, o);
      ghost var waits := seq(|p.nodes| + 1, k requires 0 <= k <= |p.nodes| => ActiveBefore(p.nodes, k));
      var refire;
      refire, outs := VisitNodes(visits, p, o, after, sent, waits);
      if refire {
        StartPageTimer();
      }
      ActiveBeforeEnd(p.nodes, |p.nodes|);
      AsForeseen(p, o, after, outs, SharedView());
      assert Views(nodes) == after;
    }

    method ImagePageTimerFired(otauActive: bool, visits: seq<VisitInput>) returns (outs: seq<seq<Out>>)
      requires Valid() && imagePageTimer && |visits| == |nodes|
      modifies this`imagePageTimer, nodes
      ensures Handled(Views(nodes), SharedView(), outs, old(View()), PageTimer(otauActive, visits))
    {
      ghost var p := View();
      imagePageTimer := false;
      if nodes == [] || !otauActive {
        return seq(|nodes|, k => []);
      }
      outs := ServeNodes(visits, p);
    }

    method CleanupNode(node: OtauNode, expired: bool)
      modifies node
      ensures Result(node.View(), SharedView(), []) == Step(old(node.View()), SharedView(), 0, Cleanup(expired))
    {
      if node.hasData && expired {
        node.file := node.file.(subElements := []);
        node.hasData := false;
      }
    }

    method CleanupNext(node: OtauNode, expired: bool, ghost p: Plugin, ghost o: Occurrence, ghost k: nat, ghost after: seq<NodeData>, ghost sent: seq<seq<Out>>)
      requires Possible(p, o) && o.CleanupTimer? && k < |p.nodes| && o.expired[k] == expired
      requires node.View() == p.nodes[k] && SharedView() == p.shared && Foreseen(p, o, after, sent)
      modifies node
      ensures node.View() == after[k] && sent[k] == []
    {
      CleanupNode(node, expired);
      assert NodeAfter(p, o, k) == node.View();
    }

    method CleanupNodes(expired: seq<bool>, ghost p: Plugin, ghost o: Occurrence, ghost after: seq<NodeData>, ghost sent: seq<seq<Out>>)
      requires Valid() && Possible(p, o) && o == CleanupTimer(expired) && SharedView() == p.shared
      requires |nodes| == |p.nodes| && forall k :: 0 <= k < |nodes| ==> nodes[k].View() == p.nodes[k]
      requires Foreseen(p, o, after, sent)
      modifies nodes
      ensures forall k :: 0 <= k < |nodes| ==> nodes[k].View() == after[k] && sent[k] == []
    {
      var i := 0;
      while i < |nodes|
        invariant 0 <= i <= |nodes|
        invariant forall k :: 0 <= k < i ==> nodes[k].View() == after[k] && sent[k] == []
        invariant forall k :: i <= k < |nodes| ==> nodes[k].View() == p.nodes[k]
      {
        CleanupNext(nodes[i], expired[i], p, o, i, after, sent);
        i := i + 1;
      }
    }

    method CleanupTimerFired(expired: seq<bool>) returns (outs: seq<seq<Out>>)
      requires Valid() && |expired| == |nodes|
      modifies nodes
      ensures Handled(Views(nodes), SharedView(), outs, old(View()), CleanupTimer(expired))
    {
      ghost var p, o := View(), CleanupTimer(expired);
      outs := seq(|nodes|, k => []);
      ghost var after, sent := Foresee(p, o);
      CleanupNodes(expired, p, o, after, sent);
      assert outs == sent;
      AsForeseen(p, o, after, outs, SharedView());
      assert Views(nodes) == after;
    }

    // ---- everything that can happen ----

    method HandleEvent(k: nat, ev: Event, now: nat) returns (sent: seq<Out>)
      requires Valid() && k < |nodes| && !ev.Visit? && !ev.Cleanup?
      modifies this, nodes, tracker
      ensures Valid() && nodes == old(nodes) && View() == Advance(old(View()), AtNode(k, ev, now))
      ensures sent == OutsOf(old(View()), AtNode(k, ev, now), k)
    {
      sent := NodeEvent(nodes[k], ev, now);
    }

    /** An occurrence advances the objects exactly as the state machine, and hands the stack
        exactly what the state machine says: so what holds after every run of it holds for them. */
    method Handle(o: Occurrence) returns (outs: seq<seq<Out>>)
      requires Valid() && Possible(View(), o)
      modifies this, nodes, tracker
      ensures Valid() && View() == Advance(old(View()), o)
      ensures |outs| == |old(nodes)|
      ensures forall k :: 0 <= k < |outs| ==> outs[k] == OutsOf(old(View()), o, k)
    {
      ghost var p := View();
      outs := seq(|nodes|, k => []);
      match o
      case AtNode(k, ev, now) =>
        var sent := HandleEvent(k, ev, now);
        outs := outs[k := sent];
      case PageTimer(otauActive, visits) =>
        outs := ImagePageTimerFired(otauActive, visits);
      case CleanupTimer(expired) =>
        outs := CleanupTimerFired(expired);
      case ActivityTimer(now) =>
        tracker.ActivityTimerFired(now);
      case NewNode(n) =>
        var node := new OtauNode(n);
        nodes := nodes + [node];
    }
  }

  /** The objects, with their values and the outputs, are what an occurrence makes of p. */
  ghost predicate Handled(vs: seq<NodeData>, sh: Shared, outs: seq<seq<Out>>, p: Plugin, o: Occurrence)
    requires Possible(p, o)
  {
    && |vs| == |outs| == |p.nodes|
    && (forall k :: 0 <= k < |vs| ==> vs[k] == NodeAfter(p, o, k) && outs[k] == OutsOf(p, o, k))
    && sh == SharedAfter(p, o)
  }

  /** What the occurrence will make of the nodes, and what it will hand to the stack. */
  ghost predicate Foreseen(p: Plugin, o: Occurrence, after: seq<NodeData>, sent: seq<seq<Out>>)
    requires Possible(p, o)
  {
    && |after| == |sent| == |p.nodes|
    && (forall k {:trigger NodeAfter(p, o, k)} :: 0 <= k < |after| ==> after[k] == NodeAfter(p, o, k) && sent[k] == OutsOf(p, o, k))
  }

  /** Whether some node before each place is active. */
  ghost predicate Waits(ns: seq<NodeData>, waits: seq<bool>) {
    && |waits| == |ns| + 1
    && (forall k {:trigger ActiveBefore(ns, k)} :: 0 <= k < |waits| ==> waits[k] == ActiveBefore(ns, k))
  }

  ghost method Foresee(p: Plugin, o: Occurrence) returns (after: seq<NodeData>, sent: seq<seq<Out>>)
    requires Possible(p, o)
    ensures Foreseen(p, o, after, sent)
  {
    after := seq(|p.nodes|, k requires 0 <= k < |p.nodes| => NodeAfter(p, o, k));
    sent := seq(|p.nodes|, k requires 0 <= k < |p.nodes| => OutsOf(p, o, k));
  }

  lemma {:induction false} AsForeseen(p: Plugin, o: Occurrence, after: seq<NodeData>, sent: seq<seq<Out>>, sh: Shared)
    requires Possible(p, o) && Foreseen(p, o, after, sent) && sh == SharedAfter(p, o)
    ensures Handled(after, sh, sent, p, o)
  {}

  lemma {:induction false} VisitIgnoresTimer(n: NodeData, sh: Shared, sh': Shared, v: VisitInput)
    requires sh == sh'.(pageTimer := sh.pageTimer) && !sh'.pageTimer
    ensures var r, r' := PageTick(n, sh, v.env, v.expired), PageTick(n, sh', v.env, v.expired);
      && r.node == r'.node && r.outs == r'.outs && r.shared == sh.(pageTimer := r.shared.pageTimer)
      && (r.shared.pageTimer ==> sh.pageTimer || Active(n))
  {
    if n.state == WaitPageSpacing { PageExchange.PagingIgnoresTimer(n, sh, sh', v.env); }
  }

  /** Some node before the i-th is active. */
  predicate ActiveBefore(ns: seq<NodeData>, i: nat)
    requires i <= |ns|
  {
    i > 0 && (ActiveBefore(ns, i - 1) || Active(ns[i - 1]))
  }

  lemma {:induction false} ActiveBeforeEnd(ns: seq<NodeData>, i: nat)
    requires i <= |ns|
    ensures ActiveBefore(ns, i) <==> exists k :: 0 <= k < i && Active(ns[k])
  {
    if i > 0 { ActiveBeforeEnd(ns, i - 1); }
  }
}
