/** Runs that show what can go wrong: a stranded node, a stalled page, a page that is refused
    without end, and a payload limit that falls although no two acknowledgements in a row were
    missing. Each starts with a new node and takes a few occurrences. */
module FailingRuns {
  import opened Bytes
  import opened FileFormat
  import opened FileProofs
  import opened Transfer
  import opened PageHistory
  import opened Runs
  import opened Timers
  import opened PageExchange
  import opened ErrorPages
  import opened WrappingCounter
  import opened EndToEnd
  import opened NoAcks

  // ---- a stranded node ----

  /** A page request, then a tick of the page timer while the server is switched off. */
  lemma {:induction false} StrandedRun(n: NodeData) returns (os: seq<Occurrence>)
    requires Fresh(n)
    ensures Stranded(Run(os))
  {
    var ev, v := PageReq(0, [], true, Rejected), VisitInput(Env(Rejected, false, false), false);
    var m := Step(n, INITIAL.shared, 0, ev);
    os := [NewNode(n)];
    Begin(n);
    AtEvent(os, n, INITIAL.shared, ev);
    os := os + [AtNode(0, ev, 0)];
    AtTick(os, m.node, m.shared, false, v);
    os := os + [PageTimer(false, [v])];
    assert Active(Run(os).nodes[0]);
  }

  // ---- requests for the pages of a file ----

  /** A page request for f from its start on. */
  function PageAsk(f: FileData, max: u8, size: u16): seq<u8> {
    [0] + (Le(f.manufacturerCode, 2) + Le(f.imageType, 2)) + Le(f.fileVersion, 4) + Le(0, 4) + [max] + (Le(size, 2) + Le(20, 2))
  }

  lemma {:induction false} PageAskReads(f: FileData, max: u8, size: u16)
    ensures var s := PageAsk(f, max, size);
      AsksFor(s, f) && Get32(s, 9) == 0 && Get8(s, 13) == max && Get16(s, 14) == size
  {
    var ids, page, s := Le(f.manufacturerCode, 2) + Le(f.imageType, 2), Le(size, 2) + Le(20, 2), PageAsk(f, max, size);
    BlockLayout([0], ids, Le(f.fileVersion, 4), Le(0, 4), [max], page);
    HardwareReadBack(s, 1, f.manufacturerCode, f.imageType);
    Read32(s, 5, f.fileVersion);
    Read32(s, 9, 0);
    assert s[14..18] == page;
    HardwareReadBack(s, 14, size, 20);
  }

  // ---- a stalled page ----

  /** The first block of a page is handed over. */
  lemma {:induction false} FirstBlock(n: NodeData, sh: Shared, id: u8)
    requires n.state == WaitPageSpacing && n.lastZclCmd == IMAGE_PAGE_REQUEST && n.apsRequestId == INVALID_APS_REQ_ID
    requires Names(n.imgBlockReq, n.file) && n.permitUpdate && n.hasData && LimitInv(sh)
    requires n.imgBlockReq.offset == 0 < |n.rawFile| && n.imgBlockReq.pageBytesDone == 0 < n.imgBlockReq.pageSize && n.imgBlockReq.maxDataSize >= 1
    ensures var r := PageTick(n, sh, Env(Accepted(id), false, false), false);
      r.node.state == WaitPageSpacing && Pending(r.node) && SendsBlock(r.outs)
  {
    BlockSizeBounds(n, sh.maxAsduDataSize);
  }

  /** A file is selected and permitted. */
  lemma {:induction false} PermittedRun(n: NodeData, f: FileData) returns (os: seq<Occurrence>)
    requires Fresh(n)
    ensures At(os, n.(file := f, hasData := true, permitUpdate := true), INITIAL.shared)
  {
    var select, click := FileSelect(f, true), UpdateClick(Rejected);
    os := [NewNode(n)];
    Begin(n);
    AtEvent(os, n, INITIAL.shared, select);
    os := os + [AtNode(0, select, 0)];
    AtEvent(os, n.(file := f, hasData := true), INITIAL.shared, click);
    os := os + [AtNode(0, click, 0)];
  }

  /** A query that names no manufacturer. */
  function AnyQuery(): seq<u8> {
    [0, 0, 0, 0, 0, 0, 0, 0, 0]
  }

  lemma {:induction false} AnyQueryReads()
    ensures Get16(AnyQuery(), 1) == 0
  {
    assert Le(0, 2) == [0] + Le(0, 1) && Le(0, 1) == [0] + Le(0, 0);
    assert AnyQuery()[1..3] == Le(0, 2);
    Read16(AnyQuery(), 1, 0);
  }

  lemma {:induction false} QueryOffers(n: NodeData, sh: Shared)
    requires n.permitUpdate && n.hasData && n.file.raw != [] && n.state != Abort && sh.tracker.entries == []
    ensures var r := Step(n, sh, 0, Query(0, AnyQuery(), NoFile, Accepted(0)));
      && r.node.file == n.file && r.node.rawFile == n.file.raw && r.node.permitUpdate && r.node.hasData && r.node.state == WaitConfirm
      && r.shared == sh.(tracker := r.shared.tracker) && Consent.OffersIt(r.outs)
  {
    AnyQueryReads();
  }

  /** And the device is offered it. */
  lemma {:induction false} OfferedRun(n: NodeData, f: FileData) returns (os: seq<Occurrence>, m: NodeData, sh: Shared)
    requires Fresh(n) && f.raw != []
    ensures At(os, m, sh) && LimitInv(sh)
    ensures m.file == f && m.rawFile == f.raw && m.permitUpdate && m.hasData && m.state == WaitConfirm
  {
    var ev, p := Query(0, AnyQuery(), NoFile, Accepted(0)), n.(file := f, hasData := true, permitUpdate := true);
    os := PermittedRun(n, f);
    QueryOffers(p, INITIAL.shared);
    AtEvent(os, p, INITIAL.shared, ev);
    os := os + [AtNode(0, ev, 0)];
    m, sh := Step(p, INITIAL.shared, 0, ev).node, Step(p, INITIAL.shared, 0, ev).shared;
  }

  // ---- another file under the old permission ----

  /** A file is selected and permitted, then another one is selected; the query that comes then is
      answered with the other one, under the click made for the first. */
  lemma {:induction false} OtherFileRun(n: NodeData, f: FileData, g: FileData) returns (os: seq<Occurrence>, o: Occurrence)
    requires Fresh(n) && !Consent.SameImage(f, g) && g.raw != []
    ensures Possible(Run(os), o) && |Run(os).nodes| == |Run(os + [o]).nodes| == 1 && Consent.OffersIt(OutsOf(Run(os), o, 0))
    ensures Consent.GrantedAt(os, 0, 2) && |Run(os[..2]).nodes| == 1 && Run(os[..2]).nodes[0].file == f
    ensures Run(os + [o]).nodes[0].file == g && Run(os + [o]).nodes[0].rawFile == g.raw
  {
    var ev, p := Query(0, AnyQuery(), NoFile, Accepted(0)), n.(file := g, hasData := true, permitUpdate := true);
    os := SwitchedRun(n, f, g);
    o := AtNode(0, ev, 0);
    AtEvent(os, p, INITIAL.shared, ev);
    QueryOffers(p, INITIAL.shared);
  }

  lemma {:induction false} SwitchedRun(n: NodeData, f: FileData, g: FileData) returns (os: seq<Occurrence>)
    requires Fresh(n)
    ensures At(os, n.(file := g, hasData := true, permitUpdate := true), INITIAL.shared)
    ensures Consent.GrantedAt(os, 0, 2) && |Run(os[..2]).nodes| == 1 && Run(os[..2]).nodes[0].file == f
  {
    var select, click, other := FileSelect(f, true), UpdateClick(Rejected), FileSelect(g, true);
    var seen := n.(file := f, hasData := true);
    Begin(n);
    AtEvent([NewNode(n)], n, INITIAL.shared, select);
    var two := [NewNode(n)] + [AtNode(0, select, 0)];
    AtEvent(two, seen, INITIAL.shared, click);
    var three := two + [AtNode(0, click, 0)];
    AtEvent(three, seen.(permitUpdate := true), INITIAL.shared, other);
    os := three + [AtNode(0, other, 0)];
    assert os[..2] == two && os[..3] == three;
  }

  /** The first block of a page is sent and its confirm does not come: whatever the page timer
      finds, it can do nothing for the node. */
  lemma {:induction false} StalledRun(n: NodeData, f: FileData) returns (os: seq<Occurrence>, tick: Occurrence)
    requires Fresh(n) && f.raw != []
    ensures Possible(Run(os), tick) && |Run(os).nodes| == |Run(os + [tick]).nodes| == 1
    ensures SendsBlock(OutsOf(Run(os), tick, 0)) && Stuck(Run(os + [tick]).nodes[0], Run(os + [tick]).shared)
  {
    var m, sh, v;
    os, m, sh := OfferedRun(n, f);
    var ev := PageReq(0, PageAsk(f, 40, 100), true, Rejected);
    PageAskReads(f, 40, 100);
    AtEvent(os, m, sh, ev);
    os := os + [AtNode(0, ev, 0)];
    var r := Step(m, sh, 0, ev);
    v := VisitInput(Env(Accepted(0), false, false), false);
    FirstBlock(r.node, TimerOver(r.shared), 0);
    AtTick(os, r.node, r.shared, true, v);
    tick := PageTimer(true, [v]);
    StallsIff(os + [tick], 0);
  }

  // ---- a page that is refused without end ----

  /** The last occurrence hands over one more error. */
  predicate LastError(os: seq<Occurrence>, ids: seq<u8>)
    requires ids != []
  {
    var all := os + Answers(ids);
    && all != [] && Possible(Run(all[..|all| - 1]), all[|all| - 1]) && |Run(all[..|all| - 1]).nodes| == |Run(all).nodes| == 1
    && Run(all).nodes[0].state == WaitPageSpacing
    && OutsOf(Run(all[..|all| - 1]), all[|all| - 1], 0)
         == [Reply(BlockResponse(Run(all).nodes[0].reqSequenceNumber, BlockStatus(OTAU_NO_IMAGE_AVAILABLE)), ids[|ids| - 1])]
  }

  lemma {:induction false} LowBit40()
    ensures LowBit(40) == 8
  {
    assert LowBit(5) == 1 && LowBit(10) == 2 && LowBit(20) == 4;
  }

  /** A page of 65535 bytes asked for in blocks of 40 without permission: however long the stack
      goes on to take and to confirm, the next answer is another error. */
  lemma {:induction false} RefusedRun(n: NodeData) returns (os: seq<Occurrence>)
    requires Fresh(n)
    ensures forall ids: seq<u8> :: ids != [] ==> LastError(os, ids)
  {
    var ev := PageReq(0, PageAsk(n.file, 40, 65535), true, Rejected);
    var m := Step(n, INITIAL.shared, 0, ev);
    os := [NewNode(n)];
    Begin(n);
    PageAskReads(n.file, 40, 65535);
    PageRequestBegins(n, INITIAL.shared, 0, 0, ev.payload, Rejected);
    AtEvent(os, n, INITIAL.shared, ev);
    os := os + [AtNode(0, ev, 0)];
    LowBit40();
    forall ids: seq<u8> | ids != []
      ensures LastError(os, ids)
    {
      RunFollows(os, m.node, m.shared, ids);
      ErrorPageGoesOn(m.node, TimerOver(m.shared), ids);
    }
  }

  // ---- a limit that falls without two misses in a row ----

  predicate MildAt(os: seq<Occurrence>, i: nat)
    requires i <= |os|
  {
    ConsecutiveOf(os[..i]) <= 1 && (i < |os| ==> !MissesFirstBlock(Run(os[..i]), os[i]))
  }

  /** Never two missing acknowledgements in a row, and never that of a first block. */
  predicate Mild(os: seq<Occurrence>) {
    forall i: nat :: i <= |os| ==> MildAt(os, i)
  }

  lemma {:induction false} MildMore(os: seq<Occurrence>, o: Occurrence)
    requires Mild(os) && ConsecutiveOf(os + [o]) <= 1 && !MissesFirstBlock(Run(os), o)
    ensures Mild(os + [o])
  {
    var all := os + [o];
    forall i: nat | i <= |all|
      ensures MildAt(all, i)
    {
      if i <= |os| {
        assert all[..i] == os[..i] && MildAt(os, i);
        if i == |os| { assert os[..i] == os; } else { assert all[i] == os[i]; }
      } else {
        assert all[..i] == all;
      }
    }
  }

  /** The node tells of a failed upgrade, and is answered. */
  lemma {:induction false} Answered(os: seq<Occurrence>, n: NodeData, sh: Shared) returns (all: seq<Occurrence>, m: NodeData)
    requires At(os, n, sh) && n.state == Idle && Mild(os)
    ensures At(all, m, sh) && m.state == Idle && m.apsRequestId == 0 && m.zclCommandId == DEFAULT_RESPONSE
    ensures Mild(all) && ConsecutiveOf(all) == ConsecutiveOf(os) && MissesOf(all) == MissesOf(os)
  {
    var ev := UpgradeEnd(0, [1], 0, Accepted(0));
    AtEvent(os, n, sh, ev);
    all, m := os + [AtNode(0, ev, 0)], Step(n, sh, 0, ev).node;
    assert all[..|os|] == os && os[..|os|] == os && MildAt(os, |os|);
    MildMore(os, AtNode(0, ev, 0));
  }

  lemma {:induction false} AnswerConfirmed(n: NodeData, sh: Shared, status: ConfirmStatus)
    requires n.state == Idle && n.apsRequestId == 0 && n.zclCommandId == DEFAULT_RESPONSE
    ensures Step(n, sh, 0, Confirm(0, status, Env(Rejected, false, false))).node == n.(apsRequestId := INVALID_APS_REQ_ID)
  {}

  /** The confirm of the answer. */
  lemma {:induction false} Confirmed(os: seq<Occurrence>, n: NodeData, sh: Shared, status: ConfirmStatus)
    returns (all: seq<Occurrence>, m: NodeData, sh': Shared)
    requires At(os, n, sh) && n.state == Idle && n.apsRequestId == 0 && n.zclCommandId == DEFAULT_RESPONSE && Mild(os)
    requires status == ConfirmSuccess || (status == ConfirmNoAck && ConsecutiveOf(os) == 0)
    ensures At(all, m, sh') && m.state == Idle && Mild(all)
    ensures ConsecutiveOf(all) == (if status == ConfirmNoAck then 1 else 0)
    ensures MissesOf(all) == MissesOf(os) + (if status == ConfirmNoAck then 1 else 0)
  {
    var ev := Confirm(0, status, Env(Rejected, false, false));
    AtEvent(os, n, sh, ev);
    AnswerConfirmed(n, sh, status);
    all := os + [AtNode(0, ev, 0)];
    assert all[..|os|] == os;
    MildMore(os, AtNode(0, ev, 0));
    m, sh' := n.(apsRequestId := INVALID_APS_REQ_ID), Step(n, sh, 0, ev).shared;
  }

  lemma {:induction false} Ending(os: seq<Occurrence>, n: NodeData, sh: Shared, status: ConfirmStatus)
    returns (all: seq<Occurrence>, m: NodeData, sh': Shared)
    requires At(os, n, sh) && n.state == Idle && Mild(os)
    requires status == ConfirmSuccess || (status == ConfirmNoAck && ConsecutiveOf(os) == 0)
    ensures At(all, m, sh') && m.state == Idle && Mild(all)
    ensures ConsecutiveOf(all) == (if status == ConfirmNoAck then 1 else 0)
    ensures MissesOf(all) == MissesOf(os) + (if status == ConfirmNoAck then 1 else 0)
  {
    all, m := Answered(os, n, sh);
    all, m, sh' := Confirmed(all, m, sh, status);
  }

  /** Four missing acknowledgements, each but the last followed by one that came: the limit has
      fallen, and no two in a row were missing. */
  lemma {:induction false} LimitFallsRun(n: NodeData) returns (os: seq<Occurrence>)
    requires Fresh(n)
    ensures Run(os).shared.maxAsduDataSize == MAX_SAFE_ASDU_SIZE && Mild(os)
  {
    os := [NewNode(n)];
    Begin(n);
    assert MildAt([], 0);
    MildMore([], NewNode(n));
    assert [] + [NewNode(n)] == os && os[..0] == [];
    var m, sh := n, INITIAL.shared;
    os, m, sh := Ending(os, m, sh, ConfirmNoAck);
    os, m, sh := Ending(os, m, sh, ConfirmSuccess);
    os, m, sh := Ending(os, m, sh, ConfirmNoAck);
    os, m, sh := Ending(os, m, sh, ConfirmSuccess);
    os, m, sh := Ending(os, m, sh, ConfirmNoAck);
    os, m, sh := Ending(os, m, sh, ConfirmSuccess);
    os, m, sh := Ending(os, m, sh, ConfirmNoAck);
    NoAcksInv(os);
  }
}
