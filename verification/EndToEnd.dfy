/** From the file on the server to the file on the device: the blocks a device fetches add up
    to the served image, and the image parses to the server's file. */
module EndToEnd {
  import opened Bytes
  import opened FileFormat
  import opened FileProofs
  import opened Sequences
  import opened Transfer
  import opened PageHistory
  import opened Runs
  import opened Requests
  import Consent

  // ---- the block response on the wire ----

  function EncodeBlock(b: BlockBody): seq<u8>
    requires b.Block? ==> |b.data| < 0x100
  {
    match b
    case BlockStatus(status) => [status]
    case Block(mfc, imageType, fileVersion, offset, data) =>
      [OTAU_SUCCESS] + Le(mfc, 2) + Le(imageType, 2) + Le(fileVersion, 4) + Le(offset, 4) + [|data| as u8] + data
  }

  /** How a device reads the payload. */
  function DecodeBlock(s: seq<u8>): BlockBody {
    if Get8(s, 0) != OTAU_SUCCESS || |s| < IMAGE_BLOCK_RSP_HEADER_SIZE then BlockStatus(Get8(s, 0))
    else
      Block(Get16(s, 1), Get16(s, 3), Get32(s, 5), Get32(s, 9),
            s[IMAGE_BLOCK_RSP_HEADER_SIZE..Min(|s|, IMAGE_BLOCK_RSP_HEADER_SIZE + Get8(s, 13))])
  }

  lemma {:induction false} BlockLayout(a: seq<u8>, b: seq<u8>, c: seq<u8>, d: seq<u8>, e: seq<u8>, data: seq<u8>)
    requires |a| == 1 && |b| == 4 && |c| == 4 && |d| == 4 && |e| == 1
    ensures var s := a + b + c + d + e + data;
      s[0] == a[0] && s[1..5] == b && s[5..9] == c && s[9..13] == d && s[13] == e[0] && s[14..] == data
  {}

  /** A device reads what the server wrote; a block of n bytes takes 14 + n bytes of payload. */
  lemma {:induction false} WireRoundTrip(b: BlockBody)
    requires b.Block? ==> |b.data| < 0x100
    requires b.BlockStatus? ==> b.status != OTAU_SUCCESS
    ensures DecodeBlock(EncodeBlock(b)) == b
    ensures b.Block? ==> |EncodeBlock(b)| == IMAGE_BLOCK_RSP_HEADER_SIZE + |b.data|
  {
    if b.Block? {
      var ids := Le(b.manufacturerCode, 2) + Le(b.imageType, 2);
      var s := [OTAU_SUCCESS] + ids + Le(b.fileVersion, 4) + Le(b.offset, 4) + [|b.data| as u8] + b.data;
      assert EncodeBlock(b) == s;
      BlockLayout([OTAU_SUCCESS], ids, Le(b.fileVersion, 4), Le(b.offset, 4), [|b.data| as u8], b.data);
      HardwareReadBack(s, 1, b.manufacturerCode, b.imageType);
      Read32(s, 5, b.fileVersion);
      Read32(s, 9, b.offset);
      assert s[14..] == s[14..14 + |b.data|];
    }
  }

  // ---- a node that serves a file undisturbed ----

  /** The node serves f: permitted, with data, and the captured image is that of f. */
  predicate Serving(n: NodeData, f: FileData) {
    && n.permitUpdate && n.hasData && n.state != Abort
    && n.file == f && n.rawFile == f.raw && f.raw != []
    && n.zclCommandId != UPGRADE_END_RESPONSE
    && (Active(n) ==> Names(n.imgBlockReq, f))
  }

  /** Events that leave permission, data and file alone. */
  predicate Calm(ev: Event, f: FileData) {
    match ev
    case AbortClick => false
    case FileSelect(_, _) => false
    case Cleanup(expired) => !expired
    case UpgradeEnd(_, payload, _, _) => Get8(payload, 0) != OTAU_SUCCESS
    case BlockReq(_, payload, _) => AsksFor(payload, f)
    case PageReq(_, payload, _, _) => AsksFor(payload, f)
    case _ => true
  }

  lemma {:induction false} BlockServing(n: NodeData, asdu: u8, env: Env, f: FileData)
    requires n.file == f && Names(n.imgBlockReq, f) && n.state != Abort
    ensures var s := ImageBlockResponse(n, asdu, env); var m := s.node;
      && m.state == n.state && m.permitUpdate == n.permitUpdate && m.hasData == n.hasData
      && m.file == n.file && m.rawFile == n.rawFile && Names(m.imgBlockReq, f)
      && (m.zclCommandId == n.zclCommandId || m.zclCommandId == IMAGE_BLOCK_RESPONSE)
  {}

  lemma {:induction false} PagingServing(n: NodeData, sh: Shared, env: Env, f: FileData)
    requires Serving(n, f) && Active(n)
    ensures var m := ImagePageResponse(n, sh, env).node; Serving(m, f) && Serving(m.(state := Idle), f)
  {
    BlockServing(n, sh.maxAsduDataSize, env, f);
  }

  lemma {:induction false} QueryServing(n: NodeData, sh: Shared, now: nat, ev: Event, f: FileData)
    requires Serving(n, f) && ev.Query?
    ensures Serving(Step(n, sh, now, ev).node, f)
  {}

  /** Calm events keep the node serving f. */
  lemma {:induction false} CalmKeepsServing(n: NodeData, sh: Shared, now: nat, ev: Event, f: FileData)
    requires Serving(n, f) && Calm(ev, f)
    ensures Serving(Step(n, sh, now, ev).node, f)
  {
    match ev
    case Query(_, _, _, _) => QueryServing(n, sh, now, ev, f);
    case BlockReq(seqNo, payload, env) =>
      BlockServing(AskedBlock(Heard(n, IMAGE_BLOCK_REQUEST), seqNo, payload), sh.maxAsduDataSize, env, f);
    case Confirm(id, status, env) =>
      var c := CreditBlock(n.(apsRequestId := INVALID_APS_REQ_ID));
      if n.state == WaitPageSpacing { PagingServing(c, sh, env, f); }
    case Visit(env, _) =>
      if n.state == WaitPageSpacing { PagingServing(n, sh, env, f); }
    case _ =>
  }

  /** A block request of a serving node is answered with the bytes at the asked place, at least
      one of them, until the end of the image is reached. */
  lemma {:induction false} BlockAnswered(n: NodeData, sh: Shared, now: nat, ev: Event, f: FileData)
    requires Serving(n, f) && LimitInv(sh) && ev.BlockReq? && AsksFor(ev.payload, f) && Get8(ev.payload, 13) >= 1
    requires ev.env.tx.Accepted?
    ensures var outs := Step(n, sh, now, ev).outs; var offset := Get32(ev.payload, 9);
      && |outs| == 1 && outs[0].Reply? && outs[0].frame.BlockResponse?
      && (offset < |f.raw| ==>
            var b := outs[0].frame.block;
            && b.Block? && 1 <= |b.data| <= 50 && offset + |b.data| <= |f.raw|
            && b.data == f.raw[offset..offset + |b.data|])
      && (offset >= |f.raw| ==> outs[0].frame.block == BlockStatus(OTAU_MALFORMED_COMMAND))
  {
    var m := AskedBlock(Heard(n, IMAGE_BLOCK_REQUEST), ev.seqNo, ev.payload);
    if m.imgBlockReq.offset < |f.raw| { BlockSizeBounds(m, sh.maxAsduDataSize); }
  }

  lemma {:induction false} RejectedSendsNothing(n: NodeData, sh: Shared, now: nat, ev: Event)
    requires ev.BlockReq? && ev.env.tx.Rejected?
    ensures Step(n, sh, now, ev).outs == []
  {}

  // ---- a device that fetches the image ----

  /** An occurrence, and whether the reply to a block request reached the device. */
  datatype Moment = Moment(o: Occurrence, delivered: bool)

  function After(p: Plugin, ms: seq<Moment>): Plugin
    decreases |ms|
  {
    if ms == [] then p else Advance(After(p, ms[..|ms| - 1]), ms[|ms| - 1].o)
  }

  predicate AsksBlock(p: Plugin, o: Occurrence, k: nat) {
    o.AtNode? && o.k == k < |p.nodes| && o.ev.BlockReq?
  }

  /** The reply the device receives in a moment, if any. */
  function Received(p: Plugin, m: Moment, k: nat): seq<BlockBody> {
    if m.delivered && AsksBlock(p, m.o, k) then
      var outs := OutsOf(p, m.o, k);
      if |outs| == 1 && outs[0].Reply? && outs[0].frame.BlockResponse?
         && (outs[0].frame.block.Block? ==> |outs[0].frame.block.data| < 0x100)
      then [DecodeBlock(EncodeBlock(outs[0].frame.block))] else []
    else []
  }

  /** The bytes device k has collected, and how many of its requests were answered. */
  function Got(p: Plugin, ms: seq<Moment>, k: nat): (seq<u8>, nat)
    decreases |ms|
  {
    if ms == [] then ([], 0)
    else
      var init := ms[..|ms| - 1];
      var (got, answered) := Got(p, init, k);
      var r := Received(After(p, init), ms[|ms| - 1], k);
      if r == [] then (got, answered)
      else (got + DataOf(r[0]), answered + 1)
  }

  /** What happens to node k is calm, and its block requests ask for at least one byte from where
      the collected bytes end. */
  predicate Fetching(p: Plugin, ms: seq<Moment>, k: nat, f: FileData)
    decreases |ms|
  {
    ms != [] ==>
      var init, o := ms[..|ms| - 1], ms[|ms| - 1].o;
      var q := After(p, init);
      && Fetching(p, init, k, f)
      && (Possible(q, o) && k < |q.nodes| ==> match ReachOf(q, o, k)
            case Untouched => true
            case Reached(ev, _, _) => Calm(ev, f))
      && (AsksBlock(q, o, k) ==> Get32(o.ev.payload, 9) == |Got(p, init, k).0| && Get8(o.ev.payload, 13) >= 1)
  }

  lemma {:induction false} AfterKeeps(p: Plugin, ms: seq<Moment>, k: nat, f: FileData)
    requires k < |p.nodes| && Serving(p.nodes[k], f) && LimitInv(p.shared) && Fetching(p, ms, k, f)
    ensures var q := After(p, ms); k < |q.nodes| && Serving(q.nodes[k], f) && LimitInv(q.shared)
    decreases |ms|
  {
    if ms != [] {
      var init, o := ms[..|ms| - 1], ms[|ms| - 1].o;
      AfterKeeps(p, init, k, f);
      AdvanceServing(After(p, init), o, k, f);
    }
  }

  lemma {:induction false} AdvanceServing(q: Plugin, o: Occurrence, k: nat, f: FileData)
    requires k < |q.nodes| && Serving(q.nodes[k], f) && LimitInv(q.shared)
    requires Possible(q, o) ==> match ReachOf(q, o, k) case Untouched => true case Reached(ev, _, _) => Calm(ev, f)
    ensures var r := Advance(q, o); k < |r.nodes| && Serving(r.nodes[k], f) && LimitInv(r.shared)
  {
    if Possible(q, o) {
      if o.AtNode? { StepShared(q.nodes[o.k], q.shared, o.now, o.ev); }
      match ReachOf(q, o, k)
      case Untouched =>
      case Reached(ev, sh, now) => CalmKeepsServing(q.nodes[k], sh, now, ev, f);
    }
  }

  /** What one moment adds to the collected bytes. */
  lemma {:induction false} ReceivedBlock(q: Plugin, m: Moment, k: nat, f: FileData, at: nat)
    requires k < |q.nodes| && Serving(q.nodes[k], f) && LimitInv(q.shared)
    requires AsksBlock(q, m.o, k) ==> AsksFor(m.o.ev.payload, f) && Get32(m.o.ev.payload, 9) == at && Get8(m.o.ev.payload, 13) >= 1
    ensures var r := Received(q, m, k);
      r != [] ==>
        && (at < |f.raw| ==> r[0].Block? && |r[0].data| >= 1 && at + |r[0].data| <= |f.raw| && r[0].data == f.raw[at..at + |r[0].data|])
        && (at >= |f.raw| ==> r[0].BlockStatus?)
  {
    if m.delivered && AsksBlock(q, m.o, k) {
      if m.o.ev.env.tx.Accepted? {
        BlockAnswered(q.nodes[k], q.shared, m.o.now, m.o.ev, f);
        WireRoundTrip(OutsOf(q, m.o, k)[0].frame.block);
      } else {
        RejectedSendsNothing(q.nodes[k], q.shared, m.o.now, m.o.ev);
      }
    }
  }

  /** The bytes are a prefix of the image, one byte per answer at least until it is complete. */
  predicate Prefix(raw: ByteArray, got: seq<u8>, answered: nat) {
    |got| <= |raw| && got == raw[..|got|] && |got| >= Min(answered, |raw|)
  }

  function DataOf(b: BlockBody): seq<u8> {
    if b.Block? then b.data else []
  }

  lemma {:induction false} PrefixMore(raw: ByteArray, got: seq<u8>, answered: nat, b: BlockBody)
    requires Prefix(raw, got, answered)
    requires |got| < |raw| ==> b.Block? && |b.data| >= 1 && |got| + |b.data| <= |raw| && b.data == raw[|got|..|got| + |b.data|]
    requires |got| >= |raw| ==> b.BlockStatus?
    ensures Prefix(raw, got + DataOf(b), answered + 1)
  {
    if |got| < |raw| {
      assert raw[..|got|] + raw[|got|..|got| + |b.data|] == raw[..|got| + |b.data|];
    } else {
      assert got + [] == got;
    }
  }

  lemma {:induction false} FetchingInit(p: Plugin, ms: seq<Moment>, k: nat, f: FileData)
    requires ms != [] && Fetching(p, ms, k, f)
    ensures Fetching(p, ms[..|ms| - 1], k, f)
  {}

  /** The last moment of a fetch continues it. */
  lemma {:induction false} FetchingLast(p: Plugin, ms: seq<Moment>, k: nat, f: FileData)
    requires ms != [] && Fetching(p, ms, k, f) && k < |After(p, ms[..|ms| - 1]).nodes|
    ensures var init, o := ms[..|ms| - 1], ms[|ms| - 1].o;
      AsksBlock(After(p, init), o, k) ==>
        AsksFor(o.ev.payload, f) && Get32(o.ev.payload, 9) == |Got(p, init, k).0| && Get8(o.ev.payload, 13) >= 1
  {
    var init, o := ms[..|ms| - 1], ms[|ms| - 1].o;
    var q := After(p, init);
    if AsksBlock(q, o, k) { assert ReachOf(q, o, k) == Reached(o.ev, q.shared, o.now); }
  }

  lemma {:induction false} CollectsMore(q: Plugin, m: Moment, k: nat, f: FileData, got: seq<u8>, answered: nat)
    requires k < |q.nodes| && Serving(q.nodes[k], f) && LimitInv(q.shared) && Prefix(f.raw, got, answered)
    requires AsksBlock(q, m.o, k) ==>
      AsksFor(m.o.ev.payload, f) && Get32(m.o.ev.payload, 9) == |got| && Get8(m.o.ev.payload, 13) >= 1
    ensures var r := Received(q, m, k);
      r != [] ==> Prefix(f.raw, got + DataOf(r[0]), answered + 1)
  {
    ReceivedBlock(q, m, k, f, |got|);
    var r := Received(q, m, k);
    if r != [] { PrefixMore(f.raw, got, answered, r[0]); }
  }

  /** Whatever else happens in between: the collected bytes are a prefix of the served image, and
      every answer adds at least one byte until it is complete. */
  lemma {:induction false} DeviceCollects(p: Plugin, ms: seq<Moment>, k: nat, f: FileData)
    requires k < |p.nodes| && Serving(p.nodes[k], f) && LimitInv(p.shared) && Fetching(p, ms, k, f)
    ensures Prefix(f.raw, Got(p, ms, k).0, Got(p, ms, k).1)
    decreases |ms|
  {
    if ms != [] {
      var init := ms[..|ms| - 1];
      FetchingInit(p, ms, k, f);
      AfterKeeps(p, init, k, f);
      FetchingLast(p, ms, k, f);
      DeviceCollects(p, init, k, f);
      CollectsMore(After(p, init), ms[|ms| - 1], k, f, Got(p, init, k).0, Got(p, init, k).1);
    }
  }

  /** After as many answered requests as the image has bytes the device has all of it, and
      parses from it, over anything, the file the server parsed from arr: if and only if the
      served slice holds the last element whole and, when it ends there, that element has data. */
  lemma {:induction false} DeviceHasTheFile(p: Plugin, ms: seq<Moment>, k: nat, g: FileData, g': FileData, arr: ByteArray)
    requires Parse(g, arr).1
    requires var f := Parse(g, arr).0;
      k < |p.nodes| && Serving(p.nodes[k], f) && LimitInv(p.shared) && Fetching(p, ms, k, f)
      && Got(p, ms, k).1 >= |f.raw|
    ensures var f := Parse(g, arr).0; Got(p, ms, k).0 == f.raw
    ensures var f := Parse(g, arr).0; var (r, ok) := Parse(g', f.raw); var end := ParsedEnd(f);
      (ok && SameFile(r, f) && r.raw == f.raw) <==>
      (end < |f.raw| || (end == |f.raw| && f.subElements != [] && Last(f.subElements).data != []))
  {
    DeviceCollects(p, ms, k, Parse(g, arr).0);
    ServedImageFixedPoint(g, g', arr);
  }

  // ---- such runs exist, and start with an offer ----

  /** The request of a device for the bytes of f from at on. */
  function Ask(f: FileData, at: u32): seq<u8> {
    [0] + (Le(f.manufacturerCode, 2) + Le(f.imageType, 2)) + Le(f.fileVersion, 4) + Le(at, 4) + [50]
  }

  lemma {:induction false} AskReads(f: FileData, at: u32)
    ensures AsksFor(Ask(f, at), f) && Get32(Ask(f, at), 9) == at && Get8(Ask(f, at), 13) == 50
  {
    var ids, s := Le(f.manufacturerCode, 2) + Le(f.imageType, 2), Ask(f, at);
    BlockLayout([0], ids, Le(f.fileVersion, 4), Le(at, 4), [50], []);
    assert s + [] == s;
    HardwareReadBack(s, 1, f.manufacturerCode, f.imageType);
    Read32(s, 5, f.fileVersion);
    Read32(s, 9, at);
  }

  /** An undisturbed request: taken by the stack, and its answer arrives. */
  function Asking(k: nat, f: FileData, at: u32): Moment {
    Moment(AtNode(k, BlockReq(0, Ask(f, at), Env(Accepted(0), false, false)), 0), true)
  }

  lemma {:induction false} AskingIsAnswered(q: Plugin, k: nat, f: FileData, at: u32)
    requires k < |q.nodes| && Serving(q.nodes[k], f) && LimitInv(q.shared)
    ensures var m := Asking(k, f, at); AsksBlock(q, m.o, k) && Calm(m.o.ev, f) && |Received(q, m, k)| == 1
  {
    var m := Asking(k, f, at);
    AskReads(f, at);
    BlockAnswered(q.nodes[k], q.shared, 0, m.o.ev, f);
  }

  lemma {:induction false} FetchingMore(p: Plugin, ms: seq<Moment>, k: nat, f: FileData, at: u32)
    requires k < |p.nodes| && Serving(p.nodes[k], f) && LimitInv(p.shared) && Fetching(p, ms, k, f)
    requires at == |Got(p, ms, k).0|
    ensures var more := ms + [Asking(k, f, at)]; Fetching(p, more, k, f) && Got(p, more, k).1 == Got(p, ms, k).1 + 1
  {
    var more := ms + [Asking(k, f, at)];
    assert more[..|more| - 1] == ms;
    AfterKeeps(p, ms, k, f);
    AskingIsAnswered(After(p, ms), k, f, at);
    AskReads(f, at);
  }

  /** From every serving state a device can have any number of requests answered. */
  lemma {:induction false} DeviceCanFetch(p: Plugin, k: nat, f: FileData, count: nat) returns (ms: seq<Moment>)
    requires k < |p.nodes| && Serving(p.nodes[k], f) && LimitInv(p.shared)
    ensures Fetching(p, ms, k, f) && Got(p, ms, k).1 == count
  {
    if count == 0 {
      ms := [];
    } else {
      var init := DeviceCanFetch(p, k, f, count - 1);
      DeviceCollects(p, init, k, f);
      var at := |Got(p, init, k).0|;
      FetchingMore(p, init, k, f, at);
      ms := init + [Asking(k, f, at)];
    }
  }

  /** A query answered with the image leaves the node serving its file. */
  lemma {:induction false} OfferServes(n: NodeData, sh: Shared, now: nat, ev: Event)
    requires Consent.OffersIt(Step(n, sh, now, ev).outs)
    ensures var m := Step(n, sh, now, ev).node; Serving(m, m.file)
  {
    Consent.OfferNeedsPermit(n, sh, now, ev);
  }

  /** The request names what was offered; the version may be left open. */
  predicate AsksForOffer(payload: seq<u8>, q: QueryBody)
    requires q.NewImage?
  {
    && Get16(payload, 1) == q.manufacturerCode && Get16(payload, 3) == q.imageType
    && (Get32(payload, 5) == q.fileVersion || Get32(payload, 5) == 0xFFFF_FFFF)
  }

  /** In every run: what is offered is the node's file, with its total size; and a device asks for
      that file exactly when it names what was offered. */
  lemma {:induction false} OfferNamesTheFile(os: seq<Occurrence>, o: Occurrence, k: nat)
    requires Possible(Run(os), o) && k < |Run(os).nodes| && Consent.OffersIt(OutsOf(Run(os), o, k))
    ensures var q, f := OutsOf(Run(os), o, k)[0].frame.query, Advance(Run(os), o).nodes[k].file;
      && q == NewImage(f.manufacturerCode, f.imageType, f.fileVersion, f.totalImageSize)
      && (forall payload: seq<u8> :: AsksForOffer(payload, q) <==> AsksFor(payload, f))
  {
    match ReachOf(Run(os), o, k)
    case Untouched =>
    case Reached(ev, sh, now) =>
      Consent.OfferNeedsPermit(Run(os).nodes[k], sh, now, ev);
      QueryRequestAnswered(os, o, k);
  }

  /** In every run: when the image was offered, and nothing but a request for another file, an
      Abort click, another file, a cleanup or a successful end comes in between, a device that
      fetches it block by block has all of it after as many answers as it has bytes; that is as
      many as were offered, if the file holds as many as it declares. */
  lemma {:induction false} OfferedImageArrives(os: seq<Occurrence>, o: Occurrence, k: nat, ms: seq<Moment>)
    requires Possible(Run(os), o) && k < |Run(os).nodes| && Consent.OffersIt(OutsOf(Run(os), o, k))
    requires var p := Advance(Run(os), o); Fetching(p, ms, k, p.nodes[k].file)
    ensures var p := Advance(Run(os), o); var (got, answered) := Got(p, ms, k); var raw := p.nodes[k].file.raw;
      Prefix(raw, got, answered) && (answered >= |raw| ==> got == raw)
    ensures var p := Advance(Run(os), o); var q := OutsOf(Run(os), o, k)[0].frame.query; var (got, answered) := Got(p, ms, k);
      q.size == |p.nodes[k].file.raw| && answered >= q.size ==> |got| == q.size
  {
    Reachable(os);
    AdvanceKeeps(Run(os), Histories(os), o);
    var p := Advance(Run(os), o);
    match ReachOf(Run(os), o, k)
    case Untouched =>
    case Reached(ev, sh, now) =>
      OfferServes(Run(os).nodes[k], sh, now, ev);
      DeviceCollects(p, ms, k, p.nodes[k].file);
  }
}
