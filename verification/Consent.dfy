/** Nothing is offered or served without the user's consent, and only from the image that was
    captured when it was offered: statements over whole runs. */
module Consent {
  import opened Bytes
  import opened FileFormat
  import opened Tracking
  import opened Transfer
  import opened Runs

  /** The user clicked Update for node k when it had data. */
  predicate Grants(p: Plugin, o: Occurrence, k: nat) {
    o.AtNode? && o.k == k < |p.nodes| && o.ev.UpdateClick? && p.nodes[k].hasData
  }

  /** The user clicked Abort, or the device ended its upgrade successfully. */
  predicate Revokes(p: Plugin, o: Occurrence, k: nat) {
    && o.AtNode? && o.k == k < |p.nodes|
    && (o.ev.AbortClick? || (o.ev.UpgradeEnd? && AcceptsEnd(p.nodes[k], o.ev.payload)))
  }

  /** An Update click that found data came at i, and nothing revoked it since. */
  predicate GrantedAt(os: seq<Occurrence>, k: nat, i: nat) {
    && i < |os| && Grants(Run(os[..i]), os[i], k)
    && (forall j :: i < j < |os| ==> !Revokes(Run(os[..j]), os[j], k))
  }

  /** The node as the query answer sees it. */
  function Asked(n: NodeData, sh: Shared, ev: Event): NodeData
    requires ev.Query?
  {
    CheckForUpdate(ReadQuery(Heard(n, QUERY_NEXT_IMAGE_REQUEST), ev.seqNo, ev.payload), sh, ev.load)
  }

  /** A query of node k is answered with the image: the image is captured. */
  predicate Captures(p: Plugin, o: Occurrence, k: nat) {
    && o.AtNode? && o.k == k < |p.nodes| && o.ev.Query? && (|o.ev.payload| == 9 || |o.ev.payload| == 11)
    && OffersImage(Asked(p.nodes[k], p.shared, o.ev), p.shared)
  }

  /** The image was captured at i, and no other one since. */
  predicate CapturedAt(os: seq<Occurrence>, k: nat, i: nat) {
    && i < |os| && Captures(Run(os[..i]), os[i], k)
    && (forall j :: i < j < |os| ==> !Captures(Run(os[..j]), os[j], k))
  }

  function Image(os: seq<Occurrence>, k: nat, i: nat): ByteArray
    requires CapturedAt(os, k, i)
  {
    var p := Run(os[..i]);
    Asked(p.nodes[k], p.shared, os[i].ev).file.raw
  }

  // ---- one step ----

  predicate SameRights(n: NodeData, m: NodeData) {
    m.permitUpdate == n.permitUpdate && m.rawFile == n.rawFile
  }

  lemma {:induction false} BlockKeepsRights(n: NodeData, asdu: u8, env: Env)
    ensures SameRights(n, ImageBlockResponse(n, asdu, env).node)
  {}

  lemma {:induction false} PagingKeepsRights(n: NodeData, sh: Shared, env: Env)
    ensures SameRights(n, ImagePageResponse(n, sh, env).node)
  {
    BlockKeepsRights(n, sh.maxAsduDataSize, env);
  }

  /** Events that neither grant, revoke nor capture. */
  predicate Neutral(ev: Event) {
    !ev.UpdateClick? && !ev.AbortClick? && !ev.UpgradeEnd? && !ev.Query?
  }

  lemma {:induction false} NeutralKeepsRights(n: NodeData, sh: Shared, now: nat, ev: Event)
    requires Neutral(ev)
    ensures SameRights(n, Step(n, sh, now, ev).node)
  {
    match ev
    case BlockReq(seqNo, payload, env) =>
      BlockKeepsRights(AskedBlock(Heard(n, IMAGE_BLOCK_REQUEST), seqNo, payload), sh.maxAsduDataSize, env);
    case Confirm(id, status, env) =>
      PagingKeepsRights(CreditBlock(n.(apsRequestId := INVALID_APS_REQ_ID)), sh, env);
    case Visit(env, _) => PagingKeepsRights(n, sh, env);
    case _ =>
  }

  /** Exactly an Update click that finds data grants, and exactly an Abort click or an accepted
      upgrade end revokes. */
  lemma {:induction false} StepRights(n: NodeData, sh: Shared, now: nat, ev: Event)
    ensures Step(n, sh, now, ev).node.permitUpdate <==>
        ((ev.UpdateClick? && n.hasData) ||
         (n.permitUpdate && !ev.AbortClick? && !(ev.UpgradeEnd? && AcceptsEnd(n, ev.payload))))
  {
    if Neutral(ev) { NeutralKeepsRights(n, sh, now, ev); }
  }

  /** Exactly a query answered with the image captures it. */
  lemma {:induction false} StepImage(n: NodeData, sh: Shared, now: nat, ev: Event)
    ensures Step(n, sh, now, ev).node.rawFile ==
        if ev.Query? && (|ev.payload| == 9 || |ev.payload| == 11) && OffersImage(Asked(n, sh, ev), sh)
        then Asked(n, sh, ev).file.raw else n.rawFile
  {
    if Neutral(ev) { NeutralKeepsRights(n, sh, now, ev); }
  }

  /** An answer that offers the image. */
  predicate OffersIt(outs: seq<Out>) {
    |outs| == 1 && outs[0].Reply? && outs[0].frame.QueryResponse? && outs[0].frame.query.NewImage?
  }

  lemma {:induction false} OfferNeedsPermit(n: NodeData, sh: Shared, now: nat, ev: Event)
    requires OffersIt(Step(n, sh, now, ev).outs)
    ensures ev.Query? && n.permitUpdate && (|ev.payload| == 9 || |ev.payload| == 11) && OffersImage(Asked(n, sh, ev), sh)
    ensures Step(n, sh, now, ev).shared.tracker == Mark(sh.tracker, n.ext, now)
  {
    if !ev.Query? { PagingIsNoOffer(n, sh, ev); }
  }

  lemma {:induction false} PagingIsNoOffer(n: NodeData, sh: Shared, ev: Event)
    ensures ev.Confirm? ==> !OffersIt(ImagePageResponse(CreditBlock(n.(apsRequestId := INVALID_APS_REQ_ID)), sh, ev.env).outs)
    ensures ev.Visit? ==> !OffersIt(ImagePageResponse(n, sh, ev.env).outs)
  {}

  lemma {:induction false} MarkTracks(t: Tracker, ext: u64, now: nat)
    requires |t.entries| < OTAU_MAX_ACTIVE
    ensures Tracked(Mark(t, ext, now).entries, ext)
  {
    var i := FindAddr(t.entries, ext, 0);
    var es := Mark(t, ext, now).entries;
    if i < |t.entries| { assert es[i].extAddr == ext; } else { assert es[|t.entries|].extAddr == ext; }
  }

  // ---- runs ----

  lemma {:induction false} PrefixOfInit(os: seq<Occurrence>, j: nat)
    requires os != [] && j < |os|
    ensures os[..|os| - 1][..j] == os[..j]
  {}

  /** Permission stands exactly while the last Update click that found data is unrevoked. */
  lemma {:induction false} PermitMeansGranted(os: seq<Occurrence>, k: nat)
    requires k < |Run(os).nodes|
    ensures Run(os).nodes[k].permitUpdate <==> exists i :: GrantedAt(os, k, i)
    decreases |os|
  {
    if os != [] {
      var init, o := os[..|os| - 1], os[|os| - 1];
      var p := Run(init);
      if k < |p.nodes| {
        PermitMeansGranted(init, k);
        PermitStep(p, o, k);
        GrantStep(os, k);
      } else {
        NoGrantBefore(os, k);
      }
    }
  }

  lemma {:induction false} PermitStep(p: Plugin, o: Occurrence, k: nat)
    requires k < |p.nodes|
    ensures Advance(p, o).nodes[k].permitUpdate <==> (Grants(p, o, k) || (p.nodes[k].permitUpdate && !Revokes(p, o, k)))
  {
    if Possible(p, o) {
      match ReachOf(p, o, k)
      case Untouched =>
      case Reached(ev, sh, now) => StepRights(p.nodes[k], sh, now, ev);
    }
  }

  lemma {:induction false} GrantEarlier(os: seq<Occurrence>, k: nat, i: nat)
    requires os != [] && i < |os| - 1
    ensures var init := os[..|os| - 1];
      GrantedAt(os, k, i) <==> (GrantedAt(init, k, i) && !Revokes(Run(init), os[|init|], k))
  {
    var init := os[..|os| - 1];
    forall j: nat | j < |init|
      ensures init[..j] == os[..j] && init[j] == os[j]
    {
      PrefixOfInit(os, j);
    }
    assert os[..|init|] == init;
    if GrantedAt(os, k, i) { assert !Revokes(Run(os[..|init|]), os[|init|], k); }
  }

  lemma {:induction false} GrantBefore(os: seq<Occurrence>, k: nat, i: nat)
    requires os != [] && GrantedAt(os, k, i)
    ensures var init, o := os[..|os| - 1], os[|os| - 1];
      Grants(Run(init), o, k) || (GrantedAt(init, k, i) && !Revokes(Run(init), o, k))
  {
    if i < |os| - 1 { GrantEarlier(os, k, i); } else { GrantLast(os, k); }
  }

  lemma {:induction false} GrantStep(os: seq<Occurrence>, k: nat)
    requires os != []
    ensures var init, o := os[..|os| - 1], os[|os| - 1];
      (exists i :: GrantedAt(os, k, i)) <==>
      (Grants(Run(init), o, k) || ((exists i :: GrantedAt(init, k, i)) && !Revokes(Run(init), o, k)))
  {
    var init := os[..|os| - 1];
    if i: nat :| GrantedAt(os, k, i) { GrantBefore(os, k, i); }
    if i: nat :| GrantedAt(init, k, i) { GrantEarlier(os, k, i); }
    GrantLast(os, k);
  }

  lemma {:induction false} GrantLast(os: seq<Occurrence>, k: nat)
    requires os != []
    ensures GrantedAt(os, k, |os| - 1) <==> Grants(Run(os[..|os| - 1]), os[|os| - 1], k)
  {}

  /** A node that has just appeared was granted nothing. */
  lemma {:induction false} NoGrantBefore(os: seq<Occurrence>, k: nat)
    requires os != [] && |Run(os[..|os| - 1]).nodes| <= k < |Run(os).nodes|
    ensures !Run(os).nodes[k].permitUpdate && Run(os).nodes[k].rawFile == []
    ensures forall i: nat :: i < |os| ==> !Grants(Run(os[..i]), os[i], k) && !Captures(Run(os[..i]), os[i], k)
  {
    forall i: nat | i < |os|
      ensures !Grants(Run(os[..i]), os[i], k) && !Captures(Run(os[..i]), os[i], k)
    {
      NodesGrow(os[..|os| - 1], i);
      PrefixOfInit(os, i);
    }
  }

  lemma {:induction false} NodesGrow(os: seq<Occurrence>, i: nat)
    requires i <= |os|
    ensures |Run(os[..i]).nodes| <= |Run(os).nodes|
    decreases |os|
  {
    if i < |os| {
      NodesGrow(os[..|os| - 1], i);
      PrefixOfInit(os, i);
    } else {
      assert os[..i] == os;
    }
  }

  /** The captured image is the one of the last query answered with an image; before the first
      such query there is none. */
  lemma {:induction false} ImageMeansCaptured(os: seq<Occurrence>, k: nat)
    requires k < |Run(os).nodes|
    ensures Run(os).nodes[k].rawFile == [] || exists i :: CapturedAt(os, k, i) && Run(os).nodes[k].rawFile == Image(os, k, i)
    decreases |os|
  {
    if os != [] {
      var init, o := os[..|os| - 1], os[|os| - 1];
      var p := Run(init);
      if k < |p.nodes| {
        ImageMeansCaptured(init, k);
        ImageStep(p, o, k);
        if Captures(p, o, k) {
          CaptureNow(os, k);
        } else if i: nat :| CapturedAt(init, k, i) && p.nodes[k].rawFile == Image(init, k, i) {
          CaptureEarlier(os, k, i);
        }
      } else {
        NoGrantBefore(os, k);
      }
    }
  }

  lemma {:induction false} CaptureEarlier(os: seq<Occurrence>, k: nat, i: nat)
    requires os != [] && CapturedAt(os[..|os| - 1], k, i) && !Captures(Run(os[..|os| - 1]), os[|os| - 1], k)
    ensures CapturedAt(os, k, i) && Image(os, k, i) == Image(os[..|os| - 1], k, i)
  {
    var init := os[..|os| - 1];
    forall j | i < j < |os|
      ensures !Captures(Run(os[..j]), os[j], k)
    {
      if j < |init| {
        PrefixOfInit(os, j);
        assert !Captures(Run(init[..j]), init[j], k);
      }
    }
    PrefixOfInit(os, i);
  }

  lemma {:induction false} CaptureNow(os: seq<Occurrence>, k: nat)
    requires os != [] && Captures(Run(os[..|os| - 1]), os[|os| - 1], k)
    requires var p := Run(os[..|os| - 1]);
      k < |Run(os).nodes| && Run(os).nodes[k].rawFile == Asked(p.nodes[k], p.shared, os[|os| - 1].ev).file.raw
    ensures CapturedAt(os, k, |os| - 1) && Run(os).nodes[k].rawFile == Image(os, k, |os| - 1)
  {}

  lemma {:induction false} ImageStep(p: Plugin, o: Occurrence, k: nat)
    requires k < |p.nodes|
    ensures Advance(p, o).nodes[k].rawFile ==
      if Captures(p, o, k) && Possible(p, o) then Asked(p.nodes[k], p.shared, o.ev).file.raw else p.nodes[k].rawFile
  {
    if Possible(p, o) {
      match ReachOf(p, o, k)
      case Untouched =>
      case Reached(ev, sh, now) => StepImage(p.nodes[k], sh, now, ev);
    }
  }

  /** Every data block of a run was consented to, and its bytes are those of the image captured
      at the last query answered with an image. */
  lemma {:induction false} BlocksConsented(os: seq<Occurrence>, o: Occurrence, k: nat)
    requires Possible(Run(os), o) && k < |Run(os).nodes| && SendsBlock(OutsOf(Run(os), o, k))
    ensures exists i :: GrantedAt(os, k, i)
    ensures var b := OutsOf(Run(os), o, k)[0].frame.block;
      |b.data| > 0 ==> exists i :: CapturedAt(os, k, i) && b.offset + |b.data| <= |Image(os, k, i)|
                            && b.data == Image(os, k, i)[b.offset..b.offset + |b.data|]
  {
    BlocksBounded(os, o, k);
    PermitMeansGranted(os, k);
    ImageMeansCaptured(os, k);
  }

  /** Every offer of a run was consented to, and leaves the device tracked. */
  lemma {:induction false} OffersConsented(os: seq<Occurrence>, o: Occurrence, k: nat)
    requires Possible(Run(os), o) && k < |Run(os).nodes| && OffersIt(OutsOf(Run(os), o, k))
    ensures exists i :: GrantedAt(os, k, i)
    ensures Captures(Run(os), o, k)
    ensures Tracked(Advance(Run(os), o).shared.tracker.entries, Run(os).nodes[k].ext)
  {
    PermitMeansGranted(os, k);
    match ReachOf(Run(os), o, k)
    case Untouched =>
    case Reached(ev, sh, now) =>
      OfferNeedsPermit(Run(os).nodes[k], sh, now, ev);
      MarkTracks(sh.tracker, Run(os).nodes[k].ext, now);
  }

  // ---- which file the user permitted ----

  /** What an occurrence puts in the place of the file of node k: a file that was selected, or one
      that was loaded for a query. */
  datatype Replacement = Kept | By(file: FileData)

  function Replaces(p: Plugin, o: Occurrence, k: nat): Replacement {
    if !o.AtNode? || o.k != k || k >= |p.nodes| then Kept
    else
      match o.ev
      case FileSelect(file, _) => By(file)
      case Query(_, payload, load, _) =>
        if (|payload| == 9 || |payload| == 11) && !p.nodes[k].hasData && |p.shared.tracker.entries| < OTAU_MAX_ACTIVE && load.Load?
        then By(load.file) else Kept
      case _ => Kept
  }

  /** The last file put in place from position i on. */
  function ReplacedSince(os: seq<Occurrence>, k: nat, i: nat): Replacement
    decreases |os|
  {
    if |os| <= i then Kept
    else
      var last := Replaces(Run(os[..|os| - 1]), os[|os| - 1], k);
      if last.By? then last else ReplacedSince(os[..|os| - 1], k, i)
  }

  /** The same file but for its elements, which a cleanup or an end clears. */
  predicate SameImage(f: FileData, g: FileData) {
    f.(subElements := []) == g.(subElements := [])
  }

  lemma {:induction false} BlockKeepsFile(n: NodeData, asdu: u8, env: Env)
    ensures ImageBlockResponse(n, asdu, env).node.file == n.file
  {}

  lemma {:induction false} PagingKeepsFile(n: NodeData, sh: Shared, env: Env)
    ensures ImagePageResponse(n, sh, env).node.file == n.file
  {
    BlockKeepsFile(n, sh.maxAsduDataSize, env);
  }

  lemma {:induction false} PageFile(n: NodeData, sh: Shared, now: nat, ev: Event)
    requires ev.Confirm? || ev.Visit?
    ensures Step(n, sh, now, ev).node.file == n.file
  {
    PagingKeepsFile(OnPage(n, ev), sh, ev.env);
  }

  lemma {:induction false} StepFile(n: NodeData, sh: Shared, now: nat, ev: Event)
    requires !ev.Query?
    ensures SameImage(Step(n, sh, now, ev).node.file, if ev.FileSelect? then ev.file else n.file)
  {
    if ev.Confirm? || ev.Visit? {
      PageFile(n, sh, now, ev);
    } else if ev.BlockReq? {
      BlockKeepsFile(AskedBlock(Heard(n, IMAGE_BLOCK_REQUEST), ev.seqNo, ev.payload), sh.maxAsduDataSize, ev.env);
    }
  }

  lemma {:induction false} QueryFile(n: NodeData, sh: Shared, now: nat, ev: Event)
    requires ev.Query?
    ensures SameImage(Step(n, sh, now, ev).node.file,
      if (|ev.payload| == 9 || |ev.payload| == 11) && !n.hasData && |sh.tracker.entries| < OTAU_MAX_ACTIVE && ev.load.Load?
      then ev.load.file else n.file)
  {}

  lemma {:induction false} FileStep(p: Plugin, o: Occurrence, k: nat)
    requires k < |p.nodes|
    ensures var r := Replaces(p, o, k);
      SameImage(Advance(p, o).nodes[k].file, if r.By? then r.file else p.nodes[k].file)
  {
    if Possible(p, o) {
      match ReachOf(p, o, k)
      case Untouched =>
      case Reached(ev, sh, now) =>
        if ev.Query? { QueryFile(p.nodes[k], sh, now, ev); } else { StepFile(p.nodes[k], sh, now, ev); }
    }
  }

  /** In every run: the file of a node is the last one put in place, or what it was before. */
  lemma {:induction false} FileSince(os: seq<Occurrence>, k: nat, i: nat)
    requires i <= |os| && k < |Run(os[..i]).nodes|
    ensures var r := ReplacedSince(os, k, i);
      && k < |Run(os).nodes|
      && SameImage(Run(os).nodes[k].file, if r.By? then r.file else Run(os[..i]).nodes[k].file)
    decreases |os|
  {
    NodesGrow(os, i);
    if i < |os| {
      var init := os[..|os| - 1];
      PrefixOfInit(os, i);
      FileSince(init, k, i);
      FileStep(Run(init), os[|os| - 1], k);
    } else {
      assert os[..i] == os;
    }
  }

  lemma {:induction false} OfferedFile(n: NodeData, sh: Shared, now: nat, ev: Event)
    requires OffersIt(Step(n, sh, now, ev).outs)
    ensures var m := Step(n, sh, now, ev).node; m.rawFile == m.file.raw
  {
    OfferNeedsPermit(n, sh, now, ev);
  }

  /** In every run: the image offered under the click at i is that of the file the user saw when
      clicking, if and only if nothing was selected or loaded since, or the last of it was the
      same file. */
  lemma {:induction false} OfferedAsPermittedIff(os: seq<Occurrence>, o: Occurrence, k: nat, i: nat)
    requires Possible(Run(os), o) && k < |Run(os).nodes| && OffersIt(OutsOf(Run(os), o, k)) && GrantedAt(os, k, i)
    ensures var all := os + [o]; var seen, offered := Run(os[..i]).nodes[k].file, Run(all).nodes[k].file;
      var r := ReplacedSince(all, k, i);
      && Run(all).nodes[k].rawFile == offered.raw
      && (SameImage(offered, seen) <==> r.Kept? || SameImage(r.file, seen))
  {
    var all := os + [o];
    assert all[..i] == os[..i] && all[..|os|] == os;
    FileSince(all, k, i);
    match ReachOf(Run(os), o, k)
    case Untouched =>
    case Reached(ev, sh, now) => OfferedFile(Run(os).nodes[k], sh, now, ev);
  }
}
