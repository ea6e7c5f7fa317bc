/** The activity tracker in the runs of the plugin: which requests count as activity, and that an
    upgrade that goes on keeps its place. */
module Activity {
  import opened Bytes
  import opened Sequences
  import opened Tracking
  import opened Transfer
  import opened Runs
  import opened Requests

  /** A block request, a page request, or a query that is answered with the image while a place is
      free. */
  predicate CountsAsActivity(p: Plugin, o: Occurrence)
    requires Possible(p, o) && o.AtNode?
  {
    || o.ev.BlockReq? || o.ev.PageReq?
    || (o.ev.Query? && (|o.ev.payload| == 9 || |o.ev.payload| == 11) && |p.shared.tracker.entries| < 4
        && Offerable(p.nodes[o.k], o.ev.payload, NodeAfter(p, o, o.k)))
  }

  /** What an occurrence is to the tracker. */
  function HappeningOf(p: Plugin, o: Occurrence): seq<Happening> {
    if !Possible(p, o) then []
    else
      match o
      case AtNode(k, _, now) => if CountsAsActivity(p, o) then [Heartbeat(p.nodes[k].ext, now)] else []
      case ActivityTimer(now) => [Ticked(now)]
      case _ => []
  }

  /** What the tracker was told along a run. */
  function Happenings(os: seq<Occurrence>): seq<Happening>
    decreases |os|
  {
    if os == [] then [] else Happenings(os[..|os| - 1]) + HappeningOf(Run(os[..|os| - 1]), os[|os| - 1])
  }

  lemma {:induction false} OthersUntracked(n: NodeData, sh: Shared, now: nat, ev: Event)
    requires !ev.Query?
    ensures Step(n, sh, now, ev).shared.tracker == if ev.BlockReq? || ev.PageReq? then Mark(sh.tracker, n.ext, now) else sh.tracker
  {
    if ev.Confirm? || ev.Visit? { PagingUntracked(OnPage(n, ev), sh, ev); }
  }

  lemma {:induction false} PagingUntracked(n: NodeData, sh: Shared, ev: Event)
    ensures ev.Confirm? || ev.Visit? ==> ImagePageResponse(n, sh, ev.env).shared.tracker == sh.tracker
  {}

  lemma {:induction false} TrackerAfter(p: Plugin, o: Occurrence)
    ensures Advance(p, o).shared.tracker == Tracking.Follow(p.shared.tracker, HappeningOf(p, o))
  {
    if Possible(p, o) {
      var t := p.shared.tracker;
      assert Tracking.Follow(t, []) == t;
      match o
      case AtNode(k, ev, now) =>
        assert [Heartbeat(p.nodes[k].ext, now)][..0] == [];
        if ev.Query? { QueryTracked(p, o); } else { OthersUntracked(p.nodes[k], p.shared, now, ev); }
      case ActivityTimer(now) => assert [Ticked(now)][..0] == [];
      case _ =>
    }
  }

  lemma {:induction false} QueryTracked(p: Plugin, o: Occurrence)
    requires Possible(p, o) && o.AtNode? && o.ev.Query?
    ensures SharedAfter(p, o).tracker == if CountsAsActivity(p, o) then Mark(p.shared.tracker, p.nodes[o.k].ext, o.now) else p.shared.tracker
  {
    if |o.ev.payload| == 9 || |o.ev.payload| == 11 { QueryAnswered(p.nodes[o.k], p.shared, o.now, o.ev); }
  }

  lemma {:induction false} FollowOne(t: Tracker, hs: seq<Happening>, h: Happening)
    ensures Tracking.Follow(t, hs + [h]) == Tracking.Follow(Tracking.Follow(t, hs), [h])
  {
    var before := Tracking.Follow(t, hs);
    assert (hs + [h])[..|hs|] == hs && [h][..0] == [];
    assert Tracking.Follow(before, []) == before;
  }

  /** An occurrence is at most one happening. */
  lemma {:induction false} FollowBoth(t: Tracker, hs: seq<Happening>, gs: seq<Happening>)
    requires |gs| <= 1
    ensures Tracking.Follow(t, hs + gs) == Tracking.Follow(Tracking.Follow(t, hs), gs)
  {
    AppendLast(hs, gs);
    if gs != [] {
      FollowOne(t, hs, gs[0]);
      assert gs == [gs[0]];
    }
  }

  /** In every run: the tracker is what the requests and the ticks of its timer make of it. */
  lemma {:induction false} TrackerFollows(os: seq<Occurrence>)
    ensures Run(os).shared.tracker == Tracking.Follow(Tracker([], false), Happenings(os))
    decreases |os|
  {
    if os != [] {
      var init := os[..|os| - 1];
      TrackerFollows(init);
      TrackerAfter(Run(init), os[|os| - 1]);
      FollowBoth(Tracker([], false), Happenings(init), HappeningOf(Run(init), os[|os| - 1]));
    }
  }

  /** What happened to the tracker after a run, in one that goes on with more. */
  function HappeningsSince(os: seq<Occurrence>, more: seq<Occurrence>): seq<Happening>
    decreases |more|
  {
    if more == [] then []
    else HappeningsSince(os, more[..|more| - 1]) + HappeningOf(Run(os + more[..|more| - 1]), more[|more| - 1])
  }

  lemma {:induction false} TrackerSince(os: seq<Occurrence>, more: seq<Occurrence>)
    ensures Run(os + more).shared.tracker == Tracking.Follow(Run(os).shared.tracker, HappeningsSince(os, more))
    decreases |more|
  {
    if more == [] {
      assert os + more == os;
    } else {
      var init := more[..|more| - 1];
      TrackerSince(os, init);
      assert (os + more)[..|os + more| - 1] == os + init;
      TrackerAfter(Run(os + init), more[|more| - 1]);
      FollowBoth(Run(os).shared.tracker, HappeningsSince(os, init), HappeningOf(Run(os + init), more[|more| - 1]));
    }
  }

  /** In every run: a device that is tracked, and whose requests come in the ten seconds before every
      tick of the timer, keeps its place, whatever the other devices do. */
  lemma {:induction false} UpgradeKeepsPlace(os: seq<Occurrence>, more: seq<Occurrence>, ext: u64, at: nat)
    requires Entry(ext, at) in Run(os).shared.tracker.entries && HeardInTime(at, HappeningsSince(os, more), ext)
    ensures Entry(ext, HeardSince(at, HappeningsSince(os, more), ext)) in Run(os + more).shared.tracker.entries
  {
    Reachable(os);
    TrackerSince(os, more);
    ActiveStaysTracked(Run(os).shared.tracker, HappeningsSince(os, more), ext, at);
  }
}
