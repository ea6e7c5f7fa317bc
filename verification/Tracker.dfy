/** The activity tracker: which devices are currently upgrading, at most four. */
module Tracking {
  import opened Bytes

  const OTAU_MAX_ACTIVE := 4
  const STALE_SECONDS := 10

  datatype Entry = Entry(extAddr: u64, lastActivity: nat)

  /** Entries in order of arrival, and whether the activity timer runs. Times are seconds. */
  datatype Tracker = Tracker(entries: seq<Entry>, timer: bool)

  predicate Tracked(es: seq<Entry>, ext: u64) {
    exists i :: 0 <= i < |es| && es[i].extAddr == ext
  }

  /** The first index from i on that satisfies the search, or |es|. */
  function FindAddr(es: seq<Entry>, ext: u64, i: nat): (r: nat)
    requires i <= |es|
    ensures i <= r <= |es|
    ensures r < |es| ==> es[r].extAddr == ext
    ensures forall j :: i <= j < r ==> es[j].extAddr != ext
    decreases |es| - i
  {
    if i == |es| || es[i].extAddr == ext then i else FindAddr(es, ext, i + 1)
  }

  predicate Stale(e: Entry, now: nat) {
    now - e.lastActivity > STALE_SECONDS
  }

  function FindStale(es: seq<Entry>, now: nat, i: nat): (r: nat)
    requires i <= |es|
    ensures i <= r <= |es|
    ensures r < |es| ==> Stale(es[r], now)
    ensures forall j :: i <= j < r ==> !Stale(es[j], now)
    decreases |es| - i
  {
    if i == |es| || Stale(es[i], now) then i else FindStale(es, now, i + 1)
  }

  /** A device was active: refresh its entry, or add one while there is room. */
  function Mark(t: Tracker, ext: u64, now: nat): Tracker {
    var i := FindAddr(t.entries, ext, 0);
    var es := if i < |t.entries| then t.entries[i := Entry(ext, now)]
              else if |t.entries| < OTAU_MAX_ACTIVE then t.entries + [Entry(ext, now)]
              else t.entries;
    Tracker(es, true)
  }

  /** The activity timer: drop the first stale entry, stop when none is left. */
  function Tick(t: Tracker, now: nat): Tracker {
    var i := FindStale(t.entries, now, 0);
    var es := if i < |t.entries| then t.entries[..i] + t.entries[i + 1..] else t.entries;
    Tracker(es, t.timer && es != [])
  }

  /** At most four devices, no device twice, and the timer runs exactly while there are any. */
  predicate Valid(t: Tracker) {
    && |t.entries| <= OTAU_MAX_ACTIVE
    && (forall i, j :: 0 <= i < j < |t.entries| ==> t.entries[i].extAddr != t.entries[j].extAddr)
    && (t.timer <==> t.entries != [])
  }

  lemma {:induction false} MarkKeepsValid(t: Tracker, ext: u64, now: nat)
    requires Valid(t)
    ensures Valid(Mark(t, ext, now))
    ensures Tracked(Mark(t, ext, now).entries, ext) <==> (Tracked(t.entries, ext) || |t.entries| < OTAU_MAX_ACTIVE)
  {
    var i := FindAddr(t.entries, ext, 0);
    var es := Mark(t, ext, now).entries;
    if i < |t.entries| {
      assert es[i].extAddr == ext && t.entries[i].extAddr == ext;
    } else if |t.entries| < OTAU_MAX_ACTIVE {
      assert es[|t.entries|].extAddr == ext;
    }
  }

  /** What is left after a tick stood at the same place or one behind. */
  lemma {:induction false} TickPlaces(t: Tracker, now: nat, m: nat)
    requires m < |Tick(t, now).entries|
    ensures var from := if m < FindStale(t.entries, now, 0) then m else m + 1;
      from < |t.entries| && Tick(t, now).entries[m] == t.entries[from]
  {}

  lemma {:induction false} TickKeepsValid(t: Tracker, now: nat)
    requires Valid(t)
    ensures Valid(Tick(t, now))
  {
    var i, es := FindStale(t.entries, now, 0), Tick(t, now).entries;
    forall m: nat | m < |es|
      ensures es[m] == t.entries[if m < i then m else m + 1]
    {
      TickPlaces(t, now, m);
    }
  }

  /** What may happen to the tracker between and at timer ticks. */
  datatype Happening = Heartbeat(ext: u64, now: nat) | Ticked(now: nat)

  function Follow(t: Tracker, hs: seq<Happening>): Tracker
    decreases |hs|
  {
    if hs == [] then t
    else
      var h := hs[|hs| - 1];
      var before := Follow(t, hs[..|hs| - 1]);
      match h
      case Heartbeat(ext, now) => Mark(before, ext, now)
      case Ticked(now) => Tick(before, now)
  }

  function Ticks(hs: seq<Happening>): nat {
    if hs == [] then 0 else (if hs[|hs| - 1].Ticked? then 1 else 0) + Ticks(hs[..|hs| - 1])
  }

  /** The device stays silent and its entry, last active at time at, is stale at each tick. */
  predicate Silent(hs: seq<Happening>, ext: u64, at: nat) {
    forall i :: 0 <= i < |hs| ==>
      match hs[i]
      case Heartbeat(e, _) => e != ext
      case Ticked(now) => now - at > STALE_SECONDS
  }

  /** The tracker is valid in every reachable state. */
  lemma {:induction false} AlwaysValid(t: Tracker, hs: seq<Happening>)
    requires Valid(t)
    ensures Valid(Follow(t, hs))
    decreases |hs|
  {
    if hs != [] {
      AlwaysValid(t, hs[..|hs| - 1]);
      var before := Follow(t, hs[..|hs| - 1]);
      match hs[|hs| - 1]
      case Heartbeat(ext, now) => MarkKeepsValid(before, ext, now);
      case Ticked(now) => TickKeepsValid(before, now);
    }
  }

  /** Entry e stands at most at place k, or its device is not tracked any more. */
  predicate NearFront(es: seq<Entry>, e: Entry, k: int) {
    !Tracked(es, e.extAddr) || exists j :: 0 <= j < |es| && es[j] == e && j <= k
  }

  lemma {:induction false} MarkKeepsPlace(t: Tracker, e: Entry, k: int, ext: u64, now: nat)
    requires Valid(t) && ext != e.extAddr && NearFront(t.entries, e, k)
    ensures NearFront(Mark(t, ext, now).entries, e, k)
  {
    var es := Mark(t, ext, now).entries;
    assert forall m :: 0 <= m < |es| ==> es[m].extAddr == ext || (m < |t.entries| && es[m] == t.entries[m]);
    if Tracked(t.entries, e.extAddr) {
      var j :| 0 <= j < |t.entries| && t.entries[j] == e && j <= k;
      assert es[j] == e;
    }
  }

  lemma {:induction false} TickMovesUp(t: Tracker, e: Entry, k: int, now: nat)
    requires Valid(t) && NearFront(t.entries, e, k) && Stale(e, now)
    ensures NearFront(Tick(t, now).entries, e, k - 1)
  {
    var es := Tick(t, now).entries;
    var i := FindStale(t.entries, now, 0);
    forall m: nat | m < |es|
      ensures es[m] == t.entries[if m < i then m else m + 1]
    {
      TickPlaces(t, now, m);
    }
    if Tracked(t.entries, e.extAddr) {
      var j :| 0 <= j < |t.entries| && t.entries[j] == e && j <= k;
      assert i <= j;
      if i < j { assert es[j - 1] == e; }
    }
  }

  /** While a device stays silent its entry only moves forward: after n ticks it is gone or at
      least n places nearer to the front. */
  lemma {:induction false} SilentMovesUp(t: Tracker, hs: seq<Happening>, e: Entry, k: int)
    requires Valid(t) && NearFront(t.entries, e, k) && Silent(hs, e.extAddr, e.lastActivity)
    ensures NearFront(Follow(t, hs).entries, e, k - Ticks(hs))
    decreases |hs|
  {
    if hs != [] {
      var init := hs[..|hs| - 1];
      assert forall i :: 0 <= i < |init| ==> init[i] == hs[i];
      SilentMovesUp(t, init, e, k);
      AlwaysValid(t, init);
      match hs[|hs| - 1]
      case Heartbeat(ext, now) => MarkKeepsPlace(Follow(t, init), e, k - Ticks(init), ext, now);
      case Ticked(now) => TickMovesUp(Follow(t, init), e, k - Ticks(init), now);
    }
  }

  /** An entry that stays stale is gone after four ticks of the timer. */
  lemma {:induction false} StaleEntryRemoved(t: Tracker, hs: seq<Happening>, k: nat)
    requires Valid(t) && k < |t.entries| && Silent(hs, t.entries[k].extAddr, t.entries[k].lastActivity)
    requires Ticks(hs) >= 4
    ensures !Tracked(Follow(t, hs).entries, t.entries[k].extAddr)
  {
    var e := t.entries[k];
    assert NearFront(t.entries, e, k);
    SilentMovesUp(t, hs, e, k);
  }

  // ---- what a tracked device can rely on ----

  /** When the device was last heard, or at if it was not. */
  function HeardSince(at: nat, hs: seq<Happening>, ext: u64): nat
    decreases |hs|
  {
    if hs == [] then at
    else
      match hs[|hs| - 1]
      case Heartbeat(e, now) => if e == ext then now else HeardSince(at, hs[..|hs| - 1], ext)
      case Ticked(_) => HeardSince(at, hs[..|hs| - 1], ext)
  }

  predicate HeardIn(hs: seq<Happening>, ext: u64) {
    exists i :: 0 <= i < |hs| && hs[i].Heartbeat? && hs[i].ext == ext
  }

  lemma {:induction false} HeardInMore(hs: seq<Happening>, ext: u64)
    requires hs != []
    ensures var h := hs[|hs| - 1]; HeardIn(hs, ext) <==> HeardIn(hs[..|hs| - 1], ext) || (h.Heartbeat? && h.ext == ext)
  {
    var init := hs[..|hs| - 1];
    if HeardIn(init, ext) {
      var i :| 0 <= i < |init| && init[i].Heartbeat? && init[i].ext == ext;
      assert hs[i] == init[i];
    }
    if HeardIn(hs, ext) {
      var i :| 0 <= i < |hs| && hs[i].Heartbeat? && hs[i].ext == ext;
      if i < |init| { assert init[i] == hs[i]; }
    }
  }

  /** A heartbeat refreshes the entry of its device, or adds one at the end while there are fewer
      than four; no other entry changes. */
  lemma {:induction false} HeartbeatEffect(t: Tracker, ext: u64, now: nat)
    requires Valid(t)
    ensures var es, fs := t.entries, Follow(t, [Heartbeat(ext, now)]).entries;
      if Tracked(es, ext) then |fs| == |es| && forall i :: 0 <= i < |es| ==> fs[i] == if es[i].extAddr == ext then Entry(ext, now) else es[i]
      else fs == if |es| < 4 then es + [Entry(ext, now)] else es
  {
    assert [Heartbeat(ext, now)][..0] == [];
    assert Follow(t, []) == t;
  }

  /** A tick drops the first entry that is silent for more than ten seconds, and no other. */
  lemma {:induction false} TickEffect(t: Tracker, now: nat)
    ensures var es, fs := t.entries, Follow(t, [Ticked(now)]).entries;
      || (fs == es && forall i :: 0 <= i < |es| ==> now - es[i].lastActivity <= 10)
      || exists i :: 0 <= i < |es| && fs == es[..i] + es[i + 1..] && now - es[i].lastActivity > 10
                     && forall j :: 0 <= j < i ==> now - es[j].lastActivity <= 10
  {
    assert [Ticked(now)][..0] == [];
    assert Follow(t, []) == t;
  }

  lemma {:induction false} FollowNext(t: Tracker, hs: seq<Happening>)
    requires hs != []
    ensures Follow(t, hs) == Follow(Follow(t, hs[..|hs| - 1]), [hs[|hs| - 1]])
  {
    assert [hs[|hs| - 1]][..0] == [];
    var before := Follow(t, hs[..|hs| - 1]);
    assert Follow(before, []) == before;
  }

  /** The entry is there since the start and its device was not heard, or it carries the time when
      its device was last heard. */
  predicate Current(t: Tracker, hs: seq<Happening>, e: Entry) {
    if HeardIn(hs, e.extAddr) then e.lastActivity == HeardSince(0, hs, e.extAddr) else e in t.entries
  }

  /** An entry after something happened: the one of the device that was heard, or an old one. */
  lemma {:induction false} EntryFrom(t: Tracker, h: Happening, e: Entry)
    requires Valid(t) && e in Follow(t, [h]).entries
    ensures if h.Heartbeat? && h.ext == e.extAddr then e.lastActivity == h.now else e in t.entries
  {
    var fs := Follow(t, [h]).entries;
    var k :| 0 <= k < |fs| && fs[k] == e;
    match h
    case Heartbeat(ext, now) => HeartbeatEffect(t, ext, now);
    case Ticked(now) => TickEffect(t, now);
  }

  /** Whatever happens: every entry carries the time when its device was last heard. */
  lemma {:induction false} EntriesCurrent(t: Tracker, hs: seq<Happening>)
    requires Valid(t)
    ensures forall e :: e in Follow(t, hs).entries ==> Current(t, hs, e)
    decreases |hs|
  {
    if hs != [] {
      var init, h := hs[..|hs| - 1], hs[|hs| - 1];
      var before := Follow(t, init);
      EntriesCurrent(t, init);
      AlwaysValid(t, init);
      FollowNext(t, hs);
      forall e | e in Follow(t, hs).entries
        ensures Current(t, hs, e)
      {
        HeardInMore(hs, e.extAddr);
        EntryFrom(before, h, e);
      }
    }
  }

  /** The device was heard in the ten seconds before every tick. */
  predicate HeardInTime(at: nat, hs: seq<Happening>, ext: u64) {
    forall i :: 0 <= i < |hs| && hs[i].Ticked? ==> hs[i].now - HeardSince(at, hs[..i], ext) <= 10
  }

  lemma {:induction false} InTimeBefore(at: nat, hs: seq<Happening>, ext: u64)
    requires hs != [] && HeardInTime(at, hs, ext)
    ensures HeardInTime(at, hs[..|hs| - 1], ext)
  {
    var init := hs[..|hs| - 1];
    forall i | 0 <= i < |init| && init[i].Ticked?
      ensures init[i].now - HeardSince(at, init[..i], ext) <= 10
    {
      assert init[..i] == hs[..i] && init[i] == hs[i];
    }
  }

  /** An upgrade that goes on keeps its place: a tracked device that was heard in the ten seconds
      before every tick stays tracked, with the time when it was last heard. */
  lemma {:induction false} ActiveStaysTracked(t: Tracker, hs: seq<Happening>, ext: u64, at: nat)
    requires Valid(t) && Entry(ext, at) in t.entries && HeardInTime(at, hs, ext)
    ensures Entry(ext, HeardSince(at, hs, ext)) in Follow(t, hs).entries
    decreases |hs|
  {
    if hs != [] {
      var init, h := hs[..|hs| - 1], hs[|hs| - 1];
      InTimeBefore(at, hs, ext);
      ActiveStaysTracked(t, init, ext, at);
      AlwaysValid(t, init);
      FollowNext(t, hs);
      var before, e := Follow(t, init), Entry(ext, HeardSince(at, init, ext));
      var k :| 0 <= k < |before.entries| && before.entries[k] == e;
      match h
      case Heartbeat(x, now) =>
        HeartbeatEffect(before, x, now);
        assert k < |Follow(t, hs).entries| && Follow(t, hs).entries[k] == if x == ext then Entry(ext, now) else e;
      case Ticked(now) =>
        TickEffect(before, now);
    }
  }

  class ActivityTracker {
    var entries: seq<Entry>
    var timer: bool

    ghost function View(): Tracker
      reads this
    {
      Tracker(entries, timer)
    }

    constructor ()
      ensures View() == Tracker([], false)
    {
      entries := [];
      timer := false;
    }

    method MarkOtauActivity(ext: u64, now: nat)
      modifies this
      ensures View() == Mark(old(View()), ext, now)
    {
      var i := 0;
      while i < |entries| && entries[i].extAddr != ext
        invariant 0 <= i <= |entries|
        invariant FindAddr(entries, ext, 0) == FindAddr(entries, ext, i)
      {
        i := i + 1;
      }
      if i < |entries| {
        entries := entries[i := Entry(ext, now)];
      } else if |entries| < OTAU_MAX_ACTIVE {
        entries := entries + [Entry(ext, now)];
      }
      timer := true;
    }

    method ActivityTimerFired(now: nat)
      modifies this
      ensures View() == Tick(old(View()), now)
    {
      var i := 0;
      while i < |entries| && !Stale(entries[i], now)
        invariant 0 <= i <= |entries|
        invariant FindStale(entries, now, 0) == FindStale(entries, now, i)
      {
        i := i + 1;
      }
      if i < |entries| {
        entries := entries[..i] + entries[i + 1..];
      }
      if entries == [] {
        timer := false;
      }
    }
  }
}
