/** The missing acknowledgements: what the counter counts over whole runs, when the payload limit
    falls, and when the counter is that of consecutive ones. */
module NoAcks {
  import opened Bytes
  import opened Transfer
  import opened PageHistory
  import opened PageInvariant
  import opened Runs

  // ---- the confirms that a node waited for ----

  predicate Awaited(p: Plugin, o: Occurrence) {
    o.AtNode? && o.k < |p.nodes| && o.ev.Confirm? && Transfer.Matches(p.nodes[o.k], o.ev.id)
  }

  predicate Misses(p: Plugin, o: Occurrence) {
    Awaited(p, o) && o.ev.status == ConfirmNoAck
  }

  predicate FailsOtherwise(p: Plugin, o: Occurrence) {
    Awaited(p, o) && o.ev.status == ConfirmOther
  }

  predicate Succeeds(p: Plugin, o: Occurrence) {
    Awaited(p, o) && o.ev.status == ConfirmSuccess
  }

  /** The missing acknowledgement is that of the first block of an image. */
  predicate MissesFirstBlock(p: Plugin, o: Occurrence) {
    && Misses(p, o)
    && p.nodes[o.k].zclCommandId == IMAGE_BLOCK_RESPONSE && p.nodes[o.k].imgBlockReq.offset == 0
  }

  /** Missing acknowledgements since the last other failure. */
  function MissesOf(os: seq<Occurrence>): nat
    decreases |os|
  {
    if os == [] then 0
    else
      var p, o := Run(os[..|os| - 1]), os[|os| - 1];
      if Misses(p, o) then MissesOf(os[..|os| - 1]) + 1
      else if FailsOtherwise(p, o) then 0
      else MissesOf(os[..|os| - 1])
  }

  /** Missing acknowledgements since the last confirm of any other kind. */
  function ConsecutiveOf(os: seq<Occurrence>): nat
    decreases |os|
  {
    if os == [] then 0
    else
      var p, o := Run(os[..|os| - 1]), os[|os| - 1];
      if Misses(p, o) then ConsecutiveOf(os[..|os| - 1]) + 1
      else if Awaited(p, o) then 0
      else ConsecutiveOf(os[..|os| - 1])
  }

  /** The i-th occurrence is a missing acknowledgement that lowers the limit, or would. */
  predicate Lowers(os: seq<Occurrence>, i: nat) {
    && i < |os| && Misses(Run(os[..i]), os[i])
    && (MissesOf(os[..i + 1]) > 3 || MissesFirstBlock(Run(os[..i]), os[i]))
  }

  // ---- what is counted, and when the limit falls ----

  /** Only an awaited confirm that failed changes the counter or the limit. */
  lemma {:induction false} StepNoAcks(n: NodeData, sh: Shared, now: nat, ev: Event)
    ensures var r := Step(n, sh, now, ev).shared;
      if ev.Confirm? && Transfer.Matches(n, ev.id) && ev.status != ConfirmSuccess then r == CountNoAck(n, sh, ev.status)
      else r.noAckErrors == sh.noAckErrors && r.maxAsduDataSize == sh.maxAsduDataSize
  {
    match ev
    case Confirm(_, _, env) => PagingOutput(CreditBlock(n.(apsRequestId := INVALID_APS_REQ_ID)), sh, env);
    case Visit(env, _) => PagingOutput(n, sh, env);
    case _ =>
  }

  lemma {:induction false} AdvanceNoAcks(p: Plugin, o: Occurrence)
    ensures var q := Advance(p, o).shared;
      if Awaited(p, o) && o.ev.status != ConfirmSuccess then
        q.noAckErrors == CountNoAck(p.nodes[o.k], p.shared, o.ev.status).noAckErrors
        && q.maxAsduDataSize == CountNoAck(p.nodes[o.k], p.shared, o.ev.status).maxAsduDataSize
      else q.noAckErrors == p.shared.noAckErrors && q.maxAsduDataSize == p.shared.maxAsduDataSize
  {
    if Possible(p, o) && o.AtNode? { StepNoAcks(p.nodes[o.k], p.shared, o.now, o.ev); }
  }

  /** The counter and the limit, given what they were before. */
  predicate Falls(before: Shared, after: Shared, missed: bool, other: bool, first: bool) {
    && after.noAckErrors == (if missed then (before.noAckErrors + 1) % 0x100 else if other then 0 else before.noAckErrors)
    && after.maxAsduDataSize ==
         (if missed && (after.noAckErrors > NO_ACK_THRESHOLD || first) then Min(before.maxAsduDataSize, MAX_SAFE_ASDU_SIZE)
          else before.maxAsduDataSize)
  }

  lemma {:induction false} AdvanceFalls(p: Plugin, o: Occurrence)
    ensures Falls(p.shared, Advance(p, o).shared, Misses(p, o), FailsOtherwise(p, o), MissesFirstBlock(p, o))
  {
    AdvanceNoAcks(p, o);
  }

  /** After more than three the limit has fallen, long before the counter wraps. */
  predicate CountInv(sh: Shared, misses: nat) {
    && sh.noAckErrors == misses % 0x100
    && (misses > NO_ACK_THRESHOLD ==> sh.maxAsduDataSize == MAX_SAFE_ASDU_SIZE)
  }

  lemma {:induction false} NextCount(errors: u8, misses: nat)
    requires errors == misses % 0x100
    ensures (errors + 1) % 0x100 == (misses + 1) % 0x100 && (misses < 0xFF ==> (errors + 1) % 0x100 == misses + 1)
  {}

  lemma {:induction false} FallsKeeps(before: Shared, after: Shared, missed: bool, other: bool, first: bool, misses: nat)
    requires CountInv(before, misses) && LimitInv(before) && Falls(before, after, missed, other, first)
    ensures CountInv(after, if missed then misses + 1 else if other then 0 else misses)
    ensures after.maxAsduDataSize == MAX_SAFE_ASDU_SIZE <==>
      before.maxAsduDataSize == MAX_SAFE_ASDU_SIZE || (missed && (misses + 1 > NO_ACK_THRESHOLD || first))
  {
    NextCount(before.noAckErrors, misses);
  }

  lemma {:induction false} LimitReachable(os: seq<Occurrence>)
    ensures LimitInv(Run(os).shared)
  {
    Reachable(os);
  }

  lemma {:induction false} NoAcksInv(os: seq<Occurrence>)
    ensures CountInv(Run(os).shared, MissesOf(os))
    decreases |os|
  {
    if os != [] {
      var init, o := os[..|os| - 1], os[|os| - 1];
      var p := Run(init);
      NoAcksInv(init);
      LimitReachable(init);
      AdvanceFalls(p, o);
      FallsKeeps(p.shared, Advance(p, o).shared, Misses(p, o), FailsOtherwise(p, o), MissesFirstBlock(p, o), MissesOf(init));
    }
  }

  lemma {:induction false} LowersEarlier(os: seq<Occurrence>, i: nat)
    requires os != [] && i < |os| - 1
    ensures Lowers(os, i) <==> Lowers(os[..|os| - 1], i)
  {
    assert os[..|os| - 1][..i] == os[..i] && os[..|os| - 1][..i + 1] == os[..i + 1];
  }

  /** Whether the last occurrence lowers the limit. */
  lemma {:induction false} LowersLast(os: seq<Occurrence>)
    requires os != []
    ensures var init, o := os[..|os| - 1], os[|os| - 1];
      Run(os).shared.maxAsduDataSize == MAX_SAFE_ASDU_SIZE <==>
        Run(init).shared.maxAsduDataSize == MAX_SAFE_ASDU_SIZE || Lowers(os, |os| - 1)
  {
    var init, o := os[..|os| - 1], os[|os| - 1];
    var p := Run(init);
    assert os[..|os|] == os;
    NoAcksInv(init);
    LimitReachable(init);
    AdvanceFalls(p, o);
    FallsKeeps(p.shared, Advance(p, o).shared, Misses(p, o), FailsOtherwise(p, o), MissesFirstBlock(p, o), MissesOf(init));
  }

  /** In every run: the counter is the number of missing acknowledgements since the last other
      failure, in its 8 bits; and the limit has fallen if and only if some missing acknowledgement
      was the fourth or a later one of these, or that of the first block of an image. */
  lemma {:induction false} LimitFallsIff(os: seq<Occurrence>)
    ensures Run(os).shared.noAckErrors == MissesOf(os) % 0x100
    ensures Run(os).shared.maxAsduDataSize == 57 <==> exists i :: Lowers(os, i)
    decreases |os|
  {
    NoAcksInv(os);
    if os != [] {
      var init := os[..|os| - 1];
      LimitFallsIff(init);
      LowersLast(os);
      LowersStep(os);
    }
  }

  lemma {:induction false} LowersStep(os: seq<Occurrence>)
    requires os != []
    ensures var init := os[..|os| - 1];
      (exists i :: Lowers(os, i)) <==> (exists i :: Lowers(init, i)) || Lowers(os, |os| - 1)
  {
    var init := os[..|os| - 1];
    if i: nat :| Lowers(os, i) && i < |init| { LowersEarlier(os, i); }
    if i: nat :| Lowers(init, i) { LowersEarlier(os, i); }
  }

  // ---- consecutive ones ----

  /** No other failure came after the i-th occurrence. */
  predicate NoneOtherwise(os: seq<Occurrence>, i: nat) {
    forall m: nat :: i < m < |os| ==> !FailsOtherwise(Run(os[..m]), os[m])
  }

  /** The i-th occurrence is a missing acknowledgement that still counts. */
  predicate CountedAt(os: seq<Occurrence>, i: nat) {
    i < |os| && Misses(Run(os[..i]), os[i]) && NoneOtherwise(os, i)
  }

  /** A success came after a missing acknowledgement that still counts. */
  predicate Separated(os: seq<Occurrence>, i: nat, j: nat) {
    i < j < |os| && CountedAt(os, i) && Succeeds(Run(os[..j]), os[j])
  }

  lemma {:induction false} SameEarlier(os: seq<Occurrence>, m: nat)
    requires os != [] && m < |os| - 1
    ensures var init := os[..|os| - 1]; init[..m] == os[..m] && init[m] == os[m]
  {}

  lemma {:induction false} NoneEarlier(os: seq<Occurrence>, i: nat)
    requires os != [] && NoneOtherwise(os, i) && i < |os| - 1
    ensures NoneOtherwise(os[..|os| - 1], i) && !FailsOtherwise(Run(os[..|os| - 1]), os[|os| - 1])
  {
    var init := os[..|os| - 1];
    forall m: nat | i < m < |init|
      ensures !FailsOtherwise(Run(init[..m]), init[m])
    {
      SameEarlier(os, m);
      assert !FailsOtherwise(Run(os[..m]), os[m]);
    }
    assert !FailsOtherwise(Run(os[..|init|]), os[|init|]);
  }

  lemma {:induction false} NoneLater(os: seq<Occurrence>, i: nat)
    requires os != [] && NoneOtherwise(os[..|os| - 1], i) && !FailsOtherwise(Run(os[..|os| - 1]), os[|os| - 1])
    ensures NoneOtherwise(os, i)
  {
    var init := os[..|os| - 1];
    forall m: nat | i < m < |os|
      ensures !FailsOtherwise(Run(os[..m]), os[m])
    {
      if m < |init| {
        SameEarlier(os, m);
        assert !FailsOtherwise(Run(init[..m]), init[m]);
      }
    }
  }

  lemma {:induction false} CountedEarlier(os: seq<Occurrence>, i: nat)
    requires os != [] && i < |os| - 1
    ensures CountedAt(os, i) <==> CountedAt(os[..|os| - 1], i) && !FailsOtherwise(Run(os[..|os| - 1]), os[|os| - 1])
  {
    SameEarlier(os, i);
    if CountedAt(os, i) { NoneEarlier(os, i); }
    if CountedAt(os[..|os| - 1], i) && !FailsOtherwise(Run(os[..|os| - 1]), os[|os| - 1]) { NoneLater(os, i); }
  }

  lemma {:induction false} CountedNow(os: seq<Occurrence>)
    requires os != []
    ensures CountedAt(os, |os| - 1) <==> Misses(Run(os[..|os| - 1]), os[|os| - 1])
  {}

  lemma {:induction false} SomeCounted(os: seq<Occurrence>) returns (i: nat)
    requires MissesOf(os) > 0
    ensures CountedAt(os, i)
    decreases |os|
  {
    if Misses(Run(os[..|os| - 1]), os[|os| - 1]) {
      i := |os| - 1;
      CountedNow(os);
    } else {
      i := SomeCounted(os[..|os| - 1]);
      CountedEarlier(os, i);
    }
  }

  lemma {:induction false} CountedCounts(os: seq<Occurrence>, i: nat)
    requires CountedAt(os, i)
    ensures MissesOf(os) > 0
    decreases |os|
  {
    if i < |os| - 1 {
      CountedEarlier(os, i);
      CountedCounts(os[..|os| - 1], i);
    } else {
      CountedNow(os);
    }
  }

  /** There is something to count if and only if some missing acknowledgement counts. */
  lemma {:induction false} MissesCounted(os: seq<Occurrence>)
    ensures MissesOf(os) > 0 <==> exists i :: CountedAt(os, i)
  {
    if MissesOf(os) > 0 {
      var i := SomeCounted(os);
    }
    if i: nat :| CountedAt(os, i) { CountedCounts(os, i); }
  }

  lemma {:induction false} SeparatedEarlier(os: seq<Occurrence>, i: nat, j: nat)
    requires os != [] && j < |os| - 1
    ensures Separated(os, i, j) <==> Separated(os[..|os| - 1], i, j) && !FailsOtherwise(Run(os[..|os| - 1]), os[|os| - 1])
  {
    if i < j {
      CountedEarlier(os, i);
      SameEarlier(os, j);
    }
  }

  /** A success separates missing acknowledgements if and only if there are some to separate. */
  lemma {:induction false} SeparatedLast(os: seq<Occurrence>, i: nat)
    requires os != []
    ensures Separated(os, i, |os| - 1) <==> CountedAt(os[..|os| - 1], i) && Succeeds(Run(os[..|os| - 1]), os[|os| - 1])
  {
    if i < |os| - 1 { CountedEarlier(os, i); }
  }

  ghost predicate AnySeparated(os: seq<Occurrence>) {
    exists i, j :: Separated(os, i, j)
  }

  ghost predicate AnyCounted(os: seq<Occurrence>) {
    exists i :: CountedAt(os, i)
  }

  lemma {:induction false} SeparatedStep(os: seq<Occurrence>)
    requires os != []
    ensures var init, o := os[..|os| - 1], os[|os| - 1];
      AnySeparated(os) <==>
        (AnySeparated(init) && !FailsOtherwise(Run(init), o)) || (AnyCounted(init) && Succeeds(Run(init), o))
  {
    var init := os[..|os| - 1];
    if i: nat, j: nat :| Separated(os, i, j) {
      if j < |init| { SeparatedEarlier(os, i, j); } else { SeparatedLast(os, i); }
    }
    if i: nat, j: nat :| Separated(init, i, j) { SeparatedEarlier(os, i, j); }
    if i: nat :| CountedAt(init, i) { SeparatedLast(os, i); }
  }

  lemma {:induction false} ConsecutiveAny(os: seq<Occurrence>)
    ensures ConsecutiveOf(os) <= MissesOf(os) && (MissesOf(os) == ConsecutiveOf(os) <==> !AnySeparated(os))
    decreases |os|
  {
    if os != [] {
      var init, o := os[..|os| - 1], os[|os| - 1];
      ConsecutiveAny(init);
      MissesCounted(init);
      assert MissesOf(init) > 0 <==> AnyCounted(init);
      SeparatedStep(os);
    }
  }

  /** In every run: what is counted are consecutive missing acknowledgements if and only if no
      success came between one of them and now. */
  lemma {:induction false} ConsecutiveIff(os: seq<Occurrence>)
    ensures ConsecutiveOf(os) <= MissesOf(os)
    ensures MissesOf(os) == ConsecutiveOf(os) <==> !exists i, j :: Separated(os, i, j)
  {
    ConsecutiveAny(os);
  }
}
