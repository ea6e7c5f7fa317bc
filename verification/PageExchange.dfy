/** A page served under good conditions, when the stack takes every answer and confirms it; and
    runs of a plugin with one node, in which such exchanges happen. */
module PageExchange {
  import opened Bytes
  import opened Transfer
  import opened PageHistory
  import opened Runs

  /** The timer sends the first answer under the first id, each confirm sends the next one. */
  function EventAt(ids: seq<u8>): Event
    requires ids != []
  {
    var env := Env(Accepted(ids[|ids| - 1]), false, false);
    if |ids| == 1 then Visit(env, false) else Confirm(ids[|ids| - 2], ConfirmSuccess, env)
  }

  function Exchange(n: NodeData, sh: Shared, ids: seq<u8>): Result {
    if ids == [] then Result(n, sh, [])
    else
      var before := Exchange(n, sh, ids[..|ids| - 1]);
      Step(before.node, before.shared, 0, EventAt(ids))
  }

  /** The page is over: the next page request is due. */
  predicate Done(n: NodeData) {
    n.state == WaitNextRequest && n.apsRequestId == INVALID_APS_REQ_ID
  }

  lemma {:induction false} DoneStays(r: Result, id: u8, env: Env)
    requires Done(r.node)
    ensures Step(r.node, r.shared, 0, Confirm(id, ConfirmSuccess, env)).node == r.node
  {}

  // ---- runs of one node ----

  predicate At(os: seq<Occurrence>, n: NodeData, sh: Shared) {
    Run(os).nodes == [n] && Run(os).shared == sh
  }

  lemma {:induction false} Then(os: seq<Occurrence>, o: Occurrence)
    ensures Run(os + [o]) == Advance(Run(os), o)
  {
    assert (os + [o])[..|os|] == os;
  }

  lemma {:induction false} Begin(n: NodeData)
    requires Fresh(n)
    ensures At([NewNode(n)], n, INITIAL.shared)
  {
    Then([], NewNode(n));
    assert [] + [NewNode(n)] == [NewNode(n)];
  }

  lemma {:induction false} AtEvent(os: seq<Occurrence>, n: NodeData, sh: Shared, ev: Event)
    requires At(os, n, sh) && !ev.Visit? && !ev.Cleanup?
    ensures var o, r := AtNode(0, ev, 0), Step(n, sh, 0, ev);
      At(os + [o], r.node, r.shared) && Possible(Run(os), o) && OutsOf(Run(os), o, 0) == r.outs
  {
    Then(os, AtNode(0, ev, 0));
  }

  lemma {:induction false} AtTick(os: seq<Occurrence>, n: NodeData, sh: Shared, on: bool, v: VisitInput)
    requires At(os, n, sh) && sh.pageTimer
    ensures var o := PageTimer(on, [v]);
      && Possible(Run(os), o)
      && At(os + [o], if on then PageTick(n, TimerOver(sh), v.env, v.expired).node else n, sh.(pageTimer := on && Active(n)))
      && OutsOf(Run(os), o, 0) == if on then PageTick(n, TimerOver(sh), v.env, v.expired).outs else []
  {
    Then(os, PageTimer(on, [v]));
    if Active(n) { assert Active(Run(os).nodes[0]); }
  }

  // ---- an exchange in a run ----

  /** The tick that sends the first answer, and the confirm of each. */
  function Answers(ids: seq<u8>): seq<Occurrence> {
    if ids == [] then []
    else if |ids| == 1 then [PageTimer(true, [VisitInput(Env(Accepted(ids[0]), false, false), false)])]
    else Answers(ids[..|ids| - 1]) + [AtNode(0, EventAt(ids), 0)]
  }

  /** The page timer runs or not: a page response does the same. */
  lemma {:induction false} PagingIgnoresTimer(n: NodeData, sh: Shared, sh': Shared, env: Env)
    requires sh == sh'.(pageTimer := sh.pageTimer)
    ensures var r, r' := ImagePageResponse(n, sh, env), ImagePageResponse(n, sh', env);
      && r.node == r'.node && r.outs == r'.outs && r.ok == r'.ok
      && r.shared == sh.(pageTimer := r.shared.pageTimer) && r'.shared == sh'.(pageTimer := r'.shared.pageTimer)
  {}

  lemma {:induction false} ConfirmIgnoresTimer(n: NodeData, sh: Shared, sh': Shared, ev: Event)
    requires ev.Confirm? && sh == sh'.(pageTimer := sh.pageTimer)
    ensures var r, r' := Step(n, sh, 0, ev), Step(n, sh', 0, ev);
      r.node == r'.node && r.outs == r'.outs && r.shared == r'.shared.(pageTimer := r.shared.pageTimer)
  {
    if Credits(n, ev) { CreditIgnoresTimer(n, sh, sh', ev); }
  }

  lemma {:induction false} CreditIgnoresTimer(n: NodeData, sh: Shared, sh': Shared, ev: Event)
    requires Credits(n, ev) && sh == sh'.(pageTimer := sh.pageTimer)
    ensures var r, r' := Step(n, sh, 0, ev), Step(n, sh', 0, ev);
      r.node == r'.node && r.outs == r'.outs && r.shared == r'.shared.(pageTimer := r.shared.pageTimer)
  {
    PagingIgnoresTimer(OnPage(n, ev), sh, sh', ev.env);
  }

  /** The run after the answers is r, and r's outputs are those of its last occurrence. */
  predicate Follows(os: seq<Occurrence>, ids: seq<u8>, r: Result)
    requires ids != []
  {
    var all := os + Answers(ids);
    && all != [] && At(all, r.node, Run(all).shared) && Run(all).shared == r.shared.(pageTimer := Run(all).shared.pageTimer)
    && |Run(all[..|all| - 1]).nodes| == 1 && Possible(Run(all[..|all| - 1]), all[|all| - 1])
    && OutsOf(Run(all[..|all| - 1]), all[|all| - 1], 0) == r.outs
  }

  lemma {:induction false} FirstFollows(os: seq<Occurrence>, n: NodeData, sh: Shared, ids: seq<u8>)
    requires At(os, n, sh) && sh.pageTimer && n.state == WaitPageSpacing && |ids| == 1
    ensures Follows(os, ids, Exchange(n, TimerOver(sh), ids))
  {
    var v, all := VisitInput(Env(Accepted(ids[0]), false, false), false), os + Answers(ids);
    AtTick(os, n, sh, true, v);
    PagingIgnoresTimer(n, TimerOver(sh), TimerOver(sh), v.env);
    assert Exchange(n, TimerOver(sh), ids[..0]) == Result(n, TimerOver(sh), []);
    assert all[..|all| - 1] == os;
  }

  lemma {:induction false} NextFollows(os: seq<Occurrence>, ids: seq<u8>, r: Result)
    requires |ids| > 1 && Follows(os, ids[..|ids| - 1], r)
    ensures Follows(os, ids, Step(r.node, r.shared, 0, EventAt(ids)))
  {
    var before, all, ev := os + Answers(ids[..|ids| - 1]), os + Answers(ids), EventAt(ids);
    AtEvent(before, r.node, Run(before).shared, ev);
    ConfirmIgnoresTimer(r.node, Run(before).shared, r.shared, ev);
    assert all == before + [AtNode(0, ev, 0)];
    assert all[..|all| - 1] == before;
  }

  /** The exchange happens in the run. */
  lemma {:induction false} RunFollows(os: seq<Occurrence>, n: NodeData, sh: Shared, ids: seq<u8>)
    requires At(os, n, sh) && sh.pageTimer && n.state == WaitPageSpacing && ids != []
    ensures Follows(os, ids, Exchange(n, TimerOver(sh), ids))
  {
    if |ids| == 1 {
      FirstFollows(os, n, sh, ids);
    } else {
      RunFollows(os, n, sh, ids[..|ids| - 1]);
      NextFollows(os, ids, Exchange(n, TimerOver(sh), ids[..|ids| - 1]));
    }
  }
}
