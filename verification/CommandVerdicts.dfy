/** The ring with a delivery's verdict as a step of its own: other deliveries may come between the moment an id is
    added and the moment its refusal is stored (executeCommand, internal/service/clientcmd.go). Deliveries of one id
    do not overlap. */
module CommandVerdicts {
  import opened Json
  import opened CommandRing
  import opened Records

  /** Arrive is lookup and add, Judge the refusal stored for an id, Done the result stored for it. */
  datatype Step = Arrive(id: string) | Judge(id: string, reason: Refusal) | Done(id: string, result: Result)

  predicate IsNew(r: Ring, s: Step) {
    s.Arrive? && s.id != "" && s.id !in r.results
  }

  function Next(r: Ring, s: Step): Ring {
    match s
    case Arrive(id) => if IsNew(r, s) then Added(r, id) else r
    case Judge(id, reason) => Refused(r, id, reason)
    case Done(id, result) => Stored(r, id, result)
  }

  function Run(r: Ring, steps: seq<Step>): Ring
    decreases |steps|
  {
    if steps == [] then r else Next(Run(r, steps[..|steps| - 1]), steps[|steps| - 1])
  }

  /** The ids a run adds, in order. */
  function Adds(r: Ring, steps: seq<Step>): seq<string>
    decreases |steps|
  {
    if steps == [] then []
    else
      var init, last := steps[..|steps| - 1], steps[|steps| - 1];
      Adds(r, init) + if IsNew(Run(r, init), last) then [last.id] else []
  }

  /** The last 64 of a list of ids. */
  function Last(ids: seq<string>): (last: seq<string>)
    ensures |last| <= SIZE && |last| <= |ids|
    ensures |ids| > SIZE ==> |last| == SIZE
  {
    if |ids| <= SIZE then ids else ids[|ids| - SIZE..]
  }

  /** What every ring satisfies, whatever refusals it holds. */
  ghost predicate WellFormed(r: Ring) {
    |r.order| <= SIZE && Distinct(r.order) && forall id :: id in r.results <==> id in r.order
  }

  lemma LastOneMore(ids: seq<string>, id: string)
    ensures Last(ids + [id]) == if |Last(ids)| >= SIZE then Last(ids)[1..] + [id] else Last(ids) + [id]
  {}

  lemma AddedIsWellFormed(r: Ring, id: string)
    requires WellFormed(r) && id !in r.results
    ensures WellFormed(Added(r, id)) && Added(r, id).order == Last(r.order + [id])
  {
    hide Distinct;
    DistinctPush(r.order, id);
    if |r.order| < SIZE {
      assert Added(r, id).order == r.order + [id];
    } else {
      assert (r.order + [id])[0] == r.order[0] && Added(r, id).order == (r.order + [id])[1..];
    }
  }

  lemma NextHoldsLastAdds(r: Ring, adds: seq<string>, s: Step)
    requires WellFormed(r) && r.order == Last(adds)
    ensures WellFormed(Next(r, s)) && Next(r, s).order == Last(adds + if IsNew(r, s) then [s.id] else [])
  {
    if IsNew(r, s) {
      AddedIsWellFormed(r, s.id);
      LastOneMore(adds, s.id);
      LastOneMore(r.order, s.id);
      hide Added, Last;
    } else {
      assert adds + [] == adds;
    }
  }

  /** Whatever the verdicts and results in between, the ids held are the last 64 added. */
  lemma {:induction false} RingHoldsLastAdds(r: Ring, steps: seq<Step>)
    requires WellFormed(r)
    ensures WellFormed(Run(r, steps)) && Run(r, steps).order == Last(r.order + Adds(r, steps))
    decreases |steps|
  {
    if steps == [] {
      assert r.order + [] == r.order;
    } else {
      var init, last := steps[..|steps| - 1], steps[|steps| - 1];
      RingHoldsLastAdds(r, init);
      var now, adds := Run(r, init), Adds(r, init);
      var more := if IsNew(now, last) then [last.id] else [];
      NextHoldsLastAdds(now, r.order + adds, last);
      assert r.order + (adds + more) == r.order + adds + more;
      hide WellFormed, Next, Last, IsNew;
    }
  }

  /** No step of the list is about id. */
  predicate Silent(steps: seq<Step>, id: string) {
    forall s <- steps :: s.id != id
  }

  lemma {:induction false} SilentAddsOthers(r: Ring, steps: seq<Step>, id: string)
    requires Silent(steps, id)
    ensures id !in Adds(r, steps)
    decreases |steps|
  {
    if steps != [] {
      SilentAddsOthers(r, steps[..|steps| - 1], id);
    }
  }

  /** Of distinct ids followed by others, the first one is among the last 64 as long as fewer than 64 follow. */
  lemma InLast(ids: seq<string>, id: string, more: seq<string>)
    requires id !in ids && id !in more
    ensures id in Last(ids + [id] + more) <==> |more| < SIZE
  {
    var all := ids + [id] + more;
    assert all[|ids|] == id;
    if |more| < SIZE {
      assert Last(all)[|ids| - (|all| - |Last(all)|)] == id;
    } else {
      assert forall i | 0 <= i < SIZE :: Last(all)[i] == more[|more| - SIZE + i];
    }
  }

  /** A delivery that is new, what happens before its refusal is stored, and the refusal. */
  function Judged(r: Ring, id: string, between: seq<Step>, reason: Refusal): Ring {
    Refused(Run(Added(r, id), between), id, reason)
  }

  /** A redelivery replays the refusal its id was given exactly when fewer than 64 other ids were added between the
      id's own add and its refusal. */
  lemma RefusalReplayedExactlyWhen(before: seq<Step>, id: string, between: seq<Step>, reason: Refusal, verdict: Verdict)
    requires IsNew(Run(EMPTY, before), Arrive(id)) && Silent(between, id)
    ensures var r := Run(EMPTY, before);
      (AnswerTo(Judged(r, id, between, reason), id, verdict) == Refuses(reason, true))
      <==> |Adds(Added(r, id), between)| < SIZE
  {
    var r := Run(EMPTY, before);
    RefusedIdIsKept(before, id, between);
  }

  lemma RefusedIdIsKept(before: seq<Step>, id: string, between: seq<Step>)
    requires IsNew(Run(EMPTY, before), Arrive(id)) && Silent(between, id)
    ensures var r := Run(EMPTY, before);
      id in Run(Added(r, id), between).results <==> |Adds(Added(r, id), between)| < SIZE
  {
    var r := Run(EMPTY, before);
    RingHoldsLastAdds(EMPTY, before);
    AddedIsWellFormed(r, id);
    LastOneMore(r.order, id);
    var added, adds := Added(r, id), Adds(Added(r, id), between);
    RingHoldsLastAdds(added, between);
    SilentAddsOthers(added, between, id);
    var kept := if |r.order| >= SIZE then r.order[1..] else r.order;
    assert Last(r.order) == r.order;
    InLast(kept, id, adds);
    hide Added, Last, Adds, Run;
  }

  /** Otherwise the refusal outlives its id: the next delivery gets a verdict of its own, and when that one is
      accepted, the redeliveries after it are told the old refusal. */
  lemma LateRefusalGoesStale(before: seq<Step>, id: string, between: seq<Step>, reason: Refusal)
    requires IsNew(Run(EMPTY, before), Arrive(id)) && Silent(between, id)
    requires |Adds(Added(Run(EMPTY, before), id), between)| >= SIZE
    ensures var late := Judged(Run(EMPTY, before), id, between, reason);
      && AnswerTo(late, id, Execute) == Accepts(false, None)
      && forall v :: AnswerTo(Next(late, Arrive(id)), id, v) == Refuses(reason, true)
  {
    var r := Run(EMPTY, before);
    RefusedIdIsKept(before, id, between);
    RingHoldsLastAdds(EMPTY, before);
    AddedIsWellFormed(r, id);
    RingHoldsLastAdds(Added(r, id), between);
    var late := Judged(r, id, between, reason);
    assert WellFormed(late);
    assert late.order + [id] != [] && (late.order + [id])[|late.order|] == id;
    assert |late.order| == SIZE ==> late.order[0] in late.order;
  }

  predicate Inside(r: Ring) {
    r.refusals.Keys <= r.results.Keys
  }

  /** Every refusal of the run came while its id was among the last 64 added. */
  predicate Timely(steps: seq<Step>) {
    forall i | 0 <= i < |steps| && steps[i].Judge? :: steps[i].id in Last(Adds(EMPTY, steps[..i]))
  }

  /** The refusals never hold more than the ring exactly when every refusal is timely. */
  lemma {:induction false} RefusalsStayInsideExactlyWhen(steps: seq<Step>)
    ensures (forall n | 0 <= n <= |steps| :: Inside(Run(EMPTY, steps[..n]))) <==> Timely(steps)
    decreases |steps|
  {
    EmptyIsInside();
    hide Inside, Run, Adds, Last;
    if steps == [] {
      assert steps[..0] == [];
    } else {
      var init, last := steps[..|steps| - 1], steps[|steps| - 1];
      RefusalsStayInsideExactlyWhen(init);
      assert forall n | 0 <= n <= |init| :: init[..n] == steps[..n];
      assert init[..|init|] == init && steps[..|steps|] == steps;
      RunOneMore(EMPTY, steps);
      if Inside(Run(EMPTY, init)) {
        StaysInside(init, last);
      }
    }
  }

  lemma EmptyIsInside()
    ensures Inside(Run(EMPTY, []))
  {}

  lemma RunOneMore(r: Ring, steps: seq<Step>)
    requires steps != []
    ensures Run(r, steps) == Next(Run(r, steps[..|steps| - 1]), steps[|steps| - 1])
  {}

  lemma StaysInside(init: seq<Step>, last: Step)
    requires Inside(Run(EMPTY, init))
    ensures Inside(Next(Run(EMPTY, init), last)) <==> (last.Judge? ==> last.id in Last(Adds(EMPTY, init)))
  {
    RingHoldsLastAdds(EMPTY, init);
    assert EMPTY.order + Adds(EMPTY, init) == Adds(EMPTY, init);
    var r := Run(EMPTY, init);
    if IsNew(r, last) {
      AddedIsWellFormed(r, last.id);
    }
  }

  /** A refusal that is no longer inside stays until its id is delivered again. */
  lemma {:induction false} StaleRefusalStays(r: Ring, steps: seq<Step>, id: string)
    requires WellFormed(r) && id in r.refusals && id !in r.results && Silent(steps, id)
    ensures id in Run(r, steps).refusals && Run(r, steps).refusals[id] == r.refusals[id] && id !in Run(r, steps).results
    decreases |steps|
  {
    if steps != [] {
      var init, last := steps[..|steps| - 1], steps[|steps| - 1];
      StaleRefusalStays(r, init, id);
      RingHoldsLastAdds(r, init);
      var now := Run(r, init);
      if IsNew(now, last) && |now.order| == SIZE {
        assert now.order[0] in now.order;
        assert (now.order + [last.id])[0] == now.order[0];
      }
    }
  }

  lemma {:induction false} SilentKeepsVerdict(r: Ring, steps: seq<Step>, id: string)
    requires WellFormed(r) && id in r.results && Silent(steps, id) && id in Run(r, steps).results
    ensures RefusalOf(Run(r, steps), id) == RefusalOf(r, id) && Run(r, steps).results[id] == r.results[id]
    decreases |steps|
  {
    if steps != [] {
      var init, last := steps[..|steps| - 1], steps[|steps| - 1];
      RingHoldsLastAdds(r, init);
      SilentKeepsVerdict(r, init, id);
      var now := Run(r, init);
      assert IsNew(now, last) ==> (now.order + [last.id])[0] in now.order + [last.id];
    }
  }

  /** An accepted delivery is confirmed to its redeliveries, for as long as it is remembered, exactly when no late
      refusal of an earlier stay was waiting for it. */
  lemma AcceptanceReplayedExactlyWhen(before: seq<Step>, id: string, between: seq<Step>, verdict: Verdict)
    requires IsNew(Run(EMPTY, before), Arrive(id)) && Silent(between, id)
    requires |Adds(Added(Run(EMPTY, before), id), between)| < SIZE
    ensures var r := Run(EMPTY, before);
      (AnswerTo(Run(Added(r, id), between), id, verdict) == Accepts(true, None)) <==> id !in r.refusals
    ensures Timely(before) ==> id !in Run(EMPTY, before).refusals
  {
    var r := Run(EMPTY, before);
    RingHoldsLastAdds(EMPTY, before);
    AddedIsWellFormed(r, id);
    RefusedIdIsKept(before, id, between);
    SilentKeepsVerdict(Added(r, id), between, id);
    assert |r.order| == SIZE ==> r.order[0] in r.order && (r.order + [id])[0] == r.order[0];
    RefusalsStayInsideExactlyWhen(before);
    assert before[..|before|] == before;
  }

  /** A delivery as one step is the two with nothing in between. */
  lemma DeliveryIsArriveAndJudge(r: Ring, id: string, verdict: Verdict)
    ensures Delivered(r, id, verdict) ==
      if IsNew(r, Arrive(id)) && verdict.Refuse? then Judged(r, id, [], verdict.reason) else Next(r, Arrive(id))
  {}
}
