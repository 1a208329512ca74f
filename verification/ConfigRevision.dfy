/** Which document is in force: the cached one at start, then whatever the servers answer
    (internal/service/remoteconfig.go). */
module ConfigRevision {
  import opened Json

  datatype Source = Default | Cache | Remote

  /** D is a document Parse accepted, or the policy derived from config.ini. */
  datatype Snapshot<D> = Snapshot(doc: D, source: Source)

  /** The first server that answers decides; what the parser makes of a served body is given. */
  datatype Answer<D> = Unchanged | NothingPublished | Body(parsed: Option<D>) | Unreachable

  /** acceptDocument: an invalid document is refused, and so is an older one than a non-default policy's. */
  function Accepted<D>(snap: Snapshot<D>, parsed: Option<D>, revision: D -> nat): Snapshot<D> {
    if parsed.None? || (snap.source != Default && revision(parsed.value) < revision(snap.doc)) then snap
    else Snapshot(parsed.value, Remote)
  }

  function After<D>(snap: Snapshot<D>, a: Answer<D>, revision: D -> nat): Snapshot<D> {
    match a
    case Unchanged => snap.(source := Remote)
    case Body(parsed) => Accepted(snap, parsed, revision)
    case _ => snap
  }

  class Policy<D(0)> {
    const revision: D -> nat
    const interval: D -> int
    var current: Snapshot<D>
    var lastAttempt: Option<int>
    var unreachable: bool
    var saved: Option<D>

    /** initPolicy: a cached document that parses, else the default. */
    constructor (revision: D -> nat, interval: D -> int, default: D, cached: Option<D>)
      ensures this.revision == revision && this.interval == interval
      ensures current == if cached.Some? then Snapshot(cached.value, Cache) else Snapshot(default, Default)
      ensures lastAttempt == None && !unreachable && saved == None
    {
      this.revision, this.interval := revision, interval;
      current := if cached.Some? then Snapshot(cached.value, Cache) else Snapshot(default, Default);
      lastAttempt, unreachable, saved := None, false, None;
    }

    predicate Due(force: bool, now: int)
      reads this
    {
      force || lastAttempt.None? || now - lastAttempt.value >= interval(current.doc)
    }

    /** refreshConfig: the candidates are asked in turn until one does not fail. */
    method Refresh(force: bool, now: int, answers: seq<Answer<D>>)
      modifies this
      ensures !old(Due(force, now)) ==>
        current == old(current) && lastAttempt == old(lastAttempt) && saved == old(saved)
      ensures old(Due(force, now)) ==>
        lastAttempt == Some(now) && current == After(old(current), FirstAnswer(answers), revision)
      ensures old(Due(force, now)) ==> unreachable == FirstAnswer(answers).Unreachable?
      ensures saved != old(saved) ==> saved == Some(current.doc) && current.source == Remote
      ensures old(lastAttempt).Some? && !force && now - old(lastAttempt).value < interval(old(current).doc) ==>
        current == old(current) && saved == old(saved) && lastAttempt == old(lastAttempt)
      ensures old(lastAttempt).None? || force || now - old(lastAttempt).value >= interval(old(current).doc) ==>
        forall i | 0 <= i < |answers| && Decides(answers, i) ::
          match answers[i]
          case Body(Some(d)) =>
            if old(current).source == Default || revision(d) >= revision(old(current).doc)
            then current == Snapshot(d, Remote) && saved == Some(d)
            else current == old(current) && saved == old(saved)
          case Unchanged => current == Snapshot(old(current).doc, Remote) && saved == Some(current.doc)
          case _ => current == old(current) && saved == old(saved)
    {
      if !Due(force, now) {
        return;
      }
      lastAttempt := Some(now);
      var i := 0;
      while i < |answers| && answers[i].Unreachable?
        invariant 0 <= i <= |answers| && FirstAnswer(answers) == FirstAnswer(answers[i..])
        invariant forall j | 0 <= j < i :: answers[j].Unreachable?
      {
        i := i + 1;
      }
      if i == |answers| {
        unreachable := true;
        return;
      }
      unreachable := false;
      match answers[i] {
        case Unchanged =>
          current := current.(source := Remote);
          saved := Some(current.doc);
        case NothingPublished =>
        case Body(parsed) =>
          if parsed.None? || (current.source != Default && revision(parsed.value) < revision(current.doc)) {
            return;
          }
          current := Snapshot(parsed.value, Remote);
          saved := Some(parsed.value);
      }
    }
  }

  /** Answer i is the first that is not a failure. */
  predicate Decides<D>(answers: seq<Answer<D>>, i: nat)
    requires i < |answers|
  {
    !answers[i].Unreachable? && forall j | 0 <= j < i :: answers[j].Unreachable?
  }

  function FirstAnswer<D>(answers: seq<Answer<D>>): Answer<D> {
    if answers == [] then Unreachable
    else if answers[0].Unreachable? then FirstAnswer(answers[1..]) else answers[0]
  }

  function Run<D>(snap: Snapshot<D>, answers: seq<Answer<D>>, revision: D -> nat): Snapshot<D>
    decreases |answers|
  {
    if answers == [] then snap
    else After(Run(snap, answers[..|answers| - 1], revision), answers[|answers| - 1], revision)
  }

  /** Over any sequence of outcomes the revision in force never falls below one that was in force before,
      and what is in force is the starting policy or a document the parser accepted on the way. */
  lemma {:induction false} RevisionNeverDecreases<D>(snap: Snapshot<D>, answers: seq<Answer<D>>,
                                                     revision: D -> nat, from: nat)
    requires snap.source == Default ==> revision(snap.doc) == 0
    requires from <= |answers|
    ensures var then_, now := Run(snap, answers[..from], revision), Run(snap, answers, revision);
      && revision(then_.doc) <= revision(now.doc)
      && (now.source == Default ==> now == snap)
      && (now.doc == snap.doc || Body(Some(now.doc)) in answers)
    decreases |answers| - from
  {
    if from == |answers| {
      assert answers[..from] == answers;
      InForce(snap, answers, revision);
    } else {
      RevisionNeverDecreases(snap, answers, revision, from + 1);
      InForce(snap, answers[..from], revision);
      assert answers[..from + 1][..from] == answers[..from];
    }
  }

  /** Each accepted document that is not older is in force until the next answer. */
  lemma NewestIsInForce<D>(snap: Snapshot<D>, answers: seq<Answer<D>>, d: D, revision: D -> nat)
    ensures var before, now := Run(snap, answers, revision), Run(snap, answers + [Body(Some(d))], revision);
      now == if before.source == Default || revision(d) >= revision(before.doc) then Snapshot(d, Remote) else before
    ensures Run(snap, [], revision) == snap
  {
    var all := answers + [Body(Some(d))];
    assert all[..|all| - 1] == answers;
  }

  lemma {:induction false} InForce<D>(snap: Snapshot<D>, answers: seq<Answer<D>>, revision: D -> nat)
    requires snap.source == Default ==> revision(snap.doc) == 0
    ensures var now := Run(snap, answers, revision);
      && (now.source == Default ==> now == snap && revision(now.doc) == 0)
      && (now.doc == snap.doc || Body(Some(now.doc)) in answers)
    decreases |answers|
  {
    if answers != [] {
      InForce(snap, answers[..|answers| - 1], revision);
    }
  }
}
