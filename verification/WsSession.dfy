/** The presence channel's published session and the generation that guards it
    (internal/service/clientevents.go), under the supervisor's connect/clear loop (internal/service/clientws.go)
    and welcome bursts that may still run after their connection is gone. */
module WsSession {
  import opened Json

  /** A session remembers the attempt whose welcome created it. */
  datatype Published = Published(gen: nat, session: Option<nat>)

  function Opened(p: Published): Published {
    p.(gen := p.gen + 1)
  }

  function Stored(p: Published, gen: nat, s: nat): Published {
    if p.gen == gen then p.(session := Some(s)) else p
  }

  function Cleared(p: Published, gen: nat): Published {
    Published(if p.gen == gen then p.gen + 1 else p.gen, None)
  }

  class Channel {
    var wsGen: nat
    var wsSession: Option<nat>

    ghost function State(): Published
      reads this
    {
      Published(wsGen, wsSession)
    }

    constructor ()
      ensures State() == Published(0, None)
    {
      wsGen, wsSession := 0, None;
    }

    method NextWSGeneration() returns (gen: nat)
      modifies this
      ensures State() == Opened(old(State())) && gen == wsGen
    {
      wsGen := wsGen + 1;
      return wsGen;
    }

    method StoreWSSession(gen: nat, s: nat)
      modifies this
      ensures State() == Stored(old(State()), gen, s)
    {
      if wsGen == gen {
        wsSession := Some(s);
      }
    }

    method ClearWSSession(gen: nat)
      modifies this
      ensures State() == Cleared(old(State()), gen)
    {
      if wsGen == gen {
        wsGen := wsGen + 1;
      }
      wsSession := None;
    }
  }

  /** The supervisor runs one connection at a time; bursts are the generations whose welcome arrived, any of
      which may publish at any later moment. Session n stands for a session of generation n. */
  datatype System = System(shared: Published, current: Option<nat>, bursts: set<nat>, closed: set<nat>)

  datatype Event = Connect | Welcome | Publish(gen: nat) | Close

  function Next(s: System, e: Event): System {
    match e
    case Connect =>
      if s.current.Some? then s
      else s.(shared := Opened(s.shared), current := Some(Opened(s.shared).gen))
    case Welcome =>
      if s.current.None? then s else s.(bursts := s.bursts + {s.current.value})
    case Publish(gen) =>
      if gen in s.bursts then s.(shared := Stored(s.shared, gen, gen)) else s
    case Close =>
      if s.current.None? then s
      else s.(shared := Cleared(s.shared, s.current.value), current := None, closed := s.closed + {s.current.value})
  }

  function Run(s: System, events: seq<Event>): System
    decreases |events|
  {
    if events == [] then s else Next(Run(s, events[..|events| - 1]), events[|events| - 1])
  }

  const START := System(Published(0, None), None, {}, {})

  ghost predicate Invariant(s: System) {
    && (s.current.Some? ==> s.current.value == s.shared.gen && s.current.value !in s.closed)
    && (s.current.None? ==> s.shared.gen !in s.bursts && s.shared.session.None?)
    && (s.shared.session.Some? ==> s.shared.session == s.current)
    && (forall g <- s.bursts :: g <= s.shared.gen && (g in s.closed || s.current == Some(g)))
    && (forall g <- s.closed :: g < s.shared.gen)
  }

  lemma {:induction false} RunKeepsInvariant(events: seq<Event>)
    ensures Invariant(Run(START, events))
    decreases |events|
  {
    if events != [] {
      RunKeepsInvariant(events[..|events| - 1]);
    }
  }

  /** In every interleaving a published session belongs to the connection that is up right now. */
  lemma PublishedIsCurrent(events: seq<Event>)
    ensures var s := Run(START, events);
      s.shared.session.Some? ==> s.shared.session == s.current && s.current.value !in s.closed
  {
    RunKeepsInvariant(events);
  }

  /** Once cleared, a connection never publishes again, however late its burst is. */
  lemma {:induction false} ClosedNeverPublishes(events: seq<Event>, later: seq<Event>, gen: nat)
    requires gen in Run(START, events).closed
    ensures var s := Run(START, events + later); gen in s.closed && s.shared.session != Some(gen)
    decreases |later|
  {
    if later == [] {
      assert events + later == events;
    } else {
      assert (events + later)[..|events + later| - 1] == events + later[..|later| - 1];
      ClosedNeverPublishes(events, later[..|later| - 1], gen);
    }
    PublishedIsCurrent(events + later);
  }

  /** The connection stays up over the list of events. */
  predicate StaysUp(events: seq<Event>) {
    Close !in events
  }

  /** The session of the connection that is up is published once its welcome has arrived and its burst gets to it,
      and stays published until the connection is closed. */
  lemma {:induction false} CurrentWelcomePublishes(events: seq<Event>, gen: nat, later: seq<Event>)
    requires Run(START, events).current == Some(gen) && gen in Run(START, events).bursts && StaysUp(later)
    ensures var s := Run(START, events + [Publish(gen)] + later);
      s.shared.session == Some(gen) && s.current == Some(gen)
    decreases |later|
  {
    RunKeepsInvariant(events);
    var published := events + [Publish(gen)];
    assert published[..|events|] == events;
    if later == [] {
      assert published + later == published;
    } else {
      var init := later[..|later| - 1];
      CurrentWelcomePublishes(events, gen, init);
      RunKeepsInvariant(published + init);
      assert (published + later)[..|published + later| - 1] == published + init;
    }
  }

  lemma RunStep(events: seq<Event>, e: Event)
    ensures Run(START, events + [e]) == Next(Run(START, events), e)
  {
    assert (events + [e])[..|events|] == events;
  }

  /** A welcome makes the burst of the connection that is up, and a connection can be opened whenever none is. */
  lemma WelcomeStartsBurst(events: seq<Event>)
    ensures var s := Run(START, events);
      if s.current.Some?
      then Run(START, events + [Welcome]) == s.(bursts := s.bursts + {s.current.value})
      else Run(START, events + [Connect]).current.Some? && Run(START, events + [Connect]).current.value !in s.closed
  {
    RunKeepsInvariant(events);
    RunStep(events, Welcome);
    RunStep(events, Connect);
  }

  /** Closing takes the session down and remembers the generation as closed; its burst may still come. */
  lemma ClosingClears(events: seq<Event>)
    ensures var s, after := Run(START, events), Run(START, events + [Close]);
      && after.current.None? && after.shared.session.None? && after.bursts == s.bursts
      && after.closed == s.closed + (if s.current.Some? then {s.current.value} else {})
  {
    RunKeepsInvariant(events);
    RunStep(events, Close);
  }
}
