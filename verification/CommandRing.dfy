/** Command deduplication: the ring of the last 64 command ids and the part of executeCommand that
    consults it (internal/service/clientcmd.go). */
module CommandRing {
  import opened Json
  import opened Records

  const SIZE := 64

  type Result = string
  type Refusal = string

  datatype Ring = Ring(order: seq<string>, results: map<string, Option<Result>>, refusals: map<string, Refusal>)

  const EMPTY := Ring([], map[], map[])

  function Added(r: Ring, id: string): Ring {
    var order, results := r.order + [id], r.results[id := None];
    if |order| > SIZE then Ring(order[1..], results - {order[0]}, r.refusals - {order[0]})
    else Ring(order, results, r.refusals)
  }

  function Stored(r: Ring, id: string, res: Result): Ring {
    if id in r.results then r.(results := r.results[id := Some(res)]) else r
  }

  function Refused(r: Ring, id: string, e: Refusal): Ring {
    r.(refusals := r.refusals[id := e])
  }

  function RefusalOf(r: Ring, id: string): Option<Refusal> {
    if id in r.refusals then Some(r.refusals[id]) else None
  }

  class Commands {
    var order: seq<string>
    var results: map<string, Option<Result>>
    var refusals: map<string, Refusal>

    ghost function State(): Ring
      reads this
    {
      Ring(order, results, refusals)
    }

    constructor ()
      ensures State() == EMPTY
    {
      order, results, refusals := [], map[], map[];
    }

    method Add(id: string)
      modifies this
      ensures State() == Added(old(State()), id)
    {
      order := order + [id];
      results := results[id := None];
      if |order| > SIZE {
        results := results - {order[0]};
        refusals := refusals - {order[0]};
        order := order[1..];
      }
    }

    method Lookup(id: string) returns (res: Option<Result>, refusal: Option<Refusal>, seen: bool)
      ensures seen <==> id in results
      ensures res == if id in results then results[id] else None
      ensures refusal == RefusalOf(State(), id)
    {
      seen := id in results;
      res := if seen then results[id] else None;
      refusal := if id in refusals then Some(refusals[id]) else None;
    }

    method Store(id: string, res: Result)
      modifies this`results
      ensures State() == Stored(old(State()), id, res)
    {
      if id in results {
        results := results[id := Some(res)];
      }
    }

    method Refuse(id: string, e: Refusal)
      modifies this`refusals
      ensures State() == Refused(old(State()), id, e)
    {
      refusals := refusals[id := e];
    }

    /** seedCommandRing: the ids a previous process left in state.json, none when it cannot be read. */
    method Seed(loaded: Option<seq<string>>)
      modifies this
      ensures State() == if loaded.Some? then Seeded(old(State()), loaded.value) else old(State())
    {
      if loaded.None? {
        return;
      }
      var ids := loaded.value;
      for i := 0 to |ids|
        invariant State() == Seeded(old(State()), ids[..i])
      {
        Add(ids[i]);
        assert ids[..i + 1][..i] == ids[..i];
      }
      assert ids[..|ids|] == ids;
    }

    /** executeCommand's dedupe half, as one step per delivery: replay what is known, otherwise remember
        the id and the verdict. */
    method Deliver(id: string, verdict: Verdict) returns (answer: Answer)
      modifies this
      ensures State() == Delivered(old(State()), id, verdict)
      ensures answer == AnswerTo(old(State()), id, verdict)
      ensures id == "" ==> answer == Refuses("command id is required", false) && State() == old(State())
    {
      if id == "" {
        return Refuses("command id is required", false);
      }
      var prev, refusal, seen := Lookup(id);
      if seen {
        if refusal.Some? {
          return Refuses(refusal.value, true);
        }
        return Accepts(true, prev);
      }
      Add(id);
      if verdict.Refuse? {
        Refuse(id, verdict.reason);
        return Refuses(verdict.reason, false);
      }
      return Accepts(false, None);
    }
  }

  function Seeded(r: Ring, ids: seq<string>): Ring
    decreases |ids|
  {
    if ids == [] then r else Added(Seeded(r, ids[..|ids| - 1]), ids[|ids| - 1])
  }

  /** Admission refused, or accepted; an acknowledgement that cannot be sent stops before execution. */
  datatype Verdict = Refuse(reason: Refusal) | AckLost | Execute

  datatype Answer = Refuses(error: Refusal, duplicate: bool) | Accepts(duplicate: bool, result: Option<Result>)

  function Delivered(r: Ring, id: string, verdict: Verdict): Ring {
    if id == "" || id in r.results then r
    else if verdict.Refuse? then Refused(Added(r, id), id, verdict.reason) else Added(r, id)
  }

  function AnswerTo(r: Ring, id: string, verdict: Verdict): Answer {
    if id == "" then Refuses("command id is required", false)
    else if id in r.results then
      if id in r.refusals then Refuses(r.refusals[id], true) else Accepts(true, r.results[id])
    else if verdict.Refuse? then Refuses(verdict.reason, false) else Accepts(false, None)
  }

  // ---- the ring is the window of the last 64 entries of an unbounded history ----

  datatype Entry = Entry(id: string, refusal: Option<Refusal>, result: Option<Result>, executed: bool)

  datatype Event = Delivery(id: string, verdict: Verdict) | Finish(id: string, result: Result)

  /** The first history index still remembered. */
  function Cut(history: seq<Entry>): nat {
    if |history| <= SIZE then 0 else |history| - SIZE
  }

  function Window(history: seq<Entry>): seq<Entry> {
    history[Cut(history)..]
  }

  function Ids(entries: seq<Entry>): (ids: seq<string>)
    ensures |ids| == |entries| && forall i | 0 <= i < |ids| :: ids[i] == entries[i].id
  {
    seq(|entries|, i requires 0 <= i < |entries| => entries[i].id)
  }

  predicate Known(history: seq<Entry>, id: string) {
    id in Ids(Window(history))
  }

  predicate Holds(r: Ring, e: Entry) {
    e.id in r.results && r.results[e.id] == e.result && RefusalOf(r, e.id) == e.refusal
  }

  ghost predicate Represents(r: Ring, window: seq<Entry>) {
    && |window| <= SIZE && r.order == Ids(window) && Distinct(r.order)
    && (forall e <- window :: Holds(r, e))
    && (forall id <- r.results :: id in r.order)
    && (forall id <- r.refusals :: id in r.order)
  }

  /** Ids repeat in the history only with 64 other entries in between. */
  ghost predicate Spaced(history: seq<Entry>) {
    forall i, j | 0 <= i < j < |history| && history[i].id == history[j].id :: j - i > SIZE
  }

  function EntryFor(id: string, verdict: Verdict): Entry {
    Entry(id, if verdict.Refuse? then Some(verdict.reason) else None, None, verdict.Execute?)
  }

  /** What an event does to the history: only an unknown id adds an entry, a result fills in a known one. */
  ghost function Recorded(history: seq<Entry>, e: Event): seq<Entry> {
    match e
    case Delivery(id, verdict) => if id == "" || Known(history, id) then history else history + [EntryFor(id, verdict)]
    case Finish(id, result) =>
      if Known(history, id) then
        KnownIndex(history, id);
        var i :| Cut(history) <= i < |history| && history[i].id == id;
        history[i := history[i].(result := Some(result))]
      else history
  }

  function Handled(r: Ring, e: Event): Ring {
    match e
    case Delivery(id, verdict) => Delivered(r, id, verdict)
    case Finish(id, result) => Stored(r, id, result)
  }

  ghost function History(start: seq<Entry>, events: seq<Event>): seq<Entry>
    decreases |events|
  {
    if events == [] then start else Recorded(History(start, events[..|events| - 1]), events[|events| - 1])
  }

  function After(r: Ring, events: seq<Event>): Ring
    decreases |events|
  {
    if events == [] then r else Handled(After(r, events[..|events| - 1]), events[|events| - 1])
  }

  lemma KnownIndex(history: seq<Entry>, id: string)
    ensures Known(history, id) <==> exists i :: Cut(history) <= i < |history| && history[i].id == id
  {
    var ids := Ids(Window(history));
    if i :| Cut(history) <= i < |history| && history[i].id == id {
      assert ids[i - Cut(history)] == id;
    }
    if i :| 0 <= i < |ids| && ids[i] == id {
      assert history[i + Cut(history)].id == id;
    }
  }

  /** The ring holds exactly the ids of its window. */
  lemma KnownExactlyInRing(r: Ring, window: seq<Entry>, id: string)
    requires Represents(r, window)
    ensures id in r.results <==> id in Ids(window)
  {
    if i :| 0 <= i < |window| && Ids(window)[i] == id {
      assert Holds(r, window[i]);
    }
  }

  function Pushed(window: seq<Entry>, e: Entry): seq<Entry> {
    if |window| >= SIZE then window[1..] + [e] else window + [e]
  }

  lemma IdsPushed(window: seq<Entry>, e: Entry)
    ensures Ids(Pushed(window, e)) == if |window| >= SIZE then (Ids(window) + [e.id])[1..] else Ids(window) + [e.id]
  {}

  lemma DistinctPush(ids: seq<string>, id: string)
    requires Distinct(ids) && id !in ids
    ensures Distinct(ids + [id]) && Distinct((ids + [id])[1..])
    ensures ids != [] ==> forall x <- ids :: x != ids[0] ==> x in (ids + [id])[1..]
    ensures ids != [] ==> id in (ids + [id])[1..]
  {
    if ids != [] {
      assert (ids + [id])[1..] == ids[1..] + [id];
      assert ids == [ids[0]] + ids[1..];
    }
  }

  lemma PushKeepsOrder(r: Ring, window: seq<Entry>, e: Entry)
    requires Represents(r, window) && e.id !in Ids(window)
    ensures var added := Added(r, e.id);
      && added.order == Ids(Pushed(window, e)) && Distinct(added.order)
      && forall id | id in added.results || id in added.refusals :: id in added.order
  {
    IdsPushed(window, e);
    DistinctPush(r.order, e.id);
    assert (forall id <- r.results :: id in r.order) && (forall id <- r.refusals :: id in r.order);
    assert |r.order| == |window| <= SIZE;
    hide Distinct, Represents, Ids, Pushed;
    if |window| >= SIZE {
      assert (r.order + [e.id])[0] == r.order[0];
    }
  }

  lemma PushHolds(r: Ring, window: seq<Entry>, e: Entry, i: nat)
    requires Represents(r, window) && e.id !in Ids(window) && e.refusal.None? && e.result.None?
    requires i < |Pushed(window, e)|
    ensures Holds(Added(r, e.id), Pushed(window, e)[i])
  {
    if i < |Pushed(window, e)| - 1 {
      var k := if |window| >= SIZE then i + 1 else i;
      assert Holds(r, window[k]) && r.order[k] == window[k].id;
    }
  }

  lemma PushKeepsWindow(r: Ring, window: seq<Entry>, e: Entry)
    requires Represents(r, window) && e.id !in Ids(window) && e.refusal.None? && e.result.None?
    ensures Represents(Added(r, e.id), Pushed(window, e))
  {
    PushKeepsOrder(r, window, e);
    forall x | x in Pushed(window, e) ensures Holds(Added(r, e.id), x) {
      var i :| 0 <= i < |Pushed(window, e)| && Pushed(window, e)[i] == x;
      PushHolds(r, window, e, i);
    }
    hide Added, Ids, Holds;
  }

  lemma RefuseKeepsWindow(r: Ring, window: seq<Entry>, e: Refusal)
    requires window != [] && Represents(r, window)
    ensures var last := |window| - 1;
      Represents(Refused(r, window[last].id, e), window[last := window[last].(refusal := Some(e))])
  {
    var last := |window| - 1;
    var refused, changed := Refused(r, window[last].id, e), window[last := window[last].(refusal := Some(e))];
    assert Ids(changed) == Ids(window);
    forall x | x in changed ensures Holds(refused, x) {
      var i :| 0 <= i < |changed| && changed[i] == x;
      assert Holds(r, window[i]) && r.order[i] == x.id;
    }
  }

  lemma StoreKeepsWindow(r: Ring, window: seq<Entry>, i: nat, res: Result)
    requires i < |window| && Represents(r, window)
    ensures Represents(Stored(r, window[i].id, res), window[i := window[i].(result := Some(res))])
  {
    var stored, changed := Stored(r, window[i].id, res), window[i := window[i].(result := Some(res))];
    assert Ids(changed) == Ids(window);
    assert Holds(r, window[i]);
    forall x | x in changed ensures Holds(stored, x) {
      var k :| 0 <= k < |changed| && changed[k] == x;
      assert Holds(r, window[k]) && r.order[k] == x.id && r.order[i] == window[i].id;
    }
  }

  lemma SpacedAppend(history: seq<Entry>, e: Entry)
    requires Spaced(history) && !Known(history, e.id)
    ensures Spaced(history + [e])
  {
    KnownIndex(history, e.id);
  }

  lemma WindowAppend(history: seq<Entry>, e: Entry)
    ensures Window(history + [e]) == Pushed(Window(history), e)
  {}

  lemma PushedLast(window: seq<Entry>, e: Entry, refusal: Option<Refusal>)
    ensures var pushed := Pushed(window, e);
      pushed != [] && pushed[|pushed| - 1 := e.(refusal := refusal)] == Pushed(window, e.(refusal := refusal))
    ensures Pushed(window, e)[|Pushed(window, e)| - 1] == e
  {}

  lemma DeliveryKeepsWindow(r: Ring, history: seq<Entry>, id: string, verdict: Verdict)
    requires Represents(r, Window(history)) && id != "" && !Known(history, id)
    ensures Represents(Delivered(r, id, verdict), Window(history + [EntryFor(id, verdict)]))
  {
    hide Represents, Window, Pushed, Added, Refused;
    var plain, w := Entry(id, None, None, verdict.Execute?), Window(history);
    KnownExactlyInRing(r, w, id);
    PushKeepsWindow(r, w, plain);
    WindowAppend(history, EntryFor(id, verdict));
    if verdict.Refuse? {
      PushedLast(w, plain, Some(verdict.reason));
      RefuseKeepsWindow(Added(r, id), Pushed(w, plain), verdict.reason);
    }
  }

  lemma FinishKeepsWindow(r: Ring, history: seq<Entry>, id: string, result: Result)
    requires Represents(r, Window(history))
    ensures Represents(Stored(r, id, result), Window(Recorded(history, Finish(id, result))))
  {
    hide Represents;
    KnownExactlyInRing(r, Window(history), id);
    if Known(history, id) {
      KnownIndex(history, id);
      var after := Recorded(history, Finish(id, result));
      var i :| Cut(history) <= i < |history| && history[i].id == id
        && after == history[i := history[i].(result := Some(result))];
      var k := i - Cut(history);
      StoreKeepsWindow(r, Window(history), k, result);
      WindowUpdate(history, i, history[i].(result := Some(result)));
    }
  }

  lemma WindowUpdate(history: seq<Entry>, i: nat, e: Entry)
    requires Cut(history) <= i < |history|
    ensures Window(history)[i - Cut(history)] == history[i]
    ensures Window(history[i := e]) == Window(history)[i - Cut(history) := e]
  {}

  lemma HandledKeepsWindow(r: Ring, history: seq<Entry>, e: Event)
    requires Represents(r, Window(history)) && Spaced(history)
    ensures Represents(Handled(r, e), Window(Recorded(history, e))) && Spaced(Recorded(history, e))
  {
    hide Represents, Window;
    match e
    case Delivery(id, verdict) =>
      KnownExactlyInRing(r, Window(history), id);
      if id != "" && !Known(history, id) {
        DeliveryKeepsWindow(r, history, id, verdict);
        SpacedAppend(history, EntryFor(id, verdict));
      }
    case Finish(id, result) =>
      FinishKeepsWindow(r, history, id, result);
  }

  /** Over any trace the ring is exactly the window of the last 64 new ids with their verdicts and results,
      and an id enters the history, let alone is executed, at most once per stay in that window. */
  lemma {:induction false} RingIsWindow(r: Ring, start: seq<Entry>, events: seq<Event>)
    requires Represents(r, Window(start)) && Spaced(start)
    ensures Represents(After(r, events), Window(History(start, events))) && Spaced(History(start, events))
    decreases |events|
  {
    hide Represents, Spaced;
    if events != [] {
      var init := events[..|events| - 1];
      RingIsWindow(r, start, init);
      HandledKeepsWindow(After(r, init), History(start, init), events[|events| - 1]);
    }
  }

  /** From an empty ring: between two executions of one id lie at least 64 other ones. */
  lemma ExecutedOncePerStay(events: seq<Event>, i: nat, j: nat)
    requires i < j < |History([], events)|
    requires History([], events)[i].id == History([], events)[j].id
    requires History([], events)[i].executed && History([], events)[j].executed
    ensures j - i > SIZE
  {
    RingIsWindow(EMPTY, [], events);
  }

  /** A redelivery inside the window is answered from what the first delivery left: its refusal, or
      acceptance with the result once there is one; an id outside it gets a fresh verdict. */
  lemma RedeliveryReplays(events: seq<Event>, id: string, verdict: Verdict)
    requires id != ""
    ensures var r, history := After(EMPTY, events), History([], events);
      if Known(history, id) then ReplayedFrom(r, Window(history), id, verdict)
      else AnswerTo(r, id, verdict) == if verdict.Refuse? then Refuses(verdict.reason, false) else Accepts(false, None)
  {
    RingIsWindow(EMPTY, [], events);
    var r, window := After(EMPTY, events), Window(History([], events));
    KnownExactlyInRing(r, window, id);
    if i :| 0 <= i < |window| && Ids(window)[i] == id {
      assert Holds(r, window[i]);
    }
  }

  ghost predicate ReplayedFrom(r: Ring, window: seq<Entry>, id: string, verdict: Verdict) {
    && Delivered(r, id, verdict) == r
    && exists e <- window :: e.id == id && AnswerTo(r, id, verdict) ==
         if e.refusal.Some? then Refuses(e.refusal.value, true) else Accepts(true, e.result)
  }

  // ---- the next process ----

  function SeedHistory(ids: seq<string>): seq<Entry> {
    seq(|ids|, i requires 0 <= i < |ids| => Entry(ids[i], None, None, false))
  }

  lemma SeedOneMore(ids: seq<string>)
    requires ids != [] && Distinct(ids)
    ensures var init, last := ids[..|ids| - 1], ids[|ids| - 1];
      && Distinct(init) && SeedHistory(ids) == SeedHistory(init) + [Entry(last, None, None, false)]
      && last !in Ids(Window(SeedHistory(init))) && Spaced(SeedHistory(ids))
  {}

  lemma {:induction false} SeedRepresents(ids: seq<string>)
    requires Distinct(ids)
    ensures Represents(Seeded(EMPTY, ids), Window(SeedHistory(ids))) && Spaced(SeedHistory(ids))
    decreases |ids|
  {
    if ids != [] {
      var init, last := ids[..|ids| - 1], ids[|ids| - 1];
      var e := Entry(last, None, None, false);
      SeedRepresents(init);
      SeedOneMore(ids);
      PushKeepsWindow(Seeded(EMPTY, init), Window(SeedHistory(init)), e);
      WindowAppend(SeedHistory(init), e);
      hide Represents, Window, Pushed, Added, SeedHistory, Spaced;
    }
  }

  lemma {:induction false} HistoryGrows(start: seq<Entry>, events: seq<Event>)
    ensures var h := History(start, events);
      |start| <= |h| && forall i | 0 <= i < |start| :: h[i].id == start[i].id && h[i].refusal == start[i].refusal
    decreases |events|
  {
    if events != [] {
      HistoryGrows(start, events[..|events| - 1]);
      RecordedGrows(History(start, events[..|events| - 1]), events[|events| - 1]);
    }
  }

  lemma RecordedGrows(history: seq<Entry>, e: Event)
    ensures var h := Recorded(history, e);
      && |history| <= |h|
      && forall i | 0 <= i < |history| :: h[i].id == history[i].id && h[i].refusal == history[i].refusal
  {
    if e.Finish? {
      KnownIndex(history, e.id);
    }
  }

  /** No delivery of the list is of id. */
  predicate Untold(events: seq<Event>, id: string) {
    forall e <- events :: e.Delivery? ==> e.id != id
  }

  lemma {:induction false} SeededHoldsOnly(ids: seq<string>, id: string)
    requires id !in ids
    ensures id !in Seeded(EMPTY, ids).results
    decreases |ids|
  {
    if ids != [] {
      SeededHoldsOnly(ids[..|ids| - 1], id);
    }
  }

  lemma {:induction false} UntoldStaysNew(r: Ring, events: seq<Event>, id: string)
    requires id !in r.results && Untold(events, id)
    ensures id !in After(r, events).results
    decreases |events|
  {
    if events != [] {
      UntoldStaysNew(r, events[..|events| - 1], id);
    }
  }

  /** An id the ring was not seeded with gets a verdict of its own when it is first delivered. */
  lemma UnseededIdIsNew(ids: seq<string>, events: seq<Event>, id: string)
    requires id !in ids && id != "" && Untold(events, id)
    ensures AnswerTo(After(Seeded(EMPTY, ids), events), id, Execute) == Accepts(false, None)
  {
    SeededHoldsOnly(ids, id);
    UntoldStaysNew(Seeded(EMPTY, ids), events, id);
  }

  /** An id the ring was seeded with is confirmed as a duplicate, and nothing is executed, as long as fewer
      than 64 newer ids have followed it. */
  lemma SeededIdIsDuplicate(ids: seq<string>, events: seq<Event>, i: nat, verdict: Verdict)
    requires Distinct(ids) && i < |ids| && ids[i] != ""
    requires |History(SeedHistory(ids), events)| - i <= SIZE
    ensures var r := After(Seeded(EMPTY, ids), events);
      && AnswerTo(r, ids[i], verdict).Accepts? && AnswerTo(r, ids[i], verdict).duplicate
      && Delivered(r, ids[i], verdict) == r
  {
    SeedRepresents(ids);
    RingIsWindow(Seeded(EMPTY, ids), SeedHistory(ids), events);
    HistoryGrows(SeedHistory(ids), events);
    var r, history := After(Seeded(EMPTY, ids), events), History(SeedHistory(ids), events);
    assert SeedHistory(ids)[i].refusal.None?;
    assert Window(history)[i - Cut(history)] == history[i];
    assert Holds(r, history[i]);
  }
}
