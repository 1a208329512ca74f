/** state.json: three lifecycles in one document, each changed by its own read-modify-write under one
    mutex (internal/state/state.go). */
module StateStore {
  import opened Json
  import opened Records

  datatype Command = Command(id: string, name: string)

  /** P and S stand for the pending-update and self-update entries, which the store only carries. */
  datatype Doc<P, S> = Doc(pending: Option<P>, selfUpdate: Option<S>, commands: seq<Command>)

  datatype Op<P, S> =
    | SetPending(p: P)
    | ClearPending
    | SetSelfUpdate(s: S)
    | ClearSelfUpdate
    | AddCommand(c: Command)
    | RemoveCommand(id: string)
    | TakeCommands

  const ID_OF: Command -> string := (c: Command) => c.id

  function Apply<P, S>(d: Doc<P, S>, op: Op<P, S>): Doc<P, S> {
    match op
    case SetPending(p) => d.(pending := Some(p))
    case ClearPending => d.(pending := None)
    case SetSelfUpdate(s) => d.(selfUpdate := Some(s))
    case ClearSelfUpdate => d.(selfUpdate := None)
    case AddCommand(c) => d.(commands := d.commands + [c])
    case RemoveCommand(id) => d.(commands := Without(d.commands, ID_OF, id))
    case TakeCommands => d.(commands := [])
  }

  datatype File<P, S> = Missing | Readable(doc: Doc<P, S>) | Corrupt(content: string)

  function Empty<P, S>(): Doc<P, S> {
    Doc(None, None, [])
  }

  /** What a successful load yields: a missing file is an empty state. */
  function Loaded<P, S>(f: File<P, S>): Option<Doc<P, S>> {
    match f
    case Missing => Some(Empty())
    case Readable(doc) => Some(doc)
    case Corrupt(_) => None
  }

  /** How the file system answers one update. */
  datatype Luck = Luck(readOk: bool, backupOk: bool, writeOk: bool)

  class Store<P, S> {
    var file: File<P, S>
    var backup: Option<string>
    ghost var crashPoints: seq<File<P, S>>

    constructor (file: File<P, S>)
      ensures this.file == file && backup == None && crashPoints == []
    {
      this.file, backup, crashPoints := file, None, [];
    }

    /** update: load, move an unparsable file aside, apply, and replace the file by a rename. The file a
        crash can leave is always the old one, the new one, or none once the unparsable one is in the backup.
        The commands are taken before the file is written, so a failed write still returns them. */
    method Update(op: Op<P, S>, luck: Luck) returns (ok: bool, taken: seq<Command>)
      modifies this
      ensures ok <==> luck.readOk && (old(file).Corrupt? ==> luck.backupOk) && luck.writeOk
      ensures ok ==> file == Readable(Apply(if old(file).Corrupt? then Empty() else Loaded(old(file)).value, op))
      ensures !ok ==> file == old(file) || (file == Missing && old(file).Corrupt?)
      ensures file != old(file) && old(file).Corrupt? ==> backup == Some(old(file).content)
      ensures !old(file).Corrupt? ==> backup == old(backup)
      ensures taken ==
        if luck.readOk && op == TakeCommands && !old(file).Corrupt? then Loaded(old(file)).value.commands else []
      ensures old(crashPoints) <= crashPoints
      ensures forall f <- crashPoints[|old(crashPoints)|..] ::
        f == old(file) || f == file || (f == Missing && old(file).Corrupt?)
    {
      ok, taken := false, [];
      if !luck.readOk {
        return;
      }
      var doc: Doc<P, S>;
      if file.Corrupt? {
        if !luck.backupOk {
          return;
        }
        backup := Some(file.content);
        file := Missing;
        crashPoints := crashPoints + [file];
        doc := Empty();
      } else {
        doc := Loaded(file).value;
      }
      if op == TakeCommands {
        taken := doc.commands;
      }
      if !luck.writeOk {
        return;
      }
      file := Readable(Apply(doc, op));
      crashPoints := crashPoints + [file];
      ok := true;
    }
  }

  // ---- any interleaving of operations ----

  function ApplyAll<P, S>(d: Doc<P, S>, ops: seq<Op<P, S>>): Doc<P, S>
    decreases |ops|
  {
    if ops == [] then d else Apply(ApplyAll(d, ops[..|ops| - 1]), ops[|ops| - 1])
  }

  datatype Lifecycle = OfPending | OfSelfUpdate | OfCommands

  function LifecycleOf<P, S>(op: Op<P, S>): Lifecycle {
    match op
    case SetPending(_) => OfPending
    case ClearPending => OfPending
    case SetSelfUpdate(_) => OfSelfUpdate
    case ClearSelfUpdate => OfSelfUpdate
    case _ => OfCommands
  }

  function Only<P, S>(ops: seq<Op<P, S>>, l: Lifecycle): seq<Op<P, S>>
    decreases |ops|
  {
    if ops == [] then []
    else Only(ops[..|ops| - 1], l) + if LifecycleOf(ops[|ops| - 1]) == l then [ops[|ops| - 1]] else []
  }

  lemma OnlyOneMore<P, S>(d: Doc<P, S>, ops: seq<Op<P, S>>, l: Lifecycle)
    requires ops != []
    ensures var init, last := ops[..|ops| - 1], ops[|ops| - 1];
      ApplyAll(d, Only(ops, l)) ==
        if LifecycleOf(last) == l then Apply(ApplyAll(d, Only(init, l)), last) else ApplyAll(d, Only(init, l))
  {
    hide Apply;
    var before, last := Only(ops[..|ops| - 1], l), ops[|ops| - 1];
    assert (before + [last])[..|before|] == before && before + [] == before;
  }

  /** Two documents agree on one lifecycle. */
  predicate Agree<P(==), S(==)>(l: Lifecycle, a: Doc<P, S>, b: Doc<P, S>) {
    match l
    case OfPending => a.pending == b.pending
    case OfSelfUpdate => a.selfUpdate == b.selfUpdate
    case OfCommands => a.commands == b.commands
  }

  lemma AgreeAfter<P, S>(l: Lifecycle, a: Doc<P, S>, b: Doc<P, S>, op: Op<P, S>)
    requires Agree(l, a, b)
    ensures LifecycleOf(op) == l ==> Agree(l, Apply(a, op), Apply(b, op))
    ensures LifecycleOf(op) != l ==> Agree(l, Apply(a, op), b)
  {}

  lemma {:induction false} LifecycleIsIndependent<P, S>(d: Doc<P, S>, ops: seq<Op<P, S>>, l: Lifecycle)
    ensures Agree(l, ApplyAll(d, ops), ApplyAll(d, Only(ops, l)))
    decreases |ops|
  {
    if ops != [] {
      var init, last := ops[..|ops| - 1], ops[|ops| - 1];
      LifecycleIsIndependent(d, init, l);
      OnlyOneMore(d, ops, l);
      AgreeAfter(l, ApplyAll(d, init), ApplyAll(d, Only(init, l)), last);
      hide Apply, Only, Agree, LifecycleOf;
    }
  }

  /** Each lifecycle ends as if only its own operations had run. */
  lemma LifecyclesAreIndependent<P, S>(d: Doc<P, S>, ops: seq<Op<P, S>>)
    ensures ApplyAll(d, ops) == Doc(ApplyAll(d, Only(ops, OfPending)).pending,
      ApplyAll(d, Only(ops, OfSelfUpdate)).selfUpdate, ApplyAll(d, Only(ops, OfCommands)).commands)
  {
    LifecycleIsIndependent(d, ops, OfPending);
    LifecycleIsIndependent(d, ops, OfSelfUpdate);
    LifecycleIsIndependent(d, ops, OfCommands);
    hide ApplyAll, Only;
  }

  /** No operation of the lifecycle in the list. */
  ghost predicate NoneOf<P, S>(ops: seq<Op<P, S>>, l: Lifecycle) {
    forall i | 0 <= i < |ops| :: LifecycleOf(ops[i]) != l
  }

  lemma {:induction false} OthersKeep<P, S>(d: Doc<P, S>, ops: seq<Op<P, S>>, l: Lifecycle)
    requires NoneOf(ops, l)
    ensures Agree(l, ApplyAll(d, ops), d)
    decreases |ops|
  {
    if ops != [] {
      var init, last := ops[..|ops| - 1], ops[|ops| - 1];
      OthersKeep(d, init, l);
      AgreeAfter(l, ApplyAll(d, init), d, last);
    }
  }

  /** What was last set, or cleared, is what is found until the next operation of the same lifecycle, and each added
      command is found after those there already. */
  lemma LastWriteIsFound<P, S>(d: Doc<P, S>, p: P, s: S, c: Command, others: seq<Op<P, S>>)
    ensures NoneOf(others, OfPending) ==>
      && ApplyAll(Apply(d, SetPending(p)), others).pending == Some(p)
      && ApplyAll(Apply(d, ClearPending), others).pending == None
    ensures NoneOf(others, OfSelfUpdate) ==>
      && ApplyAll(Apply(d, SetSelfUpdate(s)), others).selfUpdate == Some(s)
      && ApplyAll(Apply(d, ClearSelfUpdate), others).selfUpdate == None
    ensures NoneOf(others, OfCommands) ==>
      && ApplyAll(Apply(d, AddCommand(c)), others).commands == d.commands + [c]
      && ApplyAll(Apply(d, TakeCommands), others).commands == []
  {
    if NoneOf(others, OfPending) {
      OthersKeep(Apply(d, SetPending(p)), others, OfPending);
      OthersKeep(Apply(d, ClearPending), others, OfPending);
    }
    if NoneOf(others, OfSelfUpdate) {
      OthersKeep(Apply(d, SetSelfUpdate(s)), others, OfSelfUpdate);
      OthersKeep(Apply(d, ClearSelfUpdate), others, OfSelfUpdate);
    }
    if NoneOf(others, OfCommands) {
      OthersKeep(Apply(d, AddCommand(c)), others, OfCommands);
      OthersKeep(Apply(d, TakeCommands), others, OfCommands);
    }
    hide ApplyAll, NoneOf;
  }

  /** Operations of different lifecycles can be swapped anywhere. */
  lemma DifferentLifecyclesCommute<P, S>(d: Doc<P, S>, a: Op<P, S>, b: Op<P, S>)
    requires LifecycleOf(a) != LifecycleOf(b)
    ensures Apply(Apply(d, a), b) == Apply(Apply(d, b), a)
  {}

  // ---- pending commands are conserved ----

  datatype Ledger = Ledger(added: multiset<Command>, removed: multiset<Command>, taken: multiset<Command>)

  function Booked<P, S>(l: Ledger, d: Doc<P, S>, op: Op<P, S>): Ledger {
    match op
    case AddCommand(c) => l.(added := l.added + multiset{c})
    case RemoveCommand(id) =>
      l.(removed := l.removed + (multiset(d.commands) - multiset(Without(d.commands, ID_OF, id))))
    case TakeCommands => l.(taken := l.taken + multiset(d.commands))
    case _ => l
  }

  function Books<P, S>(d: Doc<P, S>, ops: seq<Op<P, S>>): Ledger
    decreases |ops|
  {
    if ops == [] then Ledger(multiset{}, multiset{}, multiset{})
    else Booked(Books(d, ops[..|ops| - 1]), ApplyAll(d, ops[..|ops| - 1]), ops[|ops| - 1])
  }

  lemma Balance<P, S>(l: Ledger, d: Doc<P, S>, op: Op<P, S>, start: multiset<Command>)
    requires start + l.added == multiset(d.commands) + l.removed + l.taken
    ensures var l', d' := Booked(l, d, op), Apply(d, op);
      start + l'.added == multiset(d'.commands) + l'.removed + l'.taken
  {
    match op
    case RemoveCommand(id) =>
      WithoutIsPart(d.commands, ID_OF, id);
      var kept, all := multiset(Without(d.commands, ID_OF, id)), multiset(d.commands);
      assert kept + (all - kept) == all;
    case AddCommand(c) =>
      assert Apply(d, op).commands == d.commands + [c];
      assert start + (l.added + multiset{c}) == (start + l.added) + multiset{c};
    case _ =>
  }

  /** Every command that was there or was added is removed by its id, taken exactly once, or still there. */
  lemma {:induction false} CommandsAreConserved<P, S>(d: Doc<P, S>, ops: seq<Op<P, S>>)
    ensures var books := Books(d, ops);
      multiset(d.commands) + books.added == multiset(ApplyAll(d, ops).commands) + books.removed + books.taken
    decreases |ops|
  {
    if ops != [] {
      var init, last := ops[..|ops| - 1], ops[|ops| - 1];
      CommandsAreConserved(d, init);
      Balance(Books(d, init), ApplyAll(d, init), last, multiset(d.commands));
    }
  }

  // ---- failed writes ----

  /** An operation on a readable file, and whether the new file could be written. */
  datatype Attempt<P, S> = Attempt(op: Op<P, S>, written: bool)

  function Written<P, S>(attempts: seq<Attempt<P, S>>): seq<Op<P, S>>
    decreases |attempts|
  {
    if attempts == [] then []
    else
      var last := attempts[|attempts| - 1];
      Written(attempts[..|attempts| - 1]) + if last.written then [last.op] else []
  }

  /** The commands Update hands out over a run: those of successful takes, and those of failed ones. */
  function HandedOut<P, S>(d: Doc<P, S>, attempts: seq<Attempt<P, S>>, written: bool): multiset<Command>
    decreases |attempts|
  {
    if attempts == [] then multiset{}
    else
      var init, last := attempts[..|attempts| - 1], attempts[|attempts| - 1];
      HandedOut(d, init, written) +
        if last.op.TakeCommands? && last.written == written then multiset(ApplyAll(d, Written(init)).commands)
        else multiset{}
  }

  lemma NothingHandedOut<P, S>(d: Doc<P, S>)
    ensures Written<P, S>([]) == [] && Books(d, []).taken == multiset{}
    ensures forall written :: HandedOut(d, [], written) == multiset{}
  {}

  lemma HandedOutOneMore<P, S>(d: Doc<P, S>, attempts: seq<Attempt<P, S>>, written: bool)
    requires attempts != []
    ensures var init, last := attempts[..|attempts| - 1], attempts[|attempts| - 1];
      HandedOut(d, attempts, written) == HandedOut(d, init, written) +
        if last.op.TakeCommands? && last.written == written then multiset(ApplyAll(d, Written(init)).commands)
        else multiset{}
  {
    hide ApplyAll, Written;
  }

  lemma WrittenOneMore<P, S>(attempts: seq<Attempt<P, S>>)
    requires attempts != []
    ensures var init, last := Written(attempts[..|attempts| - 1]), attempts[|attempts| - 1];
      Written(attempts) == if last.written then init + [last.op] else init
  {
    assert Written(attempts[..|attempts| - 1]) + [] == Written(attempts[..|attempts| - 1]);
  }

  lemma BooksOneMore<P, S>(d: Doc<P, S>, ops: seq<Op<P, S>>, op: Op<P, S>)
    ensures Books(d, ops + [op]) == Booked(Books(d, ops), ApplyAll(d, ops), op)
  {
    hide Booked, ApplyAll;
    assert (ops + [op])[..|ops|] == ops;
  }

  lemma {:induction false} TakenAreHandedOut<P, S>(d: Doc<P, S>, attempts: seq<Attempt<P, S>>)
    ensures HandedOut(d, attempts, true) == Books(d, Written(attempts)).taken
    decreases |attempts|
  {
    NothingHandedOut(d);
    hide HandedOut, Books, ApplyAll, Written;
    if attempts != [] {
      var init, last := attempts[..|attempts| - 1], attempts[|attempts| - 1];
      TakenAreHandedOut(d, init);
      HandedOutOneMore(d, attempts, true);
      WrittenOneMore(attempts);
      BooksOneMore(d, Written(init), last.op);
    }
  }

  /** Every command is handed out exactly once per take that was written; a failed take hands out what stays in
      the file, so each is reported just once exactly when no failed take found any. */
  lemma ReportedOnceExactlyWhen<P, S>(d: Doc<P, S>, attempts: seq<Attempt<P, S>>)
    ensures var reported := HandedOut(d, attempts, true) + HandedOut(d, attempts, false);
      var books, end := Books(d, Written(attempts)), ApplyAll(d, Written(attempts));
      && multiset(d.commands) + books.added + HandedOut(d, attempts, false)
           == multiset(end.commands) + books.removed + reported
      && (reported == books.taken <==> forall i | 0 <= i < |attempts| :: Clear(d, attempts, i))
  {
    TakenAreHandedOut(d, attempts);
    CommandsAreConserved(d, Written(attempts));
    NothingRepeatedExactlyWhen(d, attempts);
    var taken, again := HandedOut(d, attempts, true), HandedOut(d, attempts, false);
    if taken + again == taken {
      forall c ensures again[c] == 0 {
        assert (taken + again)[c] == taken[c] + again[c];
      }
      assert again == multiset{};
    }
    hide HandedOut, Books, ApplyAll, Written, Clear;
  }

  /** Attempt i is not a failed take, or found no commands. */
  predicate Clear<P, S>(d: Doc<P, S>, attempts: seq<Attempt<P, S>>, i: nat)
    requires i < |attempts|
  {
    attempts[i].op.TakeCommands? && !attempts[i].written ==> ApplyAll(d, Written(attempts[..i])).commands == []
  }

  lemma LastIsClearExactlyWhen<P, S>(d: Doc<P, S>, attempts: seq<Attempt<P, S>>)
    requires attempts != []
    ensures var init := attempts[..|attempts| - 1];
      HandedOut(d, attempts, false) == multiset{}
      <==> HandedOut(d, init, false) == multiset{} && Clear(d, attempts, |init|)
  {
    hide Written, ApplyAll, HandedOut;
    var init := attempts[..|attempts| - 1];
    HandedOutOneMore(d, attempts, false);
    EmptyExactlyWhen(HandedOut(d, init, false), ApplyAll(d, Written(init)).commands);
  }

  lemma ClearInPrefix<P, S>(d: Doc<P, S>, attempts: seq<Attempt<P, S>>, i: nat)
    requires i < |attempts| - 1
    ensures Clear(d, attempts, i) == Clear(d, attempts[..|attempts| - 1], i)
  {
    hide Written, ApplyAll;
    assert attempts[..|attempts| - 1][..i] == attempts[..i];
  }

  lemma {:induction false} NothingRepeatedExactlyWhen<P, S>(d: Doc<P, S>, attempts: seq<Attempt<P, S>>)
    ensures HandedOut(d, attempts, false) == multiset{} <==>
      forall i | 0 <= i < |attempts| :: Clear(d, attempts, i)
    decreases |attempts|
  {
    NothingHandedOut(d);
    hide Written, ApplyAll, HandedOut, Clear;
    if attempts != [] {
      var init := attempts[..|attempts| - 1];
      NothingRepeatedExactlyWhen(d, init);
      LastIsClearExactlyWhen(d, attempts);
      forall i | 0 <= i < |init| ensures Clear(d, attempts, i) == Clear(d, init, i) {
        ClearInPrefix(d, attempts, i);
      }
    }
  }

  lemma EmptyExactlyWhen(m: multiset<Command>, commands: seq<Command>)
    ensures m + multiset(commands) == multiset{} <==> m == multiset{} && commands == []
  {
    if commands != [] {
      assert commands[0] in m + multiset(commands);
    } else {
      assert m + multiset(commands) == m;
    }
  }

  /** A removal takes out every command of its id and no other. */
  lemma RemovalIsExact<P, S>(d: Doc<P, S>, id: string, c: Command)
    ensures multiset(Apply(d, RemoveCommand(id)).commands)[c] == if c.id == id then 0 else multiset(d.commands)[c]
  {
    WithoutIsPart(d.commands, ID_OF, id);
  }
}
