/**
 The dispatcher's request ledger: one entry per request identity, pending while its execution runs
 and then complete until its result expires. `Begin` decides what a delivered request may do.
 */
module Ledger {
  import opened Common

  type Time = nat
  type Id = string
  type Command = nat

  datatype MutationStatus = NotApplicable | NotDispatched | Indeterminate

  datatype Outcome = Success(result: nat) | Failure(status: MutationStatus, code: nat)

  datatype Entry =
    | Pending(command: Command, isMutation: bool)
    | Complete(command: Command, isMutation: bool, outcome: Outcome, expires: Time)

  datatype Limits = Limits(maxInflight: nat, maxCompleted: nat, ttl: nat)

  datatype Book = Book(entries: map<Id, Entry>, inflight: nat)

  datatype Begun = Execute | Replay(outcome: Outcome) | Wait | Busy | Conflict

  datatype Disposition = Missing | NotMutation | StillPending | Settled(outcome: Outcome)

  predicate Expired(entry: Entry, now: Time) {
    entry.Complete? && entry.expires <= now
  }

  function Purged(entries: map<Id, Entry>, now: Time): map<Id, Entry> {
    map id | id in entries && !Expired(entries[id], now) :: entries[id]
  }

  function Admission(limits: Limits, book: Book, now: Time, id: Id, command: Command): Begun {
    var kept := Purged(book.entries, now);
    if id in kept then
      if kept[id].command != command then Conflict
      else if kept[id].Pending? then Wait
      else Replay(kept[id].outcome)
    else if book.inflight >= limits.maxInflight || |kept| >= limits.maxCompleted then Busy
    else Execute
  }

  /** The ledger after `begin_request`: purged, and holding a new pending entry when execution was admitted. */
  function Begin(limits: Limits, book: Book, now: Time, id: Id, command: Command, isMutation: bool): Book {
    var kept := Purged(book.entries, now);
    if Admission(limits, book, now, id, command) == Execute
    then Book(kept[id := Pending(command, isMutation)], book.inflight + 1)
    else Book(kept, book.inflight)
  }

  function Finish(
    limits: Limits, book: Book, now: Time, id: Id, command: Command, isMutation: bool, outcome: Outcome): Book
  {
    var wasPending := id in book.entries && book.entries[id].Pending?;
    Book(book.entries[id := Complete(command, isMutation, outcome, now + limits.ttl)],
         if wasPending then SaturatingSub(book.inflight, 1) else book.inflight)
  }

  ghost function PendingIds(entries: map<Id, Entry>): set<Id> {
    set id | id in entries && entries[id].Pending?
  }

  /** The counter is exactly the executions in flight, and both bounds hold. */
  ghost predicate Tidy(limits: Limits, book: Book) {
    && book.inflight == |PendingIds(book.entries)| <= limits.maxInflight
    && |book.entries| <= limits.maxCompleted
  }

  lemma PurgeKeepsPending(entries: map<Id, Entry>, now: Time)
    ensures PendingIds(Purged(entries, now)) == PendingIds(entries)
    ensures |Purged(entries, now)| <= |entries|
  {
    SubsetSize(Purged(entries, now).Keys, entries.Keys);
  }

  lemma PurgeTidy(limits: Limits, book: Book, now: Time)
    requires Tidy(limits, book)
    ensures Tidy(limits, book.(entries := Purged(book.entries, now)))
  {
    PurgeKeepsPending(book.entries, now);
  }

  lemma BeginTidy(limits: Limits, book: Book, now: Time, id: Id, command: Command, isMutation: bool)
    requires Tidy(limits, book)
    ensures Tidy(limits, Begin(limits, book, now, id, command, isMutation))
  {
    PurgeTidy(limits, book, now);
    var kept := Purged(book.entries, now);
    if Admission(limits, book, now, id, command) == Execute {
      OneMorePending(kept, id, command, isMutation);
    }
    hide Purged, PendingIds;
  }

  lemma OneMorePending(entries: map<Id, Entry>, id: Id, command: Command, isMutation: bool)
    requires id !in entries
    ensures var added := entries[id := Pending(command, isMutation)];
      |PendingIds(added)| == |PendingIds(entries)| + 1 && |added| == |entries| + 1
  {
    OneMoreKey(entries, id, Pending(command, isMutation));
    var added := entries[id := Pending(command, isMutation)];
    assert PendingIds(added) == PendingIds(entries) + {id};
  }

  /** Completing a running request frees exactly its slot, and the saturating subtraction never clips. */
  lemma FinishTidy(
    limits: Limits, book: Book, now: Time, id: Id, command: Command, isMutation: bool, outcome: Outcome)
    requires Tidy(limits, book) && id in book.entries && book.entries[id].Pending?
    ensures Tidy(limits, Finish(limits, book, now, id, command, isMutation, outcome))
    ensures Finish(limits, book, now, id, command, isMutation, outcome).inflight == book.inflight - 1
  {
    var after := Finish(limits, book, now, id, command, isMutation, outcome).entries;
    assert PendingIds(book.entries) == PendingIds(after) + {id};
    assert after.Keys == book.entries.Keys;
  }

  /** Admitting new work never evicts or alters a pending entry or an unexpired result. */
  lemma BeginRetains(
    limits: Limits, book: Book, now: Time, id: Id, command: Command, isMutation: bool, other: Id)
    requires other in book.entries && !Expired(book.entries[other], now)
    ensures other in Begin(limits, book, now, id, command, isMutation).entries
    ensures Begin(limits, book, now, id, command, isMutation).entries[other] == book.entries[other]
  {
  }

  function Lookup(entries: map<Id, Entry>, now: Time, id: Id): Disposition {
    var kept := Purged(entries, now);
    if id !in kept then Missing
    else if !kept[id].isMutation then NotMutation
    else if kept[id].Pending? then StillPending
    else Settled(kept[id].outcome)
  }

  class RequestLedger {
    const limits: Limits
    var entries: map<Id, Entry>
    var inflight: nat

    function View(): Book
      reads this
    {
      Book(entries, inflight)
    }

    ghost predicate Valid()
      reads this
    {
      Tidy(limits, View())
    }

    constructor (limits: Limits)
      ensures Valid() && View() == Book(map[], 0) && this.limits == limits
    {
      this.limits := limits;
      entries, inflight := map[], 0;
    }

    method PurgeExpired(now: Time)
      modifies this`entries
      ensures entries == Purged(old(entries), now)
      ensures forall id :: id in entries <==>
        id in old(entries) && (old(entries)[id].Pending? || now < old(entries)[id].expires)
      ensures forall id :: id in entries ==> entries[id] == old(entries)[id]
    {
      entries := map id | id in entries && !Expired(entries[id], now) :: entries[id];
    }

    method BeginRequest(now: Time, id: Id, command: Command, isMutation: bool) returns (r: Begun)
      requires Valid()
      modifies this
      ensures Valid() && View() == Begin(limits, old(View()), now, id, command, isMutation)
      ensures r == Admission(limits, old(View()), now, id, command)
      ensures var kept := Purged(old(entries), now);
        && (r == Conflict <==> id in kept && kept[id].command != command)
        && (r == Wait <==> id in kept && kept[id].command == command && kept[id].Pending?)
        && (r.Replay? <==> id in kept && kept[id].command == command && kept[id].Complete?)
        && (r.Replay? ==> r.outcome == kept[id].outcome)
        && (r == Busy <==>
              id !in kept && (old(inflight) >= limits.maxInflight || |kept| >= limits.maxCompleted))
        && entries == (if r == Execute then kept[id := Pending(command, isMutation)] else kept)
        && inflight == old(inflight) + (if r == Execute then 1 else 0)
    {
      BeginTidy(limits, View(), now, id, command, isMutation);
      PurgeExpired(now);
      if id in entries {
        match entries[id]
        case Pending(existing, _) =>
          r := if existing == command then Wait else Conflict;
        case Complete(existing, _, outcome, _) =>
          r := if existing == command then Replay(outcome) else Conflict;
      } else if inflight >= limits.maxInflight {
        r := Busy;
      } else if |entries| >= limits.maxCompleted {
        r := Busy;
      } else {
        entries := entries[id := Pending(command, isMutation)];
        inflight := inflight + 1;
        r := Execute;
      }
    }

    method CompleteRequest(now: Time, id: Id, command: Command, isMutation: bool, outcome: Outcome)
      requires Valid() && id in entries && entries[id].Pending?
      modifies this
      ensures Valid() && View() == Finish(limits, old(View()), now, id, command, isMutation, outcome)
      ensures inflight == old(inflight) - 1
      ensures entries == old(entries)[id := Complete(command, isMutation, outcome, now + limits.ttl)]
    {
      ghost var before := View();
      FinishTidy(limits, before, now, id, command, isMutation, outcome);
      if id in entries && entries[id].Pending? {
        entries := entries - {id};
        inflight := SaturatingSub(inflight, 1);
      }
      entries := entries[id := Complete(command, isMutation, outcome, now + limits.ttl)];
      assert entries == Finish(limits, before, now, id, command, isMutation, outcome).entries;
    }

    /** Reads one retained identity. It may drop expired results and never admits an execution. */
    method Reconcile(now: Time, id: Id) returns (r: Disposition)
      requires Valid()
      modifies this`entries
      ensures Valid() && inflight == old(inflight) && PendingIds(entries) == PendingIds(old(entries))
      ensures entries == Purged(old(entries), now) && r == Lookup(old(entries), now, id)
      ensures r == Missing <==> id !in entries
      ensures r == NotMutation <==> id in entries && !entries[id].isMutation
      ensures r == StillPending <==> id in entries && entries[id].isMutation && entries[id].Pending?
      ensures r.Settled? ==> id in entries && entries[id].Complete? && r.outcome == entries[id].outcome
    {
      PurgeKeepsPending(entries, now);
      PurgeExpired(now);
      if id !in entries { return Missing; }
      if !entries[id].isMutation { return NotMutation; }
      r := if entries[id].Pending? then StillPending else Settled(entries[id].outcome);
    }
  }
}
