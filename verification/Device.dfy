/** The device's side as it runs: the stored queue, and the loop that replays it. */
module Device {
  import opened Book
  import opened Drains
  import opened Replay
  import opened ReplayInvariant
  import opened Server
  import opened Wrappers

  /** A number no request bears yet. */
  method FreshTicket(used: set<nat>) returns (ticket: nat)
    ensures ticket !in used
  {
    ticket := 0;
    var left := used;
    while left != {}
      invariant left <= used && forall t :: t in used ==> t in left || t < ticket
      decreases |left|
    {
      var t :| t in left;
      if ticket <= t {
        ticket := t + 1;
      }
      left := left - {t};
    }
  }

  /** A write as a form hands it over. dated: it happened now, whenever it will be sent. */
  datatype Write = Write(account: nat, input: EntryInput, dated: bool)

  datatype Written = Queued | Answer(status: int) | Unreached

  /** The write as it is stored: keyed, stamped, and, when it is dated but no date was typed, dated now. */
  function QueuedAs(write: Write, key: Key, now: int): Entry {
    var input := write.input.(key := Some(key));
    Entry(key, now, write.account,
          if write.dated && write.input.occurredAt == NoTime then input.(occurredAt := At(now)) else input, 0)
  }

  /** The entry holds the write as it was made at that time, for its account, never refused. */
  predicate AsMade(entry: Entry, write: Write, key: Key, now: int) {
    && entry.key == key && entry.queuedAt == now && entry.account == write.account && entry.rejected == 0
    && entry.input.key == Some(key)
    && entry.input.occurredAt
       == (if write.dated && write.input.occurredAt == NoTime then At(now) else write.input.occurredAt)
    && entry.input.(key := None, occurredAt := NoTime) == write.input.(key := None, occurredAt := NoTime)
  }

  /** What a write made with a signal does: it is recorded, unless it does not get that far. */
  function Online(write: Write, delivery: Delivery): seq<Step> {
    if delivery.Unsent? || delivery.fate.TurnedAway? then []
    else [Office(Recording(write.account, delivery.actor, delivery.now, write.input))]
  }

  lemma Enqueues(s: System, entry: Entry)
    requires NewToAll(s, entry.key) && Queueable(entry)
    ensures var t := RunOf(s, [Enqueue(entry)]); t.store == s.store[entry.key := entry] && t.book == s.book
  {
    RunThree(s, Enqueue(entry), End(0), End(0));
  }

  lemma Offices(s: System, write: Write, delivery: Delivery)
    requires !delivery.Unsent? && write.input.key == None
    ensures var t := RunOf(s, Online(write, delivery));
            && t.store == s.store
            && t.book == if delivery.fate.TurnedAway? then s.book
                         else RecordIn(s.book, write.account, delivery.actor, delivery.now, write.input).0
  {
    RunThree(s, Office(Recording(write.account, delivery.actor, delivery.now, write.input)), End(0), End(0));
  }

  /** Whenever a queued write is at last entered, its row bears the date typed, else the date it was made. */
  lemma DatedWhenMade(b: Book, write: Write, key: Key, made: int, actor: nat, now: int)
    requires RecordIn(b, write.account, actor, now, QueuedAs(write, key, made).input).1.Entered?
    ensures var row := RecordIn(b, write.account, actor, now, QueuedAs(write, key, made).input).1.entry;
            && row.key == Some(key) && row.account == write.account
            && row.occurredAt == (if write.input.occurredAt.At? then write.input.occurredAt.time
                                  else if write.dated then made else now)
  {
    assert EntryFaults(QueuedAs(write, key, made).input) == [];
    assert QueuedAs(write, key, made).input.occurredAt != BadTime;
  }

  class Queue {
    var store: map<Key, Entry>

    constructor ()
      ensures store == map[]
    {
      store := map[];
    }

    /** The stored entries, oldest first: each is put in its place among those already listed. */
    method All() returns (entries: seq<Entry>)
      requires KeysMatch(store)
      ensures Lists(entries, store)
      ensures forall e :: e in entries <==> e.key in store && store[e.key] == e
      ensures forall i, j :: 0 <= i < j < |entries| ==>
        || entries[i].queuedAt < entries[j].queuedAt
        || (entries[i].queuedAt == entries[j].queuedAt && entries[i].key < entries[j].key)
    {
      entries := [];
      var left := store.Keys;
      while left != {}
        invariant left <= store.Keys && ListsThese(entries, store, store.Keys - left)
        decreases |left|
      {
        var k :| k in left;
        var place := PlaceFor(entries, store[k]);
        PutInPlace(entries, store, store.Keys - left, k, place);
        assert store.Keys - (left - {k}) == (store.Keys - left) + {k};
        entries := PutAt(entries, place, store[k]);
        left := left - {k};
      }
    }

    static method PlaceFor(entries: seq<Entry>, e: Entry) returns (place: nat)
      requires Sorted(entries) && forall i :: 0 <= i < |entries| ==> entries[i].key != e.key
      ensures place <= |entries|
      ensures forall i :: 0 <= i < place ==> Before(entries[i], e)
      ensures forall i :: place <= i < |entries| ==> Before(e, entries[i])
    {
      place := 0;
      while place < |entries| && Before(entries[place], e)
        invariant place <= |entries|
        invariant forall i :: 0 <= i < place ==> Before(entries[i], e)
      {
        place := place + 1;
      }
    }

    method Keep(write: Write, key: Key, now: int)
      modifies this
      ensures store == old(store)[key := QueuedAs(write, key, now)]
    {
      var body := write.input.(key := Some(key));
      if write.dated && write.input.occurredAt == NoTime {
        body := body.(occurredAt := At(now));
      }
      Put(Entry(key, now, write.account, body, 0));
    }

    /**
     * A write from a form. With a signal it goes straight to the server, without a key; without one it is
     * stored under a new key, stamped now. Either way it is one step of the protocol, or none where the
     * request never arrived or was turned away.
     */
    method WriteOrQueue(online: bool, write: Write, key: Key, now: int, server: Database, delivery: Delivery, ghost s: System)
      returns (result: Written, ghost steps: seq<Step>)
      requires write.input.key == None && NewToAll(s, key) && Possible(delivery)
      requires s.store == store && s.book == server.View()
      modifies this, server
      ensures RunOf(s, steps).store == store && RunOf(s, steps).book == server.View()
      ensures steps == if !online then [Enqueue(QueuedAs(write, key, now))] else Online(write, delivery)
      ensures result.Queued? <==> !online
      ensures online && result.Answer? && Ok(result.status) ==> server.View().rows != old(server.View()).rows
      ensures online ==> store == old(store)
      ensures online && delivery.Arrived? ==> result.Answer?
      ensures online && delivery.Arrived? && !delivery.fate.Handled? ==> result == Answer(delivery.fate.status)
      ensures online && delivery.Arrived? && delivery.fate.Handled? ==>
        Answers(RecordIn(old(server.View()), write.account, delivery.actor, delivery.now, write.input).1, result.status)
      ensures !online ==> key in store && store == old(store)[key := store[key]] && AsMade(store[key], write, key, now)
    {
      if !online {
        Keep(write, key, now);
        Enqueues(s, QueuedAs(write, key, now));
        return Queued, [Enqueue(QueuedAs(write, key, now))];
      }
      steps := Online(write, delivery);
      if delivery.Unsent? {
        return Unreached, steps;
      }
      Offices(s, write, delivery);
      var status := Request(server, write.account, write.input, delivery.fate, delivery.actor, delivery.now);
      result := if delivery.Unanswered? then Unreached else Answer(status);
    }

    method Remove(key: Key)
      modifies this
      ensures store == old(store) - {key}
    {
      store := store - {key};
    }

    method Put(entry: Entry)
      modifies this
      ensures store == old(store)[entry.key := entry]
    {
      store := store[entry.key := entry];
    }

    /** Sends one entry and carries the verdict out; gives up when no answer comes back. */
    method Attempt(worker: Worker, server: Database, entry: Entry, delivery: Delivery, s: System, d: nat)
      returns (verdict: Verdict, more: seq<Step>, ghost status: int)
      requires Possible(delivery) && !delivery.Unsent? && s.store == store && s.book == server.View() && Reachable(s)
      requires Working(DrainerAt(s, d)) && DrainerAt(s, d).stage.Ready? && DrainerAt(s, d).worker == worker
      requires DrainerAt(s, d).snapshot[DrainerAt(s, d).index] == entry && entry.rejected == 0
      modifies this, server
      ensures RunOf(s, more).store == store && RunOf(s, more).book == server.View()
      ensures verdict != Stop ==> DrainerAt(RunOf(s, more), d) == DrainerAt(s, d).(index := DrainerAt(s, d).index + 1)
      ensures verdict == Stop ==> store == old(store)
      ensures verdict != Stop ==> Turned(old(store), store, entry, Some(verdict))
      ensures verdict != Stop ==> Stands(RunOf(s, more), entry, Some(verdict))
      ensures verdict == Stop <==> Stops(worker, delivery)
      ensures StepsOf(more, d, s.sent)
      ensures delivery.Arrived? ==> Acts(worker, entry, status, verdict, old(store), store)
      ensures if !delivery.fate.Handled? then status == delivery.fate.status
              else Answers(RecordIn(old(server.View()), entry.account, delivery.actor, delivery.now, entry.input).1, status)
    {
      var ticket := FreshTicket(s.sent.Keys);
      Attempted(s, d, ticket, delivery);
      var answer := Request(server, entry.account, entry.input, delivery.fate, delivery.actor, delivery.now);
      status := answer;
      if delivery.Unanswered? {
        return Stop, Exchange(d, ticket, delivery, 0)[..2], status;
      }
      verdict := Judge(worker, answer);
      more := Exchange(d, ticket, delivery, answer) + if verdict == Stop then [] else [Settle(d)];
      CarryOut(verdict, entry, answer);
      VerdictTurns(worker, delivery, old(store), entry, answer);
      if verdict != Stop {
        VerdictStands(s, d, ticket, delivery, answer);
      }
    }

    /**
     * One entry's turn: skipped when it was refused before, otherwise sent; then deleted, marked, or left
     * for another time. The steps of the protocol it took are more.
     */
    method Turn(worker: Worker, server: Database, entry: Entry, delivery: Delivery, s: System, d: nat)
      returns (verdict: Option<Verdict>, more: seq<Step>, ghost status: int)
      requires Possible(delivery) && s.store == store && s.book == server.View() && Reachable(s)
      requires Working(DrainerAt(s, d)) && DrainerAt(s, d).stage.Ready? && DrainerAt(s, d).worker == worker
      requires DrainerAt(s, d).snapshot[DrainerAt(s, d).index] == entry
      modifies this, server
      ensures RunOf(s, more).store == store && RunOf(s, more).book == server.View()
      ensures verdict != Some(Stop) ==>
        DrainerAt(RunOf(s, more), d) == DrainerAt(s, d).(index := DrainerAt(s, d).index + 1)
      ensures verdict == None <==> entry.rejected != 0
      ensures verdict == Some(Stop) ==> store == old(store)
      ensures verdict != Some(Stop) ==> Turned(old(store), store, entry, verdict)
      ensures verdict != Some(Stop) ==> Stands(RunOf(s, more), entry, verdict)
      ensures verdict == Some(Stop) <==> Halts(worker, entry, delivery)
      ensures StepsOf(more, d, s.sent)
      ensures verdict.Some? && delivery.Arrived? ==>
        && Acts(worker, entry, status, verdict.value, old(store), store)
        && if !delivery.fate.Handled? then status == delivery.fate.status
           else Answers(RecordIn(old(server.View()), entry.account, delivery.actor, delivery.now, entry.input).1, status)
    {
      status := 0;
      if entry.rejected != 0 {
        verdict, more := None, [Skip(d)];
        RunOne(s, Skip(d));
      } else if delivery.Unsent? {
        verdict, more := Some(Stop), [];
      } else {
        var v;
        v, more, status := Attempt(worker, server, entry, delivery, s, d);
        verdict := Some(v);
      }
    }

    method CarryOut(verdict: Verdict, entry: Entry, status: int)
      modifies this
      ensures store == Outcome(old(store), verdict, entry, status)
    {
      if verdict == Delete {
        Remove(entry.key);
      } else if verdict == Mark {
        Put(entry.(rejected := status));
      }
    }

    /** Other actors' steps change the device's store and the server's tables. */
    method Meanwhile(server: Database, was: System, others: seq<Step>) returns (world: System)
      requires was.store == store && was.book == server.View()
      modifies this, server
      ensures world == RunOf(was, others) && world.store == store && world.book == server.View()
    {
      world := RunOf(was, others);
      store := world.store;
      server.Load(world.book);
    }

    /** The turn of the entry the drain has come to, after what the others did before it. */
    method TurnAt(worker: Worker, server: Database, deliveries: seq<Delivery>, others: seq<seq<Step>>, was: System, d: nat,
                  entry: Entry, i: nat, ghost drain: Progress)
      returns (verdict: Option<Verdict>, world: System, ghost next: Progress)
      requires Possible(DeliveryAt(deliveries, i)) && OthersOnly(OthersAt(others, i), d)
      requires was.store == store && was.book == server.View()
      requires Underway(drain, worker, deliveries, others, was, d) && i == |drain.verdicts| == |drain.turns|
      requires i < |drain.snapshot| && entry == drain.snapshot[i]
      requires DrainerAt(was, d) == Draining(worker, drain.snapshot, i, Ready)
      modifies this, server
      ensures world.store == store && world.book == server.View()
      ensures verdict == Some(Stop) <==> Halts(worker, entry, DeliveryAt(deliveries, i))
      ensures Underway(next, worker, deliveries, others, world, d) && Follows(drain, next, verdict)
      ensures verdict != Some(Stop) ==> DrainerAt(world, d) == Draining(worker, drain.snapshot, i + 1, Ready)
    {
      world := Meanwhile(server, was, OthersAt(others, i));
      ReachableOn(was, OthersAt(others, i));
      OthersLeave(was, OthersAt(others, i), d);
      ghost var found := world;
      var more;
      ghost var status;
      verdict, more, status := Turn(worker, server, entry, DeliveryAt(deliveries, i), world, d);
      world := RunOf(world, more);
      next := GoesFurther(drain, worker, deliveries, others, was, d, found, more, verdict);
    }

    /** The loop over the listed entries: a turn each, until one gets no verdict. */
    method TakeTurns(worker: Worker, server: Database, deliveries: seq<Delivery>, others: seq<seq<Step>>, was: System, d: nat,
                     entries: seq<Entry>, ghost begun: Progress)
      returns (sent: nat, failed: nat, world: System, ghost drain: Progress)
      requires forall i: nat :: Possible(DeliveryAt(deliveries, i))
      requires forall i: nat :: OthersOnly(OthersAt(others, i), d)
      requires was.store == store && was.book == server.View()
      requires Underway(begun, worker, deliveries, others, was, d) && begun.verdicts == [] && begun.turns == []
      requires begun.snapshot == entries && DrainerAt(was, d) == Draining(worker, entries, 0, Ready)
      modifies this, server
      ensures world.store == store && world.book == server.View()
      ensures Underway(drain, worker, deliveries, others, world, d)
      ensures drain.start == begun.start && drain.store == begun.store && drain.snapshot == entries
      ensures |drain.turns| == if |drain.verdicts| < |entries| then |drain.verdicts| + 1 else |entries|
      ensures |drain.verdicts| < |entries| ==>
        Halts(worker, entries[|drain.verdicts|], DeliveryAt(deliveries, |drain.verdicts|))
      ensures sent == Count(drain.verdicts, Delete) && failed == Count(drain.verdicts, Mark)
    {
      sent, failed, world, drain := 0, 0, was, begun;
      var i := 0;
      while i < |entries|
        invariant i == |drain.verdicts| == |drain.turns| <= |entries|
        invariant drain.start == begun.start && drain.store == begun.store && drain.snapshot == entries
        invariant Underway(drain, worker, deliveries, others, world, d)
        invariant world.store == store && world.book == server.View()
        invariant DrainerAt(world, d) == Draining(worker, entries, i, Ready)
        invariant sent == Count(drain.verdicts, Delete) && failed == Count(drain.verdicts, Mark)
      {
        var verdict;
        verdict, world, drain := TurnAt(worker, server, deliveries, others, world, d, entries[i], i, drain);
        if verdict == Some(Stop) {
          break;
        }
        if verdict == Some(Delete) {
          sent := sent + 1;
        } else if verdict == Some(Mark) {
          failed := failed + 1;
        }
        i := i + 1;
      }
    }

    /**
     * Replays the queue oldest first against the server, while others act between its turns. What becomes
     * of the store and the book is a run of the protocol in which drainer d takes its own turns. It stops
     * at the first entry it gets no verdict on; those before are settled, as its verdicts say.
     */
    method Drain(worker: Worker, server: Database, deliveries: seq<Delivery>, others: seq<seq<Step>>, begin: System, d: nat)
      returns (sent: nat, failed: nat, world: System, ghost turns: seq<seq<Step>>,
               ghost snapshot: seq<Entry>, ghost verdicts: seq<Option<Verdict>>)
      requires Reachable(begin) && begin.store == store && begin.book == server.View() && DrainerAt(begin, d).Idle?
      requires forall i: nat :: Possible(DeliveryAt(deliveries, i))
      requires forall i: nat :: OthersOnly(OthersAt(others, i), d)
      modifies this, server
      ensures world == RunOf(begin, [Begin(d, worker, snapshot)] + Woven(others, turns) + [End(d)])
      ensures world.store == store && world.book == server.View()
      ensures OwnTurns(RunOf(begin, [Begin(d, worker, snapshot)]), others, turns, d)
      ensures Lists(snapshot, old(store)) && |verdicts| <= |snapshot|
      ensures |turns| == if |verdicts| < |snapshot| then |verdicts| + 1 else |snapshot|
      ensures forall i :: 0 <= i < |verdicts| ==> Stands(world, snapshot[i], verdicts[i])
      ensures forall i :: 0 <= i < |verdicts| ==> Settled(world, snapshot[i].key) && NotWaiting(store, snapshot[i].key)
      ensures Passed(worker, deliveries, snapshot, |verdicts|)
      ensures |verdicts| < |snapshot| ==> Halts(worker, snapshot[|verdicts|], DeliveryAt(deliveries, |verdicts|))
      ensures sent == Count(verdicts, Delete) && failed == Count(verdicts, Mark)
      ensures Alone(others) ==> Tallied(old(store), store, snapshot, verdicts)
    {
      KeysAreTheirs(begin);
      var entries := All();
      ghost var drain := Begins(begin, worker, deliveries, others, d, entries);
      world := RunOf(begin, [Begin(d, worker, entries)]);
      sent, failed, world, drain := TakeTurns(worker, server, deliveries, others, world, d, entries, drain);
      snapshot, turns, verdicts := entries, drain.turns, drain.verdicts;
      Closes(begin, drain, worker, deliveries, others, world, d);
      world := RunOf(world, [End(d)]);
    }
  }

  /** One request at the server: the status it answers with. */
  method Request(server: Database, account: nat, input: EntryInput, fate: Fate, actor: nat, now: int) returns (status: int)
    modifies server
    ensures !fate.Handled? ==> status == fate.status
    ensures fate.TurnedAway? ==> server.View() == old(server.View())
    ensures !fate.TurnedAway? ==> server.View() == RecordIn(old(server.View()), account, actor, now, input).0
    ensures fate.Handled? ==> status == StatusOf(RecordIn(old(server.View()), account, actor, now, input).1)
    ensures fate.Handled? ==> Answers(RecordIn(old(server.View()), account, actor, now, input).1, status)
  {
    if fate.TurnedAway? {
      return fate.status;
    }
    var answer := NotFound;
    if account in server.accounts {
      answer := server.RecordEntry(account, actor, now, input, []);
    }
    status := if fate.Handled? then StatusOf(answer) else fate.status;
  }
}
