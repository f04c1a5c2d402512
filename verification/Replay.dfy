/**
 * The offline replay protocol as a step system: one device's queue of writes, any number of drainers
 * working from snapshots of it, a network that loses, repeats and delays, and the server's book.
 */
module Replay {
  import opened Book
  import opened Wrappers

  /** A write waiting on the device. rejected is the status it was refused with, 0 while it never was. */
  datatype Entry = Entry(key: Key, queuedAt: int, account: nat, input: EntryInput, rejected: int)

  /** A page's flush and the service worker's drainQueue read the server's answers slightly differently. */
  datatype Worker = Page | ServiceWorker

  datatype Verdict = Delete | Mark | Stop

  predicate Ok(status: int) {
    200 <= status < 300
  }

  /** fetch only resolves with a real status, and only the handler says OK. */
  predicate Failure(status: int) {
    status > 0 && !Ok(status)
  }

  function Judge(worker: Worker, status: int): Verdict {
    if Ok(status) then Delete
    else if status == 401 then Stop
    else match worker
      case Page => if 400 <= status < 500 then Mark else Stop
      case ServiceWorker => if status >= 500 then Stop else Mark
  }

  /** Where a drainer is with the entry at its index. */
  datatype Stage = Ready | Asked(ticket: nat) | Answered(status: int)

  datatype Drainer = Idle | Draining(worker: Worker, snapshot: seq<Entry>, index: nat, stage: Stage)

  /**
   * What becomes of a request that reaches the server: the handler runs; or it is turned away before
   * anything is written (signed out, write-locked, which is checked before the key is looked up, or
   * failing); or its transaction commits and the answer still says failure.
   */
  datatype Fate = Handled | TurnedAway(status: int) | BrokenAfter(status: int)

  datatype System = System(
    store: map<Key, Entry>,
    drainers: map<nat, Drainer>,
    sent: map<nat, Entry>,          // every request ever sent, by ticket
    requests: set<nat>,             // tickets that may still reach the server, perhaps again
    answers: set<(nat, int)>,       // answers that may still reach a drainer
    book: Book,
    queued: seq<Entry>,             // every write ever queued, in order
    discarded: set<Key>,
    refused: set<Key>,
    log: seq<Key>,                  // keys in the order they entered the book
    elsewhere: set<Key>)            // keys other devices have sent with their writes

  datatype Step =
    | Enqueue(entry: Entry)
    | Begin(drainer: nat, worker: Worker, snapshot: seq<Entry>)
    | Skip(drainer: nat)
    | Send(drainer: nat, ticket: nat)
    | Serve(ticket: nat, fate: Fate, actor: nat, now: int)
    | LoseRequest(ticket: nat)
    | LoseAnswer(answer: (nat, int))
    | Receive(drainer: nat, status: int)
    | Settle(drainer: nat)
    | End(drainer: nat)             // the list is done, the network failed, or the page was closed
    | Discard(key: Key)
    | Office(op: Op)                // other requests to the server, this device's and others'

  const START := System(map[], map[], map[], {}, {}, EMPTY, [], {}, {}, [], {})

  /** all() lists by queuedAt, and by key where that is equal: getAll answers in key order and sort is stable. */
  predicate Before(e: Entry, f: Entry) {
    e.queuedAt < f.queuedAt || (e.queuedAt == f.queuedAt && e.key < f.key)
  }

  predicate Sorted(entries: seq<Entry>) {
    forall i, j :: 0 <= i < j < |entries| ==> Before(entries[i], entries[j])
  }

  predicate Lists(snapshot: seq<Entry>, store: map<Key, Entry>) {
    && Sorted(snapshot)
    && (forall i :: 0 <= i < |snapshot| ==> snapshot[i].key in store && store[snapshot[i].key] == snapshot[i])
    && (forall k :: k in store ==> store[k] in snapshot)
  }

  /** The entries stored under these keys, in order. */
  predicate ListsThese(entries: seq<Entry>, store: map<Key, Entry>, keys: set<Key>) {
    && Sorted(entries)
    && (forall i :: 0 <= i < |entries| ==>
          entries[i].key in keys && entries[i].key in store && store[entries[i].key] == entries[i])
    && (forall k :: k in keys && k in store ==> store[k] in entries)
  }

  function PutAt(entries: seq<Entry>, place: nat, e: Entry): (longer: seq<Entry>)
    requires place <= |entries|
    ensures |longer| == |entries| + 1
    ensures forall i :: 0 <= i < |longer| ==>
      longer[i] == if i < place then entries[i] else if i == place then e else entries[i - 1]
  {
    entries[..place] + [e] + entries[place..]
  }

  lemma PutAtSorts(entries: seq<Entry>, place: nat, e: Entry)
    requires Sorted(entries) && place <= |entries|
    requires forall i :: 0 <= i < place ==> Before(entries[i], e)
    requires forall i :: place <= i < |entries| ==> Before(e, entries[i])
    ensures Sorted(PutAt(entries, place, e))
  {
  }

  lemma PutAtKeeps(entries: seq<Entry>, place: nat, e: Entry)
    requires place <= |entries|
    ensures e in PutAt(entries, place, e) && forall x :: x in entries ==> x in PutAt(entries, place, e)
  {
    var longer := PutAt(entries, place, e);
    assert longer[place] == e;
    forall x | x in entries ensures x in longer {
      var i :| 0 <= i < |entries| && entries[i] == x;
      assert longer[if i < place then i else i + 1] == x;
    }
  }

  lemma PutInPlace(entries: seq<Entry>, store: map<Key, Entry>, keys: set<Key>, k: Key, place: nat)
    requires ListsThese(entries, store, keys) && k in store && store[k].key == k && place <= |entries|
    requires forall i :: 0 <= i < place ==> Before(entries[i], store[k])
    requires forall i :: place <= i < |entries| ==> Before(store[k], entries[i])
    ensures ListsThese(PutAt(entries, place, store[k]), store, keys + {k})
  {
    PutAtSorts(entries, place, store[k]);
    PutAtKeeps(entries, place, store[k]);
  }

  /** Where an entry goes in an ordered listing. */
  lemma {:induction false} PlaceExists(entries: seq<Entry>, e: Entry) returns (place: nat)
    requires Sorted(entries) && forall i :: 0 <= i < |entries| ==> entries[i].key != e.key
    ensures place <= |entries|
    ensures forall i :: 0 <= i < place ==> Before(entries[i], e)
    ensures forall i :: place <= i < |entries| ==> Before(e, entries[i])
  {
    place := |entries|;
    if entries != [] && !Before(entries[|entries| - 1], e) {
      place := PlaceExists(entries[..|entries| - 1], e);
    }
  }

  lemma {:induction false} ListingOf(store: map<Key, Entry>, keys: set<Key>) returns (entries: seq<Entry>)
    requires keys <= store.Keys && forall k :: k in store ==> store[k].key == k
    ensures ListsThese(entries, store, keys)
    decreases |keys|
  {
    entries := [];
    if keys != {} {
      var k :| k in keys;
      entries := ListingOf(store, keys - {k});
      var place := PlaceExists(entries, store[k]);
      PutInPlace(entries, store, keys - {k}, k, place);
      assert keys - {k} + {k} == keys;
      entries := PutAt(entries, place, store[k]);
    }
  }

  /** Any store can be listed. */
  lemma ListingExists(store: map<Key, Entry>) returns (snapshot: seq<Entry>)
    requires forall k :: k in store ==> store[k].key == k
    ensures Lists(snapshot, store)
  {
    snapshot := ListingOf(store, store.Keys);
  }

  function DrainerAt(s: System, d: nat): Drainer {
    if d in s.drainers then s.drainers[d] else Idle
  }

  function WithDrainer(s: System, d: nat, drainer: Drainer): System {
    s.(drainers := s.drainers[d := drainer])
  }

  /** A drainer that still has an entry to work on. */
  predicate Working(drainer: Drainer) {
    drainer.Draining? && drainer.index < |drainer.snapshot|
  }

  predicate KnownKey(s: System, key: Key) {
    exists i :: 0 <= i < |s.queued| && s.queued[i].key == key
  }

  function KeySent(op: Op): set<Key> {
    if op.Recording? && op.input.key.Some? then {op.input.key.value} else {}
  }

  function StatusOf(answer: Recorded): int {
    match answer
    case Entered(_) => 200
    case Duplicate(_) => 200
    case Refused(_) => 422
    case NotFound => 404
    case Failed => 500
  }

  /** As it is first stored: the body carries the entry's own key, and it has not been refused. */
  predicate Queueable(e: Entry) {
    e.input.key == Some(e.key) && e.rejected == 0
  }

  /** A key as random as those the device makes is one nobody has used. */
  predicate NewToAll(s: System, key: Key) {
    !KnownKey(s, key) && key !in s.elsewhere
  }

  predicate Enabled(s: System, step: Step) {
    match step
    case Enqueue(entry) => NewToAll(s, entry.key) && Queueable(entry)
    case Begin(d, _, snapshot) => DrainerAt(s, d).Idle? && Lists(snapshot, s.store)
    case Skip(d) =>
      var dr := DrainerAt(s, d);
      Working(dr) && dr.stage.Ready? && dr.snapshot[dr.index].rejected != 0
    case Send(d, ticket) =>
      var dr := DrainerAt(s, d);
      Working(dr) && dr.stage.Ready? && dr.snapshot[dr.index].rejected == 0 && ticket !in s.sent
    case Serve(ticket, fate, _, _) =>
      ticket in s.requests && ticket in s.sent && (!fate.Handled? ==> Failure(fate.status))
    case Receive(d, status) =>
      var dr := DrainerAt(s, d);
      Working(dr) && dr.stage.Asked? && (dr.stage.ticket, status) in s.answers
    case Settle(d) =>
      var dr := DrainerAt(s, d);
      Working(dr) && dr.stage.Answered? && Judge(dr.worker, dr.stage.status) != Stop
    case Discard(key) => KnownKey(s, key)
    case Office(op) => forall k :: k in KeySent(op) ==> !KnownKey(s, k)
    case _ => true
  }

  /** The server's part: the book and the log after serving, and the answer. */
  function ServeOn(s: System, ticket: nat, fate: Fate, actor: nat, now: int): System
    requires ticket in s.sent
  {
    var e := s.sent[ticket];
    var (book, answer) := RecordIn(s.book, e.account, actor, now, e.input);
    if fate.TurnedAway? then s.(answers := s.answers + {(ticket, fate.status)})
    else
      s.(book := book, log := if answer.Entered? then s.log + [e.key] else s.log,
         answers := s.answers + {(ticket, if fate.Handled? then StatusOf(answer) else fate.status)})
  }

  function SettleOn(s: System, d: nat): System
    requires Enabled(s, Settle(d))
  {
    var dr := DrainerAt(s, d);
    var e := dr.snapshot[dr.index];
    var next := WithDrainer(s, d, dr.(index := dr.index + 1, stage := Ready));
    match Judge(dr.worker, dr.stage.status)
    case Delete => next.(store := s.store - {e.key})
    case Mark => next.(store := s.store[e.key := e.(rejected := dr.stage.status)], refused := s.refused + {e.key})
  }

  function Do(s: System, step: Step): System
    requires Enabled(s, step)
  {
    match step
    case Enqueue(entry) => s.(store := s.store[entry.key := entry], queued := s.queued + [entry])
    case Begin(d, worker, snapshot) => WithDrainer(s, d, Draining(worker, snapshot, 0, Ready))
    case Skip(d) =>
      var dr := DrainerAt(s, d);
      WithDrainer(s, d, dr.(index := dr.index + 1))
    case Send(d, ticket) =>
      var dr := DrainerAt(s, d);
      WithDrainer(s, d, dr.(stage := Asked(ticket)))
        .(sent := s.sent[ticket := dr.snapshot[dr.index]], requests := s.requests + {ticket})
    case Serve(ticket, fate, actor, now) => ServeOn(s, ticket, fate, actor, now)
    case LoseRequest(ticket) => s.(requests := s.requests - {ticket})
    case LoseAnswer(answer) => s.(answers := s.answers - {answer})
    case Receive(d, status) =>
      var dr := DrainerAt(s, d);
      WithDrainer(s, d, if Judge(dr.worker, status) == Stop then Idle else dr.(stage := Answered(status)))
    case Settle(d) => SettleOn(s, d)
    case End(d) => WithDrainer(s, d, Idle)
    case Discard(key) => s.(store := s.store - {key}, discarded := s.discarded + {key})
    case Office(op) => s.(book := Apply(s.book, op), elsewhere := s.elsewhere + KeySent(op))
  }

  /** A step that is not enabled does nothing, so every sequence of steps is a run. */
  function Take(s: System, step: Step): System {
    if Enabled(s, step) then Do(s, step) else s
  }

  function RunOf(s: System, steps: seq<Step>): System {
    if steps == [] then s else Take(RunOf(s, steps[..|steps| - 1]), steps[|steps| - 1])
  }

  lemma {:induction false} QueueGrows(s: System, more: seq<Step>)
    ensures forall e :: e in s.queued ==> e in RunOf(s, more).queued
  {
    if more != [] {
      QueueGrows(s, more[..|more| - 1]);
      var was := RunOf(s, more[..|more| - 1]);
      var t := Take(was, more[|more| - 1]);
      assert forall e :: e in was.queued ==> e in t.queued;
    }
  }

  lemma Prepend(s: System, step: Step, more: seq<Step>) returns (all: seq<Step>)
    ensures RunOf(s, all) == RunOf(Take(s, step), more)
  {
    all := [step] + more;
    RunMore(s, [], step);
    assert [] + [step] == [step] && RunOf(s, []) == s;
    RunOn(s, [step], more);
  }

  /** A number above every one used, for a new request's ticket. */
  ghost function Above(used: set<nat>): (n: nat)
    ensures forall t :: t in used ==> t < n
  {
    if used == {} then 0
    else
      var t :| t in used;
      var n := Above(used - {t});
      assert forall u :: u in used ==> u == t || u in used - {t};
      if t < n then n else t + 1
  }

  lemma RunMore(s: System, steps: seq<Step>, step: Step)
    ensures RunOf(s, steps + [step]) == Take(RunOf(s, steps), step)
  {
    assert (steps + [step])[..|steps|] == steps;
  }

  lemma {:induction false} RunOn(s: System, first: seq<Step>, more: seq<Step>)
    ensures RunOf(RunOf(s, first), more) == RunOf(s, first + more)
  {
    if more == [] {
      assert first + more == first;
    } else {
      var init := more[..|more| - 1];
      RunOn(s, first, init);
      assert (first + more)[..|first + more| - 1] == first + init;
    }
  }
}
