/**
 * A drain of the queue as steps of the protocol: its turns, each after whatever other actors did, the
 * verdicts it comes to, and what they say of the entries behind it for good.
 */
module Drains {
  import opened Book
  import opened Replay
  import opened ReplayFinal
  import opened ReplayInvariant
  import opened Wrappers

  /** What the network makes of one fetch. */
  datatype Delivery =
    | Unsent                                          // the request never arrived
    | Arrived(fate: Fate, actor: nat, now: int)       // served, and the answer came back
    | Unanswered(fate: Fate, actor: nat, now: int)    // served, and the answer was lost

  predicate Possible(delivery: Delivery) {
    !delivery.Unsent? && !delivery.fate.Handled? ==> Failure(delivery.fate.status)
  }

  /** What makes a drainer leave the rest of its list: no answer, signed out, or a failing server. */
  predicate Stops(worker: Worker, delivery: Delivery) {
    !delivery.Arrived? || (!delivery.fate.Handled? && Judge(worker, delivery.fate.status) == Stop)
  }

  /** A drain stops at this entry: it is sent, and there is no verdict on it. */
  predicate Halts(worker: Worker, entry: Entry, delivery: Delivery) {
    entry.rejected == 0 && Stops(worker, delivery)
  }

  /** A drain stops at an entry not refused before when no answer comes, or one turned away or broken with such a status. */
  lemma HaltsByStatus(worker: Worker, entry: Entry, delivery: Delivery)
    requires Possible(delivery)
    ensures !delivery.Arrived? ==> (Halts(worker, entry, delivery) <==> entry.rejected == 0)
    ensures delivery.Arrived? && delivery.fate.Handled? ==> !Halts(worker, entry, delivery)
    ensures delivery.Arrived? && !delivery.fate.Handled? ==>
      var status := delivery.fate.status;
      Halts(worker, entry, delivery) <==>
        (entry.rejected == 0 && (status == 401 || status >= 500 || (worker == Page && status < 400)))
  {
  }

  /** What the number of an answer does to the entry it is for. */
  predicate Acts(worker: Worker, entry: Entry, status: int, verdict: Verdict, before: map<Key, Entry>, after: map<Key, Entry>) {
    if 200 <= status <= 299 then verdict == Delete && after == before - {entry.key}
    else if status == 401 || status >= 500 || (worker == Page && status < 400) then verdict == Stop && after == before
    else verdict == Mark && after == before[entry.key := entry.(rejected := status)]
  }

  /** What the server's handler answers with. */
  predicate Answers(answer: Recorded, status: int) {
    && (answer.Entered? || answer.Duplicate? ==> status == 200)
    && (answer.Refused? ==> status == 422)
    && (answer.NotFound? ==> status == 404)
  }

  /** Steps of drainer d alone, and the serving of requests it sent itself. */
  predicate StepsOf(steps: seq<Step>, d: nat, earlier: map<nat, Entry>) {
    forall i :: 0 <= i < |steps| ==> StepOf(steps[i], d, earlier)
  }

  predicate StepOf(step: Step, d: nat, earlier: map<nat, Entry>) {
    match step
    case Begin(drainer, _, _) => drainer == d
    case Skip(drainer) => drainer == d
    case Send(drainer, ticket) => drainer == d && ticket !in earlier
    case Serve(ticket, _, _, _) => ticket !in earlier
    case Receive(drainer, _) => drainer == d
    case Settle(drainer) => drainer == d
    case End(drainer) => drainer == d
    case _ => false
  }

  /** The protocol's steps for one request that was served and answered. */
  function Exchange(d: nat, ticket: nat, delivery: Delivery, status: int): seq<Step>
    requires !delivery.Unsent?
  {
    [Send(d, ticket), Serve(ticket, delivery.fate, delivery.actor, delivery.now), Receive(d, status)]
  }

  lemma RunOne(s: System, a: Step)
    ensures RunOf(s, [a]) == Take(s, a)
  {
    assert [a][..0] == [];
  }

  lemma RunThree(s: System, a: Step, b: Step, c: Step)
    ensures RunOf(s, [a, b, c]) == Take(Take(Take(s, a), b), c)
    ensures RunOf(s, [a, b]) == Take(Take(s, a), b)
    ensures RunOf(s, [a]) == Take(s, a)
  {
    RunOne(s, a);
    RunMore(s, [a], b);
    RunMore(s, [a, b], c);
    assert [a] + [b] == [a, b] && [a, b] + [c] == [a, b, c];
  }

  /** After an exchange the book is as the server left it and the drainer has the answer, or has stopped. */
  lemma Exchanged(s: System, d: nat, ticket: nat, delivery: Delivery)
    requires !delivery.Unsent? && Possible(delivery) && ticket !in s.sent
    requires Working(DrainerAt(s, d)) && DrainerAt(s, d).stage.Ready?
    requires DrainerAt(s, d).snapshot[DrainerAt(s, d).index].rejected == 0
    ensures var dr := DrainerAt(s, d);
            var e := dr.snapshot[dr.index];
            var (book, answer) := RecordIn(s.book, e.account, delivery.actor, delivery.now, e.input);
            var status := if delivery.fate.Handled? then StatusOf(answer) else delivery.fate.status;
            var t := RunOf(s, Exchange(d, ticket, delivery, status));
            && t.store == s.store && t.book == (if delivery.fate.TurnedAway? then s.book else book)
            && DrainerAt(t, d) == if Judge(dr.worker, status) == Stop then Idle else dr.(stage := Answered(status))
  {
    var dr := DrainerAt(s, d);
    var e := dr.snapshot[dr.index];
    var answer := RecordIn(s.book, e.account, delivery.actor, delivery.now, e.input).1;
    var status := if delivery.fate.Handled? then StatusOf(answer) else delivery.fate.status;
    var send := Send(d, ticket);
    var serve := Serve(ticket, delivery.fate, delivery.actor, delivery.now);
    RunThree(s, send, serve, Receive(d, status));
    var s1 := Take(s, send);
    SendGives(s, d, ticket);
    var s2 := Take(s1, serve);
    ServeGives(s1, ticket, delivery, e);
    ReceiveGives(s2, d, ticket, status);
  }

  /** Without an answer: the book is as the server left it. */
  lemma ServedOnly(s: System, d: nat, ticket: nat, delivery: Delivery)
    requires !delivery.Unsent? && Possible(delivery) && ticket !in s.sent
    requires Working(DrainerAt(s, d)) && DrainerAt(s, d).stage.Ready?
    requires DrainerAt(s, d).snapshot[DrainerAt(s, d).index].rejected == 0
    ensures var dr := DrainerAt(s, d);
            var e := dr.snapshot[dr.index];
            var t := RunOf(s, Exchange(d, ticket, delivery, 0)[..2]);
            t.store == s.store && t.book ==
              if delivery.fate.TurnedAway? then s.book
              else RecordIn(s.book, e.account, delivery.actor, delivery.now, e.input).0
  {
    var send := Send(d, ticket);
    var serve := Serve(ticket, delivery.fate, delivery.actor, delivery.now);
    RunThree(s, send, serve, serve);
    assert Exchange(d, ticket, delivery, 0)[..2] == [send, serve];
    SendGives(s, d, ticket);
    ServeGives(Take(s, send), ticket, delivery, DrainerAt(s, d).snapshot[DrainerAt(s, d).index]);
  }

  lemma ReceiveGives(s: System, d: nat, ticket: nat, status: int)
    requires Working(DrainerAt(s, d)) && DrainerAt(s, d).stage == Asked(ticket) && (ticket, status) in s.answers
    ensures var (t, dr) := (Take(s, Receive(d, status)), DrainerAt(s, d));
            && t.store == s.store && t.book == s.book
            && DrainerAt(t, d) == if Judge(dr.worker, status) == Stop then Idle else dr.(stage := Answered(status))
  {
  }

  lemma SendGives(s: System, d: nat, ticket: nat)
    requires ticket !in s.sent && Working(DrainerAt(s, d)) && DrainerAt(s, d).stage.Ready?
    requires DrainerAt(s, d).snapshot[DrainerAt(s, d).index].rejected == 0
    ensures var t := Take(s, Send(d, ticket));
            && t.store == s.store && t.book == s.book && ticket in t.requests
            && ticket in t.sent && t.sent[ticket] == DrainerAt(s, d).snapshot[DrainerAt(s, d).index]
            && DrainerAt(t, d) == DrainerAt(s, d).(stage := Asked(ticket))
  {
  }

  lemma ServeGives(s: System, ticket: nat, delivery: Delivery, e: Entry)
    requires !delivery.Unsent? && Possible(delivery) && ticket in s.requests && ticket in s.sent && s.sent[ticket] == e
    ensures var (book, answer) := RecordIn(s.book, e.account, delivery.actor, delivery.now, e.input);
            var status := if delivery.fate.Handled? then StatusOf(answer) else delivery.fate.status;
            var t := Take(s, Serve(ticket, delivery.fate, delivery.actor, delivery.now));
            && t.store == s.store && t.drainers == s.drainers && (ticket, status) in t.answers
            && t.book == if delivery.fate.TurnedAway? then s.book else book
  {
    assert Take(s, Serve(ticket, delivery.fate, delivery.actor, delivery.now))
        == ServeOn(s, ticket, delivery.fate, delivery.actor, delivery.now);
  }

  /** What an answered request comes to once its verdict has been carried out. */
  lemma Attempted(s: System, d: nat, ticket: nat, delivery: Delivery)
    requires !delivery.Unsent? && Possible(delivery) && ticket !in s.sent
    requires Working(DrainerAt(s, d)) && DrainerAt(s, d).stage.Ready?
    requires DrainerAt(s, d).snapshot[DrainerAt(s, d).index].rejected == 0
    ensures var dr := DrainerAt(s, d);
            var e := dr.snapshot[dr.index];
            var (book, answer) := RecordIn(s.book, e.account, delivery.actor, delivery.now, e.input);
            var status := if delivery.fate.Handled? then StatusOf(answer) else delivery.fate.status;
            var verdict := Judge(dr.worker, status);
            var t := RunOf(s, Exchange(d, ticket, delivery, status) + if verdict == Stop then [] else [Settle(d)]);
            && t.book == (if delivery.fate.TurnedAway? then s.book else book)
            && t.store == Outcome(s.store, verdict, e, status)
            && (verdict != Stop ==> DrainerAt(t, d) == dr.(index := dr.index + 1))
    ensures var dr := DrainerAt(s, d);
            var e := dr.snapshot[dr.index];
            var t := RunOf(s, Exchange(d, ticket, delivery, 0)[..2]);
            t.store == s.store && t.book ==
              if delivery.fate.TurnedAway? then s.book
              else RecordIn(s.book, e.account, delivery.actor, delivery.now, e.input).0
  {
    var dr := DrainerAt(s, d);
    var e := dr.snapshot[dr.index];
    var answer := RecordIn(s.book, e.account, delivery.actor, delivery.now, e.input).1;
    var status := if delivery.fate.Handled? then StatusOf(answer) else delivery.fate.status;
    var steps := Exchange(d, ticket, delivery, status);
    Exchanged(s, d, ticket, delivery);
    ServedOnly(s, d, ticket, delivery);
    if Judge(dr.worker, status) == Stop {
      assert steps + [] == steps;
    } else {
      RunMore(s, steps, Settle(d));
      SettleGives(RunOf(s, steps), d);
    }
  }

  lemma SettleGives(s: System, d: nat)
    requires Enabled(s, Settle(d))
    ensures var dr := DrainerAt(s, d);
            var e := dr.snapshot[dr.index];
            var t := Take(s, Settle(d));
            && t.book == s.book && DrainerAt(t, d) == dr.(index := dr.index + 1, stage := Ready)
            && t.store == Outcome(s.store, Judge(dr.worker, dr.stage.status), e, dr.stage.status)
  {
  }

  // --------------------------------------------- a drain among other actors

  /** The status a served entry is answered with. */
  function AnswerTo(s: System, e: Entry, delivery: Delivery): int
    requires !delivery.Unsent?
  {
    if delivery.fate.Handled? then StatusOf(RecordIn(s.book, e.account, delivery.actor, delivery.now, e.input).1)
    else delivery.fate.status
  }

  /** The answer stands: what was deleted is in the book, what was marked was refused. */
  lemma VerdictStands(s: System, d: nat, ticket: nat, delivery: Delivery, status: int)
    requires !delivery.Unsent? && Possible(delivery) && ticket !in s.sent && Reachable(s)
    requires Working(DrainerAt(s, d)) && DrainerAt(s, d).stage.Ready?
    requires DrainerAt(s, d).snapshot[DrainerAt(s, d).index].rejected == 0
    requires status == AnswerTo(s, DrainerAt(s, d).snapshot[DrainerAt(s, d).index], delivery)
    requires Judge(DrainerAt(s, d).worker, status) != Stop
    ensures var key := DrainerAt(s, d).snapshot[DrainerAt(s, d).index].key;
            var t := RunOf(s, Exchange(d, ticket, delivery, status) + [Settle(d)]);
            if Judge(DrainerAt(s, d).worker, status) == Delete then key in t.log else key in t.refused
  {
    var steps := Exchange(d, ticket, delivery, status);
    Exchanged(s, d, ticket, delivery);
    ReachableOn(s, steps);
    RunMore(s, steps, Settle(d));
    SettledStands(RunOf(s, steps), d);
  }

  lemma SettledStands(s: System, d: nat)
    requires Reachable(s) && Enabled(s, Settle(d))
    ensures var dr := DrainerAt(s, d);
            var (key, t) := (dr.snapshot[dr.index].key, Take(s, Settle(d)));
            if Judge(dr.worker, dr.stage.status) == Delete then key in t.log else key in t.refused
  {
    ReachableIsGood(s);
    assert DrainerOk(s, DrainerAt(s, d));
  }

  /** Steps of anyone but drainer d. */
  predicate OthersOnly(steps: seq<Step>, d: nat) {
    forall i :: 0 <= i < |steps| ==> NotBy(steps[i], d)
  }

  predicate NotBy(step: Step, d: nat) {
    match step
    case Begin(drainer, _, _) => drainer != d
    case Skip(drainer) => drainer != d
    case Send(drainer, _) => drainer != d
    case Receive(drainer, _) => drainer != d
    case Settle(drainer) => drainer != d
    case End(drainer) => drainer != d
    case _ => true
  }

  lemma {:induction false} OthersLeave(s: System, steps: seq<Step>, d: nat)
    requires OthersOnly(steps, d)
    ensures DrainerAt(RunOf(s, steps), d) == DrainerAt(s, d)
  {
    if steps != [] {
      OthersLeave(s, steps[..|steps| - 1], d);
      assert NotBy(steps[|steps| - 1], d);
    }
  }

  /** What the others do before turn i. */
  function OthersAt(others: seq<seq<Step>>, i: nat): seq<Step> {
    if i < |others| then others[i] else []
  }

  /** The drainer's turns, each after what the others did before it. */
  function Woven(others: seq<seq<Step>>, turns: seq<seq<Step>>): seq<Step> {
    if turns == [] then []
    else Woven(others, turns[..|turns| - 1]) + OthersAt(others, |turns| - 1) + turns[|turns| - 1]
  }

  /** The world as turn i finds it. */
  function Found(start: System, others: seq<seq<Step>>, turns: seq<seq<Step>>, i: nat): System
    requires i <= |turns|
  {
    RunOf(RunOf(start, Woven(others, turns[..i])), OthersAt(others, i))
  }

  /** Each turn is steps of the drainer's own. */
  ghost predicate OwnTurns(start: System, others: seq<seq<Step>>, turns: seq<seq<Step>>, d: nat) {
    forall i {:trigger Found(start, others, turns, i)} :: 0 <= i < |turns| ==>
      StepsOf(turns[i], d, Found(start, others, turns, i).sent)
  }

  /** These turns of the drainer's, and what the others did, led to this world. */
  ghost predicate Led(start: System, others: seq<seq<Step>>, turns: seq<seq<Step>>, d: nat, world: System) {
    world == RunOf(start, Woven(others, turns)) && OwnTurns(start, others, turns, d)
  }

  lemma NextTurn(start: System, others: seq<seq<Step>>, turns: seq<seq<Step>>, more: seq<Step>, d: nat, world: System)
    requires Led(start, others, turns, d, world)
    requires StepsOf(more, d, RunOf(world, OthersAt(others, |turns|)).sent)
    ensures Led(start, others, turns + [more], d, RunOf(RunOf(world, OthersAt(others, |turns|)), more))
  {
    var longer := turns + [more];
    assert turns[..|turns|] == turns;
    assert longer[..|longer| - 1] == turns && longer[|turns|] == more;
    RunOn(start, Woven(others, turns), OthersAt(others, |turns|));
    RunOn(start, Woven(others, turns) + OthersAt(others, |turns|), more);
    forall i | 0 <= i < |longer| ensures StepsOf(longer[i], d, Found(start, others, longer, i).sent) {
      assert longer[..i] == turns[..i];
      if i < |turns| { assert StepsOf(turns[i], d, Found(start, others, turns, i).sent); }
    }
  }

  lemma {:induction false} RecordsGrow(s: System, steps: seq<Step>)
    ensures forall k :: k in s.log ==> k in RunOf(s, steps).log
    ensures s.refused <= RunOf(s, steps).refused
  {
    if steps != [] {
      var init := steps[..|steps| - 1];
      RecordsGrow(s, init);
      RecordsGrowByOne(RunOf(s, init), steps[|steps| - 1]);
    }
  }

  lemma RecordsGrowByOne(s: System, step: Step)
    ensures forall k :: k in s.log ==> k in Take(s, step).log
    ensures s.refused <= Take(s, step).refused
  {
  }

  lemma {:induction false} StaysNotWaiting(s: System, steps: seq<Step>, key: Key)
    requires Inv(s) && KnownKey(s, key) && NotWaiting(s.store, key)
    ensures KnownKey(RunOf(s, steps), key) && NotWaiting(RunOf(s, steps).store, key)
  {
    if steps != [] {
      var init := steps[..|steps| - 1];
      var was := RunOf(s, init);
      StaysNotWaiting(s, init, key);
      KeepsInv(s, init);
      if Enabled(was, steps[|steps| - 1]) {
        StaysUnsent(was, key, steps[|steps| - 1]);
        StaysKnown(was, key, steps[|steps| - 1]);
      }
    }
  }

  lemma StaysKnown(s: System, key: Key, step: Step)
    requires KnownKey(s, key)
    ensures KnownKey(Take(s, step), key)
  {
    var i :| 0 <= i < |s.queued| && s.queued[i].key == key;
    assert Take(s, step).queued[i].key == key;
  }

  /** So far: a verdict for each entry behind the drainer, that stands, and none of these waits any more. */
  predicate Dealt(s: System, snapshot: seq<Entry>, verdicts: seq<Option<Verdict>>) {
    && |verdicts| <= |snapshot|
    && (forall j :: 0 <= j < |snapshot| ==> KnownKey(s, snapshot[j].key))
    && (forall j {:trigger NotWaiting(s.store, snapshot[j].key)} ::
          0 <= j < |snapshot| && (j < |verdicts| || snapshot[j].rejected != 0) ==> NotWaiting(s.store, snapshot[j].key))
    && (forall j {:trigger Stands(s, snapshot[j], verdicts[j])} ::
          0 <= j < |verdicts| ==> Stands(s, snapshot[j], verdicts[j]))
  }

  predicate Stands(s: System, entry: Entry, verdict: Option<Verdict>) {
    match verdict
    case None => entry.rejected != 0
    case Some(Delete) => entry.rejected == 0 && entry.key in s.log
    case Some(Mark) => entry.rejected == 0 && entry.key in s.refused
    case Some(Stop) => false
  }

  lemma DealtStays(s: System, steps: seq<Step>, snapshot: seq<Entry>, verdicts: seq<Option<Verdict>>)
    requires Inv(s) && Dealt(s, snapshot, verdicts)
    ensures Dealt(RunOf(s, steps), snapshot, verdicts)
  {
    RecordsGrow(s, steps);
    forall j | 0 <= j < |snapshot| && (j < |verdicts| || snapshot[j].rejected != 0)
      ensures NotWaiting(RunOf(s, steps).store, snapshot[j].key)
    {
      StaysNotWaiting(s, steps, snapshot[j].key);
    }
    forall j | 0 <= j < |snapshot| ensures KnownKey(RunOf(s, steps), snapshot[j].key) {
      StaysKnownOn(s, steps, snapshot[j].key);
    }
    forall j | 0 <= j < |verdicts| ensures Stands(RunOf(s, steps), snapshot[j], verdicts[j]) {
      assert Stands(s, snapshot[j], verdicts[j]);
    }
  }

  lemma {:induction false} StaysKnownOn(s: System, steps: seq<Step>, key: Key)
    requires KnownKey(s, key)
    ensures KnownKey(RunOf(s, steps), key)
  {
    if steps != [] {
      StaysKnownOn(s, steps[..|steps| - 1], key);
      StaysKnown(RunOf(s, steps[..|steps| - 1]), key, steps[|steps| - 1]);
    }
  }

  /** One entry more is dealt with, by a verdict that stands. */
  lemma DealtNext(s: System, snapshot: seq<Entry>, verdicts: seq<Option<Verdict>>, verdict: Option<Verdict>)
    requires Dealt(s, snapshot, verdicts) && |verdicts| < |snapshot|
    requires Stands(s, snapshot[|verdicts|], verdict) && NotWaiting(s.store, snapshot[|verdicts|].key)
    ensures Dealt(s, snapshot, verdicts + [verdict])
  {
    var longer := verdicts + [verdict];
    forall j | 0 <= j < |longer| ensures Stands(s, snapshot[j], longer[j]) {
      if j < |verdicts| { assert longer[j] == verdicts[j]; }
    }
  }

  /** What is dealt with is in the book, refused, or discarded. */
  lemma DealtIsSettled(s: System, snapshot: seq<Entry>, verdicts: seq<Option<Verdict>>, j: nat)
    requires Inv(s) && Dealt(s, snapshot, verdicts) && j < |verdicts|
    ensures Settled(s, snapshot[j].key)
  {
    assert KnownKey(s, snapshot[j].key) && NotWaiting(s.store, snapshot[j].key);
    NotWaitingIsSettled(s, snapshot[j].key);
  }

  lemma NotWaitingIsSettled(s: System, key: Key)
    requires StoreOk(s) && KnownKey(s, key) && NotWaiting(s.store, key)
    ensures Settled(s, key)
  {
    var i :| 0 <= i < |s.queued| && s.queued[i].key == key;
    assert s.queued[i].key in s.store ==> s.store[s.queued[i].key].rejected != 0;
  }

  lemma ListedIsKnown(s: System, snapshot: seq<Entry>)
    requires StoreOk(s) && Lists(snapshot, s.store)
    ensures Dealt(s, snapshot, [])
  {
    forall j | 0 <= j < |snapshot| ensures KnownKey(s, snapshot[j].key) {
      assert Origin(s, s.store[snapshot[j].key]);
      var i :| 0 <= i < |s.queued| && s.queued[i] == snapshot[j].(rejected := 0);
      assert s.queued[i].key == snapshot[j].key;
    }
  }

  lemma Ends(begin: System, first: Step, middle: seq<Step>, d: nat)
    ensures var t := RunOf(RunOf(begin, [first]), middle);
            var u := RunOf(begin, [first] + middle + [End(d)]);
            u == RunOf(t, [End(d)]) && u.store == t.store && u.book == t.book
  {
    RunOn(begin, [first], middle);
    RunMore(begin, [first] + middle, End(d));
    RunOne(RunOf(RunOf(begin, [first]), middle), End(d));
  }

  function Count(verdicts: seq<Option<Verdict>>, verdict: Verdict): nat {
    if verdicts == [] then 0
    else Count(verdicts[..|verdicts| - 1], verdict) + if verdicts[|verdicts| - 1] == Some(verdict) then 1 else 0
  }

  /** Nobody else acts during the drain. */
  predicate Alone(others: seq<seq<Step>>) {
    forall i :: 0 <= i < |others| ==> others[i] == []
  }

  function DeliveryAt(deliveries: seq<Delivery>, i: nat): Delivery {
    if i < |deliveries| then deliveries[i] else Unsent
  }

  predicate NotWaiting(store: map<Key, Entry>, key: Key) {
    key in store ==> store[key].rejected != 0
  }

  function Refusing(store: map<Key, Entry>, entry: Entry, status: int): map<Key, Entry> {
    store[entry.key := entry.(rejected := status)]
  }

  function Outcome(store: map<Key, Entry>, verdict: Verdict, entry: Entry, status: int): map<Key, Entry> {
    match verdict
    case Stop => store
    case Delete => store - {entry.key}
    case Mark => Refusing(store, entry, status)
  }

  lemma VerdictTurns(worker: Worker, delivery: Delivery, store: map<Key, Entry>, entry: Entry, status: int)
    requires delivery.Arrived? && entry.rejected == 0
    requires if delivery.fate.Handled? then status == 200 || status == 422 || status == 404 else status == delivery.fate.status
    ensures Judge(worker, status) == Stop <==> Stops(worker, delivery)
    ensures Judge(worker, status) != Stop && status != 0 ==>
      Turned(store, Outcome(store, Judge(worker, status), entry, status), entry, Some(Judge(worker, status)))
    ensures Acts(worker, entry, status, Judge(worker, status), store, Outcome(store, Judge(worker, status), entry, status))
  {
  }

  lemma TurnedIsNotWaiting(before: map<Key, Entry>, after: map<Key, Entry>, entry: Entry, verdict: Option<Verdict>)
    requires Turned(before, after, entry, verdict) && (entry.rejected != 0 ==> NotWaiting(before, entry.key))
    ensures NotWaiting(after, entry.key)
  {
  }

  /** With nobody else at work the counters say what left the store and what was newly marked. */
  predicate Tallied(before: map<Key, Entry>, after: map<Key, Entry>, snapshot: seq<Entry>, verdicts: seq<Option<Verdict>>) {
    && Pending(after, snapshot, |verdicts|)
    && |after| + Count(verdicts, Delete) == |before|
    && |RefusedKeys(after)| == |RefusedKeys(before)| + Count(verdicts, Mark)
  }

  lemma KeysAreTheirs(s: System)
    requires Reachable(s)
    ensures KeysMatch(s.store)
  {
    ReachableIsGood(s);
  }

  lemma TallyOn(first: map<Key, Entry>, before: map<Key, Entry>, after: map<Key, Entry>, snapshot: seq<Entry>,
                verdicts: seq<Option<Verdict>>, verdict: Option<Verdict>)
    requires Tallied(first, before, snapshot, verdicts) && |verdicts| < |snapshot|
    requires if verdict == Some(Stop) then after == before else Turned(before, after, snapshot[|verdicts|], verdict)
    ensures Tallied(first, after, snapshot, Extended(verdicts, verdict))
  {
    if verdict != Some(Stop) {
      AfterTurn(before, after, snapshot, |verdicts|, verdict);
      CountNext(verdicts, verdict);
    }
  }

  lemma CountNext(verdicts: seq<Option<Verdict>>, verdict: Option<Verdict>)
    ensures Count(verdicts + [verdict], Delete) == Count(verdicts, Delete) + if verdict == Some(Delete) then 1 else 0
    ensures Count(verdicts + [verdict], Mark) == Count(verdicts, Mark) + if verdict == Some(Mark) then 1 else 0
  {
    assert (verdicts + [verdict])[..|verdicts|] == verdicts;
  }

  /** What the others did leaves what was dealt with dealt with. */
  lemma OthersActed(s: System, others: seq<Step>, snapshot: seq<Entry>, verdicts: seq<Option<Verdict>>)
    requires Reachable(s) && Dealt(s, snapshot, verdicts)
    ensures Dealt(RunOf(s, others), snapshot, verdicts)
  {
    ReachableIsGood(s);
    DealtStays(s, others, snapshot, verdicts);
  }

  /** How far a drain has come: its turns, and its verdicts on the entries behind it. */
  datatype Progress = Progress(start: System, store: map<Key, Entry>, snapshot: seq<Entry>, turns: seq<seq<Step>>,
                               verdicts: seq<Option<Verdict>>)

  function Extended(verdicts: seq<Option<Verdict>>, verdict: Option<Verdict>): seq<Option<Verdict>> {
    if verdict == Some(Stop) then verdicts else verdicts + [verdict]
  }

  function Further(p: Progress, more: seq<Step>, verdict: Option<Verdict>): Progress {
    p.(turns := p.turns + [more], verdicts := Extended(p.verdicts, verdict))
  }

  /** One turn more, and one verdict more unless it stopped. */
  predicate Follows(p: Progress, next: Progress, verdict: Option<Verdict>) {
    && next.start == p.start && next.store == p.store && next.snapshot == p.snapshot
    && |next.turns| == |p.turns| + 1
    && |next.verdicts| == |p.verdicts| + (if verdict == Some(Stop) then 0 else 1)
    && Count(next.verdicts, Delete) == Count(p.verdicts, Delete) + (if verdict == Some(Delete) then 1 else 0)
    && Count(next.verdicts, Mark) == Count(p.verdicts, Mark) + (if verdict == Some(Mark) then 1 else 0)
  }

  ghost predicate Underway(p: Progress, worker: Worker, deliveries: seq<Delivery>, others: seq<seq<Step>>,
                           world: System, d: nat) {
    && Led(p.start, others, p.turns, d, world) && Reachable(world)
    && Dealt(world, p.snapshot, p.verdicts)
    && Passed(worker, deliveries, p.snapshot, |p.verdicts|)
    && (Alone(others) ==> Tallied(p.store, world.store, p.snapshot, p.verdicts))
  }

  /** A drain begins: the drainer is at the head of its list, and what was refused before is not waiting. */
  lemma Begins(begin: System, worker: Worker, deliveries: seq<Delivery>, others: seq<seq<Step>>, d: nat, snapshot: seq<Entry>)
    returns (p: Progress)
    requires Reachable(begin) && DrainerAt(begin, d).Idle? && Lists(snapshot, begin.store)
    ensures var t := RunOf(begin, [Begin(d, worker, snapshot)]);
            && p == Progress(t, begin.store, snapshot, [], []) && t.store == begin.store && t.book == begin.book
            && DrainerAt(t, d) == Draining(worker, snapshot, 0, Ready)
            && Underway(p, worker, deliveries, others, t, d)
  {
    var t := RunOf(begin, [Begin(d, worker, snapshot)]);
    RunOne(begin, Begin(d, worker, snapshot));
    ReachableOn(begin, [Begin(d, worker, snapshot)]);
    BeginDealt(begin, worker, d, snapshot);
    KeysAreTheirs(begin);
    SnapshotIsPending(snapshot, begin.store);
    p := Progress(t, begin.store, snapshot, [], []);
  }

  lemma BeginDealt(begin: System, worker: Worker, d: nat, snapshot: seq<Entry>)
    requires Reachable(begin) && Lists(snapshot, begin.store)
    ensures Dealt(RunOf(begin, [Begin(d, worker, snapshot)]), snapshot, [])
  {
    ReachableIsGood(begin);
    ListedIsKnown(begin, snapshot);
    DealtStays(begin, [Begin(d, worker, snapshot)], snapshot, []);
  }

  /** A turn takes the drain one entry further, or stops it. */
  lemma GoesFurther(p: Progress, worker: Worker, deliveries: seq<Delivery>, others: seq<seq<Step>>, was: System,
                    d: nat, found: System, more: seq<Step>, verdict: Option<Verdict>)
    returns (next: Progress)
    requires Underway(p, worker, deliveries, others, was, d) && |p.turns| == |p.verdicts| < |p.snapshot|
    requires found == RunOf(was, OthersAt(others, |p.turns|)) && StepsOf(more, d, found.sent)
    requires verdict == Some(Stop) <==> Halts(worker, p.snapshot[|p.verdicts|], DeliveryAt(deliveries, |p.verdicts|))
    requires verdict == Some(Stop) ==> RunOf(found, more).store == found.store
    requires verdict != Some(Stop) ==> Turned(found.store, RunOf(found, more).store, p.snapshot[|p.verdicts|], verdict)
    requires verdict != Some(Stop) ==> Stands(RunOf(found, more), p.snapshot[|p.verdicts|], verdict)
    ensures Underway(next, worker, deliveries, others, RunOf(found, more), d) && Follows(p, next, verdict)
  {
    next := Further(p, more, verdict);
    NextTurn(p.start, others, p.turns, more, d, was);
    ReachableOn(was, OthersAt(others, |p.turns|));
    ReachableOn(found, more);
    OthersActed(was, OthersAt(others, |p.turns|), p.snapshot, p.verdicts);
    TurnTaken(found, more, p.snapshot, p.verdicts, verdict);
    CountNext(p.verdicts, verdict);
    PassedOn(worker, deliveries, p.snapshot, p.verdicts, verdict);
    if Alone(others) {
      TallyOn(p.store, found.store, RunOf(found, more).store, p.snapshot, p.verdicts, verdict);
    }
  }

  predicate Passed(worker: Worker, deliveries: seq<Delivery>, snapshot: seq<Entry>, n: nat) {
    n <= |snapshot| && forall i {:trigger DeliveryAt(deliveries, i)} :: 0 <= i < n ==> !Halts(worker, snapshot[i], DeliveryAt(deliveries, i))
  }

  lemma PassedOn(worker: Worker, deliveries: seq<Delivery>, snapshot: seq<Entry>, verdicts: seq<Option<Verdict>>,
                 verdict: Option<Verdict>)
    requires |verdicts| < |snapshot| && Passed(worker, deliveries, snapshot, |verdicts|)
    requires verdict == Some(Stop) <==> Halts(worker, snapshot[|verdicts|], DeliveryAt(deliveries, |verdicts|))
    ensures Passed(worker, deliveries, snapshot, |Extended(verdicts, verdict)|)
  {
  }

  lemma TurnTaken(s: System, more: seq<Step>, snapshot: seq<Entry>, verdicts: seq<Option<Verdict>>,
                  verdict: Option<Verdict>)
    requires Reachable(s) && Dealt(s, snapshot, verdicts) && |verdicts| < |snapshot|
    requires verdict != Some(Stop) ==>
      && Turned(s.store, RunOf(s, more).store, snapshot[|verdicts|], verdict)
      && Stands(RunOf(s, more), snapshot[|verdicts|], verdict)
    ensures Dealt(RunOf(s, more), snapshot, Extended(verdicts, verdict))
  {
    ReachableIsGood(s);
    DealtStays(s, more, snapshot, verdicts);
    if verdict != Some(Stop) {
      TurnedIsNotWaiting(s.store, RunOf(s, more).store, snapshot[|verdicts|], verdict);
      DealtNext(RunOf(s, more), snapshot, verdicts, verdict);
    }
  }

  /** The end of a drain: nothing is changed by it, and all that was dealt with is settled. */
  lemma Closes(begin: System, p: Progress, worker: Worker, deliveries: seq<Delivery>, others: seq<seq<Step>>,
               world: System, d: nat)
    requires p.start == RunOf(begin, [Begin(d, worker, p.snapshot)])
    requires Underway(p, worker, deliveries, others, world, d)
    ensures var t := RunOf(world, [End(d)]);
            && t == RunOf(begin, [Begin(d, worker, p.snapshot)] + Woven(others, p.turns) + [End(d)])
            && t.store == world.store && t.book == world.book && Dealt(t, p.snapshot, p.verdicts)
            && forall i :: 0 <= i < |p.verdicts| ==> Settled(t, p.snapshot[i].key)
  {
    var t := RunOf(world, [End(d)]);
    Ends(begin, Begin(d, worker, p.snapshot), Woven(others, p.turns), d);
    ReachableOn(world, [End(d)]);
    EndDealt(world, p.snapshot, p.verdicts, d);
  }

  lemma EndDealt(world: System, snapshot: seq<Entry>, verdicts: seq<Option<Verdict>>, d: nat)
    requires Reachable(world) && Dealt(world, snapshot, verdicts)
    ensures Dealt(RunOf(world, [End(d)]), snapshot, verdicts)
    ensures forall i :: 0 <= i < |verdicts| ==> Settled(RunOf(world, [End(d)]), snapshot[i].key)
  {
    var t := RunOf(world, [End(d)]);
    ReachableIsGood(world);
    DealtStays(world, [End(d)], snapshot, verdicts);
    KeepsInv(world, [End(d)]);
    forall i | 0 <= i < |verdicts| ensures Settled(t, snapshot[i].key) {
      DealtIsSettled(t, snapshot, verdicts, i);
    }
  }

  /** What an entry's turn does to the store. */
  ghost predicate Turned(before: map<Key, Entry>, after: map<Key, Entry>, entry: Entry, verdict: Option<Verdict>) {
    match verdict
    case None => after == before && entry.rejected != 0
    case Some(Delete) => after == before - {entry.key} && entry.rejected == 0
    case Some(Mark) => entry.rejected == 0 && exists status: int :: status != 0 && after == Refusing(before, entry, status)
    case Some(Stop) => false
  }

  function RefusedKeys(store: map<Key, Entry>): set<Key> {
    set k | k in store && store[k].rejected != 0
  }

  /** The entries to come are in the store as they were listed; those before are no longer waiting. */
  predicate Pending(store: map<Key, Entry>, snapshot: seq<Entry>, i: nat) {
    && (forall j :: i <= j < |snapshot| ==> snapshot[j].key in store && store[snapshot[j].key] == snapshot[j])
    && (forall j :: 0 <= j < i && j < |snapshot| ==> NotWaiting(store, snapshot[j].key))
    && (forall j, k :: 0 <= j < k < |snapshot| ==> snapshot[j].key != snapshot[k].key)
  }

  lemma DeleteCounts(before: map<Key, Entry>, key: Key)
    requires key in before && before[key].rejected == 0
    ensures |before - {key}| == |before| - 1 && RefusedKeys(before - {key}) == RefusedKeys(before)
  {
    assert (before - {key}).Keys == before.Keys - {key};
  }

  lemma MarkCounts(before: map<Key, Entry>, entry: Entry, status: int)
    requires entry.key in before && before[entry.key].rejected == 0 && status != 0
    ensures |Refusing(before, entry, status)| == |before|
    ensures |RefusedKeys(Refusing(before, entry, status))| == |RefusedKeys(before)| + 1
  {
    assert Refusing(before, entry, status).Keys == before.Keys;
    assert RefusedKeys(Refusing(before, entry, status)) == RefusedKeys(before) + {entry.key};
  }

  lemma AfterTurn(before: map<Key, Entry>, after: map<Key, Entry>, snapshot: seq<Entry>, i: nat, verdict: Option<Verdict>)
    requires i < |snapshot| && Pending(before, snapshot, i) && Turned(before, after, snapshot[i], verdict)
    ensures Pending(after, snapshot, i + 1)
    ensures |after| == |before| - if verdict == Some(Delete) then 1 else 0
    ensures |RefusedKeys(after)| == |RefusedKeys(before)| + if verdict == Some(Mark) then 1 else 0
  {
    var e := snapshot[i];
    if verdict == Some(Delete) {
      DeleteCounts(before, e.key);
    } else if verdict == Some(Mark) {
      var status :| status != 0 && after == Refusing(before, e, status);
      MarkCounts(before, e, status);
    }
    PendingNext(before, after, snapshot, i);
  }

  lemma PendingNext(before: map<Key, Entry>, after: map<Key, Entry>, snapshot: seq<Entry>, i: nat)
    requires i < |snapshot| && Pending(before, snapshot, i) && NotWaiting(after, snapshot[i].key)
    requires forall k :: k != snapshot[i].key ==> (k in after <==> k in before) && (k in after ==> after[k] == before[k])
    ensures Pending(after, snapshot, i + 1)
  {
  }

  lemma SnapshotIsPending(snapshot: seq<Entry>, store: map<Key, Entry>)
    requires Lists(snapshot, store) && KeysMatch(store)
    ensures Pending(store, snapshot, 0)
  {
    forall j, k | 0 <= j < k < |snapshot| ensures snapshot[j].key != snapshot[k].key {
      assert Before(snapshot[j], snapshot[k]);
    }
  }

  predicate KeysMatch(store: map<Key, Entry>) {
    forall k :: k in store ==> store[k].key == k
  }
}
