/** What the offline queue promises, over every run of the replay protocol. */
module ReplayTheorems {
  import opened Book
  import opened BookRuns
  import opened Replays
  import opened Replay
  import opened ReplayInvariant
  import opened Widths
  import opened Wrappers
  import Money
  import Text

  /**
   * Nothing lost: whatever fails, is delayed, repeated or raced, a queued write the owner did not
   * discard is still on the device, as it was written, or has entered the book.
   */
  lemma NothingIsLost(steps: seq<Step>, i: nat)
    requires i < |RunOf(START, steps).queued|
    ensures var s := RunOf(START, steps);
            var e := s.queued[i];
            || (e.key in s.store && s.store[e.key].(rejected := 0) == e)
            || e.key in s.discarded
            || e.key in s.log
  {
    RunKeepsInv(steps);
    var s := RunOf(START, steps);
    if s.queued[i].key in s.store {
      OriginIsUnique(s, s.store[s.queued[i].key], i);
    }
  }

  /**
   * At most once: a key enters the book once, on one row, and is found there for as long as its account
   * exists; and through it all the cached balances stay true.
   */
  lemma EnteredAtMostOnce(steps: seq<Step>)
    ensures var s := RunOf(START, steps);
            && (forall p, q :: 0 <= p < q < |s.log| ==> s.log[p] != s.log[q])
            && (forall i, j :: 0 <= i < j < |s.book.rows| && s.book.rows[i].key.Some? ==> s.book.rows[i].key != s.book.rows[j].key)
            && (forall i :: 0 <= i < |s.queued| && s.queued[i].key in s.log && s.queued[i].account in s.book.accounts ==>
                  HasKey(s.book, s.queued[i].key))
            && (forall a :: a in s.book.accounts ==> s.book.accounts[a].balance == Balance(s.book.rows, a, Everything))
  {
    RunKeepsInv(steps);
    var s := RunOf(START, steps);
    forall i | 0 <= i < |s.queued| && s.queued[i].key in s.log && s.queued[i].account in s.book.accounts
      ensures HasKey(s.book, s.queued[i].key)
    {
      assert Spent(s.book, s.queued[i].key, s.queued[i].account);
    }
    forall a | a in s.book.accounts ensures s.book.accounts[a].balance == Balance(s.book.rows, a, Everything) {
      assert Counted(s.book, a);
    }
  }

  /** An OK answer on its way to a drainer means the write is in the book's log already. */
  lemma OkIsOnlyAfterCommit(steps: seq<Step>, answer: (nat, int))
    requires answer in RunOf(START, steps).answers && Ok(answer.1)
    ensures answer.0 in RunOf(START, steps).sent
         && RunOf(START, steps).sent[answer.0].key in RunOf(START, steps).log
  {
    RunKeepsInv(steps);
  }

  /**
   * Order: of two writes queued one after the other, the first with the earlier stamp, or with as early a
   * one and the smaller key, when the second entered the book the first had entered before it, or had been
   * refused or discarded.
   */
  lemma OrderIsKept(steps: seq<Step>, i: nat, j: nat, p: nat)
    requires i < j < |RunOf(START, steps).queued| && p < |RunOf(START, steps).log|
    requires RunOf(START, steps).log[p] == RunOf(START, steps).queued[j].key
    requires var (e, f) := (RunOf(START, steps).queued[i], RunOf(START, steps).queued[j]);
             e.queuedAt < f.queuedAt || (e.queuedAt == f.queuedAt && e.key < f.key)
    ensures var s := RunOf(START, steps);
            s.queued[i].key in s.log[..p] || s.queued[i].key in s.discarded || s.queued[i].key in s.refused
  {
    RunKeepsInv(steps);
    assert EnteredInOrder(RunOf(START, steps), p);
  }

  // --------------------------------------------- when order is promised

  /** In this state, if e was queued before f and f is in the book, then e is settled. */
  predicate OrderHolds(s: System, e: Entry, f: Entry) {
    forall i, j :: 0 <= i < j < |s.queued| && s.queued[i] == e && s.queued[j] == f && f.key in s.log ==>
      Settled(s, e.key)
  }

  /** A credit of so many whole ngultrum, with nothing else typed. */
  function PlainCredit(key: Key, queuedAt: int, account: nat, ngultrum: nat): Entry {
    Entry(key, queuedAt, account,
          EntryInput(Credit, false, Text.Digits(ngultrum), "", "", "", NoTime, [], Some(key)), 0)
  }

  /** So there are valid writes for every key, stamp and account. */
  lemma PlainCreditIsValid(key: Key, queuedAt: int, account: nat, ngultrum: nat)
    requires ngultrum > 0 && Fits64(100 * ngultrum)
    ensures var e := PlainCredit(key, queuedAt, account, ngultrum);
            Queueable(e) && EntryFaults(e.input) == [] && EntryAmount(e.input) == Some(100 * ngultrum)
  {
    Money.PlainDigitsRead(Text.Digits(ngultrum));
    Text.DigitsRoundTrip(ngultrum);
    WrapsBy64(100 * ngultrum, 0);
  }

  /** Opening accounts until the one numbered n exists. */
  lemma {:induction false} OpenUntil(s: System, n: nat) returns (steps: seq<Step>)
    requires s.book.nextAccount <= n
    ensures var t := RunOf(s, steps);
            t == s.(book := t.book) && n in t.book.accounts && t.book.rows == s.book.rows && t.book.nextAccount == n + 1
    decreases n - s.book.nextAccount
  {
    var t := Take(s, Office(Opening));
    assert t.elsewhere == s.elsewhere;
    steps := [];
    if s.book.nextAccount < n {
      steps := OpenUntil(t, n);
    }
    steps := Prepend(s, Office(Opening), steps);
  }

  lemma OpenUpTo(n: nat) returns (steps: seq<Step>)
    ensures var s := RunOf(START, steps);
            s == START.(book := s.book) && n in s.book.accounts && s.book.rows == [] && s.book.nextAccount == n + 1
  {
    steps := OpenUntil(START, n);
  }

  /**
   * The device's clock decides: when the second write's stamp is earlier (or equal, with a smaller key),
   * there is a run in which it enters the book while the first is still waiting.
   */
  lemma ClockBackBreaksOrder(e: Entry, f: Entry) returns (steps: seq<Step>)
    requires Queueable(e) && Queueable(f) && e.key != f.key && EntryFaults(f.input) == []
    requires f.queuedAt < e.queuedAt || (f.queuedAt == e.queuedAt && f.key < e.key)
    ensures !OrderHolds(RunOf(START, steps), e, f)
  {
    var first := OpenUpTo(f.account);
    var s := RunOf(START, first);
    steps := QueuedThenOvertaken(s, e, f);
    Overtaken(RunOf(s, steps), e, f);
    RunOn(START, first, steps);
    steps := first + steps;
  }

  lemma QueuedThenOvertaken(s: System, e: Entry, f: Entry) returns (steps: seq<Step>)
    requires e.key != f.key && Queueable(e) && Queueable(f) && !Before(e, f)
    requires s == START.(book := s.book) && f.account in s.book.accounts && s.book.rows == [] && EntryFaults(f.input) == []
    ensures var t := RunOf(s, steps);
            t.queued == [e, f] && t.log == [f.key] && t.discarded == {} && t.refused == {}
  {
    QueueBoth(s, e, f);
    var s1 := Take(s, Enqueue(e));
    steps := SecondOvertakes(Take(s1, Enqueue(f)), e, f);
    steps := Prepend(s1, Enqueue(f), steps);
    steps := Prepend(s, Enqueue(e), steps);
  }

  lemma QueueBoth(s: System, e: Entry, f: Entry)
    requires e.key != f.key && Queueable(e) && Queueable(f) && s == START.(book := s.book)
    ensures Take(Take(s, Enqueue(e)), Enqueue(f)) == s.(store := map[e.key := e, f.key := f], queued := [e, f])
  {
    var s1 := Take(s, Enqueue(e));
    assert s1 == s.(store := map[e.key := e], queued := [e]);
  }

  lemma Overtaken(s: System, e: Entry, f: Entry)
    requires s.queued == [e, f] && s.log == [f.key] && s.discarded == {} && s.refused == {} && e.key != f.key
    ensures !OrderHolds(s, e, f)
  {
    assert s.queued[0] == e && s.queued[1] == f && s.log[0] == f.key;
  }

  lemma SecondOvertakes(s: System, e: Entry, f: Entry) returns (steps: seq<Step>)
    requires e.key != f.key && Queueable(e) && Queueable(f) && !Before(e, f)
    requires s == START.(book := s.book, store := map[e.key := e, f.key := f], queued := [e, f])
    requires f.account in s.book.accounts && s.book.rows == [] && EntryFaults(f.input) == []
    ensures var t := RunOf(s, steps);
            t.queued == [e, f] && t.log == [f.key] && t.discarded == {} && t.refused == {}
  {
    ListsBoth(e, f);
    var s1 := Take(s, Begin(0, Page, [f, e]));
    assert s1 == s.(drainers := map[0 := Draining(Page, [f, e], 0, Ready)]);
    var s2 := Take(s1, Send(0, 0));
    assert s2 == s1.(drainers := s2.drainers, sent := map[0 := f], requests := {0});
    ServedFirst(s2, f);
    steps := Prepend(s2, Serve(0, Handled, 0, 0), []);
    steps := Prepend(s1, Send(0, 0), steps);
    steps := Prepend(s, Begin(0, Page, [f, e]), steps);
  }

  lemma ListsBoth(e: Entry, f: Entry)
    requires e.key != f.key && !Before(e, f)
    ensures Lists([f, e], map[e.key := e, f.key := f])
  {
  }

  lemma ServedFirst(s: System, f: Entry)
    requires s.sent == map[0 := f] && s.requests == {0} && s.log == []
    requires Queueable(f) && f.account in s.book.accounts && s.book.rows == [] && EntryFaults(f.input) == []
    ensures var t := Take(s, Serve(0, Handled, 0, 0));
            && t.log == [f.key] && t.queued == s.queued && t.discarded == s.discarded && t.refused == s.refused
            && t.store == s.store && t.sent == s.sent
  {
    EntersEmptyBook(s.book, f);
    assert Take(s, Serve(0, Handled, 0, 0)) == ServeOn(s, 0, Handled, 0, 0);
    assert s.log + [f.key] == [f.key];
  }

  lemma EntersEmptyBook(b: Book, f: Entry)
    requires f.account in b.accounts && b.rows == [] && EntryFaults(f.input) == []
    ensures RecordIn(b, f.account, 0, 0, f.input).1.Entered?
  {
  }

  /** Only writes nothing is wrong with get into the book. */
  predicate LoggedAreValid(s: System) {
    forall i :: 0 <= i < |s.queued| && s.queued[i].key in s.log ==> EntryFaults(s.queued[i].input) == []
  }

  lemma ServingLogsValid(s: System, step: Step)
    requires Inv(s) && LoggedAreValid(s) && step.Serve? && Enabled(s, step)
    ensures LoggedAreValid(Do(s, step))
  {
    var r := s.sent[step.ticket];
    var t := Do(s, step);
    assert Origin(s, r);
    forall i | 0 <= i < |t.queued| && t.queued[i].key in t.log ensures EntryFaults(t.queued[i].input) == [] {
      if t.queued[i].key !in s.log {
        assert t.queued[i].key == r.key;
        OriginIsUnique(s, r, i);
      }
    }
  }

  lemma {:induction false} RunLogsValid(steps: seq<Step>)
    ensures LoggedAreValid(RunOf(START, steps))
  {
    if steps != [] {
      var s := RunOf(START, steps[..|steps| - 1]);
      var step := steps[|steps| - 1];
      RunLogsValid(steps[..|steps| - 1]);
      RunKeepsInv(steps[..|steps| - 1]);
      if Enabled(s, step) {
        if step.Serve? {
          ServingLogsValid(s, step);
        } else {
          OthersLogNothing(s, step);
        }
      }
    }
  }

  lemma OthersLogNothing(s: System, step: Step)
    requires Inv(s) && LoggedAreValid(s) && !step.Serve? && Enabled(s, step)
    ensures LoggedAreValid(Do(s, step))
  {
    if step.Enqueue? {
      assert forall p :: 0 <= p < |s.log| ==> KnownKey(s, s.log[p]);
    } else {
      SameQueueAndLog(s, step);
    }
  }

  lemma SameQueueAndLog(s: System, step: Step)
    requires !step.Serve? && !step.Enqueue? && Enabled(s, step)
    ensures Do(s, step).log == s.log && Do(s, step).queued == s.queued
  {
  }

  lemma InOrderOrInvalid(steps: seq<Step>, e: Entry, f: Entry)
    requires Before(e, f) || EntryFaults(f.input) != []
    ensures OrderHolds(RunOf(START, steps), e, f)
  {
    var s := RunOf(START, steps);
    RunLogsValid(steps);
    forall i, j | 0 <= i < j < |s.queued| && s.queued[i] == e && s.queued[j] == f && f.key in s.log
      ensures Settled(s, e.key)
    {
      var p :| 0 <= p < |s.log| && s.log[p] == f.key;
      OrderIsKept(steps, i, j, p);
    }
  }

  /**
   * So the order of two writes is promised over every run exactly when their stamps are in order, or the
   * second has something wrong with it and never enters at all.
   */
  lemma OrderIffStampsInOrder(e: Entry, f: Entry)
    requires Queueable(e) && Queueable(f) && e.key != f.key
    ensures (|| e.queuedAt < f.queuedAt || (e.queuedAt == f.queuedAt && e.key < f.key)
             || EntryFaults(f.input) != []) <==>
      forall steps: seq<Step> :: OrderHolds(RunOf(START, steps), e, f)
  {
    if Before(e, f) || EntryFaults(f.input) != [] {
      forall steps: seq<Step> ensures OrderHolds(RunOf(START, steps), e, f) {
        InOrderOrInvalid(steps, e, f);
      }
    } else {
      var steps := ClockBackBreaksOrder(e, f);
      assert !OrderHolds(RunOf(START, steps), e, f);
    }
  }

  // ------------------------------------------------ refused yet entered

  /**
   * An entry marked as refused may be in the book: its first answer was lost, and by the time it was sent
   * again the shop was locked, which is checked before the key is looked up.
   */
  lemma RefusedMayBeEntered(e: Entry) returns (steps: seq<Step>)
    requires Queueable(e) && EntryFaults(e.input) == []
    ensures var s := RunOf(START, steps);
            && e in s.queued && e.key in s.log && e.key in s.refused
            && e.key in s.store && s.store[e.key].rejected == 403
  {
    var first := OpenUpTo(e.account);
    var s := RunOf(START, first);
    var sending := SentFirst(s, e);
    var t := RunOf(s, sending);
    var rest := LostThenLocked(t, e);
    QueueGrows(t, rest);
    RunOn(s, sending, rest);
    RunOn(START, first, sending + rest);
    steps := first + (sending + rest);
  }

  /** An entry on its own is queued, listed and sent. */
  lemma SentFirst(s: System, e: Entry) returns (steps: seq<Step>)
    requires s == START.(book := s.book) && Queueable(e)
    ensures var t := RunOf(s, steps);
            && t.sent == map[0 := e] && t.requests == {0} && t.queued == [e] && t.log == [] && t.book == s.book
            && t.store == map[e.key := e]
  {
    var s1 := Take(s, Enqueue(e));
    assert s1 == s.(store := map[e.key := e], queued := [e]);
    assert Lists([e], s1.store);
    var s2 := Take(s1, Begin(0, Page, [e]));
    assert s2 == s1.(drainers := map[0 := Draining(Page, [e], 0, Ready)]);
    steps := Prepend(s2, Send(0, 0), []);
    steps := Prepend(s1, Begin(0, Page, [e]), steps);
    steps := Prepend(s, Enqueue(e), steps);
  }

  lemma LostThenLocked(s: System, e: Entry) returns (steps: seq<Step>)
    requires s.sent == map[0 := e] && s.requests == {0} && s.log == [] && s.store == map[e.key := e]
    requires Queueable(e) && e.account in s.book.accounts && s.book.rows == [] && EntryFaults(e.input) == []
    ensures var t := RunOf(s, steps);
            e.key in t.log && e.key in t.refused && e.key in t.store && t.store[e.key].rejected == 403
  {
    var serve, end := Serve(0, Handled, 0, 0), End(0);
    ServedFirst(s, e);
    var s1 := Take(s, serve);
    var s2 := Take(s1, end);
    EndIdles(s1, 0);
    steps := TurnedAwayOnce(s2, e);
    steps := Prepend(s1, end, steps);
    steps := Prepend(s, serve, steps);
  }

  lemma EndIdles(s: System, d: nat)
    ensures var t := Take(s, End(d));
            t.store == s.store && t.sent == s.sent && t.log == s.log && DrainerAt(t, d).Idle?
  {
  }

  /** Idle again, the drainer sends the entry and is told that the shop is locked. */
  lemma TurnedAwayOnce(s: System, e: Entry) returns (steps: seq<Step>)
    requires s.store == map[e.key := e] && e.rejected == 0 && 1 !in s.sent && DrainerAt(s, 0).Idle?
    ensures var t := RunOf(s, steps);
            t.log == s.log && e.key in t.refused && e.key in t.store && t.store[e.key].rejected == 403
  {
    assert Lists([e], s.store);
    var s1 := Take(s, Begin(0, Page, [e]));
    var s2 := Take(s1, Send(0, 1));
    assert s2.store == s.store && s2.log == s.log;
    assert s2.sent[1] == e && 1 in s2.requests && DrainerAt(s2, 0) == Draining(Page, [e], 0, Asked(1));
    steps := ToldLocked(s2, e);
    steps := Prepend(s1, Send(0, 1), steps);
    steps := Prepend(s, Begin(0, Page, [e]), steps);
  }

  lemma ToldLocked(s: System, e: Entry) returns (steps: seq<Step>)
    requires 1 in s.sent && s.sent[1] == e && 1 in s.requests && DrainerAt(s, 0) == Draining(Page, [e], 0, Asked(1))
    ensures var t := RunOf(s, steps);
            t.log == s.log && e.key in t.refused && e.key in t.store && t.store[e.key].rejected == 403
  {
    var t := Take(s, Serve(1, TurnedAway(403), 0, 0));
    assert t == s.(answers := s.answers + {(1, 403)});
    var u := Take(t, Receive(0, 403));
    assert DrainerAt(u, 0) == Draining(Page, [e], 0, Answered(403)) && u.store == s.store && u.log == s.log;
    steps := Prepend(u, Settle(0), []);
    steps := Prepend(t, Receive(0, 403), steps);
    steps := Prepend(s, Serve(1, TurnedAway(403), 0, 0), steps);
  }

  /**
   * A write marked as refused is out of the book over every run exactly when there is something wrong
   * with it.
   */
  lemma RefusedIsOutIff(e: Entry)
    requires Queueable(e)
    ensures EntryFaults(e.input) != [] <==>
      forall steps: seq<Step> :: e in RunOf(START, steps).queued && e.key in RunOf(START, steps).refused ==>
        e.key !in RunOf(START, steps).log
  {
    if EntryFaults(e.input) != [] {
      forall steps: seq<Step> | e in RunOf(START, steps).queued ensures e.key !in RunOf(START, steps).log {
        RunLogsValid(steps);
      }
    } else {
      var steps := RefusedMayBeEntered(e);
      assert e in RunOf(START, steps).queued && e.key in RunOf(START, steps).log;
    }
  }
}
