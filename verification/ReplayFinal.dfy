/** When a queued write that has not entered the book is out of it for good. */
module ReplayFinal {
  import opened Book
  import opened BookRuns
  import opened Replays
  import opened Replay
  import opened ReplayInvariant
  import opened ReplayTheorems
  import opened Wrappers

  /** The server could enter it: nothing in it is at fault, and its account exists or is yet to be opened. */
  predicate Acceptable(b: Book, e: Entry) {
    (e.account in b.accounts || b.nextAccount <= e.account) && EntryFaults(e.input) == []
  }

  /** It is in the store to be sent. */
  predicate Waiting(s: System, key: Key) {
    key in s.store && s.store[key].rejected == 0
  }

  predicate InFlight(s: System, key: Key) {
    exists t :: t in s.requests && t in s.sent && s.sent[t].key == key
  }

  /** A drainer that can still finish with its entry; one whose request or answer was lost can only end. */
  predicate CanGoOn(s: System, dr: Drainer) {
    dr.Draining? &&
    match dr.stage
    case Ready => true
    case Asked(ticket) =>
      ticket in s.requests || exists a :: a in s.answers && a.0 == ticket && Judge(dr.worker, a.1) != Stop
    case Answered(status) => Judge(dr.worker, status) != Stop
  }

  /** The drainer may still send the entry at place j of its snapshot. */
  predicate WillSend(s: System, dr: Drainer, key: Key, j: nat) {
    && dr.Draining? && dr.index <= j < |dr.snapshot|
    && dr.snapshot[j].key == key && dr.snapshot[j].rejected == 0
    && (if j == dr.index then dr.stage.Ready? else CanGoOn(s, dr))
  }

  ghost predicate Holds(s: System, d: nat, key: Key) {
    exists j :: WillSend(s, DrainerAt(s, d), key, j)
  }

  /** Neither the network nor any drainer carries the key any more. */
  ghost predicate Gone(s: System, key: Key) {
    !InFlight(s, key) && forall d :: d in s.drainers ==> !Holds(s, d, key)
  }

  /** Not entered, and nothing left that could enter it. */
  ghost predicate Final(s: System, e: Entry) {
    && Inv(s) && e in s.queued && e.key !in s.log
    && (!Acceptable(s.book, e) || OutOfPlay(s, e.key))
  }

  ghost predicate OutOfPlay(s: System, key: Key) {
    !Waiting(s, key) && Gone(s, key)
  }

  // -------------------------------------------------- what is final stays so

  /** A drainer that moved no closer to the key, in a network that brings it nothing new. */
  lemma HoldsLess(s: System, t: System, d: nat, key: Key)
    requires DrainerAt(t, d) == DrainerAt(s, d) && t.answers <= s.answers && t.requests <= s.requests
    requires !Holds(s, d, key)
    ensures !Holds(t, d, key)
  {
    var dr := DrainerAt(t, d);
    forall j | 0 <= j ensures !WillSend(t, dr, key, j) {
      assert CanGoOn(t, dr) ==> CanGoOn(s, dr);
      assert !WillSend(s, dr, key, j);
    }
  }

  /** Another ticket's request or answer does not help a drainer on. */
  lemma OthersTicket(s: System, t: System, d: nat, key: Key, ticket: nat)
    requires DrainerAt(t, d) == DrainerAt(s, d) && !Holds(s, d, key)
    requires DrainerAt(s, d).Draining? && DrainerAt(s, d).stage.Asked? ==> DrainerAt(s, d).stage.ticket != ticket
    requires forall u :: u in t.requests ==> u in s.requests || u == ticket
    requires forall a :: a in t.answers ==> a in s.answers || a.0 == ticket
    ensures !Holds(t, d, key)
  {
    var dr := DrainerAt(t, d);
    forall j | 0 <= j ensures !WillSend(t, dr, key, j) {
      assert CanGoOn(t, dr) ==> CanGoOn(s, dr);
      assert !WillSend(s, dr, key, j);
    }
  }

  lemma Moved(s: System, t: System, key: Key, d: nat)
    requires Gone(s, key) && t.sent == s.sent && t.requests <= s.requests && t.answers <= s.answers
    requires forall x :: x in t.drainers ==> x == d || (x in s.drainers && t.drainers[x] == s.drainers[x])
    requires !Holds(t, d, key)
    ensures Gone(t, key)
  {
    forall x | x in t.drainers ensures !Holds(t, x, key) {
      if x != d { HoldsLess(s, t, x, key); }
    }
  }

  lemma Unmoved(s: System, t: System, key: Key)
    requires Gone(s, key) && t.sent == s.sent && t.requests <= s.requests && t.answers <= s.answers
    requires t.drainers == s.drainers
    ensures Gone(t, key)
  {
    forall x | x in t.drainers ensures !Holds(t, x, key) {
      HoldsLess(s, t, x, key);
    }
  }

  lemma BeginGone(s: System, e: Entry, d: nat, worker: Worker, snapshot: seq<Entry>)
    requires !Waiting(s, e.key) && Gone(s, e.key) && Enabled(s, Begin(d, worker, snapshot))
    ensures Gone(Do(s, Begin(d, worker, snapshot)), e.key)
  {
    var t := Do(s, Begin(d, worker, snapshot));
    forall j | 0 <= j ensures !WillSend(t, DrainerAt(t, d), e.key, j) {
      if j < |snapshot| && snapshot[j].key == e.key { assert s.store[e.key] == snapshot[j]; }
    }
    Moved(s, t, e.key, d);
  }

  /** A drainer goes past its entry: what it may still send, it could send before. */
  lemma PastGone(s: System, t: System, key: Key, d: nat)
    requires Gone(s, key) && Working(DrainerAt(s, d)) && CanGoOn(s, DrainerAt(s, d))
    requires t.drainers == s.drainers[d := DrainerAt(s, d).(index := DrainerAt(s, d).index + 1, stage := Ready)]
    requires t.sent == s.sent && t.requests == s.requests && t.answers == s.answers
    ensures Gone(t, key)
  {
    assert !Holds(s, d, key);
    forall j | 0 <= j ensures !WillSend(t, DrainerAt(t, d), key, j) {
      assert !WillSend(s, DrainerAt(s, d), key, j);
    }
    Moved(s, t, key, d);
  }

  lemma SendGone(s: System, key: Key, d: nat, ticket: nat)
    requires Inv(s) && Gone(s, key) && Enabled(s, Send(d, ticket))
    ensures Gone(Do(s, Send(d, ticket)), key)
  {
    var dr := DrainerAt(s, d);
    var t := Do(s, Send(d, ticket));
    assert !Holds(s, d, key) && !WillSend(s, dr, key, dr.index);
    forall u | u in t.requests && u in t.sent ensures t.sent[u].key != key {
      if u != ticket { assert u in s.requests && s.sent[u] == t.sent[u]; }
    }
    forall x | x in t.drainers ensures !Holds(t, x, key) {
      if x != d {
        assert DrainerOk(s, s.drainers[x]);
        OthersTicket(s, t, x, key, ticket);
      } else {
        forall j | 0 <= j ensures !WillSend(t, DrainerAt(t, d), key, j) {
          assert !WillSend(s, dr, key, j);
        }
      }
    }
  }

  lemma ServeGone(s: System, key: Key, step: Step)
    requires Gone(s, key) && step.Serve? && Enabled(s, step)
    ensures Gone(Do(s, step), key)
  {
    var t := Do(s, step);
    assert t.drainers == s.drainers && t.requests == s.requests && t.sent == s.sent;
    forall x | x in t.drainers ensures !Holds(t, x, key) {
      var dr := DrainerAt(s, x);
      assert dr == DrainerAt(t, x) && !Holds(s, x, key);
      if dr.Draining? && dr.stage.Asked? && dr.stage.ticket == step.ticket {
        assert step.ticket in s.requests && CanGoOn(s, dr);
        forall j | 0 <= j ensures !WillSend(t, dr, key, j) {
          assert !WillSend(s, DrainerAt(s, x), key, j);
        }
      } else {
        OthersTicket(s, t, x, key, step.ticket);
      }
    }
  }

  lemma ReceiveGone(s: System, key: Key, d: nat, status: int)
    requires Gone(s, key) && Enabled(s, Receive(d, status))
    ensures Gone(Do(s, Receive(d, status)), key)
  {
    var dr := DrainerAt(s, d);
    var t := Do(s, Receive(d, status));
    assert !Holds(s, d, key);
    forall j | 0 <= j ensures !WillSend(t, DrainerAt(t, d), key, j) {
      if Judge(dr.worker, status) != Stop {
        assert (dr.stage.ticket, status) in s.answers && CanGoOn(s, dr);
      }
      assert !WillSend(s, dr, key, j);
    }
    Moved(s, t, key, d);
  }

  lemma SkipGone(s: System, key: Key, d: nat)
    requires Gone(s, key) && Enabled(s, Skip(d))
    ensures Gone(Do(s, Skip(d)), key)
  {
    var dr := DrainerAt(s, d);
    assert dr.(index := dr.index + 1) == dr.(index := dr.index + 1, stage := Ready);
    PastGone(s, Do(s, Skip(d)), key, d);
  }

  lemma StepGone(s: System, e: Entry, step: Step)
    requires Inv(s) && OutOfPlay(s, e.key) && Enabled(s, step)
    ensures Gone(Do(s, step), e.key)
  {
    match step
    case Begin(d, worker, snapshot) => BeginGone(s, e, d, worker, snapshot);
    case Skip(d) => SkipGone(s, e.key, d);
    case Send(d, ticket) => SendGone(s, e.key, d, ticket);
    case Serve(_, _, _, _) => ServeGone(s, e.key, step);
    case Receive(d, status) => ReceiveGone(s, e.key, d, status);
    case Settle(d) => SettleGone(s, e.key, d);
    case End(d) => Moved(s, Do(s, step), e.key, d);
    case _ => OthersGone(s, e.key, step);
  }

  lemma SettleGone(s: System, key: Key, d: nat)
    requires Gone(s, key) && Enabled(s, Settle(d))
    ensures Gone(Do(s, Settle(d)), key)
  {
    PastGone(s, Do(s, Settle(d)), key, d);
  }

  /** Steps that move no drainer and bring the network nothing new. */
  lemma OthersGone(s: System, key: Key, step: Step)
    requires Gone(s, key) && Enabled(s, step)
    requires step.Enqueue? || step.LoseRequest? || step.LoseAnswer? || step.Discard? || step.Office?
    ensures Gone(Do(s, step), key)
  {
    Unmoved(s, Do(s, step), key);
  }

  /** Only queueing it puts an entry in the store to be sent. */
  lemma StaysUnsent(s: System, key: Key, step: Step)
    requires Inv(s) && KnownKey(s, key) && !Waiting(s, key) && Enabled(s, step)
    ensures !Waiting(Do(s, step), key)
  {
    if step.Settle? {
      assert DrainerOk(s, DrainerAt(s, step.drainer));
    }
  }

  lemma UnacceptableStays(b: Book, op: Op, e: Entry)
    requires !Acceptable(b, e)
    ensures !Acceptable(Apply(b, op), e)
  {
    if e.account < b.nextAccount { NumbersGrow(b, op, e.account); }
  }

  /** The book after any step is the book after one operation, or the same book. */
  lemma BookMoves(s: System, step: Step, e: Entry)
    requires Enabled(s, step) && !Acceptable(s.book, e)
    ensures !Acceptable(Do(s, step).book, e)
  {
    if step.Serve? {
      var r := s.sent[step.ticket];
      var op := Recording(r.account, step.actor, step.now, r.input);
      assert Apply(s.book, op) == RecordIn(s.book, r.account, step.actor, step.now, r.input).0;
      UnacceptableStays(s.book, op, e);
    } else if step.Office? {
      UnacceptableStays(s.book, step.op, e);
    }
  }

  /** Serving some request never enters a write that is final. */
  lemma NotEntered(s: System, e: Entry, step: Step)
    requires Final(s, e) && Enabled(s, step)
    ensures e.key !in Do(s, step).log
  {
    if step.Serve? {
      if s.sent[step.ticket].key == e.key {
        SentAsQueued(s, e, step.ticket);
        assert InFlight(s, e.key);
      }
    }
  }

  /** A request carries the account and the body its entry was queued with. */
  lemma SentAsQueued(s: System, e: Entry, ticket: nat)
    requires QueueOk(s) && NetworkOk(s) && e in s.queued && ticket in s.sent && s.sent[ticket].key == e.key
    ensures s.sent[ticket].account == e.account && s.sent[ticket].input == e.input
  {
    var r := s.sent[ticket];
    assert Origin(s, r);
    var i :| 0 <= i < |s.queued| && s.queued[i] == e;
    OriginIsUnique(s, r, i);
  }

  lemma StepKeepsFinal(s: System, e: Entry, step: Step)
    requires Final(s, e)
    ensures Final(Take(s, step), e)
  {
    if Enabled(s, step) {
      StepKeeps(s, step);
      NotEntered(s, e, step);
      StaysQueued(s, e, step);
      if !Acceptable(s.book, e) {
        BookMoves(s, step, e);
      } else {
        StaysUnsent(s, e.key, step);
        StepGone(s, e, step);
      }
    }
  }

  lemma StaysQueued(s: System, e: Entry, step: Step)
    requires e in s.queued && Enabled(s, step)
    ensures e in Do(s, step).queued && KnownKey(s, e.key)
  {
    var i :| 0 <= i < |s.queued| && s.queued[i] == e;
    assert Do(s, step).queued[i] == e;
  }

  lemma {:induction false} FinalIsFinal(s: System, e: Entry, more: seq<Step>)
    requires Final(s, e)
    ensures Final(RunOf(s, more), e)
  {
    if more != [] {
      FinalIsFinal(s, e, more[..|more| - 1]);
      StepKeepsFinal(RunOf(s, more[..|more| - 1]), e, more[|more| - 1]);
    }
  }

  // ------------------------------------------- what is not final may enter

  /** Nothing that decides whether a key may enter has changed, but for the drainers and the network. */
  predicate SameBook(s: System, t: System) {
    t.book == s.book && t.log == s.log && (forall k :: k in s.sent ==> k in t.sent && t.sent[k] == s.sent[k])
  }

  function Past(dr: Drainer): Drainer
    requires dr.Draining?
  {
    dr.(index := dr.index + 1, stage := Ready)
  }

  lemma FinishAnswered(s: System, d: nat) returns (more: seq<Step>)
    requires Working(DrainerAt(s, d)) && DrainerAt(s, d).stage.Answered? && CanGoOn(s, DrainerAt(s, d))
    ensures var t := RunOf(s, more); SameBook(s, t) && DrainerAt(t, d) == Past(DrainerAt(s, d))
  {
    more := [Settle(d)];
    RunMore(s, [], Settle(d));
    assert [] + more == more && RunOf(s, []) == s;
  }

  lemma FinishReceived(s: System, d: nat, status: int) returns (more: seq<Step>)
    requires Working(DrainerAt(s, d)) && DrainerAt(s, d).stage.Asked?
    requires (DrainerAt(s, d).stage.ticket, status) in s.answers && Judge(DrainerAt(s, d).worker, status) != Stop
    ensures var t := RunOf(s, more); SameBook(s, t) && DrainerAt(t, d) == Past(DrainerAt(s, d))
  {
    var t := Take(s, Receive(d, status));
    assert DrainerAt(t, d) == DrainerAt(s, d).(stage := Answered(status));
    assert Past(DrainerAt(t, d)) == Past(DrainerAt(s, d));
    more := FinishAnswered(t, d);
    more := Prepend(s, Receive(d, status), more);
  }

  /** A request still on its way can be turned away, and its drainer goes on. */
  lemma FinishAsked(s: System, d: nat) returns (more: seq<Step>)
    requires Working(DrainerAt(s, d)) && DrainerAt(s, d).stage.Asked?
    requires DrainerAt(s, d).stage.ticket in s.requests && DrainerAt(s, d).stage.ticket in s.sent
    ensures var t := RunOf(s, more); SameBook(s, t) && DrainerAt(t, d) == Past(DrainerAt(s, d))
  {
    var ticket := DrainerAt(s, d).stage.ticket;
    var serve := Serve(ticket, TurnedAway(422), 0, 0);
    var t := Take(s, serve);
    assert t == s.(answers := s.answers + {(ticket, 422)});
    more := FinishReceived(t, d, 422);
    more := Prepend(s, serve, more);
  }

  lemma FinishReady(s: System, d: nat) returns (more: seq<Step>)
    requires Working(DrainerAt(s, d)) && DrainerAt(s, d).stage.Ready?
    ensures var t := RunOf(s, more); SameBook(s, t) && DrainerAt(t, d) == Past(DrainerAt(s, d))
  {
    var dr := DrainerAt(s, d);
    if dr.snapshot[dr.index].rejected != 0 {
      more := Prepend(s, Skip(d), []);
      assert Past(dr) == dr.(index := dr.index + 1);
    } else {
      var ticket := Above(s.sent.Keys);
      var t := Take(s, Send(d, ticket));
      assert DrainerAt(t, d) == dr.(stage := Asked(ticket));
      assert Past(DrainerAt(t, d)) == Past(dr);
      more := FinishAsked(t, d);
      more := Prepend(s, Send(d, ticket), more);
    }
  }

  /** A drainer that can go on may come to any later place of its snapshot with the book as it was. */
  lemma {:induction false} Reach(s: System, d: nat, j: nat) returns (more: seq<Step>)
    requires Inv(s) && DrainerAt(s, d).Draining? && CanGoOn(s, DrainerAt(s, d))
    requires DrainerAt(s, d).index <= j < |DrainerAt(s, d).snapshot|
    requires j == DrainerAt(s, d).index ==> DrainerAt(s, d).stage.Ready?
    ensures var t := RunOf(s, more);
            SameBook(s, t) && DrainerAt(t, d) == DrainerAt(s, d).(index := j, stage := Ready)
    decreases j - DrainerAt(s, d).index
  {
    var dr := DrainerAt(s, d);
    if j == dr.index {
      more := [];
    } else {
      var first := Finish(s, d);
      var t := RunOf(s, first);
      KeepsInv(s, first);
      assert DrainerAt(t, d) == Past(dr);
      var rest := Reach(t, d, j);
      RunOn(s, first, rest);
      more := first + rest;
      assert Past(dr).(index := j, stage := Ready) == dr.(index := j, stage := Ready);
    }
  }

  lemma Finish(s: System, d: nat) returns (more: seq<Step>)
    requires Inv(s) && Working(DrainerAt(s, d)) && CanGoOn(s, DrainerAt(s, d))
    ensures var t := RunOf(s, more); SameBook(s, t) && DrainerAt(t, d) == Past(DrainerAt(s, d))
  {
    var dr := DrainerAt(s, d);
    match dr.stage
    case Ready => more := FinishReady(s, d);
    case Answered(_) => more := FinishAnswered(s, d);
    case Asked(ticket) =>
      assert DrainerOk(s, dr);
      if ticket in s.requests {
        more := FinishAsked(s, d);
      } else {
        var a :| a in s.answers && a.0 == ticket && Judge(dr.worker, a.1) != Stop;
        assert a == (ticket, a.1);
        more := FinishReceived(s, d, a.1);
      }
  }

  lemma {:induction false} KeepsInv(s: System, more: seq<Step>)
    requires Inv(s)
    ensures Inv(RunOf(s, more))
  {
    if more != [] {
      KeepsInv(s, more[..|more| - 1]);
      StepKeeps(RunOf(s, more[..|more| - 1]), more[|more| - 1]);
    }
  }

  /** A request in flight for an acceptable write may be handled, and enters it. */
  lemma FlightEnters(s: System, e: Entry, ticket: nat) returns (more: seq<Step>)
    requires Inv(s) && Enterable(s, e)
    requires ticket in s.requests && ticket in s.sent && s.sent[ticket].key == e.key
    ensures e.key in RunOf(s, more).log
  {
    var serve := Serve(ticket, Handled, 0, 0);
    more := Prepend(s, serve, []);
    SentAsQueued(s, e, ticket);
    IsEntered(s, e);
    ServingLogs(s, ticket);
  }

  lemma ServingLogs(s: System, ticket: nat)
    requires ticket in s.requests && ticket in s.sent
    requires RecordIn(s.book, s.sent[ticket].account, 0, 0, s.sent[ticket].input).1.Entered?
    ensures s.sent[ticket].key in Take(s, Serve(ticket, Handled, 0, 0)).log
  {
    var t := Take(s, Serve(ticket, Handled, 0, 0));
    assert t == ServeOn(s, ticket, Handled, 0, 0);
    assert t.log == s.log + [s.sent[ticket].key];
  }

  lemma IsEntered(s: System, e: Entry)
    requires BookOk(s) && QueueOk(s) && e in s.queued && e.key !in s.log
    requires e.account in s.book.accounts && EntryFaults(e.input) == []
    ensures RecordIn(s.book, e.account, 0, 0, e.input).1.Entered?
  {
    assert e.input.key == Some(e.key) && e.key !in s.elsewhere;
    FindByKeyFinds(s.book.rows, e.key);
    assert FindByKey(s.book.rows, e.key).None?;
  }

  /** The server would enter it as it stands. */
  predicate Enterable(s: System, e: Entry) {
    e in s.queued && e.key !in s.log && e.account in s.book.accounts && EntryFaults(e.input) == []
  }

  lemma HeldEnters(s: System, e: Entry, d: nat) returns (more: seq<Step>)
    requires Inv(s) && Enterable(s, e) && Holds(s, d, e.key)
    ensures e.key in RunOf(s, more).log
  {
    var j :| WillSend(s, DrainerAt(s, d), e.key, j);
    var first := Reach(s, d, j);
    var t := RunOf(s, first);
    KeepsInv(s, first);
    QueueGrows(s, first);
    var rest := SendsAndEnters(t, e, d);
    RunOn(s, first, rest);
    more := first + rest;
  }

  lemma SendsAndEnters(s: System, e: Entry, d: nat) returns (more: seq<Step>)
    requires Inv(s) && Enterable(s, e)
    requires Working(DrainerAt(s, d)) && DrainerAt(s, d).stage.Ready?
    requires DrainerAt(s, d).snapshot[DrainerAt(s, d).index].key == e.key
    requires DrainerAt(s, d).snapshot[DrainerAt(s, d).index].rejected == 0
    ensures e.key in RunOf(s, more).log
  {
    var ticket := Above(s.sent.Keys);
    var send := Send(d, ticket);
    StepKeeps(s, send);
    var t := Take(s, send);
    SendingFlies(s, e, d, ticket);
    more := FlightEnters(t, e, ticket);
    more := Prepend(s, send, more);
  }

  lemma SendingFlies(s: System, e: Entry, d: nat, ticket: nat)
    requires Enterable(s, e) && Enabled(s, Send(d, ticket))
    requires DrainerAt(s, d).snapshot[DrainerAt(s, d).index].key == e.key
    ensures var t := Take(s, Send(d, ticket));
            Enterable(t, e) && ticket in t.requests && ticket in t.sent && t.sent[ticket].key == e.key
  {
  }

  /** A new drainer's snapshot lists what is waiting. */
  lemma WaitingIsTaken(s: System, key: Key) returns (d: nat, begin: Step)
    requires Inv(s) && Waiting(s, key)
    ensures begin.Begin? && Enabled(s, begin)
    ensures var t := Do(s, begin);
            t.queued == s.queued && t.log == s.log && t.book == s.book && Holds(t, d, key)
  {
    d := Above(s.drainers.Keys);
    var snapshot := ListingExists(s.store);
    begin := Begin(d, Page, snapshot);
    var j :| 0 <= j < |snapshot| && snapshot[j] == s.store[key];
    assert WillSend(Do(s, begin), DrainerAt(Do(s, begin), d), key, j);
  }

  lemma InPlayEnters(s: System, e: Entry) returns (more: seq<Step>)
    requires Inv(s) && Enterable(s, e) && !OutOfPlay(s, e.key)
    ensures e.key in RunOf(s, more).log
  {
    if InFlight(s, e.key) {
      var ticket :| ticket in s.requests && ticket in s.sent && s.sent[ticket].key == e.key;
      more := FlightEnters(s, e, ticket);
    } else if Waiting(s, e.key) {
      var d, begin := WaitingIsTaken(s, e.key);
      StepKeeps(s, begin);
      more := HeldEnters(Do(s, begin), e, d);
      more := Prepend(s, begin, more);
    } else {
      var d :| d in s.drainers && Holds(s, d, e.key);
      more := HeldEnters(s, e, d);
    }
  }

  /** Accounts may be opened up to the one the write is for; nothing else changes by that. */
  lemma MayEnter(s: System, e: Entry) returns (more: seq<Step>)
    requires Inv(s) && e in s.queued && e.key !in s.log && Acceptable(s.book, e) && !OutOfPlay(s, e.key)
    ensures e.key in RunOf(s, more).log
  {
    if e.account in s.book.accounts {
      more := InPlayEnters(s, e);
    } else {
      var first := OpenUntil(s, e.account);
      var t := RunOf(s, first);
      KeepsInv(s, first);
      SamePlay(s, t, e.key);
      var rest := InPlayEnters(t, e);
      RunOn(s, first, rest);
      more := first + rest;
    }
  }

  lemma SamePlay(s: System, t: System, key: Key)
    requires t == s.(book := t.book)
    ensures OutOfPlay(t, key) ==> OutOfPlay(s, key)
  {
    assert t.store == s.store && t.requests == s.requests && t.sent == s.sent && t.drainers == s.drainers;
    if OutOfPlay(t, key) {
      forall d | d in s.drainers ensures !Holds(s, d, key) {
        HoldsLess(t, s, d, key);
      }
    }
  }

  /**
   * In any state the protocol reaches: a write that has not entered the book never will exactly when the
   * server would not accept it, or it is not waiting, no request carries it, and no drainer that can go
   * on has it still to send from its snapshot.
   */
  lemma NeverEntersIff(steps: seq<Step>, e: Entry)
    requires e in RunOf(START, steps).queued && e.key !in RunOf(START, steps).log
    ensures (forall more: seq<Step> :: e.key !in RunOf(START, steps + more).log)
       <==> !Acceptable(RunOf(START, steps).book, e) || OutOfPlay(RunOf(START, steps), e.key)
  {
    RunKeepsInv(steps);
    var s := RunOf(START, steps);
    if !Acceptable(s.book, e) || OutOfPlay(s, e.key) {
      forall more: seq<Step> ensures e.key !in RunOf(START, steps + more).log {
        FinalIsFinal(s, e, more);
        RunOn(START, steps, more);
      }
    } else {
      var more := MayEnter(s, e);
      RunOn(START, steps, more);
      assert e.key in RunOf(START, steps + more).log;
    }
  }

  /** The owner is told that a discarded write will never reach the book: so it is exactly when nothing carries it. */
  lemma DiscardIsFinalIff(steps: seq<Step>, e: Entry)
    requires e in RunOf(START, steps).queued && e.key !in RunOf(START, steps).log
    requires e.key in RunOf(START, steps).discarded
    ensures (forall more: seq<Step> :: e.key !in RunOf(START, steps + more).log)
       <==> !Acceptable(RunOf(START, steps).book, e) || Gone(RunOf(START, steps), e.key)
  {
    RunKeepsInv(steps);
    NeverEntersIff(steps, e);
  }

  /** The same of a write the device shows as refused, which the owner is told to enter again. */
  lemma RefusedIsFinalIff(steps: seq<Step>, e: Entry)
    requires e in RunOf(START, steps).queued && e.key !in RunOf(START, steps).log
    requires e.key in RunOf(START, steps).refused
    ensures (forall more: seq<Step> :: e.key !in RunOf(START, steps + more).log)
       <==> !Acceptable(RunOf(START, steps).book, e) || Gone(RunOf(START, steps), e.key)
  {
    RunKeepsInv(steps);
    NeverEntersIff(steps, e);
  }

  /** And it can fail: an owner discards a write while it is being sent, and it enters the book. */
  lemma DiscardMayComeTooLate(e: Entry) returns (steps: seq<Step>)
    requires Queueable(e) && EntryFaults(e.input) == []
    ensures e.key in RunOf(START, steps).discarded && e.key in RunOf(START, steps).log
  {
    var first := OpenUpTo(e.account);
    var s := RunOf(START, first);
    var sending := SentFirst(s, e);
    var rest := DiscardedInFlight(RunOf(s, sending), e);
    RunOn(s, sending, rest);
    RunOn(START, first, sending + rest);
    steps := first + (sending + rest);
  }

  lemma DiscardedInFlight(s: System, e: Entry) returns (steps: seq<Step>)
    requires s.sent == map[0 := e] && s.requests == {0} && s.queued == [e] && s.log == []
    requires e.account in s.book.accounts && s.book.rows == [] && Queueable(e) && EntryFaults(e.input) == []
    ensures e.key in RunOf(s, steps).discarded && e.key in RunOf(s, steps).log
  {
    assert s.queued[0].key == e.key;
    var t := Take(s, Discard(e.key));
    assert t == s.(store := s.store - {e.key}, discarded := s.discarded + {e.key});
    ServedFirst(t, e);
    steps := Prepend(t, Serve(0, Handled, 0, 0), []);
    steps := Prepend(s, Discard(e.key), steps);
  }
}
