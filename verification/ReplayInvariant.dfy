/** What every run of the replay protocol keeps: nothing lost, nothing twice, and the queue's order. */
module ReplayInvariant {
  import opened Book
  import opened BookRuns
  import opened Replays
  import opened Replay
  import opened Wrappers

  /** The write is in the book, or was refused by the server, or discarded by the owner. */
  predicate Settled(s: System, key: Key) {
    key in s.log || key in s.discarded || key in s.refused
  }

  predicate Origin(s: System, e: Entry) {
    e.(rejected := 0) in s.queued
  }

  /** Every write queued before this key, and listed before it, is settled. */
  predicate Cleared(s: System, key: Key) {
    forall i, j :: 0 <= i < j < |s.queued| && s.queued[j].key == key && Before(s.queued[i], s.queued[j]) ==>
      Settled(s, s.queued[i].key)
  }

  predicate QueueOk(s: System) {
    && (forall i, j :: 0 <= i < j < |s.queued| ==> s.queued[i].key != s.queued[j].key)
    && (forall i :: 0 <= i < |s.queued| ==> s.queued[i].input.key == Some(s.queued[i].key) && s.queued[i].rejected == 0)
  }

  predicate StoreOk(s: System) {
    && (forall k :: k in s.store ==> s.store[k].key == k && Origin(s, s.store[k]))
    // Nothing lost: a write the owner did not discard is on the device or in the book.
    && (forall i :: 0 <= i < |s.queued| ==>
          s.queued[i].key in s.store || s.queued[i].key in s.discarded || s.queued[i].key in s.log)
    // A discarded or refused write is not waiting again, even where a late answer put it back.
    && (forall k :: k in s.discarded + s.refused ==> KnownKey(s, k) && (k in s.store ==> s.store[k].rejected != 0))
    // A write no longer waiting is settled.
    && (forall i :: 0 <= i < |s.queued| && (s.queued[i].key in s.store ==> s.store[s.queued[i].key].rejected != 0) ==>
          Settled(s, s.queued[i].key))
  }

  predicate InSnapshot(snapshot: seq<Entry>, key: Key) {
    exists j :: 0 <= j < |snapshot| && snapshot[j].key == key
  }

  /** Whatever was queued before something in the snapshot is in it too, or settled. */
  predicate Complete(s: System, snapshot: seq<Entry>) {
    forall i, i', j :: 0 <= i < i' < |s.queued| && 0 <= j < |snapshot| && s.queued[i'].key == snapshot[j].key ==>
      InSnapshot(snapshot, s.queued[i].key) || Settled(s, s.queued[i].key)
  }

  predicate SnapshotOk(s: System, snapshot: seq<Entry>) {
    && Sorted(snapshot)
    && Complete(s, snapshot)
    && (forall j :: 0 <= j < |snapshot| ==> Origin(s, snapshot[j]))
    && (forall j :: 0 <= j < |snapshot| && snapshot[j].rejected != 0 ==> Settled(s, snapshot[j].key))
  }

  predicate DrainerOk(s: System, dr: Drainer) {
    dr.Draining? ==>
      && SnapshotOk(s, dr.snapshot)
      && dr.index <= |dr.snapshot|
      && (forall j :: 0 <= j < dr.index ==> Settled(s, dr.snapshot[j].key))
      && (dr.stage.Asked? ==> dr.index < |dr.snapshot| && dr.stage.ticket in s.sent
                              && s.sent[dr.stage.ticket].key == dr.snapshot[dr.index].key)
      && (dr.stage.Answered? ==> dr.index < |dr.snapshot|
                                 && dr.stage.status > 0
                                 && (Ok(dr.stage.status) ==> dr.snapshot[dr.index].key in s.log))
  }

  predicate DrainersOk(s: System) {
    forall d :: d in s.drainers ==> DrainerOk(s, s.drainers[d])
  }

  predicate NetworkOk(s: System) {
    && (forall t :: t in s.sent ==> Origin(s, s.sent[t]) && Cleared(s, s.sent[t].key))
    && (forall a :: a in s.answers ==> a.0 in s.sent && a.1 > 0 && (Ok(a.1) ==> s.sent[a.0].key in s.log))
  }

  /** Each write entered the book once, after everything ahead of it was settled. */
  predicate EnteredInOrder(s: System, p: nat)
    requires p < |s.log|
  {
    forall i, j :: 0 <= i < j < |s.queued| && s.queued[j].key == s.log[p] && Before(s.queued[i], s.queued[j]) ==>
      s.queued[i].key in s.log[..p] || s.queued[i].key in s.discarded || s.queued[i].key in s.refused
  }

  predicate LogOk(s: System) {
    && (forall p, q :: 0 <= p < q < |s.log| ==> s.log[p] != s.log[q])
    && (forall p :: 0 <= p < |s.log| ==> KnownKey(s, s.log[p]) && EnteredInOrder(s, p))
  }

  predicate BookOk(s: System) {
    && Sound(s.book)
    && (forall i :: 0 <= i < |s.book.rows| && s.book.rows[i].key.Some? ==>
          s.book.rows[i].key.value in s.log || s.book.rows[i].key.value in s.elsewhere)
    && (forall i :: 0 <= i < |s.queued| ==> s.queued[i].key !in s.elsewhere)
    && (forall i :: 0 <= i < |s.queued| && s.queued[i].key in s.log ==>
          Spent(s.book, s.queued[i].key, s.queued[i].account))
  }

  predicate Inv(s: System) {
    QueueOk(s) && StoreOk(s) && DrainersOk(s) && NetworkOk(s) && LogOk(s) && BookOk(s)
  }

  // ------------------------------------------------------------- frames

  /** More may be settled, and the queue stays as it is. */
  predicate Later(s: System, t: System) {
    && t.queued == s.queued && s.log <= t.log && s.discarded <= t.discarded && s.refused <= t.refused
    && (forall k :: k in s.sent ==> k in t.sent && t.sent[k] == s.sent[k])
  }

  lemma SnapshotStays(s: System, t: System, snapshot: seq<Entry>)
    requires Later(s, t) && SnapshotOk(s, snapshot)
    ensures SnapshotOk(t, snapshot)
  {
  }

  lemma DrainerStays(s: System, t: System, dr: Drainer)
    requires Later(s, t) && DrainerOk(s, dr)
    ensures DrainerOk(t, dr)
  {
    if dr.Draining? {
      SnapshotStays(s, t, dr.snapshot);
    }
  }

  /** Only one drainer moved, and it is well. */
  lemma OneDrainerMoves(s: System, t: System, d: nat)
    requires Later(s, t) && DrainersOk(s)
    requires d in t.drainers && t.drainers == s.drainers[d := t.drainers[d]] && DrainerOk(t, t.drainers[d])
    ensures DrainersOk(t)
  {
    forall e | e in t.drainers ensures DrainerOk(t, t.drainers[e]) {
      if e != d { DrainerStays(s, t, s.drainers[e]); }
    }
  }

  lemma DrainersStay(s: System, t: System)
    requires Later(s, t) && DrainersOk(s) && t.drainers == s.drainers
    ensures DrainersOk(t)
  {
    forall e | e in t.drainers ensures DrainerOk(t, t.drainers[e]) {
      DrainerStays(s, t, s.drainers[e]);
    }
  }

  lemma NetworkStays(s: System, t: System)
    requires Later(s, t) && NetworkOk(s) && t.sent == s.sent && t.answers <= s.answers
    ensures NetworkOk(t)
  {
    forall k | k in t.sent ensures Cleared(t, t.sent[k].key) {
      assert Cleared(s, s.sent[k].key);
    }
  }

  lemma LogStays(s: System, t: System)
    requires Later(s, t) && LogOk(s) && t.log == s.log
    ensures LogOk(t)
  {
    forall p | 0 <= p < |t.log| ensures EnteredInOrder(t, p) {
      assert EnteredInOrder(s, p);
    }
    forall p | 0 <= p < |t.log| ensures KnownKey(t, t.log[p]) {
      assert KnownKey(s, s.log[p]);
    }
  }

  lemma StoreStays(s: System, t: System)
    requires Later(s, t) && StoreOk(s) && t.store == s.store && t.discarded == s.discarded && t.refused == s.refused
    ensures StoreOk(t)
  {
    forall k | k in t.store ensures Origin(t, t.store[k]) {
      assert Origin(s, s.store[k]);
    }
    forall k | k in t.discarded + t.refused ensures KnownKey(t, k) {
      assert KnownKey(s, k);
    }
  }

  lemma BookStays(s: System, t: System)
    requires BookOk(s) && t.book == s.book && t.log == s.log && t.queued == s.queued && t.elsewhere == s.elsewhere
    ensures BookOk(t)
  {
  }

  // ------------------------------------------------------- the key step

  lemma OriginIsUnique(s: System, e: Entry, i: nat)
    requires QueueOk(s) && Origin(s, e) && i < |s.queued| && s.queued[i].key == e.key
    ensures s.queued[i] == e.(rejected := 0)
  {
    var j :| 0 <= j < |s.queued| && s.queued[j] == e.(rejected := 0);
  }

  /**
   * When a drainer comes to an entry, everything queued before it and listed before it is settled: it
   * was settled when the snapshot was taken, or stands earlier in the snapshot and was dealt with.
   */
  lemma ReachedIsCleared(s: System, dr: Drainer)
    requires QueueOk(s) && DrainerOk(s, dr) && Working(dr)
    ensures Cleared(s, dr.snapshot[dr.index].key)
  {
    var e := dr.snapshot[dr.index];
    forall i, j | 0 <= i < j < |s.queued| && s.queued[j].key == e.key && Before(s.queued[i], s.queued[j])
      ensures Settled(s, s.queued[i].key)
    {
      assert s.queued[j].key == dr.snapshot[dr.index].key;
      if InSnapshot(dr.snapshot, s.queued[i].key) {
        var k :| 0 <= k < |dr.snapshot| && dr.snapshot[k].key == s.queued[i].key;
        OriginIsUnique(s, dr.snapshot[k], i);
        OriginIsUnique(s, e, j);
        assert Before(dr.snapshot[k], e);
        assert k < dr.index;
      }
    }
  }

  // ---------------------------------------------------------- each step

  lemma EnqueueSnapshots(s: System, t: System, entry: Entry, snapshot: seq<Entry>)
    requires t.queued == s.queued + [entry] && t.log == s.log && t.discarded == s.discarded && t.refused == s.refused
    requires !KnownKey(s, entry.key) && SnapshotOk(s, snapshot)
    ensures SnapshotOk(t, snapshot)
  {
    forall j | 0 <= j < |snapshot| ensures snapshot[j].key != entry.key {
      assert Origin(s, snapshot[j]);
      var m :| 0 <= m < |s.queued| && s.queued[m] == snapshot[j].(rejected := 0);
      assert s.queued[m].key == snapshot[j].key;
    }
    forall i, i', j | 0 <= i < i' < |t.queued| && 0 <= j < |snapshot| && t.queued[i'].key == snapshot[j].key
      ensures InSnapshot(snapshot, t.queued[i].key) || Settled(t, t.queued[i].key)
    {
      assert i' < |s.queued| && s.queued[i'].key == snapshot[j].key;
    }
  }

  lemma EnqueueCleared(s: System, t: System, entry: Entry, key: Key)
    requires t.queued == s.queued + [entry] && t.log == s.log && t.discarded == s.discarded && t.refused == s.refused
    requires !KnownKey(s, entry.key) && KnownKey(s, key) && Cleared(s, key)
    ensures Cleared(t, key)
  {
  }

  lemma EnqueueKeeps(s: System, entry: Entry)
    requires Inv(s) && Enabled(s, Enqueue(entry))
    ensures Inv(Do(s, Enqueue(entry)))
  {
    var t := Do(s, Enqueue(entry));
    assert t.queued[|s.queued|] == entry;
    EnqueueQueue(s, t, entry);
    EnqueueStore(s, t, entry);
    forall d | d in t.drainers ensures DrainerOk(t, t.drainers[d]) {
      assert DrainerOk(s, s.drainers[d]);
      if s.drainers[d].Draining? { EnqueueSnapshots(s, t, entry, s.drainers[d].snapshot); }
    }
    forall k | k in t.sent ensures Origin(t, t.sent[k]) && Cleared(t, t.sent[k].key) {
      var i :| 0 <= i < |s.queued| && s.queued[i] == s.sent[k].(rejected := 0);
      EnqueueCleared(s, t, entry, s.sent[k].key);
    }
    EnqueueLog(s, t, entry);
  }

  lemma EnqueueQueue(s: System, t: System, entry: Entry)
    requires QueueOk(s) && Enabled(s, Enqueue(entry)) && t == Do(s, Enqueue(entry))
    ensures QueueOk(t)
  {
  }

  lemma EnqueueStore(s: System, t: System, entry: Entry)
    requires StoreOk(s) && Enabled(s, Enqueue(entry)) && t == Do(s, Enqueue(entry))
    ensures StoreOk(t)
  {
    assert t.queued[|s.queued|] == entry;
    forall k | k in t.store ensures t.store[k].key == k && Origin(t, t.store[k]) {
      if k != entry.key { assert Origin(s, s.store[k]); }
    }
    forall k | k in t.discarded + t.refused ensures KnownKey(t, k) && k != entry.key {
      assert KnownKey(s, k);
      var i :| 0 <= i < |s.queued| && s.queued[i].key == k;
      assert t.queued[i].key == k;
    }
  }

  lemma EnqueueLog(s: System, t: System, entry: Entry)
    requires Inv(s) && Enabled(s, Enqueue(entry)) && t == Do(s, Enqueue(entry))
    ensures LogOk(t) && BookOk(t)
  {
    assert forall p :: 0 <= p < |s.log| ==> s.log[p] != entry.key by {
      forall p | 0 <= p < |s.log| ensures s.log[p] != entry.key { assert KnownKey(s, s.log[p]); }
    }
    forall p | 0 <= p < |t.log| ensures KnownKey(t, t.log[p]) && EnteredInOrder(t, p) {
      assert KnownKey(s, s.log[p]) && EnteredInOrder(s, p);
      var i :| 0 <= i < |s.queued| && s.queued[i].key == s.log[p];
      assert t.queued[i].key == t.log[p];
    }
  }

  lemma BeginKeeps(s: System, d: nat, worker: Worker, snapshot: seq<Entry>)
    requires Inv(s) && Enabled(s, Begin(d, worker, snapshot))
    ensures Inv(Do(s, Begin(d, worker, snapshot)))
  {
    assert Complete(s, snapshot) by {
      forall i | 0 <= i < |s.queued| && s.queued[i].key in s.store
        ensures InSnapshot(snapshot, s.queued[i].key)
      {
        var e := s.store[s.queued[i].key];
        var j :| 0 <= j < |snapshot| && snapshot[j] == e;
        assert snapshot[j].key == s.queued[i].key;
      }
    }
    RejectedSettled(s, snapshot);
    MoveKeeps(s, Do(s, Begin(d, worker, snapshot)), d, Draining(worker, snapshot, 0, Ready));
  }

  lemma RejectedSettled(s: System, snapshot: seq<Entry>)
    requires QueueOk(s) && StoreOk(s) && Lists(snapshot, s.store)
    ensures forall j :: 0 <= j < |snapshot| ==> Origin(s, snapshot[j])
    ensures forall j :: 0 <= j < |snapshot| && snapshot[j].rejected != 0 ==> Settled(s, snapshot[j].key)
  {
    forall j | 0 <= j < |snapshot|
      ensures Origin(s, snapshot[j]) && (snapshot[j].rejected != 0 ==> Settled(s, snapshot[j].key))
    {
      assert Origin(s, s.store[snapshot[j].key]);
      var i :| 0 <= i < |s.queued| && s.queued[i] == snapshot[j].(rejected := 0);
      assert s.queued[i].key == snapshot[j].key;
    }
  }

  /** A drainer moves on and nothing else changes. */
  lemma MoveKeeps(s: System, t: System, d: nat, dr: Drainer)
    requires Inv(s) && DrainerOk(s, dr) && t == WithDrainer(s, d, dr)
    ensures Inv(t)
  {
    StoreStays(s, t);
    DrainerStays(s, t, dr);
    OneDrainerMoves(s, t, d);
    NetworkStays(s, t);
    LogStays(s, t);
    BookStays(s, t);
  }

  lemma SkipKeeps(s: System, d: nat)
    requires Inv(s) && Enabled(s, Skip(d))
    ensures Inv(Do(s, Skip(d)))
  {
    SkipAdvances(s, d);
    SkippingMoves(s, d);
    MoveKeeps(s, Do(s, Skip(d)), d, DrainerAt(s, d).(index := DrainerAt(s, d).index + 1, stage := Ready));
  }

  /** An entry that is skipped was refused before. */
  lemma SkipAdvances(s: System, d: nat)
    requires DrainersOk(s) && Enabled(s, Skip(d))
    ensures DrainerOk(s, DrainerAt(s, d).(index := DrainerAt(s, d).index + 1, stage := Ready))
  {
    var dr := DrainerAt(s, d);
    assert DrainerOk(s, dr);
    assert dr.snapshot[dr.index].rejected != 0 && Settled(s, dr.snapshot[dr.index].key);
    Advances(s, dr);
  }

  lemma SkippingMoves(s: System, d: nat)
    requires Enabled(s, Skip(d))
    ensures Do(s, Skip(d)) == WithDrainer(s, d, DrainerAt(s, d).(index := DrainerAt(s, d).index + 1, stage := Ready))
  {
  }

  /** Past an entry that is settled. */
  lemma Advances(s: System, dr: Drainer)
    requires DrainerOk(s, dr) && Working(dr) && Settled(s, dr.snapshot[dr.index].key)
    ensures DrainerOk(s, dr.(index := dr.index + 1, stage := Ready))
  {
    var next := dr.(index := dr.index + 1, stage := Ready);
    assert next.snapshot == dr.snapshot;
  }

  lemma ReceiveKeeps(s: System, d: nat, status: int)
    requires Inv(s) && Enabled(s, Receive(d, status))
    ensures Inv(Do(s, Receive(d, status)))
  {
    var dr := DrainerAt(s, d);
    assert DrainerOk(s, dr);
    MoveKeeps(s, Do(s, Receive(d, status)), d,
              if Judge(dr.worker, status) == Stop then Idle else dr.(stage := Answered(status)));
  }

  /** The network only loses things. */
  lemma LossKeeps(s: System, requests: set<nat>, answers: set<(nat, int)>)
    requires Inv(s) && answers <= s.answers
    ensures Inv(s.(requests := requests, answers := answers))
  {
    var t := s.(requests := requests, answers := answers);
    StoreStays(s, t);
    DrainersStay(s, t);
    NetworkStays(s, t);
    LogStays(s, t);
    BookStays(s, t);
  }

  lemma SendKeeps(s: System, d: nat, ticket: nat)
    requires Inv(s) && Enabled(s, Send(d, ticket))
    ensures Inv(Do(s, Send(d, ticket)))
  {
    var dr := DrainerAt(s, d);
    assert DrainerOk(s, dr);
    var t := Posted(s, dr.snapshot[dr.index], ticket);
    ReachedIsCleared(s, dr);
    SentKeeps(s, t, dr.snapshot[dr.index], ticket);
    AskedIsOk(s, dr, ticket);
    SendingPosts(s, d, ticket);
    MoveKeeps(t, Do(s, Send(d, ticket)), d, dr.(stage := Asked(ticket)));
  }

  lemma AskedIsOk(s: System, dr: Drainer, ticket: nat)
    requires DrainerOk(s, dr) && Working(dr) && ticket !in s.sent
    ensures DrainerOk(Posted(s, dr.snapshot[dr.index], ticket), dr.(stage := Asked(ticket)))
  {
    var t := Posted(s, dr.snapshot[dr.index], ticket);
    DrainerStays(s, t, dr);
    assert dr.(stage := Asked(ticket)).snapshot == dr.snapshot;
  }

  lemma SendingPosts(s: System, d: nat, ticket: nat)
    requires Enabled(s, Send(d, ticket))
    ensures var dr := DrainerAt(s, d);
            Do(s, Send(d, ticket)) == WithDrainer(Posted(s, dr.snapshot[dr.index], ticket), d, dr.(stage := Asked(ticket)))
  {
  }

  /** The network with one request more. */
  function Posted(s: System, e: Entry, ticket: nat): System {
    s.(sent := s.sent[ticket := e], requests := s.requests + {ticket})
  }

  lemma SentKeeps(s: System, t: System, e: Entry, ticket: nat)
    requires Inv(s) && ticket !in s.sent && Origin(s, e) && Cleared(s, e.key) && t == Posted(s, e, ticket)
    ensures Inv(t)
  {
    StoreStays(s, t);
    DrainersStay(s, t);
    SentNetwork(s, t, e, ticket);
    LogStays(s, t);
    BookStays(s, t);
  }

  lemma SentNetwork(s: System, t: System, e: Entry, ticket: nat)
    requires NetworkOk(s) && ticket !in s.sent && Origin(s, e) && Cleared(s, e.key)
    requires t == Posted(s, e, ticket)
    ensures NetworkOk(t)
  {
    forall k | k in t.sent ensures Origin(t, t.sent[k]) && Cleared(t, t.sent[k].key) {
      assert k != ticket ==> Origin(s, s.sent[k]) && Cleared(s, s.sent[k].key);
    }
  }

  lemma SettleKeeps(s: System, d: nat)
    requires Inv(s) && Enabled(s, Settle(d))
    ensures Inv(Do(s, Settle(d)))
  {
    var t := Do(s, Settle(d));
    SettleStore(s, t, d);
    SettleDrainers(s, t, d);
    NetworkStays(s, t);
    LogStays(s, t);
    BookStays(s, t);
  }

  lemma SettleDrainers(s: System, t: System, d: nat)
    requires QueueOk(s) && DrainersOk(s) && Enabled(s, Settle(d)) && t == Do(s, Settle(d))
    ensures DrainersOk(t) && Later(s, t)
  {
    var dr := DrainerAt(s, d);
    assert DrainerOk(s, dr);
    DrainerStays(s, t, dr);
    assert Settled(t, dr.snapshot[dr.index].key);
    Advances(t, dr);
    assert t.drainers[d] == dr.(index := dr.index + 1, stage := Ready);
    OneDrainerMoves(s, t, d);
  }

  lemma SettleStore(s: System, t: System, d: nat)
    requires QueueOk(s) && StoreOk(s) && DrainersOk(s) && Enabled(s, Settle(d)) && t == Do(s, Settle(d))
    ensures StoreOk(t)
  {
    var dr := DrainerAt(s, d);
    var e := dr.snapshot[dr.index];
    assert DrainerOk(s, dr) && Origin(s, e);
    EntrySettles(s, t, e);
  }

  /** Taking an entered entry out of the store, or putting it back as refused, leaves the store well. */
  lemma EntrySettles(s: System, t: System, e: Entry)
    requires QueueOk(s) && StoreOk(s) && Origin(s, e)
    requires t.queued == s.queued && t.discarded == s.discarded && t.log == s.log && s.refused <= t.refused <= s.refused + {e.key}
    requires forall k :: k != e.key ==> (k in t.store <==> k in s.store) && (k in t.store ==> t.store[k] == s.store[k])
    requires e.key in t.store ==>
      t.store[e.key].key == e.key && t.store[e.key].(rejected := 0) == e.(rejected := 0) && t.store[e.key].rejected != 0
    requires e.key in t.log || (e.key in t.store && e.key in t.refused)
    ensures StoreOk(t)
  {
    forall k | k in t.store ensures t.store[k].key == k && Origin(t, t.store[k]) {
      if k != e.key { assert Origin(s, s.store[k]); }
    }
    forall k | k in t.discarded + t.refused ensures KnownKey(t, k) {
      if k == e.key {
        var i := OriginAt(s, e);
        assert s.queued[i].key == e.key;
      } else {
        assert KnownKey(s, k);
      }
    }
  }

  lemma DiscardKeeps(s: System, key: Key)
    requires Inv(s) && Enabled(s, Discard(key))
    ensures Inv(Do(s, Discard(key)))
  {
    var t := Do(s, Discard(key));
    DrainersStay(s, t);
    NetworkStays(s, t);
    LogStays(s, t);
    BookStays(s, t);
    DiscardStore(s, t, key);
  }

  lemma DiscardStore(s: System, t: System, key: Key)
    requires StoreOk(s) && KnownKey(s, key)
    requires t == s.(store := s.store - {key}, discarded := s.discarded + {key})
    ensures StoreOk(t)
  {
    forall k | k in t.store ensures t.store[k].key == k && Origin(t, t.store[k]) {
      assert Origin(s, s.store[k]);
    }
    forall k | k in t.discarded + t.refused ensures KnownKey(t, k) {
      assert KnownKey(s, k);
    }
  }

  // ------------------------------------------------------------- serving

  /** The key is in the book on its own account, or the account is gone; so a handled replay enters nothing. */
  lemma SpentIsNotEntered(s: System, e: Entry, i: nat, actor: nat, now: int)
    requires BookOk(s) && i < |s.queued| && s.queued[i] == e.(rejected := 0) && e.key in s.log
    requires e.input.key == Some(e.key)
    ensures !RecordIn(s.book, e.account, actor, now, e.input).1.Entered?
  {
    assert Spent(s.book, s.queued[i].key, s.queued[i].account);
    if e.account in s.book.accounts {
      FindByKeyFinds(s.book.rows, e.key);
    }
  }

  /** An OK answer means the key is in the log. */
  lemma OkMeansLogged(s: System, e: Entry, actor: nat, now: int)
    requires BookOk(s) && KnownKey(s, e.key) && e.input.key == Some(e.key)
    ensures var answer := RecordIn(s.book, e.account, actor, now, e.input).1;
            Ok(StatusOf(answer)) ==> answer.Entered? || e.key in s.log
  {
    FindByKeyFinds(s.book.rows, e.key);
  }

  lemma EnterLogs(s: System, t: System, e: Entry)
    requires LogOk(s) && QueueOk(s) && Cleared(s, e.key) && KnownKey(s, e.key) && e.key !in s.log
    requires t.queued == s.queued && t.discarded == s.discarded && t.refused == s.refused
    requires t.log == s.log + [e.key]
    ensures LogOk(t)
  {
    forall p | 0 <= p < |t.log| ensures KnownKey(t, t.log[p]) && EnteredInOrder(t, p) {
      if p < |s.log| {
        assert KnownKey(s, s.log[p]) && EnteredInOrder(s, p);
        assert t.log[..p] == s.log[..p];
      } else {
        assert t.log[..p] == s.log;
      }
    }
  }

  lemma EnterBooks(s: System, t: System, e: Entry, i: nat, actor: nat, now: int)
    requires BookOk(s) && QueueOk(s) && i < |s.queued| && s.queued[i] == e.(rejected := 0)
    requires RecordIn(s.book, e.account, actor, now, e.input).1.Entered?
    requires t.queued == s.queued && t.log == s.log + [e.key] && t.elsewhere == s.elsewhere
    requires t.book == RecordIn(s.book, e.account, actor, now, e.input).0
    ensures BookOk(t)
  {
    var op := Recording(e.account, actor, now, e.input);
    assert t.book == Apply(s.book, op);
    ApplyKeeps(s.book, op);
    assert s.queued[i].key == e.key && e.input.key == Some(e.key);
    EnteredLast(s.book, e, actor, now);
    EnteredIsSpent(s, t, e, i, op);
  }

  /** An entry is the last row, under its key. */
  lemma EnteredLast(b: Book, e: Entry, actor: nat, now: int)
    requires Sound(b) && e.input.key == Some(e.key) && RecordIn(b, e.account, actor, now, e.input).1.Entered?
    ensures var c := RecordIn(b, e.account, actor, now, e.input).0;
            |c.rows| == |b.rows| + 1 && c.rows[..|b.rows|] == b.rows && c.rows[|b.rows|].key == Some(e.key)
            && Spent(c, e.key, e.account)
  {
    var c := RecordIn(b, e.account, actor, now, e.input).0;
    assert c.rows[|b.rows|].key == Some(e.key) && c.rows[|b.rows|].account == e.account;
    assert c.rows[..|b.rows|] == b.rows;
  }

  lemma EnteredIsSpent(s: System, t: System, e: Entry, i: nat, op: Op)
    requires BookOk(s) && QueueOk(s) && i < |s.queued| && s.queued[i] == e.(rejected := 0)
    requires t.queued == s.queued && t.log == s.log + [e.key] && t.book == Apply(s.book, op)
    requires Spent(t.book, e.key, e.account)
    ensures forall j :: 0 <= j < |t.queued| && t.queued[j].key in t.log ==> Spent(t.book, t.queued[j].key, t.queued[j].account)
  {
    forall j | 0 <= j < |t.queued| && t.queued[j].key in t.log
      ensures Spent(t.book, t.queued[j].key, t.queued[j].account)
    {
      if j != i {
        SpentStays(s.book, op, t.queued[j].key, t.queued[j].account);
      }
    }
  }

  lemma ServeKeeps(s: System, ticket: nat, fate: Fate, actor: nat, now: int)
    requires Inv(s) && Enabled(s, Serve(ticket, fate, actor, now))
    ensures Inv(Do(s, Serve(ticket, fate, actor, now)))
  {
    if fate.TurnedAway? {
      AnswerKeeps(s, Do(s, Serve(ticket, fate, actor, now)), ticket, fate.status);
    } else {
      ServedKeeps(s, ticket, fate, actor, now);
    }
  }

  lemma ServedKeeps(s: System, ticket: nat, fate: Fate, actor: nat, now: int)
    requires Inv(s) && ticket in s.sent && !fate.TurnedAway? && (!fate.Handled? ==> Failure(fate.status))
    ensures Inv(ServeOn(s, ticket, fate, actor, now))
  {
    var status := ServingAnswers(s, ticket, fate, actor, now);
    RecordingKeeps(s, ticket, actor, now);
    AnswerKeeps(AfterRecording(s, s.sent[ticket], actor, now), ServeOn(s, ticket, fate, actor, now), ticket, status);
  }

  lemma ServingAnswers(s: System, ticket: nat, fate: Fate, actor: nat, now: int) returns (status: int)
    requires ticket in s.sent && !fate.TurnedAway? && (!fate.Handled? ==> Failure(fate.status))
    ensures var e := s.sent[ticket];
            var t := AfterRecording(s, e, actor, now);
            && ServeOn(s, ticket, fate, actor, now) == t.(answers := t.answers + {(ticket, status)})
            && status > 0 && (Ok(status) ==> Ok(StatusOf(RecordIn(s.book, e.account, actor, now, e.input).1)))
  {
    var e := s.sent[ticket];
    status := if fate.Handled? then StatusOf(RecordIn(s.book, e.account, actor, now, e.input).1) else fate.status;
  }

  function AfterRecording(s: System, e: Entry, actor: nat, now: int): System {
    var (book, answer) := RecordIn(s.book, e.account, actor, now, e.input);
    s.(book := book, log := if answer.Entered? then s.log + [e.key] else s.log)
  }

  lemma NothingRecorded(s: System, e: Entry, actor: nat, now: int)
    requires !RecordIn(s.book, e.account, actor, now, e.input).1.Entered?
    ensures AfterRecording(s, e, actor, now) == s
  {
  }

  lemma OriginAt(s: System, e: Entry) returns (i: nat)
    requires QueueOk(s) && Origin(s, e)
    ensures i < |s.queued| && s.queued[i] == e.(rejected := 0) && e.input.key == Some(e.key)
  {
    i :| 0 <= i < |s.queued| && s.queued[i] == e.(rejected := 0);
    assert s.queued[i].key == e.key;
  }

  /** The server's transaction, before anything is answered. */
  lemma RecordingKeeps(s: System, ticket: nat, actor: nat, now: int)
    requires Inv(s) && ticket in s.sent
    ensures var e := s.sent[ticket];
            && Inv(AfterRecording(s, e, actor, now))
            && (Ok(StatusOf(RecordIn(s.book, e.account, actor, now, e.input).1)) ==>
                e.key in AfterRecording(s, e, actor, now).log)
  {
    var e := s.sent[ticket];
    assert Origin(s, e) && Cleared(s, e.key);
    var i := OriginAt(s, e);
    assert s.queued[i].key == e.key;
    OkMeansLogged(s, e, actor, now);
    if RecordIn(s.book, e.account, actor, now, e.input).1.Entered? {
      EnterKeepsInv(s, e, i, actor, now);
    } else {
      NothingRecorded(s, e, actor, now);
    }
  }

  lemma EnterKeepsInv(s: System, e: Entry, i: nat, actor: nat, now: int)
    requires Inv(s) && i < |s.queued| && s.queued[i] == e.(rejected := 0) && Cleared(s, e.key)
    requires RecordIn(s.book, e.account, actor, now, e.input).1.Entered?
    ensures Inv(AfterRecording(s, e, actor, now))
  {
    var t := AfterRecording(s, e, actor, now);
    assert t == s.(book := RecordIn(s.book, e.account, actor, now, e.input).0, log := s.log + [e.key]);
    assert s.queued[i].key == e.key && KnownKey(s, e.key);
    if e.key in s.log { SpentIsNotEntered(s, e, i, actor, now); }
    EnterBooks(s, t, e, i, actor, now);
    EnterLogs(s, t, e);
    DrainersStay(s, t);
    NetworkStays(s, t);
    StoreStays(s, t);
  }

  lemma AnswerKeeps(s: System, t: System, ticket: nat, status: int)
    requires Inv(s) && ticket in s.sent && status > 0 && (Ok(status) ==> s.sent[ticket].key in s.log)
    requires t == s.(answers := s.answers + {(ticket, status)})
    ensures Inv(t)
  {
    StoreStays(s, t);
    DrainersStay(s, t);
    LogStays(s, t);
    BookStays(s, t);
    AnswerNetwork(s, t, ticket, status);
  }

  lemma AnswerNetwork(s: System, t: System, ticket: nat, status: int)
    requires NetworkOk(s) && ticket in s.sent && status > 0 && (Ok(status) ==> s.sent[ticket].key in s.log)
    requires t == s.(answers := s.answers + {(ticket, status)})
    ensures NetworkOk(t)
  {
    forall k | k in t.sent ensures Cleared(t, t.sent[k].key) {
      assert Cleared(s, s.sent[k].key);
    }
  }

  lemma OfficeKeeps(s: System, op: Op)
    requires Inv(s) && Enabled(s, Office(op))
    ensures Inv(Do(s, Office(op)))
  {
    var t := Do(s, Office(op));
    StoreStays(s, t);
    DrainersStay(s, t);
    NetworkStays(s, t);
    LogStays(s, t);
    OfficeBooks(s, op);
  }

  lemma OfficeBooks(s: System, op: Op)
    requires BookOk(s) && Enabled(s, Office(op))
    ensures BookOk(Do(s, Office(op)))
  {
    var t := Do(s, Office(op));
    ApplyKeeps(s.book, op);
    NoNewKeys(s.book, op);
    forall i | 0 <= i < |t.book.rows| && t.book.rows[i].key.Some?
      ensures t.book.rows[i].key.value in s.log || t.book.rows[i].key.value in t.elsewhere
    {
      assert HasKey(s.book, t.book.rows[i].key.value) || NewKey(s.book, op) == t.book.rows[i].key;
    }
    forall i | 0 <= i < |s.queued| && s.queued[i].key in s.log
      ensures Spent(t.book, s.queued[i].key, s.queued[i].account)
    {
      SpentStays(s.book, op, s.queued[i].key, s.queued[i].account);
    }
  }

  // ---------------------------------------------------------------- runs

  lemma StepKeeps(s: System, step: Step)
    requires Inv(s)
    ensures Inv(Take(s, step))
  {
    if Enabled(s, step) {
      match step
      case Enqueue(entry) => EnqueueKeeps(s, entry);
      case Begin(d, worker, snapshot) => BeginKeeps(s, d, worker, snapshot);
      case Skip(d) => SkipKeeps(s, d);
      case Send(d, ticket) => SendKeeps(s, d, ticket);
      case Serve(ticket, fate, actor, now) => ServeKeeps(s, ticket, fate, actor, now);
      case LoseRequest(ticket) => LossKeeps(s, s.requests - {ticket}, s.answers);
      case LoseAnswer(answer) => LossKeeps(s, s.requests, s.answers - {answer});
      case Receive(d, status) => ReceiveKeeps(s, d, status);
      case Settle(d) => SettleKeeps(s, d);
      case End(d) => MoveKeeps(s, Do(s, step), d, Idle);
      case Discard(key) => DiscardKeeps(s, key);
      case Office(op) => OfficeKeeps(s, op);
    }
  }

  lemma StartIsGood()
    ensures Inv(START)
  {
    assert Sound(EMPTY);
  }

  lemma {:induction false} RunKeepsInv(steps: seq<Step>)
    ensures Inv(RunOf(START, steps))
  {
    if steps == [] {
      StartIsGood();
    } else {
      RunKeepsInv(steps[..|steps| - 1]);
      StepKeeps(RunOf(START, steps[..|steps| - 1]), steps[|steps| - 1]);
    }
  }

  /** A state that some run comes to. */
  ghost predicate Reachable(s: System) {
    exists steps :: s == RunOf(START, steps)
  }

  lemma ReachableIsGood(s: System)
    requires Reachable(s)
    ensures Inv(s)
  {
    var steps :| s == RunOf(START, steps);
    RunKeepsInv(steps);
  }

  lemma ReachableOn(s: System, more: seq<Step>)
    requires Reachable(s)
    ensures Reachable(RunOf(s, more))
  {
    var steps :| s == RunOf(START, steps);
    RunOn(START, steps, more);
  }
}
