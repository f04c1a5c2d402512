/**
 * Files and the rows that point at them live in two stores. Requests replace, attach and remove files, any
 * number at once, and may fail or be killed between any two steps.
 */
module Blobs {
  import opened Wrappers

  type FileKey = nat
  type BlobId = nat

  datatype Record = Record(kind: string, id: nat)

  datatype Attachment = Attachment(record: Record, name: string, blob: BlobId)

  datatype Tables = Tables(blobs: map<BlobId, FileKey>, attachments: set<Attachment>)

  /** What a request does, in order, up to its commit; afterwards it deletes the files it let go of. */
  datatype Instr =
    | Detach(records: set<Record>, name: string)
    | Put(key: FileKey)
    | InsertBlob(key: FileKey)
    | Attach(record: Record, name: string)

  datatype Request =
    | SetPhoto(record: Record, name: string, key: FileKey)
    | AttachScreenshot(record: Record, name: string, key: FileKey)
    | Remove(records: set<Record>, name: string)

  function Program(r: Request): seq<Instr> {
    match r
    case SetPhoto(record, name, key) => [Detach({record}, name), Put(key), InsertBlob(key), Attach(record, name)]
    case AttachScreenshot(record, name, key) => [Put(key), InsertBlob(key), Attach(record, name)]
    case Remove(records, name) => [Detach(records, name)]
  }

  /** A transaction's work so far: what it takes out, what it adds, the keys it will let go of. */
  datatype Tx = Tx(removed: set<BlobId>, detached: set<Attachment>, added: map<BlobId, FileKey>, attached: set<Attachment>,
                   doomed: set<FileKey>)

  const NOTHING := Tx({}, {}, map[], {}, {})

  datatype Worker =
    | Idle
    | Working(request: Request, pc: nat, tx: Tx, blob: Option<BlobId>)
    | Cleaning(keys: set<FileKey>)

  datatype State = State(files: set<FileKey>, tables: Tables, workers: map<nat, Worker>, used: set<FileKey>, nextBlob: BlobId)

  datatype Step =
    | Start(worker: nat, request: Request)
    | Advance(worker: nat)
    | Commit(worker: nat)
    | DeleteFile(worker: nat, key: FileKey)
    | Stop(worker: nat)            // an error, a rollback, a finished clean-up, or the process killed

  const EMPTY := State({}, Tables(map[], {}), map[], {}, 0)

  function WorkerAt(s: State, w: nat): Worker {
    if w in s.workers then s.workers[w] else Idle
  }

  function KeyOf(r: Request): set<FileKey> {
    match r
    case SetPhoto(_, _, key) => {key}
    case AttachScreenshot(_, _, key) => {key}
    case Remove(_, _) => {}
  }

  predicate Unfinished(w: Worker) {
    w.Working? && w.pc < |Program(w.request)|
  }

  predicate Enabled(s: State, step: Step) {
    match step
    // Keys are random and long: never one used before.
    case Start(w, r) => WorkerAt(s, w).Idle? && KeyOf(r) !! s.used
    case Advance(w) =>
      var worker := WorkerAt(s, w);
      Unfinished(worker) && (Program(worker.request)[worker.pc].Attach? ==> worker.blob.Some?)
    case Commit(w) => WorkerAt(s, w).Working? && !Unfinished(WorkerAt(s, w))
    case DeleteFile(w, key) => WorkerAt(s, w).Cleaning? && key in WorkerAt(s, w).keys
    case Stop(_) => true
  }

  function With(s: State, w: nat, worker: Worker): State {
    s.(workers := s.workers[w := worker])
  }

  /** The records' attachments, and the blobs of those under the name. */
  function AttachedTo(t: Tables, records: set<Record>): set<Attachment> {
    set a | a in t.attachments && a.record in records
  }

  function BlobsOf(attachments: set<Attachment>, name: string): set<BlobId> {
    set a | a in attachments && a.name == name :: a.blob
  }

  function KeysOf(t: Tables, ids: set<BlobId>): set<FileKey> {
    set id | id in ids && id in t.blobs :: t.blobs[id]
  }

  /** detachFiles does nothing when there are no files under the name. */
  function Detaching(t: Tables, tx: Tx, records: set<Record>, name: string): Tx {
    var attachments := AttachedTo(t, records);
    var ids := BlobsOf(attachments, name);
    if ids == {} then tx
    else tx.(removed := tx.removed + ids, detached := tx.detached + attachments, doomed := tx.doomed + KeysOf(t, ids))
  }

  function Committed(t: Tables, tx: Tx): Tables {
    Tables((t.blobs - tx.removed) + tx.added, (t.attachments - tx.detached) + tx.attached)
  }

  function Advancing(s: State, w: nat): State
    requires Enabled(s, Advance(w))
  {
    var worker := WorkerAt(s, w);
    var next := worker.(pc := worker.pc + 1);
    match Program(worker.request)[worker.pc]
    case Detach(records, name) => With(s, w, next.(tx := Detaching(s.tables, worker.tx, records, name)))
    case Put(key) => With(s, w, next).(files := s.files + {key})
    case InsertBlob(key) =>
      With(s, w, next.(tx := worker.tx.(added := worker.tx.added[s.nextBlob := key]), blob := Some(s.nextBlob)))
        .(nextBlob := s.nextBlob + 1)
    case Attach(record, name) =>
      With(s, w, next.(tx := worker.tx.(attached := worker.tx.attached + {Attachment(record, name, worker.blob.value)})))
  }

  function Do(s: State, step: Step): State
    requires Enabled(s, step)
  {
    match step
    case Start(w, r) => With(s, w, Working(r, 0, NOTHING, None)).(used := s.used + KeyOf(r))
    case Advance(w) => Advancing(s, w)
    case Commit(w) =>
      With(s, w, Cleaning(WorkerAt(s, w).tx.doomed)).(tables := Committed(s.tables, WorkerAt(s, w).tx))
    case DeleteFile(w, key) => s.(files := s.files - {key})
    case Stop(w) => With(s, w, Idle)
  }

  function Run(s: State, steps: seq<Step>): State {
    if steps == [] then s
    else
      var t := Run(s, steps[..|steps| - 1]);
      var step := steps[|steps| - 1];
      if Enabled(t, step) then Do(t, step) else t
  }

  // ------------------------------------------------------------ invariant

  function FileKeys(t: Tables): set<FileKey> {
    set id | id in t.blobs :: t.blobs[id]
  }

  predicate TablesOk(s: State) {
    var t := s.tables;
    // Every row has its file, and every attachment its row.
    && (forall id :: id in t.blobs ==> id < s.nextBlob && t.blobs[id] in s.files && t.blobs[id] in s.used)
    && (forall a :: a in t.attachments ==> a.blob in t.blobs)
    && (forall i, j :: i in t.blobs && j in t.blobs && i != j ==> t.blobs[i] != t.blobs[j])
    && (forall a, b :: a in t.attachments && b in t.attachments && a.blob == b.blob ==> a == b)
  }

  /** The key a working request brought along. */
  function Owns(w: Worker): set<FileKey> {
    if w.Working? then KeyOf(w.request) else {}
  }

  function Doomed(w: Worker): set<FileKey> {
    match w
    case Idle => {}
    case Working(_, _, tx, _) => tx.doomed
    case Cleaning(keys) => keys
  }

  function Added(w: Worker): set<BlobId> {
    if w.Working? then w.tx.added.Keys else {}
  }

  function Removed(w: Worker): set<BlobId> {
    if w.Working? then w.tx.removed else {}
  }

  /** How far into its program a request puts its file; past the next step its row is added. */
  function PutAt(r: Request): nat {
    if r.SetPhoto? then 1 else 0
  }

  predicate AddedOk(s: State, w: Worker)
    requires w.Working?
  {
    if !w.request.Remove? && w.pc > PutAt(w.request) + 1 then
      && w.blob.Some? && w.tx.added == map[w.blob.value := w.request.key]
      && w.blob.value < s.nextBlob && w.blob.value !in s.tables.blobs
    else w.tx.added == map[] && w.blob == None
  }

  /** What the transaction lets go of is let go of whole: files with their rows, rows with their attachments. */
  predicate LettingGoOk(t: Tables, tx: Tx) {
    && (forall id :: id in t.blobs && t.blobs[id] in tx.doomed ==> id in tx.removed)
    && (forall a :: a in t.attachments && a.blob in tx.removed ==> a in tx.detached)
  }

  predicate WorkerOk(s: State, w: Worker) {
    match w
    case Idle => true
    case Working(request, pc, tx, blob) =>
      && AddedOk(s, w)
      && LettingGoOk(s.tables, tx)
      && (!request.Remove? && pc > PutAt(request) ==> request.key in s.files)
      && (forall a :: a in tx.attached ==> a.blob in tx.added)
      && (forall a, b :: a in tx.attached && b in tx.attached ==> a == b)
      && (tx.attached != {} ==> pc == |Program(request)|)
      && (forall id :: id in tx.removed ==> id < s.nextBlob)
      && Owns(w) <= s.used && Owns(w) !! FileKeys(s.tables) && tx.doomed <= s.used
    case Cleaning(keys) => keys <= s.used && keys !! FileKeys(s.tables)
  }

  /** No request lets go of another's new file or row. */
  predicate PairOk(w: Worker, v: Worker) {
    Owns(w) !! Doomed(v) && Added(w) !! Removed(v)
  }

  predicate Apart(w: Worker, v: Worker) {
    Owns(w) !! Owns(v) && Added(w) !! Added(v)
  }

  predicate Inv(s: State) {
    && TablesOk(s)
    && (forall w :: w in s.workers ==> WorkerOk(s, s.workers[w]))
    && (forall w, v :: w in s.workers && v in s.workers ==> PairOk(s.workers[w], s.workers[v]))
    && (forall w, v :: w in s.workers && v in s.workers && w != v ==> Apart(s.workers[w], s.workers[v]))
  }

  // ---------------------------------------------------------- each step

  /** One worker changes; the others and the tables are as they were, or more is known. */
  lemma OneWorker(s: State, t: State, w: nat)
    requires Inv(s) && TablesOk(t) && w in t.workers && t.workers == s.workers[w := t.workers[w]]
    requires t.tables == s.tables && s.files <= t.files && s.used <= t.used && s.nextBlob <= t.nextBlob
    requires WorkerOk(t, t.workers[w]) && PairOk(t.workers[w], t.workers[w])
    requires forall v :: v in s.workers && v != w ==>
      PairOk(t.workers[w], s.workers[v]) && PairOk(s.workers[v], t.workers[w]) && Apart(t.workers[w], s.workers[v])
    ensures Inv(t)
  {
    forall v | v in t.workers ensures WorkerOk(t, t.workers[v]) {
      if v != w { assert WorkerOk(s, s.workers[v]); }
    }
    forall v, u | v in t.workers && u in t.workers ensures PairOk(t.workers[v], t.workers[u]) {
      if v != w && u != w { assert PairOk(s.workers[v], s.workers[u]); }
    }
    forall v, u | v in t.workers && u in t.workers && v != u ensures Apart(t.workers[v], t.workers[u]) {
      if v != w && u != w { assert Apart(s.workers[v], s.workers[u]); }
    }
  }

  lemma StartKeeps(s: State, w: nat, r: Request)
    requires Inv(s) && Enabled(s, Start(w, r))
    ensures Inv(Do(s, Start(w, r)))
  {
    var t := Do(s, Start(w, r));
    assert FileKeys(s.tables) <= s.used;
    forall v | v in s.workers && v != w
      ensures PairOk(t.workers[w], s.workers[v]) && PairOk(s.workers[v], t.workers[w]) && Apart(t.workers[w], s.workers[v])
    {
      assert WorkerOk(s, s.workers[v]);
    }
    OneWorker(s, t, w);
  }

  lemma StopKeeps(s: State, w: nat)
    requires Inv(s)
    ensures Inv(Do(s, Stop(w)))
  {
    OneWorker(s, Do(s, Stop(w)), w);
  }

  lemma DeleteKeeps(s: State, w: nat, key: FileKey)
    requires Inv(s) && Enabled(s, DeleteFile(w, key))
    ensures Inv(Do(s, DeleteFile(w, key)))
  {
    var t := Do(s, DeleteFile(w, key));
    assert WorkerOk(s, s.workers[w]);
    assert key !in FileKeys(s.tables);
    forall v | v in t.workers ensures WorkerOk(t, t.workers[v]) {
      assert WorkerOk(s, s.workers[v]) && PairOk(s.workers[v], s.workers[w]);
    }
  }

  lemma DetachKeeps(s: State, w: nat)
    requires Inv(s) && Enabled(s, Advance(w)) && Program(WorkerAt(s, w).request)[WorkerAt(s, w).pc].Detach?
    ensures Inv(Do(s, Advance(w)))
  {
    var t := Do(s, Advance(w));
    var worker := s.workers[w];
    var instr := Program(worker.request)[worker.pc];
    assert WorkerOk(s, worker);
    DetachingOk(s, worker.tx, instr.records, instr.name);
    forall v | v in s.workers && v != w
      ensures PairOk(t.workers[w], s.workers[v]) && PairOk(s.workers[v], t.workers[w]) && Apart(t.workers[w], s.workers[v])
    {
      assert WorkerOk(s, s.workers[v]);
      assert PairOk(s.workers[v], worker) && PairOk(worker, s.workers[v]) && Apart(worker, s.workers[v]);
      AddedAreNew(s, s.workers[v]);
    }
    AddedAreNew(s, worker);
    assert PairOk(worker, worker);
    OneWorker(s, t, w);
  }

  lemma AddedAreNew(s: State, w: Worker)
    requires WorkerOk(s, w)
    ensures Added(w) !! s.tables.blobs.Keys && Owns(w) !! FileKeys(s.tables)
  {
  }

  lemma DetachingOk(s: State, tx: Tx, records: set<Record>, name: string)
    requires TablesOk(s) && LettingGoOk(s.tables, tx)
    ensures var next := Detaching(s.tables, tx, records, name);
            && LettingGoOk(s.tables, next)
            && next.doomed <= tx.doomed + FileKeys(s.tables)
            && next.removed <= tx.removed + s.tables.blobs.Keys
            && next.added == tx.added && next.attached == tx.attached
            && FileKeys(s.tables) <= s.used
  {
    var ids := BlobsOf(AttachedTo(s.tables, records), name);
    var next := Detaching(s.tables, tx, records, name);
    forall id | id in s.tables.blobs && s.tables.blobs[id] in next.doomed ensures id in next.removed {
      if s.tables.blobs[id] !in tx.doomed {
        var i :| i in ids && i in s.tables.blobs && s.tables.blobs[i] == s.tables.blobs[id];
        assert i == id;
      }
    }
    forall a | a in s.tables.attachments && a.blob in next.removed ensures a in next.detached {
      if a.blob !in tx.removed {
        var b :| b in AttachedTo(s.tables, records) && b.name == name && b.blob == a.blob;
        assert a == b;
      }
    }
  }

  lemma PutKeeps(s: State, w: nat)
    requires Inv(s) && Enabled(s, Advance(w)) && Program(WorkerAt(s, w).request)[WorkerAt(s, w).pc].Put?
    ensures Inv(Do(s, Advance(w)))
  {
    var t := Do(s, Advance(w));
    assert WorkerOk(s, s.workers[w]) && PairOk(s.workers[w], s.workers[w]);
    PairsStay(s, t, w);
    OneWorker(s, t, w);
  }

  /** A worker whose keys and rows are as before is still apart from the others. */
  lemma PairsStay(s: State, t: State, w: nat)
    requires Inv(s) && w in s.workers && w in t.workers
    requires Owns(t.workers[w]) == Owns(s.workers[w]) && Doomed(t.workers[w]) == Doomed(s.workers[w])
    requires Added(t.workers[w]) == Added(s.workers[w]) && Removed(t.workers[w]) == Removed(s.workers[w])
    ensures PairOk(t.workers[w], t.workers[w])
    ensures forall v :: v in s.workers && v != w ==>
      PairOk(t.workers[w], s.workers[v]) && PairOk(s.workers[v], t.workers[w]) && Apart(t.workers[w], s.workers[v])
  {
    assert PairOk(s.workers[w], s.workers[w]);
    forall v | v in s.workers && v != w
      ensures PairOk(t.workers[w], s.workers[v]) && PairOk(s.workers[v], t.workers[w]) && Apart(t.workers[w], s.workers[v])
    {
      assert PairOk(s.workers[w], s.workers[v]) && PairOk(s.workers[v], s.workers[w]) && Apart(s.workers[w], s.workers[v]);
    }
  }

  lemma InsertKeeps(s: State, w: nat)
    requires Inv(s) && Enabled(s, Advance(w)) && Program(WorkerAt(s, w).request)[WorkerAt(s, w).pc].InsertBlob?
    ensures Inv(Do(s, Advance(w)))
  {
    var t := Do(s, Advance(w));
    var worker := s.workers[w];
    assert WorkerOk(s, worker) && PairOk(worker, worker);
    assert t.workers[w].tx.added == map[s.nextBlob := worker.request.key];
    forall v | v in s.workers && v != w
      ensures PairOk(t.workers[w], s.workers[v]) && PairOk(s.workers[v], t.workers[w]) && Apart(t.workers[w], s.workers[v])
    {
      assert WorkerOk(s, s.workers[v]);
      assert PairOk(worker, s.workers[v]) && PairOk(s.workers[v], worker) && Apart(worker, s.workers[v]);
    }
    OneWorker(s, t, w);
  }

  lemma AttachKeeps(s: State, w: nat)
    requires Inv(s) && Enabled(s, Advance(w)) && Program(WorkerAt(s, w).request)[WorkerAt(s, w).pc].Attach?
    ensures Inv(Do(s, Advance(w)))
  {
    var t := Do(s, Advance(w));
    assert WorkerOk(s, s.workers[w]) && PairOk(s.workers[w], s.workers[w]);
    PairsStay(s, t, w);
    OneWorker(s, t, w);
  }

  lemma CommitKeeps(s: State, w: nat)
    requires Inv(s) && Enabled(s, Commit(w))
    ensures Inv(Do(s, Commit(w)))
  {
    var t := Do(s, Commit(w));
    var worker := s.workers[w];
    assert WorkerOk(s, worker) && PairOk(worker, worker);
    CommittedOk(s, worker);
    forall v | v in t.workers ensures WorkerOk(t, t.workers[v]) {
      if v != w {
        assert WorkerOk(s, s.workers[v]) && PairOk(worker, s.workers[v]) && PairOk(s.workers[v], worker);
        assert Apart(worker, s.workers[v]);
        OthersSurviveCommit(s, worker, s.workers[v]);
      }
    }
    CommitPairs(s, w);
  }

  lemma CommitPairs(s: State, w: nat)
    requires Inv(s) && Enabled(s, Commit(w))
    ensures var workers := Do(s, Commit(w)).workers;
            && (forall v, u :: v in workers && u in workers ==> PairOk(workers[v], workers[u]))
            && (forall v, u :: v in workers && u in workers && v != u ==> Apart(workers[v], workers[u]))
  {
    var workers := Do(s, Commit(w)).workers;
    forall v, u | v in workers && u in workers
      ensures PairOk(workers[v], workers[u]) && (v != u ==> Apart(workers[v], workers[u]))
    {
      assert PairOk(s.workers[v], s.workers[u]) && PairOk(s.workers[u], s.workers[v]);
      if v == w {
        CleaningPairs(s.workers[w], s.workers[u]);
      } else if u == w {
        CleaningPairs(s.workers[w], s.workers[v]);
      } else if u != v {
        assert Apart(s.workers[v], s.workers[u]);
      }
    }
  }

  /** Once committed, a worker owns nothing any more and lets go of what it did. */
  lemma CleaningPairs(w: Worker, v: Worker)
    requires w.Working? && PairOk(w, v) && PairOk(v, w)
    ensures var cleaning := Cleaning(w.tx.doomed);
            PairOk(cleaning, v) && PairOk(v, cleaning) && PairOk(cleaning, cleaning) && Apart(cleaning, v) && Apart(v, cleaning)
  {
  }

  /** The committed tables: every row's file is there, and no row is left that the files to be deleted belong to. */
  lemma CommittedOk(s: State, w: Worker)
    requires TablesOk(s) && w.Working? && !Unfinished(w) && WorkerOk(s, w) && PairOk(w, w)
    ensures TablesOk(s.(tables := Committed(s.tables, w.tx)))
    ensures Doomed(w) !! FileKeys(Committed(s.tables, w.tx)) && Doomed(w) <= s.used
    ensures forall id :: id in Committed(s.tables, w.tx).blobs ==>
      (id in s.tables.blobs && id !in w.tx.removed && Committed(s.tables, w.tx).blobs[id] == s.tables.blobs[id])
      || (id in w.tx.added && Committed(s.tables, w.tx).blobs[id] in Owns(w))
  {
    var t := Committed(s.tables, w.tx);
    assert forall id :: id in w.tx.added ==> w.tx.added[id] in Owns(w) && w.tx.added[id] in s.files;
    forall id | id in t.blobs
      ensures (id in s.tables.blobs && id !in w.tx.removed && t.blobs[id] == s.tables.blobs[id]) || (id in w.tx.added && t.blobs[id] in Owns(w))
      ensures t.blobs[id] !in w.tx.doomed
    {
    }
    forall i, j | i in t.blobs && j in t.blobs && i != j ensures t.blobs[i] != t.blobs[j] {
      assert i in s.tables.blobs ==> s.tables.blobs[i] in FileKeys(s.tables);
      assert j in s.tables.blobs ==> s.tables.blobs[j] in FileKeys(s.tables);
    }
  }

  lemma OthersSurviveCommit(s: State, w: Worker, v: Worker)
    requires TablesOk(s) && w.Working? && !Unfinished(w) && WorkerOk(s, w) && PairOk(w, w)
    requires WorkerOk(s, v) && PairOk(w, v) && PairOk(v, w) && Apart(w, v)
    ensures WorkerOk(s.(tables := Committed(s.tables, w.tx)), v)
  {
    CommittedOk(s, w);
    var t := Committed(s.tables, w.tx);
    assert FileKeys(t) <= FileKeys(s.tables) + Owns(w);
    if v.Working? {
      forall id | id in t.blobs && t.blobs[id] in v.tx.doomed ensures id in v.tx.removed {
        assert id !in w.tx.added;
      }
      forall a | a in t.attachments && a.blob in v.tx.removed ensures a in v.tx.detached {
        assert a !in w.tx.attached;
      }
    }
  }

  lemma StepKeeps(s: State, step: Step)
    requires Inv(s) && Enabled(s, step)
    ensures Inv(Do(s, step))
  {
    match step
    case Start(w, r) => StartKeeps(s, w, r);
    case Advance(w) =>
      match Program(WorkerAt(s, w).request)[WorkerAt(s, w).pc] {
        case Detach(_, _) => DetachKeeps(s, w);
        case Put(_) => PutKeeps(s, w);
        case InsertBlob(_) => InsertKeeps(s, w);
        case Attach(_, _) => AttachKeeps(s, w);
      }
    case Commit(w) => CommitKeeps(s, w);
    case DeleteFile(w, key) => DeleteKeeps(s, w, key);
    case Stop(w) => StopKeeps(s, w);
  }

  lemma {:induction false} RunKeeps(steps: seq<Step>)
    ensures Inv(Run(EMPTY, steps))
  {
    if steps != [] {
      var init := steps[..|steps| - 1];
      RunKeeps(init);
      if Enabled(Run(EMPTY, init), steps[|steps| - 1]) { StepKeeps(Run(EMPTY, init), steps[|steps| - 1]); }
    }
  }

  /**
   * At every point of every run, whatever is under way, failing or killed: a committed attachment has its
   * row, and the row's file is in the store.
   */
  lemma ServedFilesAreThere(steps: seq<Step>)
    ensures var s := Run(EMPTY, steps);
            && (forall a :: a in s.tables.attachments ==> a.blob in s.tables.blobs)
            && (forall id :: id in s.tables.blobs ==> s.tables.blobs[id] in s.files)
  {
    RunKeeps(steps);
  }
}
