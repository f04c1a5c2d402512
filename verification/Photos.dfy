/** Putting a photo in place, statement by statement, on its own: what it replaces and what it leaves alone. */
module Photos {
  import opened Blobs
  import opened Wrappers

  datatype Upload = Upload(contentType: string, data: seq<int>)

  const IMAGE_TYPES := ["image/png", "image/jpeg", "image/webp"]
  const MAX_IMAGE_BYTES := 3 * 1024 * 1024

  datatype Fault = NotAttached | WrongType | TooLarge

  datatype Result = Replaced(keys: set<FileKey>) | Refused(faults: seq<Fault>)

  function Faults(upload: Option<Upload>): seq<Fault> {
    match upload
    case None => [NotAttached]
    case Some(u) =>
      (if u.contentType in IMAGE_TYPES then [] else [WrongType])
      + (if |u.data| <= MAX_IMAGE_BYTES then [] else [TooLarge])
  }

  class Store {
    var files: map<FileKey, seq<int>>
    var tables: Tables
    var nextBlob: BlobId

    /** The rows point at files that are there; each file and each row is pointed at once. */
    predicate Valid()
      reads this
    {
      && (forall id :: id in tables.blobs ==> id < nextBlob && tables.blobs[id] in files)
      && (forall a :: a in tables.attachments ==> a.blob in tables.blobs)
      && (forall i, j :: i in tables.blobs && j in tables.blobs && i != j ==> tables.blobs[i] != tables.blobs[j])
      && (forall a, b :: a in tables.attachments && b in tables.attachments && a.blob == b.blob ==> a == b)
    }

    /** What is served for a record under a name: the contents of its files. */
    function Served(record: Record, name: string): set<seq<int>>
      requires Valid()
      reads this
    {
      set a | a in tables.attachments && a.record == record && a.name == name :: files[tables.blobs[a.blob]]
    }

    constructor ()
      ensures Valid() && files == map[] && tables == Tables(map[], {})
    {
      files, tables, nextBlob := map[], Tables(map[], {}), 0;
    }

    /** The file first, then its row. */
    method CreateBlob(key: FileKey, upload: Upload) returns (id: BlobId)
      requires Valid() && key !in files
      modifies this
      ensures Valid() && id == old(nextBlob) && nextBlob == id + 1
      ensures files == old(files)[key := upload.data]
      ensures tables == old(tables).(blobs := old(tables).blobs[id := key])
    {
      files := files[key := upload.data];
      id := nextBlob;
      tables := tables.(blobs := tables.blobs[id := key]);
      nextBlob := nextBlob + 1;
    }

    /** Takes the records' attachments and the rows of those under the name; the files stay for now. */
    method DetachFiles(records: set<Record>, name: string) returns (keys: set<FileKey>)
      requires Valid()
      modifies this`tables
      ensures Valid()
      ensures tables == Committed(old(tables), Detaching(old(tables), NOTHING, records, name))
      ensures keys == Detaching(old(tables), NOTHING, records, name).doomed
      ensures forall k :: k in keys <==> HasFile(old(tables), records, name, k)
    {
      var attachments := AttachedTo(tables, records);
      var ids := BlobsOf(attachments, name);
      forall k ensures k in KeysOf(tables, ids) <==> HasFile(tables, records, name, k) {
        KeysAreFiles(tables, records, name, k);
      }
      if ids == {} {
        return {};
      }
      keys := KeysOf(tables, ids);
      tables := Tables(tables.blobs - ids, tables.attachments - attachments);
      assert forall a :: a in tables.attachments ==> a.blob !in ids;
    }

    /**
     * A record's photo: afterwards exactly the new one is served for it, everything other records show is as
     * it was, and the keys returned are those of the files no row points at any longer.
     */
    method SetPhoto(record: Record, name: string, upload: Option<Upload>, key: FileKey) returns (result: Result)
      requires Valid() && key !in files
      modifies this
      ensures Valid()
      ensures Faults(upload) != [] ==>
        result == Refused(Faults(upload)) && files == old(files) && tables == old(tables)
      ensures Faults(upload) == [] ==>
        && result.Replaced? && files == old(files)[key := upload.value.data]
        && Served(record, name) == {upload.value.data}
        && (forall r: Record, n: string :: r != record ==> Served(r, n) == old(Served(r, n)))
        && (forall n: string :: n != name ==>
              Served(record, n) == if old(Served(record, name)) == {} then old(Served(record, n)) else {})
        && result.keys !! FileKeys(tables)
        && result.keys == KeysOf(old(tables), BlobsOf(AttachedTo(old(tables), {record}), name))
        && forall k :: k in result.keys <==> HasFile(old(tables), {record}, name, k)
    {
      var faults := Faults(upload);
      if faults != [] {
        return Refused(faults);
      }
      var keys := DetachFiles({record}, name);
      var id := CreateBlob(key, upload.value);
      tables := tables.(attachments := tables.attachments + {Attachment(record, name, id)});
      result := Replaced(keys);
      PhotoSet(old(tables), tables, record, name, id, key);
      NewIsServed(old(tables), old(files), tables, files, record, name, id, key);
      forall r: Record, n: string | r != record ensures Served(r, n) == old(Served(r, n)) {
        OthersServed(old(tables), old(files), tables, files, record, name, r, n, id, key);
      }
      forall n: string | n != name
        ensures Served(record, n) == if old(Served(record, name)) == {} then old(Served(record, n)) else {}
      {
        OtherNamesServed(old(tables), old(files), tables, files, record, name, n, id, key);
      }
    }

    /** Once the transaction has committed; a file already gone is no error. */
    method DeleteFiles(keys: set<FileKey>)
      requires Valid() && keys !! FileKeys(tables)
      modifies this`files
      ensures Valid() && files == old(files) - keys
      ensures forall r: Record, n: string :: Served(r, n) == old(Served(r, n))
    {
      files := files - keys;
    }
  }

  /** Some of these records has this file under the name. */
  predicate HasFile(t: Tables, records: set<Record>, name: string, key: FileKey) {
    exists a :: a in t.attachments && a.record in records && a.name == name && a.blob in t.blobs && t.blobs[a.blob] == key
  }

  lemma KeysAreFiles(t: Tables, records: set<Record>, name: string, key: FileKey)
    ensures key in KeysOf(t, BlobsOf(AttachedTo(t, records), name)) <==> HasFile(t, records, name, key)
  {
    if key in KeysOf(t, BlobsOf(AttachedTo(t, records), name)) {
      var id :| id in BlobsOf(AttachedTo(t, records), name) && id in t.blobs && t.blobs[id] == key;
      var a :| a in AttachedTo(t, records) && a.name == name && a.blob == id;
      assert a in t.attachments;
    }
    if HasFile(t, records, name, key) {
      var a :| a in t.attachments && a.record in records && a.name == name && a.blob in t.blobs && t.blobs[a.blob] == key;
      assert a in AttachedTo(t, records) && a.blob in BlobsOf(AttachedTo(t, records), name);
    }
  }

  /** A photo is a PNG, JPEG or WebP image of no more than three megabytes. */
  lemma AcceptedIff(upload: Option<Upload>)
    ensures Faults(upload) == [] <==>
      && upload.Some? && |upload.value.data| <= 3_145_728
      && (|| upload.value.contentType == "image/png" || upload.value.contentType == "image/jpeg"
          || upload.value.contentType == "image/webp")
    ensures NotAttached in Faults(upload) <==> upload == None
    ensures TooLarge in Faults(upload) <==> upload.Some? && |upload.value.data| > 3_145_728
  {
    assert IMAGE_TYPES[0] == "image/png" && IMAGE_TYPES[1] == "image/jpeg" && IMAGE_TYPES[2] == "image/webp";
  }

  function ServedFrom(t: Tables, files: map<FileKey, seq<int>>, record: Record, name: string): set<seq<int>>
    requires forall a :: a in t.attachments ==> a.blob in t.blobs && t.blobs[a.blob] in files
  {
    set a | a in t.attachments && a.record == record && a.name == name :: files[t.blobs[a.blob]]
  }

  /** The tables once a photo is in place. */
  function WithPhoto(t: Tables, record: Record, name: string, id: BlobId, key: FileKey): Tables {
    var d := Committed(t, Detaching(t, NOTHING, {record}, name));
    Tables(d.blobs[id := key], d.attachments + {Attachment(record, name, id)})
  }

  /** Blobs and attachments stay one to one, and the keys let go of are pointed at no more. */
  lemma PhotoSet(t: Tables, u: Tables, record: Record, name: string, id: BlobId, key: FileKey)
    requires u == WithPhoto(t, record, name, id, key) && id !in t.blobs && key !in FileKeys(t)
    requires forall a :: a in t.attachments ==> a.blob in t.blobs
    requires forall i, j :: i in t.blobs && j in t.blobs && i != j ==> t.blobs[i] != t.blobs[j]
    requires forall a, b :: a in t.attachments && b in t.attachments && a.blob == b.blob ==> a == b
    ensures forall a :: a in u.attachments ==> a.blob in u.blobs
    ensures forall a, b :: a in u.attachments && b in u.attachments && a.blob == b.blob ==> a == b
    ensures KeysOf(t, BlobsOf(AttachedTo(t, {record}), name)) !! FileKeys(u)
  {
    assert forall i :: i in t.blobs ==> t.blobs[i] in FileKeys(t);
  }

  lemma NewIsServed(t: Tables, files: map<FileKey, seq<int>>, u: Tables, after: map<FileKey, seq<int>>, record: Record,
                    name: string, id: BlobId, key: FileKey)
    requires forall a :: a in t.attachments ==> a.blob in t.blobs && t.blobs[a.blob] in files
    requires forall a :: a in u.attachments ==> a.blob in u.blobs && u.blobs[a.blob] in after
    requires id !in t.blobs && key in after && u == WithPhoto(t, record, name, id, key)
    ensures ServedFrom(u, after, record, name) == {after[key]}
  {
    forall a | a in t.attachments && a.record == record && a.name == name
      ensures a.blob in BlobsOf(AttachedTo(t, {record}), name)
    {
    }
    assert forall a :: a in u.attachments && a.record == record && a.name == name <==> a == Attachment(record, name, id);
  }

  lemma OthersServed(t: Tables, files: map<FileKey, seq<int>>, u: Tables, after: map<FileKey, seq<int>>, record: Record,
                     name: string, r: Record, n: string, id: BlobId, key: FileKey)
    requires forall a :: a in t.attachments ==> a.blob in t.blobs && t.blobs[a.blob] in files
    requires forall a :: a in u.attachments ==> a.blob in u.blobs && u.blobs[a.blob] in after
    requires forall a, b :: a in t.attachments && b in t.attachments && a.blob == b.blob ==> a == b
    requires r != record && key !in files && id !in t.blobs && key in after && after == files[key := after[key]]
    requires u == WithPhoto(t, record, name, id, key)
    ensures ServedFrom(u, after, r, n) == ServedFrom(t, files, r, n)
  {
    forall a: Attachment | a.record == r
      ensures a in t.attachments <==> a in u.attachments
      ensures a in t.attachments ==> u.blobs[a.blob] == t.blobs[a.blob] && after[u.blobs[a.blob]] == files[t.blobs[a.blob]]
    {
      if a in t.attachments {
        assert a.blob !in BlobsOf(AttachedTo(t, {record}), name);
      }
    }
  }

  /** A record's own files under other names go too, when it had one under this name. */
  lemma OtherNamesServed(t: Tables, files: map<FileKey, seq<int>>, u: Tables, after: map<FileKey, seq<int>>, record: Record,
                         name: string, n: string, id: BlobId, key: FileKey)
    requires forall a :: a in t.attachments ==> a.blob in t.blobs && t.blobs[a.blob] in files
    requires forall a :: a in u.attachments ==> a.blob in u.blobs && u.blobs[a.blob] in after
    requires n != name && key !in files && id !in t.blobs && key in after && after == files[key := after[key]]
    requires u == WithPhoto(t, record, name, id, key)
    ensures ServedFrom(u, after, record, n)
         == if ServedFrom(t, files, record, name) == {} then ServedFrom(t, files, record, n) else {}
  {
    var ids := BlobsOf(AttachedTo(t, {record}), name);
    NoneServed(t, files, record, name);
    if ids == {} {
      assert Committed(t, Detaching(t, NOTHING, {record}, name)).attachments == t.attachments;
      forall a: Attachment | a.record == record && a.name == n ensures a in t.attachments <==> a in u.attachments {
      }
    } else {
      assert forall a: Attachment :: a in u.attachments && a.record == record ==> a.name == name;
    }
  }

  lemma NoneServed(t: Tables, files: map<FileKey, seq<int>>, record: Record, name: string)
    requires forall a :: a in t.attachments ==> a.blob in t.blobs && t.blobs[a.blob] in files
    ensures ServedFrom(t, files, record, name) == {} <==> BlobsOf(AttachedTo(t, {record}), name) == {}
  {
    if id :| id in BlobsOf(AttachedTo(t, {record}), name) {
      var a :| a in AttachedTo(t, {record}) && a.name == name && a.blob == id;
      assert files[t.blobs[a.blob]] in ServedFrom(t, files, record, name);
    }
    if data :| data in ServedFrom(t, files, record, name) {
      var a :| a in t.attachments && a.record == record && a.name == name && files[t.blobs[a.blob]] == data;
      assert a.blob in BlobsOf(AttachedTo(t, {record}), name);
    }
  }

  // --------------------------------------------------- other names' files

  predicate UnderOtherNames(a: Attachment, records: set<Record>, name: string) {
    a.record in records && a.name != name
  }

  /**
   * Taking the files of one name leaves the records' attachments under other names alone exactly when there
   * are none under this name, or none under others.
   */
  lemma OtherNamesStayIff(t: Tables, records: set<Record>, name: string)
    ensures (forall a :: a in t.attachments && UnderOtherNames(a, records, name) ==>
               a in Committed(t, Detaching(t, NOTHING, records, name)).attachments)
       <==> BlobsOf(AttachedTo(t, records), name) == {} || forall a :: a in AttachedTo(t, records) ==> a.name == name
  {
    var ids := BlobsOf(AttachedTo(t, records), name);
    var u := Committed(t, Detaching(t, NOTHING, records, name));
    if ids == {} {
      assert u.attachments == t.attachments;
    } else {
      assert forall a :: a in u.attachments ==> a.record !in records;
      if a :| a in AttachedTo(t, records) && a.name != name {
        assert a in t.attachments && UnderOtherNames(a, records, name) && a !in u.attachments;
      }
    }
  }

  /** A record with a photo and a document loses the document's attachment with its photo. */
  lemma OtherNameIsTaken(record: Record)
    ensures var t := Tables(map[0 := 0, 1 := 1], {Attachment(record, "photo", 0), Attachment(record, "document", 1)});
            && Attachment(record, "document", 1) in t.attachments
            && Attachment(record, "document", 1) !in Committed(t, Detaching(t, NOTHING, {record}, "photo")).attachments
  {
    var t := Tables(map[0 := 0, 1 := 1], {Attachment(record, "photo", 0), Attachment(record, "document", 1)});
    var photo := Attachment(record, "photo", 0);
    assert photo in AttachedTo(t, {record}) && photo.blob in BlobsOf(AttachedTo(t, {record}), "photo");
  }

  // ------------------------------------------------- a request on its own

  function After(s: State, step: Step): State {
    if Enabled(s, step) then Do(s, step) else s
  }

  /** From its start to its commit: so many steps of the program, nobody else between. */
  function Through(s: State, w: nat, request: Request): State {
    After(Advanced(After(s, Start(w, request)), w, |Program(request)|), Commit(w))
  }

  function Advanced(s: State, w: nat, n: nat): State {
    if n == 0 then s else After(Advanced(s, w, n - 1), Advance(w))
  }

  /** Where a worker is with its request, and what has become of the store and the tables. */
  predicate At(s: State, w: nat, request: Request, pc: nat, tx: Tx, blob: Option<BlobId>, files: set<FileKey>, tables: Tables, next: BlobId) {
    WorkerAt(s, w) == Working(request, pc, tx, blob) && s.files == files && s.tables == tables && s.nextBlob == next
  }

  lemma Starts(s: State, w: nat, request: Request)
    requires WorkerAt(s, w).Idle? && KeyOf(request) !! s.used
    ensures At(After(s, Start(w, request)), w, request, 0, NOTHING, None, s.files, s.tables, s.nextBlob)
  {
  }

  lemma Detaches(s: State, w: nat, request: Request, pc: nat, tx: Tx, records: set<Record>, name: string)
    requires At(s, w, request, pc, tx, None, s.files, s.tables, s.nextBlob)
    requires pc < |Program(request)| && Program(request)[pc] == Detach(records, name)
    ensures At(After(s, Advance(w)), w, request, pc + 1, Detaching(s.tables, tx, records, name), None, s.files, s.tables, s.nextBlob)
  {
  }

  lemma Puts(s: State, w: nat, request: Request, pc: nat, tx: Tx, key: FileKey)
    requires At(s, w, request, pc, tx, None, s.files, s.tables, s.nextBlob)
    requires pc < |Program(request)| && Program(request)[pc] == Put(key)
    ensures At(After(s, Advance(w)), w, request, pc + 1, tx, None, s.files + {key}, s.tables, s.nextBlob)
  {
  }

  lemma Inserts(s: State, w: nat, request: Request, pc: nat, tx: Tx, key: FileKey)
    requires At(s, w, request, pc, tx, None, s.files, s.tables, s.nextBlob)
    requires pc < |Program(request)| && Program(request)[pc] == InsertBlob(key)
    ensures At(After(s, Advance(w)), w, request, pc + 1, tx.(added := tx.added[s.nextBlob := key]), Some(s.nextBlob),
               s.files, s.tables, s.nextBlob + 1)
  {
  }

  lemma Attaches(s: State, w: nat, request: Request, pc: nat, tx: Tx, id: BlobId, record: Record, name: string)
    requires At(s, w, request, pc, tx, Some(id), s.files, s.tables, s.nextBlob)
    requires pc < |Program(request)| && Program(request)[pc] == Attach(record, name)
    ensures At(After(s, Advance(w)), w, request, pc + 1, tx.(attached := tx.attached + {Attachment(record, name, id)}), Some(id),
               s.files, s.tables, s.nextBlob)
  {
  }

  lemma Commits(s: State, w: nat, request: Request, tx: Tx, blob: Option<BlobId>)
    requires At(s, w, request, |Program(request)|, tx, blob, s.files, s.tables, s.nextBlob)
    ensures var t := After(s, Commit(w));
            t.files == s.files && t.tables == Committed(s.tables, tx) && WorkerAt(t, w) == Cleaning(tx.doomed)
  {
  }

  /** A file to be deleted is gone once it is, and no other. */
  lemma Deletes(s: State, w: nat, key: FileKey)
    requires WorkerAt(s, w).Cleaning? && key in WorkerAt(s, w).keys
    ensures After(s, DeleteFile(w, key)) == s.(files := s.files - {key})
  {
  }

  lemma Unrolled(s: State, w: nat)
    ensures Advanced(s, w, 1) == After(s, Advance(w)) && Advanced(s, w, 2) == After(After(s, Advance(w)), Advance(w))
    ensures Advanced(s, w, 3) == After(Advanced(s, w, 2), Advance(w)) && Advanced(s, w, 4) == After(Advanced(s, w, 3), Advance(w))
  {
  }

  /** Setting a photo: the file is stored, the tables are those with the photo, and the replaced files are to be deleted. */
  lemma SettingAlone(s: State, w: nat, record: Record, name: string, key: FileKey)
    requires Inv(s) && WorkerAt(s, w).Idle? && key !in s.used
    ensures var t := Through(s, w, SetPhoto(record, name, key));
            && t.files == s.files + {key} && t.tables == WithPhoto(s.tables, record, name, s.nextBlob, key)
            && WorkerAt(t, w).Cleaning?
            && forall k :: k in WorkerAt(t, w).keys <==> HasFile(s.tables, {record}, name, k)
  {
    var (request, tx) := (SetPhoto(record, name, key), Detaching(s.tables, NOTHING, {record}, name));
    var s0 := After(s, Start(w, request));
    Unrolled(s0, w);
    Starts(s, w, request);
    Detaches(s0, w, request, 0, NOTHING, {record}, name);
    Puts(Advanced(s0, w, 1), w, request, 1, tx, key);
    Inserts(Advanced(s0, w, 2), w, request, 2, tx, key);
    var added := tx.(added := tx.added[s.nextBlob := key]);
    Attaches(Advanced(s0, w, 3), w, request, 3, added, s.nextBlob, record, name);
    Commits(Advanced(s0, w, 4), w, request, added.(attached := added.attached + {Attachment(record, name, s.nextBlob)}),
            Some(s.nextBlob));
    DoomedAreFiles(s.tables, {record}, name);
    PhotoCommitted(s.tables, tx, record, name, s.nextBlob, key);
  }

  lemma PhotoCommitted(t: Tables, tx: Tx, record: Record, name: string, id: BlobId, key: FileKey)
    requires tx == Detaching(t, NOTHING, {record}, name)
    ensures Committed(t, tx.(added := tx.added[id := key], attached := tx.attached + {Attachment(record, name, id)}))
         == WithPhoto(t, record, name, id, key)
  {
    assert tx.added == map[] && tx.attached == {};
  }

  lemma DoomedAreFiles(t: Tables, records: set<Record>, name: string)
    ensures forall k :: k in Detaching(t, NOTHING, records, name).doomed <==> HasFile(t, records, name, k)
  {
    forall k ensures k in Detaching(t, NOTHING, records, name).doomed <==> HasFile(t, records, name, k) {
      KeysAreFiles(t, records, name, k);
    }
  }

  /** Attaching a screenshot: its file, its row and its attachment are added, and nothing goes. */
  lemma AttachingAlone(s: State, w: nat, record: Record, name: string, key: FileKey)
    requires Inv(s) && WorkerAt(s, w).Idle? && key !in s.used
    ensures var t := Through(s, w, AttachScreenshot(record, name, key));
            && t.files == s.files + {key} && WorkerAt(t, w) == Cleaning({})
            && t.tables == Tables(s.tables.blobs[s.nextBlob := key], s.tables.attachments + {Attachment(record, name, s.nextBlob)})
  {
    var request := AttachScreenshot(record, name, key);
    var s0 := After(s, Start(w, request));
    Unrolled(s0, w);
    Starts(s, w, request);
    Puts(s0, w, request, 0, NOTHING, key);
    Inserts(Advanced(s0, w, 1), w, request, 1, NOTHING, key);
    var added := NOTHING.(added := map[s.nextBlob := key]);
    Attaches(Advanced(s0, w, 2), w, request, 2, added, s.nextBlob, record, name);
    Commits(Advanced(s0, w, 3), w, request, added.(attached := {Attachment(record, name, s.nextBlob)}), Some(s.nextBlob));
  }

  /** Removing: no file is left for the records under the name, and those there were are to be deleted. */
  lemma RemovingAlone(s: State, w: nat, records: set<Record>, name: string)
    requires Inv(s) && WorkerAt(s, w).Idle?
    ensures var t := Through(s, w, Remove(records, name));
            && t.files == s.files && WorkerAt(t, w).Cleaning?
            && (forall k :: k in WorkerAt(t, w).keys <==> HasFile(s.tables, records, name, k))
            && (forall k :: !HasFile(t.tables, records, name, k))
  {
    var request := Remove(records, name);
    var s0 := After(s, Start(w, request));
    Unrolled(s0, w);
    Starts(s, w, request);
    Detaches(s0, w, request, 0, NOTHING, records, name);
    Commits(Advanced(s0, w, 1), w, request, Detaching(s.tables, NOTHING, records, name), None);
    DoomedAreFiles(s.tables, records, name);
    NoneLeft(s.tables, records, name);
  }

  lemma NoneLeft(t: Tables, records: set<Record>, name: string)
    ensures var u := Committed(t, Detaching(t, NOTHING, records, name)); forall k :: !HasFile(u, records, name, k)
  {
    forall a | a in t.attachments && a.record in records && a.name == name
      ensures a in AttachedTo(t, records) && a.blob in BlobsOf(AttachedTo(t, records), name)
    {
    }
  }
}
