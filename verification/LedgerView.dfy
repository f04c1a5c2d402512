/**
 * The ledger as listed: rows in order with running balances, what an edit does to them, and the
 * printed statement's totals.
 */
module LedgerView {
  import opened Book
  import opened BookRuns
  import opened Wrappers

  predicate InOrder(rows: seq<Transaction>) {
    forall i, j :: 0 <= i < j < |rows| ==> AtOrBefore(PlaceOf(rows[i]), PlaceOf(rows[j]))
  }

  predicate DistinctIds(rows: seq<Transaction>) {
    forall i, j :: 0 <= i < j < |rows| ==> rows[i].id != rows[j].id
  }

  predicate Listed(t: Transaction, account: nat, includeCrossedOut: bool) {
    t.account == account && (includeCrossedOut || !t.crossedOut)
  }

  function Splice(rows: seq<Transaction>, k: nat, t: Transaction): seq<Transaction>
    requires k <= |rows|
  {
    rows[..k] + [t] + rows[k..]
  }

  /** Where a row is put: after the last one not later than itself. */
  lemma {:induction false} InsertedAt(rows: seq<Transaction>, t: Transaction) returns (k: nat)
    ensures k <= |rows| && InsertByPlace(rows, t) == Splice(rows, k, t)
    ensures k > 0 ==> AtOrBefore(PlaceOf(rows[k - 1]), PlaceOf(t))
    ensures forall i :: k <= i < |rows| ==> AtOrBefore(PlaceOf(t), PlaceOf(rows[i]))
  {
    k := |rows|;
    if rows != [] && !AtOrBefore(PlaceOf(rows[k - 1]), PlaceOf(t)) {
      var n := |rows| - 1;
      k := InsertedAt(rows[..n], t);
      assert rows[..n][..k] == rows[..k] && rows[k..] == rows[..n][k..] + [rows[n]];
      assert Splice(rows[..n], k, t) + [rows[n]] == Splice(rows, k, t);
    } else {
      assert Splice(rows, k, t) == rows + [t];
    }
  }

  lemma SpliceSorts(rows: seq<Transaction>, k: nat, t: Transaction)
    requires InOrder(rows) && k <= |rows|
    requires k > 0 ==> AtOrBefore(PlaceOf(rows[k - 1]), PlaceOf(t))
    requires forall i :: k <= i < |rows| ==> AtOrBefore(PlaceOf(t), PlaceOf(rows[i]))
    ensures InOrder(Splice(rows, k, t))
  {
    var l := Splice(rows, k, t);
    forall i, j | 0 <= i < j < |l| ensures AtOrBefore(PlaceOf(l[i]), PlaceOf(l[j])) {
      assert i < k ==> l[i] == rows[i] && AtOrBefore(PlaceOf(rows[i]), PlaceOf(rows[k - 1]));
      assert j > k ==> l[j] == rows[j - 1];
    }
  }

  lemma SpliceMembers(rows: seq<Transaction>, k: nat, t: Transaction)
    requires k <= |rows|
    ensures forall u :: u in Splice(rows, k, t) <==> u in rows || u == t
    ensures DistinctIds(rows) && (forall i :: 0 <= i < |rows| ==> rows[i].id != t.id) ==> DistinctIds(Splice(rows, k, t))
  {
    assert rows == rows[..k] + rows[k..];
  }

  /** The listing holds exactly the account's rows, each once, in order. */
  lemma {:induction false} AccountLedgerIsOrdered(rows: seq<Transaction>, account: nat, includeCrossedOut: bool)
    requires DistinctIds(rows)
    ensures var l := AccountLedger(rows, account, includeCrossedOut);
            && InOrder(l) && DistinctIds(l)
            && forall t :: t in l <==> t in rows && Listed(t, account, includeCrossedOut)
  {
    if rows != [] {
      var n := |rows| - 1;
      var earlier := AccountLedger(rows[..n], account, includeCrossedOut);
      AccountLedgerIsOrdered(rows[..n], account, includeCrossedOut);
      assert rows == rows[..n] + [rows[n]];
      assert rows[n] !in rows[..n];
      if Listed(rows[n], account, includeCrossedOut) {
        LastIdIsNew(rows, earlier);
        var k := InsertedAt(earlier, rows[n]);
        SpliceSorts(earlier, k, rows[n]);
        SpliceMembers(earlier, k, rows[n]);
      }
    }
  }

  lemma LastIdIsNew(rows: seq<Transaction>, some: seq<Transaction>)
    requires DistinctIds(rows) && rows != []
    requires forall t :: t in some ==> t in rows[..|rows| - 1]
    ensures forall i :: 0 <= i < |some| ==> some[i].id != rows[|rows| - 1].id
  {
    forall i | 0 <= i < |some| ensures some[i].id != rows[|rows| - 1].id {
      assert some[i] in some;
      var j :| 0 <= j < |rows| - 1 && rows[..|rows| - 1][j] == some[i];
      assert rows[j] == some[i];
    }
  }

  // ---------------------------------------------------- running balances

  lemma {:induction false} InsertBalance(rows: seq<Transaction>, t: Transaction, account: nat, cut: Cut)
    ensures Balance(InsertByPlace(rows, t), account, cut) == Balance(rows, account, cut) + Weight(t, account, cut)
  {
    if rows == [] || AtOrBefore(PlaceOf(rows[|rows| - 1]), PlaceOf(t)) {
      BalanceAppend(rows, t, account, cut);
    } else {
      var n := |rows| - 1;
      InsertBalance(rows[..n], t, account, cut);
      BalanceAppend(InsertByPlace(rows[..n], t), rows[n], account, cut);
    }
  }

  /** Listing keeps every balance, whether or not the crossed-out rows are shown. */
  lemma {:induction false} LedgerBalance(rows: seq<Transaction>, account: nat, includeCrossedOut: bool, cut: Cut)
    ensures Balance(AccountLedger(rows, account, includeCrossedOut), account, cut) == Balance(rows, account, cut)
  {
    if rows != [] {
      var n := |rows| - 1;
      LedgerBalance(rows[..n], account, includeCrossedOut, cut);
      if Listed(rows[n], account, includeCrossedOut) {
        InsertBalance(AccountLedger(rows[..n], account, includeCrossedOut), rows[n], account, cut);
      }
    }
  }

  lemma {:induction false} AllWithin(rows: seq<Transaction>, account: nat, place: Place)
    requires forall i :: 0 <= i < |rows| ==> AtOrBefore(PlaceOf(rows[i]), place)
    ensures Balance(rows, account, UpTo(place)) == Balance(rows, account, Everything)
  {
    if rows != [] { AllWithin(rows[..|rows| - 1], account, place); }
  }

  /** Down an ordered list, what has been added so far is the balance at that row's place. */
  lemma {:induction false} PrefixIsUpTo(rows: seq<Transaction>, i: nat, account: nat)
    requires InOrder(rows) && DistinctIds(rows) && i < |rows|
    ensures Balance(rows, account, UpTo(PlaceOf(rows[i]))) == Balance(rows[..i + 1], account, Everything)
    decreases |rows|
  {
    var n := |rows| - 1;
    if i == n {
      assert rows[..i + 1] == rows;
      AllWithin(rows, account, PlaceOf(rows[i]));
    } else {
      assert rows[..n][..i + 1] == rows[..i + 1];
      PrefixIsUpTo(rows[..n], i, account);
      assert !AtOrBefore(PlaceOf(rows[n]), PlaceOf(rows[i]));
    }
  }

  // --------------------------------------------------------- what shifts

  /** The balance after the row at a place: what the ledger shows beside it. */
  function RunningAt(b: Book, account: nat, place: Place): int {
    Balance(b.rows, account, UpTo(place))
  }

  function Change(t: Transaction, account: nat, place: Place): int {
    Weight(t, account, UpTo(place))
  }

  /** Recording, even backdated, moves exactly the places at or after the new row, by its signed amount. */
  lemma RecordingShifts(b: Book, account: nat, actor: nat, now: int, input: EntryInput, a: nat, place: Place)
    requires Record(b, account, actor, now, input).1.Entered?
    ensures var (c, r) := Record(b, account, actor, now, input);
            RunningAt(c, a, place) == RunningAt(b, a, place)
              + if a == account && AtOrBefore(PlaceOf(r.entry), place) then SignedAmount(r.entry) else 0
  {
    var row := Record(b, account, actor, now, input).1.entry;
    BalanceAppend(b.rows, row, a, UpTo(place));
  }

  /** Editing, which may also move the date: the old row's effect goes, the new one's comes. */
  lemma EditingShifts(b: Book, id: nat, actor: nat, input: EditInput, a: nat, place: Place)
    requires Sound(b) && Edit(b, id, actor, input).1 == Done
    ensures var old_ := FindById(b.rows, id).value;
            var new_ := EditedRow(b, old_, input);
            && RunningAt(Edit(b, id, actor, input).0, a, place)
               == RunningAt(b, a, place) - Change(old_, a, place) + Change(new_, a, place)
            && (!old_.crossedOut && new_.occurredAt == old_.occurredAt ==>
                RunningAt(Edit(b, id, actor, input).0, a, place) == RunningAt(b, a, place)
                + if a == old_.account && AtOrBefore(PlaceOf(old_), place) then SignedAmount(new_) - SignedAmount(old_) else 0)
            && (old_.crossedOut ==> RunningAt(Edit(b, id, actor, input).0, a, place) == RunningAt(b, a, place))
  {
    var i := FindByIdFinds(b.rows, id);
    BalanceReplace(b.rows, i, EditedRow(b, b.rows[i], input), a, UpTo(place));
  }

  /** Crossing out takes the row's signed amount from exactly the places at or after it. */
  lemma CrossingOutShifts(b: Book, id: nat, actor: nat, a: nat, place: Place)
    requires Sound(b) && CrossOut(b, id, actor).1 == Done
    ensures var t := FindById(b.rows, id).value;
            RunningAt(CrossOut(b, id, actor).0, a, place) == RunningAt(b, a, place)
              - if a == t.account && AtOrBefore(PlaceOf(t), place) then SignedAmount(t) else 0
  {
    var i := FindByIdFinds(b.rows, id);
    BalanceReplace(b.rows, i, b.rows[i].(crossedOut := true), a, UpTo(place));
  }

  // ---------------------------------------------------------- the reader

  datatype LedgerEntry = LedgerEntry(row: Transaction, running: Option<int>)

  /** The entries stand for the rows, each live one with the balance at its place. */
  predicate ShowsRows(b: Book, account: nat, rows: seq<Transaction>, out: seq<LedgerEntry>) {
    && |out| == |rows|
    && forall i :: 0 <= i < |rows| ==>
         && out[i].row == rows[i]
         && out[i].running == if rows[i].crossedOut then None else Some(RunningAt(b, account, PlaceOf(rows[i])))
  }

  predicate ShowsLedger(b: Book, account: nat, includeCrossedOut: bool, out: seq<LedgerEntry>) {
    ShowsRows(b, account, AccountLedger(b.rows, account, includeCrossedOut), out)
  }

  lemma SoundHasDistinctIds(b: Book)
    requires Sound(b)
    ensures DistinctIds(b.rows)
  {
  }

  /** One row further down the listing: what has been added up so far is its running balance. */
  lemma RowAdds(b: Book, account: nat, includeCrossedOut: bool, i: nat)
    requires Sound(b) && i < |AccountLedger(b.rows, account, includeCrossedOut)|
    ensures var rows := AccountLedger(b.rows, account, includeCrossedOut);
            && RunningAt(b, account, PlaceOf(rows[i])) == Balance(rows[..i + 1], account, Everything)
            && Balance(rows[..i + 1], account, Everything)
               == Balance(rows[..i], account, Everything) + if rows[i].crossedOut then 0 else SignedAmount(rows[i])
  {
    var rows := AccountLedger(b.rows, account, includeCrossedOut);
    SoundHasDistinctIds(b);
    AccountLedgerIsOrdered(b.rows, account, includeCrossedOut);
    PrefixIsUpTo(rows, i, account);
    LedgerBalance(b.rows, account, includeCrossedOut, UpTo(PlaceOf(rows[i])));
    assert rows[..i + 1] == rows[..i] + [rows[i]];
    assert rows[i] in rows;
    BalanceAppend(rows[..i], rows[i], account, Everything);
  }

  lemma ShowsOneMore(b: Book, account: nat, rows: seq<Transaction>, i: nat, out: seq<LedgerEntry>, entry: LedgerEntry)
    requires i < |rows| && ShowsRows(b, account, rows[..i], out) && entry.row == rows[i]
    requires entry.running == if rows[i].crossedOut then None else Some(RunningAt(b, account, PlaceOf(rows[i])))
    ensures ShowsRows(b, account, rows[..i + 1], out + [entry])
  {
  }

  /** BR-10, BR-11: walk the rows once, adding as you go. */
  method Ledger(b: Book, account: nat, includeCrossedOut: bool) returns (out: seq<LedgerEntry>)
    requires Sound(b)
    ensures ShowsLedger(b, account, includeCrossedOut, out)
  {
    var rows := AccountLedger(b.rows, account, includeCrossedOut);
    var running := 0;
    out := [];
    for i := 0 to |rows|
      invariant running == Balance(rows[..i], account, Everything)
      invariant ShowsRows(b, account, rows[..i], out)
    {
      RowAdds(b, account, includeCrossedOut, i);
      var balance := None;
      if !rows[i].crossedOut {
        running := running + SignedAmount(rows[i]);
        balance := Some(running);
      }
      ShowsOneMore(b, account, rows, i, out, LedgerEntry(rows[i], balance));
      out := out + [LedgerEntry(rows[i], balance)];
    }
    assert rows[..|rows|] == rows;
  }

  /** The ledger as it is read: by date and then by number, every row of the account, or every live one, once. */
  lemma LedgerReads(b: Book, account: nat, includeCrossedOut: bool, out: seq<LedgerEntry>)
    requires Sound(b) && ShowsLedger(b, account, includeCrossedOut, out)
    ensures forall i, j :: 0 <= i < j < |out| ==>
      || out[i].row.occurredAt < out[j].row.occurredAt
      || (out[i].row.occurredAt == out[j].row.occurredAt && out[i].row.id < out[j].row.id)
    ensures forall i :: 0 <= i < |out| ==>
      out[i].row in b.rows && out[i].row.account == account && (!out[i].row.crossedOut || includeCrossedOut)
    ensures forall t :: t in b.rows && t.account == account && (!t.crossedOut || includeCrossedOut) ==>
      exists i :: 0 <= i < |out| && out[i].row == t
    ensures forall i :: 0 <= i < |out| ==> (out[i].running == None <==> out[i].row.crossedOut)
  {
    var rows := AccountLedger(b.rows, account, includeCrossedOut);
    SoundHasDistinctIds(b);
    AccountLedgerIsOrdered(b.rows, account, includeCrossedOut);
    forall i, j | 0 <= i < j < |out|
      ensures out[i].row.occurredAt < out[j].row.occurredAt
           || (out[i].row.occurredAt == out[j].row.occurredAt && out[i].row.id < out[j].row.id)
    {
      assert out[i].row == rows[i] && out[j].row == rows[j];
      assert AtOrBefore(PlaceOf(rows[i]), PlaceOf(rows[j])) && rows[i].id != rows[j].id;
    }
    forall i | 0 <= i < |out|
      ensures out[i].row in b.rows && out[i].row.account == account && (!out[i].row.crossedOut || includeCrossedOut)
    {
      assert rows[i] in rows && Listed(rows[i], account, includeCrossedOut);
    }
    forall t | t in b.rows && t.account == account && (!t.crossedOut || includeCrossedOut)
      ensures exists i :: 0 <= i < |out| && out[i].row == t
    {
      assert t in rows;
      var i :| 0 <= i < |rows| && rows[i] == t;
      assert out[i].row == t;
    }
  }

  /** What a live row shows is what the live row before it shows and its own amount, up for a credit, down for a payment. */
  lemma RunningMoves(b: Book, account: nat, includeCrossedOut: bool, out: seq<LedgerEntry>, i: nat, j: nat)
    requires Sound(b) && ShowsLedger(b, account, includeCrossedOut, out)
    requires i <= j < |out| && out[j].running.Some? && forall k :: i < k < j ==> out[k].running == None
    ensures var added := if out[j].row.kind == Credit then out[j].row.amount else -out[j].row.amount;
            && (i < j && out[i].running.Some? ==> out[j].running.value == out[i].running.value + added)
            && (i == 0 && (i == j || out[i].running == None) ==> out[j].running.value == added)
  {
    var rows := AccountLedger(b.rows, account, includeCrossedOut);
    RowAdds(b, account, includeCrossedOut, j);
    if i < j {
      RowAdds(b, account, includeCrossedOut, i);
      assert forall k :: i < k < j ==> rows[k].crossedOut;
      DeadTail(rows[..j], i + 1, account);
      assert rows[..j][..i + 1] == rows[..i + 1];
      if i == 0 { assert rows[..0] == []; }
    }
  }

  /** Past the last live row nothing changes, so its running balance is the whole balance. */
  lemma LastLiveShowsBalance(b: Book, account: nat, includeCrossedOut: bool, out: seq<LedgerEntry>, i: nat)
    requires Sound(b) && account in b.accounts && ShowsLedger(b, account, includeCrossedOut, out)
    requires i < |out| && out[i].running.Some? && forall j :: i < j < |out| ==> out[j].running.None?
    ensures out[i].running == Some(b.accounts[account].balance)
  {
    var rows := AccountLedger(b.rows, account, includeCrossedOut);
    SoundHasDistinctIds(b);
    AccountLedgerIsOrdered(b.rows, account, includeCrossedOut);
    LedgerBalance(b.rows, account, includeCrossedOut, UpTo(PlaceOf(rows[i])));
    LedgerBalance(b.rows, account, includeCrossedOut, Everything);
    PrefixIsUpTo(rows, i, account);
    assert forall j :: i < j < |rows| ==> rows[j].crossedOut;
    DeadTail(rows, i + 1, account);
    assert Counted(b, account);
  }

  lemma {:induction false} DeadTail(rows: seq<Transaction>, i: nat, account: nat)
    requires i <= |rows| && forall j :: i <= j < |rows| ==> rows[j].crossedOut
    ensures Balance(rows[..i], account, Everything) == Balance(rows, account, Everything)
    decreases |rows|
  {
    var n := |rows| - 1;
    if i <= n {
      assert rows[..n][..i] == rows[..i];
      DeadTail(rows[..n], i, account);
    } else {
      assert rows[..i] == rows;
    }
  }

  /** A live row shows the same running balance whether or not the crossed-out rows are listed. */
  lemma CrossedOutRowsShiftNothing(b: Book, account: nat, full: seq<LedgerEntry>, short: seq<LedgerEntry>, i: nat)
    requires Sound(b) && ShowsLedger(b, account, true, full) && ShowsLedger(b, account, false, short)
    requires i < |full|
    ensures full[i].running.Some? <==> !full[i].row.crossedOut
    ensures full[i] in short <==> !full[i].row.crossedOut
  {
    var all := AccountLedger(b.rows, account, true);
    var live := AccountLedger(b.rows, account, false);
    SoundHasDistinctIds(b);
    AccountLedgerIsOrdered(b.rows, account, true);
    AccountLedgerIsOrdered(b.rows, account, false);
    assert all[i] in all;
    if !full[i].row.crossedOut {
      assert all[i] in live;
      var j :| 0 <= j < |live| && live[j] == all[i];
      assert short[j] == full[i];
    }
    forall j | 0 <= j < |short| ensures !short[j].row.crossedOut {
      assert live[j] in live;
    }
  }

  predicate Reverses(page: seq<LedgerEntry>, ledger: seq<LedgerEntry>) {
    |page| == |ledger| && forall i :: 0 <= i < |page| ==> page[i] == ledger[|page| - 1 - i]
  }

  method TurnRound(page: array<LedgerEntry>)
    modifies page
    ensures Reverses(page[..], old(page[..]))
  {
    ghost var was := page[..];
    var i, j := 0, page.Length - 1;
    while i < j
      invariant 0 <= i <= j + 2 && i + j == page.Length - 1
      invariant forall k :: 0 <= k < i ==> page[k] == was[page.Length - 1 - k] && page[page.Length - 1 - k] == was[k]
      invariant forall k :: i <= k <= j ==> page[k] == was[k]
    {
      page[i], page[j] := page[j], page[i];
      i, j := i + 1, j - 1;
    }
  }

  /** The page's first live row, when the page is newest first, shows the account's whole balance. */
  lemma FirstLiveShowsBalance(b: Book, account: nat, page: seq<LedgerEntry>, ledger: seq<LedgerEntry>, i: nat)
    requires Sound(b) && account in b.accounts && ShowsLedger(b, account, true, ledger) && Reverses(page, ledger)
    requires i < |page| && page[i].running.Some? && forall j :: 0 <= j < i ==> page[j].running.None?
    ensures page[i].running == Some(b.accounts[account].balance)
  {
    var n := |page|;
    forall m | n - 1 - i < m < n ensures ledger[m].running.None? {
      assert page[n - 1 - m] == ledger[m];
    }
    LastLiveShowsBalance(b, account, true, ledger, n - 1 - i);
  }

  /** The account page: the whole ledger, newest first, turned round in place. */
  method AccountPage(b: Book, account: nat) returns (page: array<LedgerEntry>)
    requires Sound(b)
    ensures fresh(page)
    ensures exists ledger: seq<LedgerEntry> :: ShowsLedger(b, account, true, ledger) && Reverses(page[..], ledger)
  {
    var ledger := Ledger(b, account, true);
    page := new LedgerEntry[|ledger|](k requires 0 <= k < |ledger| => ledger[k]);
    assert page[..] == ledger;
    TurnRound(page);
  }

  /** The printable statement: live rows only, debits and credits added up separately. */
  method Statement(b: Book, account: nat) returns (rows: seq<LedgerEntry>, debit: int, credit: int)
    requires Sound(b)
    ensures ShowsLedger(b, account, false, rows)
    ensures debit == Total(b.rows, account, Credit) && credit == Total(b.rows, account, Payment)
    ensures account in b.accounts ==> debit - credit == b.accounts[account].balance
  {
    rows := Ledger(b, account, false);
    ghost var listed := AccountLedger(b.rows, account, false);
    SoundHasDistinctIds(b);
    AccountLedgerIsOrdered(b.rows, account, false);
    debit, credit := 0, 0;
    for i := 0 to |rows|
      invariant debit == Total(listed[..i], account, Credit)
      invariant credit == Total(listed[..i], account, Payment)
    {
      ListedNext(listed, i, account);
      assert listed[i] in listed;
      if rows[i].row.kind == Credit {
        debit := debit + rows[i].row.amount;
      } else {
        credit := credit + rows[i].row.amount;
      }
    }
    assert listed[..|rows|] == listed;
    LedgerTotal(b.rows, account, Credit);
    LedgerTotal(b.rows, account, Payment);
    BalanceIsCreditsLessPayments(b.rows, account);
    assert account in b.accounts ==> Counted(b, account);
  }

  /** What a row adds to one side of the statement. */
  function Counts(t: Transaction, account: nat, kind: Kind): int {
    if Live(t, account) && t.kind == kind then t.amount else 0
  }

  lemma ListedNext(rows: seq<Transaction>, i: nat, account: nat)
    requires i < |rows|
    ensures forall kind :: Total(rows[..i + 1], account, kind) == Total(rows[..i], account, kind) + Counts(rows[i], account, kind)
  {
    assert rows[..i + 1][..i] == rows[..i];
  }

  lemma TotalAppend(rows: seq<Transaction>, t: Transaction, account: nat, kind: Kind)
    ensures Total(rows + [t], account, kind)
         == Total(rows, account, kind) + if Live(t, account) && t.kind == kind then t.amount else 0
  {
    assert (rows + [t])[..|rows|] == rows;
  }

  lemma {:induction false} InsertTotal(rows: seq<Transaction>, t: Transaction, account: nat, kind: Kind)
    ensures Total(InsertByPlace(rows, t), account, kind)
         == Total(rows, account, kind) + if Live(t, account) && t.kind == kind then t.amount else 0
  {
    if rows == [] || AtOrBefore(PlaceOf(rows[|rows| - 1]), PlaceOf(t)) {
      TotalAppend(rows, t, account, kind);
    } else {
      var n := |rows| - 1;
      InsertTotal(rows[..n], t, account, kind);
      TotalAppend(InsertByPlace(rows[..n], t), rows[n], account, kind);
    }
  }

  lemma {:induction false} LedgerTotal(rows: seq<Transaction>, account: nat, kind: Kind)
    ensures Total(AccountLedger(rows, account, false), account, kind) == Total(rows, account, kind)
  {
    if rows != [] {
      var n := |rows| - 1;
      LedgerTotal(rows[..n], account, kind);
      if Listed(rows[n], account, false) {
        InsertTotal(AccountLedger(rows[..n], account, false), rows[n], account, kind);
      }
    }
  }
}
