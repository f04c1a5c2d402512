/**
 * What every run of recording, editing, crossing out, opening and removing keeps true of the book: the
 * cached balances, the itemized amounts, and one row per idempotency key.
 */
module BookRuns {
  import opened Book
  import opened Widths
  import opened Wrappers
  import Money

  // -------------------------------------------------------- invariants

  predicate IdsIncrease(rows: seq<Transaction>, bound: nat) {
    && (forall i, j :: 0 <= i < j < |rows| ==> rows[i].id < rows[j].id)
    && (forall i :: 0 <= i < |rows| ==> rows[i].id < bound)
  }

  predicate KeysDistinct(rows: seq<Transaction>) {
    forall i, j :: 0 <= i < j < |rows| && rows[i].key.Some? ==> rows[i].key != rows[j].key
  }

  predicate AccountsOwn(b: Book) {
    && (forall i :: 0 <= i < |b.rows| ==> b.rows[i].account in b.accounts)
    && (forall a :: a in b.accounts ==> a < b.nextAccount)
    && (forall i :: 0 <= i < |b.lines| ==> b.lines[i].entry < b.nextRow)
  }

  /** A credit with line items owes what they add up to, in 64 bits; other rows have none. */
  predicate AmountHolds(b: Book, t: Transaction) {
    && t.amount > 0
    && (HasLines(b.lines, t.id) ==>
          t.itemized && t.kind == Credit && t.amount == ToInt64(LineItemsTotal(b.lines, t.id)))
  }

  predicate AmountsHold(b: Book) {
    forall i :: 0 <= i < |b.rows| ==> AmountHolds(b, b.rows[i])
  }

  /** m is the latest date among the account's live rows; None when it has none. */
  predicate IsLatest(m: Option<int>, rows: seq<Transaction>, account: nat) {
    match m
    case None => forall i :: 0 <= i < |rows| ==> !Live(rows[i], account)
    case Some(at) =>
      && (exists i :: 0 <= i < |rows| && Live(rows[i], account) && rows[i].occurredAt == at)
      && (forall i :: 0 <= i < |rows| && Live(rows[i], account) ==> rows[i].occurredAt <= at)
  }

  predicate Counted(b: Book, account: nat)
    requires account in b.accounts
  {
    && b.accounts[account].balance == Balance(b.rows, account, Everything)
    && IsLatest(b.accounts[account].lastActivity, b.rows, account)
  }

  predicate AllCounted(b: Book) {
    forall a :: a in b.accounts ==> Counted(b, a)
  }

  predicate Sound(b: Book) {
    && IdsIncrease(b.rows, b.nextRow)
    && KeysDistinct(b.rows)
    && AccountsOwn(b)
    && AmountsHold(b)
    && AllCounted(b)
  }

  // -------------------------------------------------------------- sums

  lemma BalanceAppend(rows: seq<Transaction>, t: Transaction, account: nat, cut: Cut)
    ensures Balance(rows + [t], account, cut) == Balance(rows, account, cut) + Weight(t, account, cut)
  {
    assert (rows + [t])[..|rows|] == rows;
  }

  /** Rewriting one row changes a sum by that row's own change. */
  lemma {:induction false} BalanceReplace(rows: seq<Transaction>, i: nat, row: Transaction, account: nat, cut: Cut)
    requires i < |rows| && rows[i].id == row.id
    requires forall j, k :: 0 <= j < k < |rows| ==> rows[j].id < rows[k].id
    ensures Balance(Replace(rows, row.id, row), account, cut)
         == Balance(rows, account, cut) - Weight(rows[i], account, cut) + Weight(row, account, cut)
  {
    var n := |rows| - 1;
    var replaced := Replace(rows, row.id, row);
    assert replaced[..n] == Replace(rows[..n], row.id, row);
    if i < n {
      BalanceReplace(rows[..n], i, row, account, cut);
      assert replaced[n] == rows[n];
    } else {
      assert Replace(rows[..n], row.id, row) == rows[..n];
      assert replaced[n] == row;
    }
  }

  lemma {:induction false} BalanceWithout(rows: seq<Transaction>, gone: nat, account: nat, cut: Cut)
    requires gone != account
    ensures Balance(RowsWithout(rows, gone), account, cut) == Balance(rows, account, cut)
  {
    if rows != [] {
      var n := |rows| - 1;
      BalanceWithout(rows[..n], gone, account, cut);
      var kept := RowsWithout(rows[..n], gone);
      if rows[n].account != gone {
        assert RowsWithout(rows, gone) == kept + [rows[n]];
        BalanceAppend(kept, rows[n], account, cut);
      } else {
        assert RowsWithout(rows, gone) == kept;
      }
    }
  }

  /** The balance is what was credited less what was paid. */
  lemma {:induction false} BalanceIsCreditsLessPayments(rows: seq<Transaction>, account: nat)
    ensures Balance(rows, account, Everything) == Total(rows, account, Credit) - Total(rows, account, Payment)
  {
    if rows != [] {
      BalanceIsCreditsLessPayments(rows[..|rows| - 1], account);
    }
  }

  lemma {:induction false} LatestIsLatest(rows: seq<Transaction>, account: nat)
    ensures IsLatest(Latest(rows, account), rows, account)
  {
    if rows != [] {
      var n := |rows| - 1;
      LatestIsLatest(rows[..n], account);
      if Latest(rows, account).Some? {
        if Latest(rows, account) == Latest(rows[..n], account) {
          var i :| 0 <= i < n && Live(rows[..n][i], account) && rows[..n][i].occurredAt == Latest(rows, account).value;
          assert Live(rows[i], account) && rows[i].occurredAt == Latest(rows, account).value;
        } else {
          assert Live(rows[n], account) && rows[n].occurredAt == Latest(rows, account).value;
        }
        forall i | 0 <= i < |rows| && Live(rows[i], account)
          ensures rows[i].occurredAt <= Latest(rows, account).value
        {
          if i < n { assert Live(rows[..n][i], account); }
        }
      } else {
        assert forall i :: 0 <= i < n ==> !Live(rows[..n][i], account);
      }
    }
  }

  /** Recomputing one account's balance after its rows changed leaves every account counted. */
  lemma RecomputeCounts(b: Book, account: nat)
    requires forall a :: a in b.accounts && a != account ==> Counted(b, a)
    ensures AllCounted(RecomputeBalance(b, account))
    ensures RecomputeBalance(b, account).accounts.Keys == b.accounts.Keys
  {
    LatestIsLatest(b.rows, account);
    var c := RecomputeBalance(b, account);
    forall a | a in c.accounts
      ensures Counted(c, a)
    {
      assert a != account ==> Counted(b, a) && c.accounts[a] == b.accounts[a];
    }
  }

  // ------------------------------------------------------------ finding

  lemma {:induction false} FindByKeyFinds(rows: seq<Transaction>, key: Key)
    ensures var found := FindByKey(rows, key);
            if found.Some? then (exists i :: 0 <= i < |rows| && rows[i] == found.value && rows[i].key == Some(key))
            else (forall i :: 0 <= i < |rows| ==> rows[i].key != Some(key))
  {
    if rows != [] {
      var n := |rows| - 1;
      FindByKeyFinds(rows[..n], key);
      if rows[n].key != Some(key) && FindByKey(rows, key).Some? {
        var i :| 0 <= i < n && rows[..n][i] == FindByKey(rows, key).value && rows[..n][i].key == Some(key);
        assert rows[i] == FindByKey(rows, key).value;
      } else if FindByKey(rows, key).None? {
        assert forall i :: 0 <= i < n ==> rows[..n][i] == rows[i];
      }
    }
  }

  lemma {:induction false} FindByIdFinds(rows: seq<Transaction>, id: nat) returns (i: nat)
    ensures FindById(rows, id).Some? ==> i < |rows| && rows[i] == FindById(rows, id).value && rows[i].id == id
    ensures FindById(rows, id).None? ==> forall j :: 0 <= j < |rows| ==> rows[j].id != id
  {
    i := 0;
    if rows != [] {
      var n := |rows| - 1;
      if rows[n].id == id {
        i := n;
      } else {
        i := FindByIdFinds(rows[..n], id);
        assert forall j :: 0 <= j < n ==> rows[..n][j] == rows[j];
      }
    }
  }

  // ------------------------------------------------------------- lines

  lemma {:induction false} LineItemsTotalAppend(lines: seq<LineItem>, more: seq<Line>, newest: nat, entry: nat)
    requires forall i :: 0 <= i < |lines| ==> lines[i].entry != newest
    ensures LineItemsTotal(lines + Stored(more, newest), entry)
         == if entry == newest then ExactSum(more) else LineItemsTotal(lines, entry)
  {
    if more == [] {
      assert lines + Stored(more, newest) == lines;
      if entry == newest { NoLinesNoTotal(lines, entry); }
    } else {
      var n := |more| - 1;
      var all := lines + Stored(more, newest);
      assert all[..|all| - 1] == lines + Stored(more[..n], newest);
      LineItemsTotalAppend(lines, more[..n], newest, entry);
    }
  }

  lemma {:induction false} NoLinesNoTotal(lines: seq<LineItem>, entry: nat)
    requires forall i :: 0 <= i < |lines| ==> lines[i].entry != entry
    ensures LineItemsTotal(lines, entry) == 0
  {
    if lines != [] { NoLinesNoTotal(lines[..|lines| - 1], entry); }
  }

  lemma LinesAppend(lines: seq<LineItem>, line: LineItem, entry: nat)
    ensures LineItemsTotal(lines + [line], entry)
         == LineItemsTotal(lines, entry) + if line.entry == entry then Money.ExactLineTotal(line.quantity, line.unitPrice) else 0
    ensures HasLines(lines + [line], entry) ==> HasLines(lines, entry) || line.entry == entry
  {
    assert (lines + [line])[..|lines|] == lines;
    if HasLines(lines + [line], entry) && line.entry != entry {
      var i :| 0 <= i < |lines| + 1 && (lines + [line])[i].entry == entry;
      assert lines[i].entry == entry;
    }
  }

  lemma {:induction false} LinesWithoutKeeps(lines: seq<LineItem>, gone: set<nat>, entry: nat)
    requires entry !in gone
    ensures LineItemsTotal(LinesWithout(lines, gone), entry) == LineItemsTotal(lines, entry)
    ensures HasLines(LinesWithout(lines, gone), entry) ==> HasLines(lines, entry)
  {
    if lines != [] {
      var n := |lines| - 1;
      LinesWithoutKeeps(lines[..n], gone, entry);
      var kept := LinesWithout(lines[..n], gone);
      if HasLines(lines[..n], entry) {
        var i :| 0 <= i < n && lines[..n][i].entry == entry;
        assert lines[i].entry == entry;
      }
      if lines[n].entry in gone {
        assert LinesWithout(lines, gone) == kept;
      } else {
        assert LinesWithout(lines, gone) == kept + [lines[n]];
        LinesAppend(kept, lines[n], entry);
      }
    }
  }

  lemma {:induction false} LinesWithoutOwned(lines: seq<LineItem>, gone: set<nat>, bound: nat)
    requires forall i :: 0 <= i < |lines| ==> lines[i].entry < bound
    ensures forall i :: 0 <= i < |LinesWithout(lines, gone)| ==> LinesWithout(lines, gone)[i].entry < bound
  {
    if lines != [] { LinesWithoutOwned(lines[..|lines| - 1], gone, bound); }
  }

  // ----------------------------------------------------- each operation

  lemma EnterKeeps(b: Book, account: nat, actor: nat, now: int, input: EntryInput)
    requires Sound(b) && account in b.accounts && EntryFaults(input) == []
    requires input.key.Some? ==> FindByKey(b.rows, input.key.value).None?
    ensures Sound(Enter(b, account, actor, now, input))
  {
    var row := NewRow(b, account, now, input);
    var c := Enter(b, account, actor, now, input);
    var inserted := b.(rows := b.rows + [row], nextRow := b.nextRow + 1,
                       lines := b.lines + Stored(EntryLines(input), row.id));
    AppendRow(b.rows, row);
    OthersCounted(b, inserted, row);
    RecomputeCounts(inserted, account);
    EnteredAmounts(b, account, now, input);
    SameRowsCounted(RecomputeBalance(inserted, account), c);
  }

  /** A row more leaves the other accounts' cached fields right. */
  lemma OthersCounted(b: Book, inserted: Book, row: Transaction)
    requires AllCounted(b) && inserted.rows == b.rows + [row] && inserted.accounts == b.accounts
    ensures forall a :: a in b.accounts && a != row.account ==> Counted(inserted, a)
  {
    forall a | a in b.accounts && a != row.account
      ensures Counted(inserted, a)
    {
      assert Counted(b, a);
      BalanceAppend(b.rows, row, a, Everything);
      LatestUnchanged(b.rows, inserted.rows, a, b.accounts[a].lastActivity);
    }
  }

  lemma AppendRow(rows: seq<Transaction>, row: Transaction)
    requires IdsIncrease(rows, row.id) && KeysDistinct(rows)
    requires row.key.Some? ==> FindByKey(rows, row.key.value).None?
    ensures IdsIncrease(rows + [row], row.id + 1) && KeysDistinct(rows + [row])
  {
    if row.key.Some? { FindByKeyFinds(rows, row.key.value); }
  }

  lemma EnteredAmounts(b: Book, account: nat, now: int, input: EntryInput)
    requires AccountsOwn(b) && AmountsHold(b) && IdsIncrease(b.rows, b.nextRow) && EntryFaults(input) == []
    ensures var row := NewRow(b, account, now, input);
            var lines := b.lines + Stored(EntryLines(input), row.id);
            forall c: Book :: c.rows == b.rows + [row] && c.lines == lines ==> AmountsHold(c)
  {
    var row := NewRow(b, account, now, input);
    var more := EntryLines(input);
    var lines := b.lines + Stored(more, row.id);
    assert Positive(EntryAmount(input));
    LineItemsTotalAppend(b.lines, more, row.id, row.id);
    SumWraps(more);
    assert HasLines(lines, row.id) ==> more != [];
    forall i | 0 <= i < |b.rows|
      ensures HasLines(lines, b.rows[i].id) ==> HasLines(b.lines, b.rows[i].id)
      ensures LineItemsTotal(lines, b.rows[i].id) == LineItemsTotal(b.lines, b.rows[i].id)
    {
      LineItemsTotalAppend(b.lines, more, row.id, b.rows[i].id);
      if HasLines(lines, b.rows[i].id) {
        var j :| 0 <= j < |lines| && lines[j].entry == b.rows[i].id;
        assert j < |b.lines| && b.lines[j].entry == b.rows[i].id;
      }
    }
    forall c: Book | c.rows == b.rows + [row] && c.lines == lines
      ensures AmountsHold(c)
    {
      forall i | 0 <= i < |c.rows| ensures AmountHolds(c, c.rows[i]) {
        if i < |b.rows| { assert AmountHolds(b, b.rows[i]); }
      }
    }
  }

  /** Rows that are not live in an account do not move its latest date. */
  lemma LatestUnchanged(rows: seq<Transaction>, more: seq<Transaction>, account: nat, m: Option<int>)
    requires IsLatest(m, rows, account)
    requires |rows| <= |more|
    requires forall i :: 0 <= i < |rows| ==>
      (Live(more[i], account) <==> Live(rows[i], account)) && (Live(rows[i], account) ==> more[i].occurredAt == rows[i].occurredAt)
    requires forall i :: |rows| <= i < |more| ==> !Live(more[i], account)
    ensures IsLatest(m, more, account)
  {
    if m.Some? {
      var i :| 0 <= i < |rows| && Live(rows[i], account) && rows[i].occurredAt == m.value;
      assert Live(more[i], account) && more[i].occurredAt == m.value;
    }
  }

  /** Rewriting one row in place, keeping its id, account and key. */
  lemma RewriteKeeps(b: Book, i: nat, row: Transaction, action: Action, actor: nat)
    requires Sound(b) && i < |b.rows|
    requires row.id == b.rows[i].id && row.account == b.rows[i].account && row.key == b.rows[i].key
    requires AmountHolds(b, row)
    ensures Sound(Rewrite(b, row, action, actor))
  {
    var written := b.(rows := Replace(b.rows, row.id, row));
    var c := Rewrite(b, row, action, actor);
    ReplaceAt(b.rows, i, row, b.nextRow);
    forall a | a in b.accounts && a != row.account
      ensures Counted(written, a)
    {
      assert Counted(b, a);
      BalanceReplace(b.rows, i, row, a, Everything);
      LatestUnchanged(b.rows, written.rows, a, b.accounts[a].lastActivity);
    }
    RecomputeCounts(written, row.account);
    SameRowsCounted(RecomputeBalance(written, row.account), c);
    RewrittenAmounts(b, i, row, c);
  }

  lemma RewrittenAmounts(b: Book, i: nat, row: Transaction, c: Book)
    requires AmountsHold(b) && i < |b.rows| && AmountHolds(b, row)
    requires c.rows == b.rows[i := row] && c.lines == b.lines
    ensures AmountsHold(c)
  {
    forall j | 0 <= j < |c.rows| ensures AmountHolds(c, c.rows[j]) {
      if j != i { assert AmountHolds(b, b.rows[j]); }
    }
  }

  lemma SameRowsCounted(b: Book, c: Book)
    requires AllCounted(b) && c.rows == b.rows && c.accounts == b.accounts
    ensures AllCounted(c)
  {
    forall a | a in c.accounts ensures Counted(c, a) { assert Counted(b, a); }
  }

  lemma ReplaceAt(rows: seq<Transaction>, i: nat, row: Transaction, bound: nat)
    requires IdsIncrease(rows, bound) && KeysDistinct(rows) && i < |rows|
    requires row.id == rows[i].id && row.account == rows[i].account && row.key == rows[i].key
    ensures Replace(rows, row.id, row) == rows[i := row]
    ensures IdsIncrease(rows[i := row], bound) && KeysDistinct(rows[i := row])
  {
  }

  lemma EditKeeps(b: Book, id: nat, actor: nat, input: EditInput)
    requires Sound(b)
    ensures Sound(Edit(b, id, actor, input).0)
  {
    var i := FindByIdFinds(b.rows, id);
    if Edit(b, id, actor, input).1 == Done {
      var row := EditedRow(b, b.rows[i], input);
      assert AmountHolds(b, b.rows[i]);
      WrapsBy64(LineItemsTotal(b.lines, row.id), 0);
      RewriteKeeps(b, i, row, Edited, actor);
    }
  }

  lemma CrossOutKeeps(b: Book, id: nat, actor: nat)
    requires Sound(b)
    ensures Sound(CrossOut(b, id, actor).0)
  {
    var i := FindByIdFinds(b.rows, id);
    if FindById(b.rows, id).Some? && !b.rows[i].crossedOut {
      assert AmountHolds(b, b.rows[i]);
      RewriteKeeps(b, i, b.rows[i].(crossedOut := true), CrossedOut, actor);
    }
  }

  lemma OpenKeeps(b: Book)
    requires Sound(b)
    ensures Sound(OpenAccount(b))
  {
    var c := OpenAccount(b);
    assert b.nextAccount !in b.accounts;
    NoRowsNoBalance(b.rows, b.nextAccount);
    forall a | a in c.accounts ensures Counted(c, a) {
      if a != b.nextAccount { assert Counted(b, a); }
    }
    forall i | 0 <= i < |c.rows| ensures AmountHolds(c, c.rows[i]) { assert AmountHolds(b, b.rows[i]); }
  }

  lemma {:induction false} NoRowsNoBalance(rows: seq<Transaction>, account: nat)
    requires forall i :: 0 <= i < |rows| ==> rows[i].account != account
    ensures Balance(rows, account, Everything) == 0
  {
    if rows != [] { NoRowsNoBalance(rows[..|rows| - 1], account); }
  }

  /** What is left when an account's rows go: the others, in order. */
  lemma {:induction false} RowsWithoutOrigin(rows: seq<Transaction>, gone: nat) returns (from: seq<nat>)
    ensures |from| == |RowsWithout(rows, gone)|
    ensures forall k :: 0 <= k < |from| ==> from[k] < |rows| && RowsWithout(rows, gone)[k] == rows[from[k]]
                                            && rows[from[k]].account != gone
    ensures forall k, l :: 0 <= k < l < |from| ==> from[k] < from[l]
    ensures forall i :: 0 <= i < |rows| && rows[i].account != gone ==> i in from
  {
    if rows == [] {
      from := [];
    } else {
      var n := |rows| - 1;
      from := RowsWithoutOrigin(rows[..n], gone);
      if rows[n].account != gone { from := from + [n]; }
      forall i | 0 <= i < |rows| && rows[i].account != gone ensures i in from {
        if i < n { assert rows[..n][i] == rows[i]; }
      }
    }
  }

  lemma LatestWithout(rows: seq<Transaction>, gone: nat, account: nat, m: Option<int>)
    requires gone != account && IsLatest(m, rows, account)
    ensures IsLatest(m, RowsWithout(rows, gone), account)
  {
    var left := RowsWithout(rows, gone);
    var from := RowsWithoutOrigin(rows, gone);
    assert forall k :: 0 <= k < |left| && Live(left[k], account) ==> Live(rows[from[k]], account);
    if m.Some? {
      var i :| 0 <= i < |rows| && Live(rows[i], account) && rows[i].occurredAt == m.value;
      var k :| 0 <= k < |from| && from[k] == i;
      assert left[k] == rows[i];
    }
  }

  lemma DestroyKeeps(b: Book, account: nat)
    requires Sound(b)
    ensures Sound(Destroy(b, account).0)
  {
    if Destroy(b, account).1 == Done {
      var c := Destroy(b, account).0;
      var ids := IdsOf(b.rows, account);
      LinesWithoutOwned(b.lines, ids, b.nextRow);
      RowsLeft(b, account);
      forall a | a in c.accounts ensures Counted(c, a) {
        assert Counted(b, a);
        BalanceWithout(b.rows, account, a, Everything);
        LatestWithout(b.rows, account, a, b.accounts[a].lastActivity);
      }
    }
  }

  lemma RowsLeft(b: Book, account: nat)
    requires Sound(b)
    ensures var left := RowsWithout(b.rows, account);
            var lines := LinesWithout(b.lines, IdsOf(b.rows, account));
            && IdsIncrease(left, b.nextRow) && KeysDistinct(left)
            && (forall k :: 0 <= k < |left| ==> left[k].account in b.accounts && left[k].account != account)
            && AmountsHold(b.(rows := left, lines := lines))
  {
    var left := RowsWithout(b.rows, account);
    var ids := IdsOf(b.rows, account);
    var from := RowsWithoutOrigin(b.rows, account);
    var c := b.(rows := left, lines := LinesWithout(b.lines, ids));
    forall k | 0 <= k < |left| ensures AmountHolds(c, left[k]) {
      assert AmountHolds(b, b.rows[from[k]]);
      assert left[k].id !in ids;
      LinesWithoutKeeps(b.lines, ids, left[k].id);
    }
  }

  lemma ApplyKeeps(b: Book, op: Op)
    requires Sound(b)
    ensures Sound(Apply(b, op))
  {
    match op
    case Opening => OpenKeeps(b);
    case Recording(account, actor, now, input) =>
      if account in b.accounts && EntryFaults(input) == []
         && (input.key.Some? ==> FindByKey(b.rows, input.key.value).None?) {
        EnterKeeps(b, account, actor, now, input);
      }
    case Editing(id, actor, edit) => EditKeeps(b, id, actor, edit);
    case CrossingOut(id, actor) => CrossOutKeeps(b, id, actor);
    case Destroying(account) => DestroyKeeps(b, account);
  }

  lemma {:induction false} RunKeeps(b: Book, ops: seq<Op>)
    requires Sound(b)
    ensures Sound(Run(b, ops))
  {
    if ops != [] {
      RunKeeps(b, ops[..|ops| - 1]);
      ApplyKeeps(Run(b, ops[..|ops| - 1]), ops[|ops| - 1]);
    }
  }

  lemma RunIsSound(ops: seq<Op>)
    ensures Sound(Run(EMPTY, ops))
  {
    assert Sound(EMPTY);
    RunKeeps(EMPTY, ops);
  }

  /**
   * After any run, every account's cached balance is its live credits less its live payments, and its
   * last activity the latest date among its live rows (BR-6, BR-8).
   */
  lemma CachedBalanceIsTrue(ops: seq<Op>, account: nat)
    requires account in Run(EMPTY, ops).accounts
    ensures var b := Run(EMPTY, ops);
            && b.accounts[account].balance == Total(b.rows, account, Credit) - Total(b.rows, account, Payment)
            && IsLatest(b.accounts[account].lastActivity, b.rows, account)
  {
    RunIsSound(ops);
    assert Counted(Run(EMPTY, ops), account);
    BalanceIsCreditsLessPayments(Run(EMPTY, ops).rows, account);
  }
}
