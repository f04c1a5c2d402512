/** The server's database, written statement by statement, as each request does. */
module Server {
  import opened Book
  import opened Widths
  import opened Wrappers
  import Money
  import Text

  /** Everything wrong with one row of the itemized form. */
  method ReadFaults(input: LineInput, quantity: Option<int>, price: Option<int>) returns (found: seq<Fault>)
    requires quantity == Money.ParseQuantity(input.quantity) && price == Money.ParseCents(input.unitPrice)
    ensures found == LineFaults(input)
  {
    found := [];
    if !Text.Present(input.name) {
      found := found + [LineNameBlank];
    }
    if !(quantity.Some? && quantity.value > 0) {
      found := found + [LineQuantityNotPositive];
    }
    if price == None {
      found := found + [LinePriceNotANumber];
    } else if price.value < 0 {
      found := found + [LinePriceNegative];
    }
  }

  lemma NextInput(inputs: seq<LineInput>, i: nat)
    requires i < |inputs|
    ensures LinesFrom(inputs[..i + 1]) == LinesFrom(inputs[..i]) + if Blank(inputs[i]) then [] else [LineOf(inputs[i])]
    ensures FaultsFrom(inputs[..i + 1]) == FaultsFrom(inputs[..i]) + if Blank(inputs[i]) then [] else LineFaults(inputs[i])
  {
    assert inputs[..i + 1][..i] == inputs[..i];
  }

  /** The itemized form's rows, read in turn; blank ones are skipped. */
  method ReadLines(inputs: seq<LineInput>) returns (lines: seq<Line>, faults: seq<Fault>)
    ensures lines == LinesFrom(inputs) && faults == FaultsFrom(inputs)
  {
    lines, faults := [], [];
    for i := 0 to |inputs|
      invariant lines == LinesFrom(inputs[..i]) && faults == FaultsFrom(inputs[..i])
    {
      var input := inputs[i];
      NextInput(inputs, i);
      if Blank(input) {
        continue;
      }
      var quantity := Money.ParseQuantity(input.quantity);
      var price := Money.ParseCents(input.unitPrice);
      var found := ReadFaults(input, quantity, price);
      var line := Line(Text.Trim(input.name), if quantity.Some? then quantity.value else 100,
                       if price.Some? then price.value else 0);
      assert line == LineOf(input);
      faults := faults + found;
      lines := lines + [line];
    }
    assert inputs[..|inputs|] == inputs;
  }

  method SumLines(more: seq<Line>) returns (sum: int)
    ensures sum == LinesSum(more)
  {
    sum := 0;
    for i := 0 to |more|
      invariant sum == LinesSum(more[..i])
    {
      assert more[..i + 1][..i] == more[..i];
      sum := ToInt64(sum + Money.LineTotal(more[i].quantity, more[i].unitPrice));
    }
    assert more[..|more|] == more;
  }

  /** What a typed entry comes to: its lines, its amount, and everything wrong with it. */
  method CheckEntry(input: EntryInput) returns (entryLines: seq<Line>, amount: Option<int>, faults: seq<Fault>)
    ensures entryLines == EntryLines(input) && amount == EntryAmount(input) && faults == EntryFaults(input)
  {
    var itemized := input.kind == Credit && input.itemized;
    entryLines, faults := [], [];
    if itemized {
      entryLines, faults := ReadLines(input.lineItems);
    }
    amount := Money.ParseCents(input.amount);
    if itemized && |entryLines| > 0 {
      var sum := SumLines(entryLines);
      amount := Some(sum);
    }
    if !(amount.Some? && amount.value > 0) {
      faults := faults + [AmountNotPositive];
    }
    if input.occurredAt == BadTime {
      faults := faults + [BadDate];
    }
  }

  class Database {
    var rows: seq<Transaction>
    var lines: seq<LineItem>
    var accounts: map<nat, Account>
    var audit: seq<AuditEvent>
    var nextRow: nat
    var nextAccount: nat

    ghost function View(): Book
      reads this
    {
      Book(rows, lines, accounts, audit, nextRow, nextAccount)
    }

    constructor ()
      ensures View() == EMPTY
    {
      rows, lines, accounts, audit, nextRow, nextAccount := [], [], map[], [], 0, 0;
    }

    method Load(book: Book)
      modifies this
      ensures View() == book
    {
      rows, lines, accounts := book.rows, book.lines, book.accounts;
      audit, nextRow, nextAccount := book.audit, book.nextRow, book.nextAccount;
    }

    // ------------------------------------------------------ statements

    /** INSERT ... ON CONFLICT (idempotency_key) DO NOTHING RETURNING id; the row's own id is ignored. */
    method InsertTransaction(row: Transaction) returns (id: Option<nat>)
      modifies this`rows, this`nextRow
      ensures row.key.Some? && FindByKey(old(rows), row.key.value).Some? ==>
        id == None && rows == old(rows) && nextRow == old(nextRow)
      ensures !(row.key.Some? && FindByKey(old(rows), row.key.value).Some?) ==>
        id == Some(old(nextRow)) && rows == old(rows) + [row.(id := old(nextRow))] && nextRow == old(nextRow) + 1
    {
      if row.key.Some? && FindByKey(rows, row.key.value).Some? {
        return None;
      }
      id := Some(nextRow);
      rows := rows + [row.(id := nextRow)];
      nextRow := nextRow + 1;
    }

    method InsertLineItems(entry: nat, more: seq<Line>)
      modifies this`lines
      ensures lines == old(lines) + Stored(more, entry)
    {
      for i := 0 to |more|
        invariant lines == old(lines) + Stored(more[..i], entry)
      {
        lines := lines + [LineItem(entry, more[i].name, more[i].quantity, more[i].unitPrice)];
        assert Stored(more[..i + 1], entry)
            == Stored(more[..i], entry) + [LineItem(entry, more[i].name, more[i].quantity, more[i].unitPrice)];
      }
      assert more[..|more|] == more;
    }

    method Recompute(account: nat)
      modifies this`accounts
      ensures View() == RecomputeBalance(old(View()), account)
    {
      if account in accounts {
        accounts := accounts[account := Account(Balance(rows, account, Everything), Latest(rows, account))];
      }
    }

    method Log(entry: nat, action: Action, actor: nat, amount: int)
      modifies this`audit
      ensures audit == old(audit) + [AuditEvent(entry, action, actor, amount)]
    {
      audit := audit + [AuditEvent(entry, action, actor, amount)];
    }

    // -------------------------------------------------------- requests

    /**
     * One entry, statement by statement. Other requests' transactions, between, commit after the look-up by
     * key and before the insert.
     */
    method RecordEntry(account: nat, actor: nat, now: int, input: EntryInput, between: seq<Op>)
      returns (answer: Recorded)
      modifies this
      ensures (View(), answer) == RecordOver(old(View()), Run(old(View()), between), account, actor, now, input)
      decreases |between|, 2
    {
      if input.key.Some? {
        var existing := FindByKey(rows, input.key.value);
        if existing.Some? {
          Interleave(between);
          return Duplicate(existing.value);
        }
      }
      var entryLines, amount, faults := CheckEntry(input);
      Interleave(between);
      if faults != [] {
        return Refused(faults);
      }
      ghost var later := View();
      var row := Transaction(0, account, input.kind, amount.value, Text.Presence(input.description),
                             Text.Presence(input.notes),
                             if input.kind == Payment then Text.Presence(input.paymentMethod) else None,
                             if input.occurredAt.At? then input.occurredAt.time else now,
                             input.kind == Credit && input.itemized, input.key, false);
      assert row.(id := nextRow) == NewRow(later, account, now, input);
      if account !in accounts && !(input.key.Some? && FindByKey(rows, input.key.value).Some?) {
        return Failed;
      }
      var id := InsertTransaction(row);
      if id == None {
        return Duplicate(FindByKey(rows, input.key.value).value);
      }
      FinishEntry(later, row.(id := id.value), entryLines, actor);
      answer := Entered(row.(id := id.value));
    }

    /** After the insert: the entry's lines, the account's balance and the audit event. */
    method FinishEntry(ghost before: Book, row: Transaction, entryLines: seq<Line>, actor: nat)
      requires View() == before.(rows := before.rows + [row], nextRow := before.nextRow + 1)
      modifies this`lines, this`accounts, this`audit
      ensures View() == Finished(before, row, entryLines, actor)
    {
      InsertLineItems(row.id, entryLines);
      Recompute(row.account);
      Log(row.id, Created, actor, row.amount);
    }

    method UpdateRow(row: Transaction)
      modifies this`rows
      ensures rows == Replace(old(rows), row.id, row)
    {
      rows := Replace(rows, row.id, row);
    }

    method EditTransaction(id: nat, actor: nat, input: EditInput) returns (answer: Answer)
      modifies this
      ensures (View(), answer) == Edit(old(View()), id, actor, input)
    {
      var found := FindById(rows, id);
      if found == None {
        return Missing;
      }
      FindByIdHasId(rows, id);
      var t := found.value;
      var amount := Money.ParseCents(input.amount);
      if t.itemized {
        var total := LineItemsTotal(lines, t.id);
        if !Fits64(total) {
          return Broken;
        }
        if total > 0 {
          amount := Some(total);
        }
      }
      var faults := [];
      if !(amount.Some? && amount.value > 0) {
        faults := faults + [AmountNotPositive];
      }
      var occurredAt := t.occurredAt;
      if input.occurredAt == BadTime {
        faults := faults + [BadDate];
      } else if input.occurredAt.At? {
        occurredAt := input.occurredAt.time;
      }
      assert amount == EditAmount(View(), t, input) && faults == EditFaults(View(), t, input);
      if faults != [] {
        return Invalid(faults);
      }
      var description, paymentMethod := t.description, t.paymentMethod;
      if t.kind == Credit {
        description := Text.Presence(input.description);
      } else {
        paymentMethod := Text.Presence(input.paymentMethod);
      }
      UpdateRow(t.(amount := amount.value, description := description, notes := Text.Presence(input.notes),
                   paymentMethod := paymentMethod, occurredAt := occurredAt));
      Recompute(t.account);
      Log(t.id, Edited, actor, amount.value);
      answer := Done;
    }

    method CrossOutTransaction(id: nat, actor: nat) returns (answer: Answer)
      modifies this
      ensures (View(), answer) == CrossOut(old(View()), id, actor)
    {
      var found := FindById(rows, id);
      if found == None {
        return Missing;
      }
      FindByIdHasId(rows, id);
      var t := found.value;
      if t.crossedOut {
        return AlreadyCrossedOut;
      }
      UpdateRow(t.(crossedOut := true));
      Recompute(t.account);
      Log(t.id, CrossedOut, actor, t.amount);
      answer := Done;
    }

    method DestroyAccount(account: nat) returns (answer: Answer)
      modifies this
      ensures (View(), answer) == Destroy(old(View()), account)
    {
      if account !in accounts {
        return Missing;
      }
      if accounts[account].balance != 0 {
        return BalanceNotZero;
      }
      var ids := IdsOf(rows, account);
      audit := AuditWithout(audit, ids);
      lines := LinesWithout(lines, ids);
      rows := RowsWithout(rows, account);
      accounts := accounts - {account};
      answer := Done;
    }

    method Perform(op: Op)
      modifies this
      ensures View() == Apply(old(View()), op)
      decreases 0, 3
    {
      match op
      case Opening =>
        accounts := accounts[nextAccount := Account(0, None)];
        nextAccount := nextAccount + 1;
      case Recording(account, actor, now, input) =>
        if account in accounts {
          var _ := RecordEntry(account, actor, now, input, []);
        }
      case Editing(id, actor, edit) =>
        var _ := EditTransaction(id, actor, edit);
      case CrossingOut(id, actor) =>
        var _ := CrossOutTransaction(id, actor);
      case Destroying(account) =>
        var _ := DestroyAccount(account);
    }

    method Interleave(ops: seq<Op>)
      modifies this
      ensures View() == Run(old(View()), ops)
      decreases |ops|, 1
    {
      for i := 0 to |ops|
        invariant View() == Run(old(View()), ops[..i])
      {
        assert ops[..i + 1][..i] == ops[..i];
        Perform(ops[i]);
      }
      assert ops[..|ops|] == ops;
    }
  }

  lemma {:induction false} FindByIdHasId(rows: seq<Transaction>, id: nat)
    ensures FindById(rows, id).Some? ==> FindById(rows, id).value.id == id
  {
    if rows != [] { FindByIdHasId(rows[..|rows| - 1], id); }
  }
}
