/**
 * What each request on a sound book comes to, in what was typed and what is owed: the row, the account's
 * balance and last activity, the lines and the audit trail.
 */
module Requests {
  import opened Book
  import opened BookRuns
  import opened Widths
  import opened Wrappers
  import Money
  import Text

  // ------------------------------------------------------ cached fields

  lemma LatestIsUnique(m: Option<int>, n: Option<int>, rows: seq<Transaction>, account: nat)
    requires IsLatest(m, rows, account) && IsLatest(n, rows, account)
    ensures m == n
  {
  }

  lemma CachedFields(b: Book, account: nat)
    requires Sound(b) && account in b.accounts
    ensures b.accounts[account].balance == Balance(b.rows, account, Everything)
    ensures b.accounts[account].lastActivity == Latest(b.rows, account)
  {
    assert Counted(b, account);
    LatestIsLatest(b.rows, account);
    LatestIsUnique(b.accounts[account].lastActivity, Latest(b.rows, account), b.rows, account);
  }

  // ----------------------------------------------------------- recording

  /** The account once a row has been added to it: a credit adds to what is owed, a payment takes from it. */
  lemma RowAdded(b: Book, row: Transaction, after: Account)
    requires Sound(b) && row.account in b.accounts && !row.crossedOut
    requires after == Account(Balance(b.rows + [row], row.account, Everything), Latest(b.rows + [row], row.account))
    ensures var was := b.accounts[row.account];
            && after.balance == (if row.kind == Credit then was.balance + row.amount else was.balance - row.amount)
            && after.lastActivity == Some(if was.lastActivity.Some? && was.lastActivity.value > row.occurredAt
                                          then was.lastActivity.value else row.occurredAt)
  {
    CachedFields(b, row.account);
    BalanceAppend(b.rows, row, row.account, Everything);
    assert (b.rows + [row])[..|b.rows|] == b.rows;
  }

  /** The row of an entry made holds what was typed, whichever kind it is. */
  lemma RecordedRow(b: Book, account: nat, actor: nat, now: int, input: EntryInput)
    requires Sound(b) && RecordIn(b, account, actor, now, input).1.Entered?
    ensures var c := Apply(b, Recording(account, actor, now, input));
            var row := RecordIn(b, account, actor, now, input).1.entry;
            && c.rows == b.rows + [row] && row.id == b.nextRow && c.nextRow == b.nextRow + 1
            && row.account == account && row.kind == input.kind && row.key == input.key && !row.crossedOut
            && row.description == Text.Presence(input.description) && row.notes == Text.Presence(input.notes)
            && row.paymentMethod == (if input.kind == Payment then Text.Presence(input.paymentMethod) else None)
            && (if input.occurredAt == NoTime then row.occurredAt == now else input.occurredAt == At(row.occurredAt))
            && (row.itemized <==> input.kind == Credit && input.itemized)
            && c.audit == b.audit + [AuditEvent(row.id, Created, actor, row.amount)]
  {
  }

  /** The lines go with it, and its amount is theirs, or the amount typed when it has none. */
  lemma RecordedAmount(b: Book, account: nat, actor: nat, now: int, input: EntryInput)
    requires Sound(b) && RecordIn(b, account, actor, now, input).1.Entered?
    ensures var c := Apply(b, Recording(account, actor, now, input));
            var row := RecordIn(b, account, actor, now, input).1.entry;
            && row.amount > 0 && |b.lines| <= |c.lines| && c.lines[..|b.lines|] == b.lines
            && (forall i :: |b.lines| <= i < |c.lines| ==> c.lines[i].entry == row.id)
            && (if |c.lines| == |b.lines| then Money.ParseCents(input.amount) == Some(row.amount)
                else row.amount == ToInt64(LineItemsTotal(c.lines, row.id)))
  {
    var c := Apply(b, Recording(account, actor, now, input));
    var more := EntryLines(input);
    assert c.lines == b.lines + Stored(more, b.nextRow);
    assert c.lines[..|b.lines|] == b.lines;
    LineItemsTotalAppend(b.lines, more, b.nextRow, b.nextRow);
    SumWraps(more);
  }

  /** The account's balance moves by the amount, up for a credit and down for a payment; no other is touched. */
  lemma RecordedBalance(b: Book, account: nat, actor: nat, now: int, input: EntryInput)
    requires Sound(b) && RecordIn(b, account, actor, now, input).1.Entered?
    ensures var c := Apply(b, Recording(account, actor, now, input));
            var row := RecordIn(b, account, actor, now, input).1.entry;
            var was := b.accounts[account];
            && account in c.accounts && c.accounts == b.accounts[account := c.accounts[account]]
            && c.nextAccount == b.nextAccount
            && c.accounts[account].balance
               == (if input.kind == Credit then was.balance + row.amount else was.balance - row.amount)
            && c.accounts[account].lastActivity
               == Some(if was.lastActivity.Some? && was.lastActivity.value > row.occurredAt
                       then was.lastActivity.value else row.occurredAt)
  {
    var c := Apply(b, Recording(account, actor, now, input));
    RowAdded(b, RecordIn(b, account, actor, now, input).1.entry, c.accounts[account]);
  }

  lemma TypedWhole(n: nat)
    ensures Money.ParseCents(Text.Digits(n)) == Some(ToInt64(100 * n))
  {
    Money.PlainDigitsRead(Text.Digits(n));
    Text.DigitsRoundTrip(n);
  }

  /** With n whole ngultrum typed, a credit raises what is owed by 100 n chetrum and a payment lowers it by as much. */
  lemma PlainRecorded(b: Book, account: nat, actor: nat, now: int, input: EntryInput, n: nat)
    requires Sound(b) && account in b.accounts && input.key == None && input.occurredAt != BadTime
    requires input.kind == Payment || !input.itemized
    requires input.amount == Text.Digits(n) && n > 0 && Fits64(100 * n)
    ensures var c := Apply(b, Recording(account, actor, now, input));
            var owed := b.accounts[account].balance;
            && RecordIn(b, account, actor, now, input).1.Entered? && account in c.accounts
            && RecordIn(b, account, actor, now, input).1.entry.amount == 100 * n
            && c.accounts[account].balance == (if input.kind == Credit then owed + 100 * n else owed - 100 * n)
  {
    TypedWhole(n);
    WrapsBy64(100 * n, 0);
    assert EntryAmount(input) == Some(100 * n) && EntryFaults(input) == [];
    RecordedBalance(b, account, actor, now, input);
  }

  /** When a plain entry is made, and that otherwise the book is as it was. */
  lemma PlainEnteredIff(b: Book, account: nat, actor: nat, now: int, input: EntryInput)
    requires input.kind == Payment || !input.itemized
    ensures RecordIn(b, account, actor, now, input).1.Entered? <==>
      && account in b.accounts && (forall i :: 0 <= i < |b.rows| && input.key.Some? ==> b.rows[i].key != input.key)
      && input.occurredAt != BadTime
      && exists cents :: cents > 0 && Money.ParseCents(input.amount) == Some(cents)
    ensures !RecordIn(b, account, actor, now, input).1.Entered? ==> Apply(b, Recording(account, actor, now, input)) == b
  {
    if input.key.Some? { FindByKeyFinds(b.rows, input.key.value); }
    if account in b.accounts && Positive(EntryAmount(input)) {
      assert Money.ParseCents(input.amount) == Some(EntryAmount(input).value);
    }
  }

  /** What a refusal says of the amount and the date. */
  lemma RefusalSays(b: Book, account: nat, actor: nat, now: int, input: EntryInput)
    requires RecordIn(b, account, actor, now, input).1.Refused? && (input.kind == Payment || !input.itemized)
    ensures var faults := RecordIn(b, account, actor, now, input).1.faults;
            && (BadDate in faults <==> input.occurredAt == BadTime)
            && (AmountNotPositive in faults <==>
                forall cents :: Money.ParseCents(input.amount) == Some(cents) ==> cents <= 0)
  {
    if Positive(Money.ParseCents(input.amount)) {
      var cents := Money.ParseCents(input.amount).value;
      assert Money.ParseCents(input.amount) == Some(cents) && cents > 0;
    }
  }

  // -------------------------------------------------------- typed lines

  /** A row of the form without a name and without a price. */
  predicate Empty(input: LineInput) {
    Text.Trim(input.name) == "" && Text.Trim(input.unitPrice) == ""
  }

  /** A named row with a quantity above nothing and a price not below it. */
  ghost predicate Complete(input: LineInput) {
    && Text.Trim(input.name) != ""
    && (exists q :: q > 0 && Money.ParseQuantity(input.quantity) == Some(q))
    && (exists p :: p >= 0 && Money.ParseCents(input.unitPrice) == Some(p))
  }

  /** Every row of the form is empty or complete. */
  ghost predicate InOrder(inputs: seq<LineInput>) {
    forall i {:trigger Empty(inputs[i])} :: 0 <= i < |inputs| ==> Empty(inputs[i]) || Complete(inputs[i])
  }

  lemma RowFaults(input: LineInput)
    ensures LineFaults(input) == [] <==> Complete(input)
    ensures Blank(input) <==> Empty(input)
  {
    var (q, p) := (Money.ParseQuantity(input.quantity), Money.ParseCents(input.unitPrice));
    if LineFaults(input) == [] {
      assert q.value > 0 && q == Some(q.value) && p.value >= 0 && p == Some(p.value);
    }
  }

  /** What is said of a row of the form: of its name, its quantity and its price. */
  lemma RowFaultsSay(input: LineInput)
    ensures LineNameBlank in LineFaults(input) <==> Text.Trim(input.name) == ""
    ensures LineQuantityNotPositive in LineFaults(input) <==>
      forall q :: Money.ParseQuantity(input.quantity) == Some(q) ==> q <= 0
    ensures LinePriceNotANumber in LineFaults(input) <==> Money.ParseCents(input.unitPrice) == None
    ensures LinePriceNegative in LineFaults(input) <==>
      exists p :: p < 0 && Money.ParseCents(input.unitPrice) == Some(p)
  {
    var (quantity, price) := (Money.ParseQuantity(input.quantity), Money.ParseCents(input.unitPrice));
    AtMostNothing(quantity);
    BelowNothing(price);
    var said := LineFaults(input);
    assert said == (if Text.Present(input.name) then [] else [LineNameBlank])
      + (if quantity.Some? && quantity.value > 0 then [] else [LineQuantityNotPositive])
      + (if price == None then [LinePriceNotANumber] else if price.value < 0 then [LinePriceNegative] else []);
  }

  lemma AtMostNothing(quantity: Option<int>)
    ensures !(quantity.Some? && quantity.value > 0) <==> forall q :: quantity == Some(q) ==> q <= 0
  {
    if quantity.Some? { assert quantity == Some(quantity.value); }
  }

  lemma BelowNothing(price: Option<int>)
    ensures price.Some? && price.value < 0 <==> exists p :: p < 0 && price == Some(p)
  {
    if price.Some? { assert price == Some(price.value); }
  }

  lemma OneRowMore(init: seq<LineInput>, last: LineInput)
    ensures InOrder(init + [last]) <==> InOrder(init) && (Empty(last) || Complete(last))
    ensures FaultsFrom(init + [last]) == [] <==> FaultsFrom(init) == [] && (Blank(last) || LineFaults(last) == [])
    ensures LinesFrom(init + [last]) == LinesFrom(init) + if Blank(last) then [] else [LineOf(last)]
  {
    var inputs := init + [last];
    assert inputs[..|init|] == init && inputs[|init|] == last;
    if InOrder(inputs) {
      assert Empty(inputs[|init|]) || Complete(inputs[|init|]);
      forall i | 0 <= i < |init| ensures Empty(init[i]) || Complete(init[i]) {
        assert Empty(inputs[i]) || Complete(inputs[i]);
      }
    }
  }

  lemma InitAndLast(inputs: seq<LineInput>)
    requires inputs != []
    ensures inputs[..|inputs| - 1] + [inputs[|inputs| - 1]] == inputs
  {
  }

  /** The form's rows raise no fault exactly when each is empty or complete. */
  lemma {:induction false} RowsAreFaultlessIff(inputs: seq<LineInput>)
    ensures FaultsFrom(inputs) == [] <==> InOrder(inputs)
  {
    if inputs != [] {
      RowsAreFaultlessIff(inputs[..|inputs| - 1]);
      RowFaults(inputs[|inputs| - 1]);
      OneRowMore(inputs[..|inputs| - 1], inputs[|inputs| - 1]);
      InitAndLast(inputs);
    }
  }

  /** A line stands for a row of the form: its name trimmed, its quantity in hundredths and its price in chetrum. */
  predicate StandsFor(line: Line, input: LineInput) {
    && line.name == Text.Trim(input.name) && Money.ParseQuantity(input.quantity) == Some(line.quantity)
    && Money.ParseCents(input.unitPrice) == Some(line.unitPrice)
  }

  lemma LineStandsFor(input: LineInput)
    requires Complete(input)
    ensures StandsFor(LineOf(input), input)
  {
  }

  /** So many places in order, all below n. */
  predicate Places(from: seq<nat>, n: nat) {
    (forall k, l :: 0 <= k < l < |from| ==> from[k] < from[l]) && (forall k :: 0 <= k < |from| ==> from[k] < n)
  }

  lemma OnePlaceMore(from: seq<nat>, n: nat)
    requires Places(from, n)
    ensures Places(from + [n], n + 1) && Places(from, n + 1)
  {
  }

  /** The lines are those of the rows that are not empty, in order. */
  ghost predicate Kept(inputs: seq<LineInput>, lines: seq<Line>, from: seq<nat>) {
    && |from| == |lines| && Places(from, |inputs|)
    && (forall k {:trigger StandsFor(lines[k], inputs[from[k]])} :: 0 <= k < |from| ==> StandsFor(lines[k], inputs[from[k]]))
    && (forall i {:trigger Empty(inputs[i])} :: 0 <= i < |inputs| ==> (Empty(inputs[i]) <==> i !in from))
  }

  lemma KeptSame(init: seq<LineInput>, last: LineInput, lines: seq<Line>, from: seq<nat>)
    requires Kept(init, lines, from) && Empty(last)
    ensures Kept(init + [last], lines, from)
  {
    var inputs := init + [last];
    OnePlaceMore(from, |init|);
    forall i | 0 <= i < |init| ensures inputs[i] == init[i] && (Empty(inputs[i]) <==> i !in from) {
      assert Empty(init[i]) <==> i !in from;
    }
    forall k | 0 <= k < |from| ensures StandsFor(lines[k], inputs[from[k]]) {
      assert StandsFor(lines[k], init[from[k]]);
    }
  }

  lemma PlacesNext(init: seq<LineInput>, last: LineInput, from: seq<nat>, i: nat)
    requires !Empty(last) && i <= |init|
    requires forall j {:trigger Empty(init[j])} :: 0 <= j < |init| ==> (Empty(init[j]) <==> j !in from)
    ensures Empty((init + [last])[i]) <==> i !in from + [|init|]
  {
    if i < |init| { assert Empty(init[i]) <==> i !in from; }
  }

  lemma KeptNext(init: seq<LineInput>, last: LineInput, lines: seq<Line>, from: seq<nat>, line: Line)
    requires Kept(init, lines, from) && !Empty(last) && StandsFor(line, last)
    ensures Kept(init + [last], lines + [line], from + [|init|])
  {
    var (inputs, all, places) := (init + [last], lines + [line], from + [|init|]);
    OnePlaceMore(from, |init|);
    forall i | 0 <= i < |inputs| ensures Empty(inputs[i]) <==> i !in places {
      PlacesNext(init, last, from, i);
    }
    forall k | 0 <= k < |places| ensures StandsFor(all[k], inputs[places[k]]) {
      StandsNext(init, last, lines, from, line, k);
    }
  }

  lemma StandsNext(init: seq<LineInput>, last: LineInput, lines: seq<Line>, from: seq<nat>, line: Line, k: nat)
    requires Kept(init, lines, from) && StandsFor(line, last) && k <= |from|
    ensures StandsFor((lines + [line])[k], (init + [last])[(from + [|init|])[k]])
  {
    if k < |from| { assert StandsFor(lines[k], init[from[k]]); }
  }

  lemma {:induction false} LinesAreKept(inputs: seq<LineInput>) returns (from: seq<nat>)
    requires FaultsFrom(inputs) == []
    ensures Kept(inputs, LinesFrom(inputs), from)
  {
    from := [];
    if inputs != [] {
      var (init, last) := (inputs[..|inputs| - 1], inputs[|inputs| - 1]);
      InitAndLast(inputs);
      OneRowMore(init, last);
      RowFaults(last);
      from := LinesAreKept(init);
      if Empty(last) {
        KeptSame(init, last, LinesFrom(init), from);
      } else {
        LineStandsFor(last);
        KeptNext(init, last, LinesFrom(init), from, LineOf(last));
        from := from + [|init|];
      }
    }
  }

  /** After the first n lines stand these, under the entry. */
  predicate StoredFrom(stored: seq<LineItem>, n: nat, lines: seq<Line>, entry: nat) {
    && |stored| == n + |lines|
    && forall k :: 0 <= k < |lines| ==>
         stored[n + k] == LineItem(entry, lines[k].name, lines[k].quantity, lines[k].unitPrice)
  }

  lemma StoredAfter(lines: seq<LineItem>, more: seq<Line>, entry: nat)
    ensures StoredFrom(lines + Stored(more, entry), |lines|, more, entry)
  {
  }

  lemma EnteredLines(b: Book, account: nat, actor: nat, now: int, input: EntryInput)
    requires RecordIn(b, account, actor, now, input).1.Entered? && input.kind == Credit && input.itemized
    ensures FaultsFrom(input.lineItems) == []
    ensures StoredFrom(Apply(b, Recording(account, actor, now, input)).lines, |b.lines|, LinesFrom(input.lineItems), b.nextRow)
  {
    StoredAfter(b.lines, LinesFrom(input.lineItems), b.nextRow);
  }

  lemma FaultlessIsKept(inputs: seq<LineInput>) returns (from: seq<nat>)
    requires FaultsFrom(inputs) == []
    ensures InOrder(inputs) && Kept(inputs, LinesFrom(inputs), from)
  {
    RowsAreFaultlessIff(inputs);
    from := LinesAreKept(inputs);
  }

  /** An itemized credit is kept out by any row neither empty nor complete; the lines stored are those typed. */
  lemma RecordedLines(b: Book, account: nat, actor: nat, now: int, input: EntryInput) returns (from: seq<nat>, lines: seq<Line>)
    requires RecordIn(b, account, actor, now, input).1.Entered? && input.kind == Credit && input.itemized
    ensures InOrder(input.lineItems) && Kept(input.lineItems, lines, from)
    ensures StoredFrom(Apply(b, Recording(account, actor, now, input)).lines, |b.lines|, lines, b.nextRow)
  {
    EnteredLines(b, account, actor, now, input);
    from := FaultlessIsKept(input.lineItems);
    lines := LinesFrom(input.lineItems);
  }

  // ------------------------------------------------------------- editing

  /** What an account owes after one of its rows is written anew. */
  lemma RowChanged(b: Book, i: nat, row: Transaction, after: Book)
    requires Sound(b) && i < |b.rows| && row.id == b.rows[i].id && row.account == b.rows[i].account
    requires after.rows == Replace(b.rows, row.id, row)
    requires row.account in after.accounts
    requires after.accounts[row.account].balance == Balance(after.rows, row.account, Everything)
    ensures row.account in b.accounts
    ensures after.accounts[row.account].balance == b.accounts[row.account].balance
      - (if b.rows[i].crossedOut then 0 else if b.rows[i].kind == Credit then b.rows[i].amount else -b.rows[i].amount)
      + (if row.crossedOut then 0 else if row.kind == Credit then row.amount else -row.amount)
  {
    CachedFields(b, row.account);
    BalanceReplace(b.rows, i, row, row.account, Everything);
  }

  /** An edit writes one row: the texts and date typed, and the amount typed unless its lines decide it. */
  lemma EditedRowIs(b: Book, id: nat, actor: nat, input: EditInput) returns (i: nat)
    requires Sound(b) && Edit(b, id, actor, input).1 == Done
    ensures i < |b.rows| && b.rows[i].id == id
    ensures var c := Apply(b, Editing(id, actor, input));
            && |c.rows| == |b.rows| && c.rows == b.rows[i := c.rows[i]] && c.lines == b.lines && c.nextRow == b.nextRow
            && var (t, u) := (b.rows[i], c.rows[i]);
            && u == t.(amount := u.amount, notes := Text.Presence(input.notes),
                       description := if t.kind == Credit then Text.Presence(input.description) else t.description,
                       paymentMethod := if t.kind == Credit then t.paymentMethod else Text.Presence(input.paymentMethod),
                       occurredAt := if input.occurredAt.At? then input.occurredAt.time else t.occurredAt)
            && u.amount > 0
            && (if HasLines(b.lines, id) then u.amount == t.amount else Money.ParseCents(input.amount) == Some(u.amount))
            && c.audit == b.audit + [AuditEvent(id, Edited, actor, u.amount)]
  {
    i := FindByIdFinds(b.rows, id);
    var u := EditedRow(b, b.rows[i], input);
    ReplaceAt(b.rows, i, u, b.nextRow);
    assert AmountHolds(b, b.rows[i]);
    WrapsBy64(LineItemsTotal(b.lines, id), 0);
    if !HasLines(b.lines, id) { NoLinesNoTotal(b.lines, id); }
  }

  /** A live row moves its account's balance by the difference, a crossed-out one not at all. */
  lemma EditedBalance(b: Book, id: nat, actor: nat, input: EditInput, i: nat)
    requires Sound(b) && Edit(b, id, actor, input).1 == Done && i < |b.rows| && b.rows[i].id == id
    ensures var (c, account) := (Apply(b, Editing(id, actor, input)), b.rows[i].account);
            && |c.rows| == |b.rows| && account in b.accounts && account in c.accounts
            && c.accounts == b.accounts[account := c.accounts[account]] && c.nextAccount == b.nextAccount
            && c.accounts[account].balance == b.accounts[account].balance
               + if b.rows[i].crossedOut then 0
                 else if b.rows[i].kind == Credit then c.rows[i].amount - b.rows[i].amount
                 else b.rows[i].amount - c.rows[i].amount
  {
    var j := EditedRowIs(b, id, actor, input);
    var c := Apply(b, Editing(id, actor, input));
    OneRow(b.rows, b.nextRow, i, j);
    EditWrites(b, id, actor, input, i);
    RowChanged(b, i, c.rows[i], c);
  }

  lemma OneRow(rows: seq<Transaction>, bound: nat, i: nat, j: nat)
    requires IdsIncrease(rows, bound) && i < |rows| && j < |rows| && rows[i].id == rows[j].id
    ensures i == j
  {
  }

  lemma EditWrites(b: Book, id: nat, actor: nat, input: EditInput, i: nat)
    requires Sound(b) && Edit(b, id, actor, input).1 == Done && i < |b.rows| && b.rows[i].id == id
    ensures var (c, account) := (Apply(b, Editing(id, actor, input)), b.rows[i].account);
            && |c.rows| == |b.rows| && c.rows[i].id == id && c.rows[i].account == account
            && c.rows[i].kind == b.rows[i].kind && c.rows[i].crossedOut == b.rows[i].crossedOut
            && c.rows == Replace(b.rows, id, c.rows[i])
            && account in b.accounts && c.accounts == b.accounts[account := c.accounts[account]]
            && c.accounts[account].balance == Balance(c.rows, account, Everything) && c.nextAccount == b.nextAccount
  {
    var j := FindByIdFinds(b.rows, id);
    OneRow(b.rows, b.nextRow, i, j);
    var u := EditedRow(b, b.rows[i], input);
    ReplaceAt(b.rows, i, u, b.nextRow);
  }

  /** When an edit is made, and that otherwise the book is as it was; a text that is no amount is refused. */
  lemma EditedIff(b: Book, id: nat, actor: nat, input: EditInput)
    requires Sound(b)
    ensures Edit(b, id, actor, input).1 == Done <==>
      && (exists i :: 0 <= i < |b.rows| && b.rows[i].id == id)
      && Fits64(LineItemsTotal(b.lines, id)) && input.occurredAt != BadTime
      && (HasLines(b.lines, id) || exists cents :: cents > 0 && Money.ParseCents(input.amount) == Some(cents))
    ensures Edit(b, id, actor, input).1 != Done ==> Apply(b, Editing(id, actor, input)) == b
    ensures Edit(b, id, actor, input).1 == Missing <==> forall i :: 0 <= i < |b.rows| ==> b.rows[i].id != id
  {
    var i := FindByIdFinds(b.rows, id);
    if !HasLines(b.lines, id) { NoLinesNoTotal(b.lines, id); }
    if FindById(b.rows, id).Some? {
      EditableIff(b, i, input);
      assert AmountHolds(b, b.rows[i]);
    }
  }

  lemma EditableIff(b: Book, i: nat, input: EditInput)
    requires Sound(b) && i < |b.rows|
    ensures Fits64(LineItemsTotal(b.lines, b.rows[i].id)) ==>
      (EditFaults(b, b.rows[i], input) == [] <==>
       && input.occurredAt != BadTime
       && (HasLines(b.lines, b.rows[i].id) || exists cents :: cents > 0 && Money.ParseCents(input.amount) == Some(cents)))
  {
    var t := b.rows[i];
    assert AmountHolds(b, t);
    WrapsBy64(LineItemsTotal(b.lines, t.id), 0);
    if !HasLines(b.lines, t.id) {
      NoLinesNoTotal(b.lines, t.id);
      if Positive(Money.ParseCents(input.amount)) {
        assert Money.ParseCents(input.amount) == Some(Money.ParseCents(input.amount).value);
      }
    }
  }

  /** A live row without lines, with n whole ngultrum typed, is left at 100 n, and what is owed moves by the difference. */
  lemma PlainEdited(b: Book, id: nat, actor: nat, input: EditInput, i: nat, n: nat)
    requires Sound(b) && i < |b.rows| && b.rows[i].id == id && !b.rows[i].crossedOut && !HasLines(b.lines, id)
    requires input.amount == Text.Digits(n) && n > 0 && Fits64(100 * n) && input.occurredAt != BadTime
    ensures var (c, t) := (Apply(b, Editing(id, actor, input)), b.rows[i]);
            && Edit(b, id, actor, input).1 == Done && |c.rows| == |b.rows| && c.rows[i].amount == 100 * n
            && t.account in b.accounts && t.account in c.accounts
            && c.accounts[t.account].balance
               == b.accounts[t.account].balance + if t.kind == Credit then 100 * n - t.amount else t.amount - 100 * n
  {
    TypedWhole(n);
    WrapsBy64(100 * n, 0);
    NoLinesNoTotal(b.lines, id);
    EditedIff(b, id, actor, input);
    EditedBalance(b, id, actor, input, i);
    var j := EditedRowIs(b, id, actor, input);
    assert i == j;
  }

  // -------------------------------------------------------- crossing out

  /** A row not yet crossed out is marked, and its account owes what it did without it; nothing else happens. */
  lemma CrossedOutIs(b: Book, id: nat, actor: nat, i: nat)
    requires Sound(b) && i < |b.rows| && b.rows[i].id == id
    ensures b.rows[i].crossedOut ==>
      Apply(b, CrossingOut(id, actor)) == b && CrossOut(b, id, actor).1 == AlreadyCrossedOut
    ensures !b.rows[i].crossedOut ==>
      var (c, t) := (Apply(b, CrossingOut(id, actor)), b.rows[i]);
      && CrossOut(b, id, actor).1 == Done && c.rows == b.rows[i := t.(crossedOut := true)] && c.lines == b.lines
      && c.nextRow == b.nextRow && c.nextAccount == b.nextAccount
      && t.account in b.accounts && t.account in c.accounts
      && c.accounts == b.accounts[t.account := c.accounts[t.account]]
      && c.accounts[t.account].balance
         == (if t.kind == Credit then b.accounts[t.account].balance - t.amount else b.accounts[t.account].balance + t.amount)
      && c.audit == b.audit + [AuditEvent(id, CrossedOut, actor, t.amount)]
  {
    var j := FindByIdFinds(b.rows, id);
    assert i == j;
    if !b.rows[i].crossedOut {
      var row := b.rows[i].(crossedOut := true);
      ReplaceAt(b.rows, i, row, b.nextRow);
      RowChanged(b, i, row, Apply(b, CrossingOut(id, actor)));
    }
  }

  lemma NothingToCrossOut(b: Book, id: nat, actor: nat)
    requires forall i :: 0 <= i < |b.rows| ==> b.rows[i].id != id
    ensures Apply(b, CrossingOut(id, actor)) == b && CrossOut(b, id, actor).1 == Missing
  {
    var _ := FindByIdFinds(b.rows, id);
  }

  // ------------------------------------------------- opening and removing

  lemma OpenedIs(b: Book)
    ensures var c := Apply(b, Opening);
            c == b.(accounts := b.accounts[b.nextAccount := Account(0, None)], nextAccount := b.nextAccount + 1)
  {
  }

  lemma OwesNothingIff(b: Book, account: nat)
    requires Sound(b) && account in b.accounts
    ensures b.accounts[account].balance == 0 <==> Total(b.rows, account, Credit) == Total(b.rows, account, Payment)
  {
    CachedFields(b, account);
    BalanceIsCreditsLessPayments(b.rows, account);
  }

  /** An account goes exactly when its live credits come to as much as its live payments; otherwise nothing happens. */
  lemma RemovedIff(b: Book, account: nat)
    requires Sound(b)
    ensures Destroy(b, account).1 == Done <==>
      account in b.accounts && Total(b.rows, account, Credit) == Total(b.rows, account, Payment)
    ensures account in b.accounts ==>
      (account !in Apply(b, Destroying(account)).accounts <==>
       Total(b.rows, account, Credit) == Total(b.rows, account, Payment))
    ensures Destroy(b, account).1 != Done ==> Apply(b, Destroying(account)) == b
    ensures account !in b.accounts <==> Destroy(b, account).1 == Missing
  {
    if account in b.accounts { OwesNothingIff(b, account); }
  }

  /** The row's entry is one of the account's. */
  predicate Of(b: Book, account: nat, entry: nat) {
    exists i :: 0 <= i < |b.rows| && b.rows[i].account == account && b.rows[i].id == entry
  }

  lemma {:induction false} LinesLeft(lines: seq<LineItem>, gone: set<nat>, line: LineItem)
    ensures multiset(LinesWithout(lines, gone))[line] == if line.entry in gone then 0 else multiset(lines)[line]
  {
    if lines != [] {
      LinesLeft(lines[..|lines| - 1], gone, line);
      assert lines == lines[..|lines| - 1] + [lines[|lines| - 1]];
    }
  }

  lemma {:induction false} AuditLeft(audit: seq<AuditEvent>, gone: set<nat>, event: AuditEvent)
    ensures multiset(AuditWithout(audit, gone))[event] == if event.entry in gone then 0 else multiset(audit)[event]
  {
    if audit != [] {
      AuditLeft(audit[..|audit| - 1], gone, event);
      assert audit == audit[..|audit| - 1] + [audit[|audit| - 1]];
    }
  }

  lemma {:induction false} RowsAreLeft(rows: seq<Transaction>, gone: nat, t: Transaction)
    ensures multiset(RowsWithout(rows, gone))[t] == if t.account == gone then 0 else multiset(rows)[t]
  {
    if rows != [] {
      RowsAreLeft(rows[..|rows| - 1], gone, t);
      assert rows == rows[..|rows| - 1] + [rows[|rows| - 1]];
    }
  }

  /** With an account that goes, its rows, their lines and their audit events go, all of them and nothing else. */
  lemma RemovedWhole(b: Book, account: nat)
    requires Destroy(b, account).1 == Done
    ensures var c := Apply(b, Destroying(account));
            && c.accounts == b.accounts - {account} && c.nextRow == b.nextRow && c.nextAccount == b.nextAccount
            && (forall t :: multiset(c.rows)[t] == if t.account == account then 0 else multiset(b.rows)[t])
            && (forall l :: multiset(c.lines)[l] == if Of(b, account, l.entry) then 0 else multiset(b.lines)[l])
            && (forall e :: multiset(c.audit)[e] == if Of(b, account, e.entry) then 0 else multiset(b.audit)[e])
  {
    var (c, gone) := (Apply(b, Destroying(account)), IdsOf(b.rows, account));
    assert forall id :: id in gone <==> Of(b, account, id);
    forall t ensures multiset(c.rows)[t] == if t.account == account then 0 else multiset(b.rows)[t] {
      RowsAreLeft(b.rows, account, t);
    }
    forall l ensures multiset(c.lines)[l] == if Of(b, account, l.entry) then 0 else multiset(b.lines)[l] {
      LinesLeft(b.lines, gone, l);
    }
    forall e ensures multiset(c.audit)[e] == if Of(b, account, e.entry) then 0 else multiset(b.audit)[e] {
      AuditLeft(b.audit, gone, e);
    }
  }
}
