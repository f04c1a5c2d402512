/**
 * Idempotency at the server: a key enters the book at most once, whatever races it, and an itemized
 * amount is the nearest chetrum line by line.
 */
module Replays {
  import opened Book
  import opened BookRuns
  import opened Decimals
  import opened Widths
  import opened Wrappers
  import Money

  predicate HasKey(b: Book, key: Key) {
    exists i :: 0 <= i < |b.rows| && b.rows[i].key == Some(key)
  }

  /** A replay of a key the book has, at any later point, changes nothing at all and answers with that row. */
  lemma ReplayChangesNothing(b: Book, account: nat, actor: nat, now: int, input: EntryInput)
    requires input.key.Some? && HasKey(b, input.key.value)
    ensures Record(b, account, actor, now, input).0 == b
    ensures Record(b, account, actor, now, input).1.Duplicate?
    ensures Record(b, account, actor, now, input).1.entry in b.rows
         && Record(b, account, actor, now, input).1.entry.key == input.key
  {
    FindByKeyFinds(b.rows, input.key.value);
  }

  /** A request recorded as one step after the first k of the others. */
  function Placed(ops: seq<Op>, k: nat, op: Op): seq<Op>
    requires k <= |ops|
  {
    ops[..k] + [op] + ops[k..]
  }

  lemma {:induction false} RunJoins(b: Book, first: seq<Op>, more: seq<Op>)
    ensures Run(Run(b, first), more) == Run(b, first + more)
  {
    if more == [] {
      assert first + more == first;
    } else {
      var init := more[..|more| - 1];
      RunJoins(b, first, init);
      assert (first + more)[..|first + more| - 1] == first + init;
    }
  }

  /** Recording placed first, where it changes nothing, or last. */
  lemma PlacedAtAnEnd(b: Book, ops: seq<Op>, op: Op)
    ensures Apply(b, op) == b ==> Run(b, Placed(ops, 0, op)) == Run(b, ops)
    ensures Run(b, Placed(ops, |ops|, op)) == Apply(Run(b, ops), op)
  {
    assert Placed(ops, 0, op) == [op] + ops;
    assert [op][..0] == [] && Run(b, [op]) == Apply(b, op);
    RunJoins(b, [op], ops);
    assert Placed(ops, |ops|, op) == ops + [op];
    assert (ops + [op])[..|ops|] == ops;
  }

  /**
   * The look-up and the insert see different states of the book, with other requests' work in between.
   * Still there is a place among the others where recording in one step ends in the same book, and with
   * the same answer; except that where the account went meanwhile, one step would not have found it.
   */
  lemma RecordingIsOneStep(before: Book, ops: seq<Op>, account: nat, actor: nat, now: int, input: EntryInput)
    returns (k: nat)
    requires account in before.accounts
    ensures var (after, answer) := RecordOver(before, Run(before, ops), account, actor, now, input);
            && k <= |ops|
            && after == Run(before, Placed(ops, k, Recording(account, actor, now, input)))
            && (account in Run(before, ops[..k]).accounts ==>
                answer == RecordIn(Run(before, ops[..k]), account, actor, now, input).1)
  {
    var op := Recording(account, actor, now, input);
    PlacedAtAnEnd(before, ops, op);
    k := if Apply(before, op) == before then 0 else |ops|;
    assert ops[..0] == [] && ops[..|ops|] == ops;
  }

  /** Losing the race to a twin: the book stays as the twin left it. */
  lemma LostRaceChangesNothing(before: Book, later: Book, account: nat, actor: nat, now: int, input: EntryInput)
    requires input.key.Some? && HasKey(later, input.key.value)
    ensures RecordOver(before, later, account, actor, now, input).0 == later
    ensures !RecordOver(before, later, account, actor, now, input).1.Entered?
  {
    FindByKeyFinds(later.rows, input.key.value);
  }

  // ------------------------------------------------------- at most once

  /** How many times a run enters a row under the key. */
  function TimesEntered(b: Book, ops: seq<Op>, key: Key): nat {
    if ops == [] then 0
    else
      var init := ops[..|ops| - 1];
      TimesEntered(b, init, key) + if Enters(Run(b, init), ops[|ops| - 1], key) then 1 else 0
  }

  predicate Enters(b: Book, op: Op, key: Key) {
    op.Recording? && op.input.key == Some(key) && RecordIn(b, op.account, op.actor, op.now, op.input).1.Entered?
  }

  /** A queued write's address names its account, so its key is only ever sent to that account. */
  predicate Addressed(ops: seq<Op>, key: Key, account: nat) {
    forall i :: 0 <= i < |ops| && ops[i].Recording? && ops[i].input.key == Some(key) ==> ops[i].account == account
  }

  predicate KeyOn(b: Book, key: Key, account: nat) {
    exists i :: 0 <= i < |b.rows| && b.rows[i].key == Some(key) && b.rows[i].account == account
  }

  /** Either the key is in the book, on a row of its account, or that account is gone for good. */
  predicate Spent(b: Book, key: Key, account: nat) {
    account < b.nextAccount && (account in b.accounts ==> KeyOn(b, key, account))
  }

  lemma {:induction false} AtMostOnce(ops: seq<Op>, key: Key, account: nat)
    requires Addressed(ops, key, account)
    ensures TimesEntered(EMPTY, ops, key) <= 1
    ensures TimesEntered(EMPTY, ops, key) == 1 ==> Spent(Run(EMPTY, ops), key, account)
  {
    if ops != [] {
      var init := ops[..|ops| - 1];
      var op := ops[|ops| - 1];
      assert Addressed(init, key, account) by {
        assert forall i :: 0 <= i < |init| ==> init[i] == ops[i];
      }
      AtMostOnce(init, key, account);
      RunIsSound(init);
      var b := Run(EMPTY, init);
      if TimesEntered(EMPTY, init, key) == 1 {
        SpentStays(b, op, key, account);
        if Enters(b, op, key) {
          assert ops[|ops| - 1].account == account;
          FindByKeyFinds(b.rows, key);
          assert false;
        }
      } else if Enters(b, op, key) {
        var c := Apply(b, op);
        assert c.rows[|b.rows|].key == Some(key) && c.rows[|b.rows|].account == account;
        assert account in b.accounts && account < b.nextAccount;
      }
    }
  }

  lemma SpentStays(b: Book, op: Op, key: Key, account: nat)
    requires Sound(b) && Spent(b, key, account)
    ensures Spent(Apply(b, op), key, account)
  {
    var c := Apply(b, op);
    if account in c.accounts {
      assert account in b.accounts;
      var i :| 0 <= i < |b.rows| && b.rows[i].key == Some(key) && b.rows[i].account == account;
      RowStays(b, op, i);
    }
  }

  /** Account numbers are not given out twice. */
  lemma NumbersGrow(b: Book, op: Op, account: nat)
    requires account < b.nextAccount
    ensures account < Apply(b, op).nextAccount && (account in Apply(b, op).accounts ==> account in b.accounts)
  {
  }

  /** The key is spent on the account, and has entered only once if that stands. */
  predicate EnteredOnce(ops: seq<Op>, key: Key, account: nat) {
    && Spent(Run(EMPTY, ops), key, account)
    && (account in Run(EMPTY, ops).accounts ==> TimesEntered(EMPTY, ops, key) == 1)
  }

  /**
   * Whatever accounts the key is sent to: once it has entered, it does not enter again as long as the
   * account it entered on stands.
   */
  lemma OnceWhileItsAccountStands(first: seq<Op>, op: Op, more: seq<Op>, key: Key)
    requires Enters(Run(EMPTY, first), op, key) && TimesEntered(EMPTY, first, key) == 0
    ensures EnteredOnce(first + [op] + more, key, op.account)
  {
    EnteredFirst(first, op, key);
    EnteredOnceRuns(first + [op], more, key, op.account);
  }

  lemma {:induction false} EnteredOnceRuns(ops: seq<Op>, more: seq<Op>, key: Key, account: nat)
    requires EnteredOnce(ops, key, account)
    ensures EnteredOnce(ops + more, key, account)
  {
    if more == [] {
      assert ops + more == ops;
    } else {
      var (init, last) := (more[..|more| - 1], more[|more| - 1]);
      EnteredOnceRuns(ops, init, key, account);
      EnteredOnceStays(ops + init, last, key, account);
      assert ops + more == (ops + init) + [last];
    }
  }

  lemma EnteredFirst(first: seq<Op>, op: Op, key: Key)
    requires Enters(Run(EMPTY, first), op, key) && TimesEntered(EMPTY, first, key) == 0
    ensures EnteredOnce(first + [op], key, op.account)
  {
    RunIsSound(first);
    OneMore(first, op, key);
    EnteredIsSpent(Run(EMPTY, first), op, key);
  }

  lemma EnteredOnceStays(ops: seq<Op>, op: Op, key: Key, account: nat)
    requires EnteredOnce(ops, key, account)
    ensures EnteredOnce(ops + [op], key, account)
  {
    RunIsSound(ops);
    OneMore(ops, op, key);
    SpentEntersNoMore(Run(EMPTY, ops), op, key, account);
  }

  lemma OneMore(ops: seq<Op>, op: Op, key: Key)
    ensures Run(EMPTY, ops + [op]) == Apply(Run(EMPTY, ops), op)
    ensures TimesEntered(EMPTY, ops + [op], key)
         == TimesEntered(EMPTY, ops, key) + if Enters(Run(EMPTY, ops), op, key) then 1 else 0
  {
    assert (ops + [op])[..|ops|] == ops;
  }

  lemma SpentEntersNoMore(b: Book, op: Op, key: Key, account: nat)
    requires Sound(b) && Spent(b, key, account)
    ensures Spent(Apply(b, op), key, account)
    ensures account in Apply(b, op).accounts ==> account in b.accounts && !Enters(b, op, key)
  {
    NumbersGrow(b, op, account);
    SpentStays(b, op, key, account);
    FindByKeyFinds(b.rows, key);
  }

  lemma EnteredIsSpent(b: Book, op: Op, key: Key)
    requires Sound(b) && Enters(b, op, key)
    ensures Spent(Apply(b, op), key, op.account) && op.account in b.accounts && KeyOn(Apply(b, op), key, op.account)
  {
    var c := Apply(b, op);
    assert c.rows[|b.rows|].key == Some(key) && c.rows[|b.rows|].account == op.account;
  }

  // ------------------------------------------------ entered less removed

  /** What a request brings into the book under a key. */
  function NewKey(b: Book, op: Op): Option<Key> {
    if op.Recording? && RecordIn(b, op.account, op.actor, op.now, op.input).1.Entered? then op.input.key else None
  }

  predicate KeysFrom(rows: seq<Transaction>, b: Book, extra: Option<Key>) {
    forall j :: 0 <= j < |rows| && rows[j].key.Some? ==> HasKey(b, rows[j].key.value) || rows[j].key == extra
  }

  lemma SamePlaceKeys(rows: seq<Transaction>, b: Book, extra: Option<Key>)
    requires forall j :: 0 <= j < |rows| && rows[j].key.Some? ==>
      rows[j].key == extra || (j < |b.rows| && b.rows[j].key == rows[j].key)
    ensures KeysFrom(rows, b, extra)
  {
  }

  lemma DestroyedKeys(b: Book, account: nat)
    ensures KeysFrom(Destroy(b, account).0.rows, b, None)
  {
    var rows := Destroy(b, account).0.rows;
    if Destroy(b, account).1 == Done {
      var from := RowsWithoutOrigin(b.rows, account);
      forall j | 0 <= j < |rows| && rows[j].key.Some? ensures HasKey(b, rows[j].key.value) {
        assert b.rows[from[j]].key == rows[j].key;
      }
    } else {
      SamePlaceKeys(rows, b, None);
    }
  }

  lemma RewrittenKeys(b: Book, row: Transaction, k: nat, action: Action, actor: nat)
    requires IdsIncrease(b.rows, b.nextRow) && k < |b.rows| && b.rows[k].id == row.id && b.rows[k].key == row.key
    ensures KeysFrom(Rewrite(b, row, action, actor).rows, b, None)
  {
    SamePlaceKeys(Replace(b.rows, row.id, row), b, None);
  }

  lemma EditedKeys(b: Book, id: nat, actor: nat, edit: EditInput)
    requires IdsIncrease(b.rows, b.nextRow)
    ensures KeysFrom(Edit(b, id, actor, edit).0.rows, b, None)
  {
    if Edit(b, id, actor, edit).1 == Done {
      var k := FindByIdFinds(b.rows, id);
      RewrittenKeys(b, EditedRow(b, b.rows[k], edit), k, Edited, actor);
    } else {
      SamePlaceKeys(b.rows, b, None);
    }
  }

  lemma CrossedOutKeys(b: Book, id: nat, actor: nat)
    requires IdsIncrease(b.rows, b.nextRow)
    ensures KeysFrom(CrossOut(b, id, actor).0.rows, b, None)
  {
    if CrossOut(b, id, actor).1 == Done {
      var k := FindByIdFinds(b.rows, id);
      RewrittenKeys(b, b.rows[k].(crossedOut := true), k, CrossedOut, actor);
    } else {
      SamePlaceKeys(b.rows, b, None);
    }
  }

  /** Only an entry made brings a key into the book, and only its own. */
  lemma NoNewKeys(b: Book, op: Op)
    requires IdsIncrease(b.rows, b.nextRow)
    ensures KeysFrom(Apply(b, op).rows, b, NewKey(b, op))
  {
    match op
    case Destroying(account) => DestroyedKeys(b, account);
    case Editing(id, actor, edit) => EditedKeys(b, id, actor, edit);
    case CrossingOut(id, actor) => CrossedOutKeys(b, id, actor);
    case Opening => SamePlaceKeys(b.rows, b, None);
    case Recording(_, _, _, _) => SamePlaceKeys(Apply(b, op).rows, b, NewKey(b, op));
  }

  predicate Removes(b: Book, op: Op, key: Key) {
    HasKey(b, key) && !HasKey(Apply(b, op), key)
  }

  /** How many times a run takes the key's row out again. */
  function TimesRemoved(b: Book, ops: seq<Op>, key: Key): nat {
    if ops == [] then 0
    else
      var init := ops[..|ops| - 1];
      TimesRemoved(b, init, key) + if Removes(Run(b, init), ops[|ops| - 1], key) then 1 else 0
  }

  lemma EntersOnlyAnew(b: Book, op: Op, key: Key)
    requires Sound(b)
    ensures Enters(b, op, key) ==> !HasKey(b, key) && HasKey(Apply(b, op), key)
    ensures !Enters(b, op, key) && HasKey(Apply(b, op), key) ==> HasKey(b, key)
  {
    if Enters(b, op, key) {
      EnteredIsSpent(b, op, key);
      FindByKeyFinds(b.rows, key);
    } else if HasKey(Apply(b, op), key) {
      NoNewKeys(b, op);
    }
  }

  /** Only removing the account its row is on takes a key out. */
  lemma OnlyRemovalRemoves(b: Book, op: Op, key: Key)
    requires Sound(b) && Removes(b, op, key)
    ensures op.Destroying? && KeyOn(b, key, op.account) && op.account !in Apply(b, op).accounts
  {
    var i :| 0 <= i < |b.rows| && b.rows[i].key == Some(key);
    RowStays(b, op, i);
  }

  /**
   * Whatever accounts a key is sent to, in any run: it has entered exactly once more than it was removed
   * while it stands in the book, and exactly as often when it does not.
   */
  lemma {:induction false} EnteredLessRemoved(ops: seq<Op>, key: Key)
    ensures TimesEntered(EMPTY, ops, key)
         == TimesRemoved(EMPTY, ops, key) + if HasKey(Run(EMPTY, ops), key) then 1 else 0
  {
    if ops != [] {
      var init := ops[..|ops| - 1];
      EnteredLessRemoved(init, key);
      RunIsSound(init);
      EntersOnlyAnew(Run(EMPTY, init), ops[|ops| - 1], key);
    }
  }

  /** The key is never entered once it has been removed with its account. */
  predicate NeverReenters(ops: seq<Op>, key: Key) {
    forall n :: 0 <= n < |ops| ==> NotBack(ops[..n], ops[n], key)
  }

  predicate NotBack(before: seq<Op>, op: Op, key: Key) {
    Enters(Run(EMPTY, before), op, key) ==> TimesRemoved(EMPTY, before, key) == 0
  }

  lemma ReentersLast(init: seq<Op>, op: Op, key: Key)
    ensures NeverReenters(init + [op], key) <==> NeverReenters(init, key) && NotBack(init, op, key)
  {
    var ops := init + [op];
    assert ops[..|init|] == init && ops[|init|] == op;
    forall n | 0 <= n < |init| ensures ops[..n] == init[..n] && ops[n] == init[n] {
    }
    if NeverReenters(ops, key) {
      assert NotBack(ops[..|init|], ops[|init|], key);
      forall n | 0 <= n < |init| ensures NotBack(init[..n], init[n], key) {
        assert NotBack(ops[..n], ops[n], key);
      }
    }
  }

  lemma EnteredAsOftenAsRemoved(ops: seq<Op>, op: Op, key: Key)
    requires Enters(Run(EMPTY, ops), op, key)
    ensures TimesEntered(EMPTY, ops, key) == TimesRemoved(EMPTY, ops, key)
  {
    EnteredLessRemoved(ops, key);
    RunIsSound(ops);
    EntersOnlyAnew(Run(EMPTY, ops), op, key);
  }

  lemma AtMostOnceStep(init: seq<Op>, op: Op, key: Key)
    requires TimesEntered(EMPTY, init, key) <= 1 <==> NeverReenters(init, key)
    ensures TimesEntered(EMPTY, init + [op], key) <= 1 <==> NeverReenters(init + [op], key)
  {
    OneMore(init, op, key);
    ReentersLast(init, op, key);
    if Enters(Run(EMPTY, init), op, key) {
      EnteredAsOftenAsRemoved(init, op, key);
    }
  }

  lemma InitAndLast(ops: seq<Op>)
    requires ops != []
    ensures ops[..|ops| - 1] + [ops[|ops| - 1]] == ops
  {
  }

  /** Over any run: a key enters at most once exactly when it never comes back after its account's removal. */
  lemma {:induction false} AtMostOnceIff(ops: seq<Op>, key: Key)
    ensures TimesEntered(EMPTY, ops, key) <= 1 <==> NeverReenters(ops, key)
  {
    if ops != [] {
      var (init, op) := (ops[..|ops| - 1], ops[|ops| - 1]);
      AtMostOnceIff(init, key);
      InitAndLast(ops);
      AtMostOnceStep(init, op, key);
    }
  }

  predicate Carried(t: Transaction, rows: seq<Transaction>) {
    exists j :: 0 <= j < |rows| && rows[j].key == t.key && rows[j].account == t.account
  }

  lemma RewriteCarries(b: Book, row: Transaction, k: nat, action: Action, actor: nat, i: nat)
    requires k < |b.rows| && i < |b.rows| && b.rows[k].id == row.id
    requires b.rows[k].key == row.key && b.rows[k].account == row.account
    requires IdsIncrease(b.rows, b.nextRow)
    ensures Carried(b.rows[i], Rewrite(b, row, action, actor).rows)
  {
    assert Rewrite(b, row, action, actor).rows[i].key == b.rows[i].key;
  }

  lemma DestroyCarries(b: Book, account: nat, i: nat)
    requires i < |b.rows| && b.rows[i].account != account
    ensures Carried(b.rows[i], Destroy(b, account).0.rows)
  {
    var rows := Destroy(b, account).0.rows;
    if Destroy(b, account).1 == Done {
      var from := RowsWithoutOrigin(b.rows, account);
      var j :| 0 <= j < |from| && from[j] == i;
      assert rows[j] == b.rows[i];
    } else {
      assert rows[i] == b.rows[i];
    }
  }

  /** Only removing its account takes a row out of the book. */
  lemma RowStays(b: Book, op: Op, i: nat)
    requires Sound(b) && i < |b.rows|
    ensures b.rows[i].account in Apply(b, op).accounts ==> Carried(b.rows[i], Apply(b, op).rows)
  {
    match op
    case Destroying(account) =>
      if b.rows[i].account != account {
        DestroyCarries(b, account, i);
      } else if account in Destroy(b, account).0.accounts {
        assert Destroy(b, account).0.rows[i] == b.rows[i];
      }
    case Editing(id, actor, edit) =>
      var k := FindByIdFinds(b.rows, id);
      if Edit(b, id, actor, edit).1 == Done {
        RewriteCarries(b, EditedRow(b, b.rows[k], edit), k, Edited, actor, i);
      }
    case CrossingOut(id, actor) =>
      var k := FindByIdFinds(b.rows, id);
      if CrossOut(b, id, actor).1 == Done {
        RewriteCarries(b, b.rows[k].(crossedOut := true), k, CrossedOut, actor, i);
      }
    case Opening =>
      assert Apply(b, op).rows[i] == b.rows[i];
    case Recording(_, _, _, _) =>
      assert Apply(b, op).rows[i] == b.rows[i];
  }

  // --------------------------------------------------- itemized amounts

  /** Quantity times price, exactly, over an entry's lines: in hundredths of a chetrum. */
  function ExactTotal(lines: seq<LineItem>, entry: nat): int {
    if lines == [] then 0
    else
      var last := lines[|lines| - 1];
      ExactTotal(lines[..|lines| - 1], entry) + if last.entry == entry then last.quantity * last.unitPrice else 0
  }

  function LineCount(lines: seq<LineItem>, entry: nat): nat {
    if lines == [] then 0
    else LineCount(lines[..|lines| - 1], entry) + if lines[|lines| - 1].entry == entry then 1 else 0
  }

  lemma LineIsNearest(quantity: int, unitPrice: int)
    ensures 2 * Abs(100 * Money.ExactLineTotal(quantity, unitPrice) - quantity * unitPrice) <= 100
    ensures Money.LineTotal(quantity, unitPrice) == Money.ExactLineTotal(quantity, unitPrice)
       <==> Fits64(Money.ExactLineTotal(quantity, unitPrice))
  {
    RoundHalfAwayIsRounded(quantity * unitPrice, 100);
    WrapsBy64(Money.ExactLineTotal(quantity, unitPrice), 0);
  }

  lemma {:induction false} TotalIsNear(lines: seq<LineItem>, entry: nat)
    ensures 2 * Abs(100 * LineItemsTotal(lines, entry) - ExactTotal(lines, entry)) <= 100 * LineCount(lines, entry)
  {
    if lines != [] {
      var last := lines[|lines| - 1];
      TotalIsNear(lines[..|lines| - 1], entry);
      LineIsNearest(last.quantity, last.unitPrice);
    }
  }

  /** The entry is an itemized credit; near the exact total, when it is the sum of its lines. */
  predicate OwnedByLines(b: Book, t: Transaction) {
    && t.kind == Credit && t.itemized
    && (t.amount == LineItemsTotal(b.lines, t.id) ==>
          2 * Abs(100 * t.amount - ExactTotal(b.lines, t.id)) <= 100 * LineCount(b.lines, t.id))
  }

  lemma SoundAmount(b: Book, t: Transaction)
    requires AmountsHold(b) && t in b.rows && HasLines(b.lines, t.id)
    ensures OwnedByLines(b, t)
    ensures t.amount == LineItemsTotal(b.lines, t.id) <==> Fits64(LineItemsTotal(b.lines, t.id))
  {
    assert AmountHolds(b, t);
    TotalIsNear(b.lines, t.id);
    WrapsBy64(LineItemsTotal(b.lines, t.id), 0);
  }

  /**
   * After any run, whatever amount was typed when recording or editing it: an entry with line items is
   * an itemized credit for exactly the sum of their rounded totals (BR-12, BR-13), as long as that sum
   * is a number of 64 bits, and otherwise never.
   */
  lemma ItemizedAmountIsItsLines(ops: seq<Op>, t: Transaction)
    requires t in Run(EMPTY, ops).rows && HasLines(Run(EMPTY, ops).lines, t.id)
    ensures OwnedByLines(Run(EMPTY, ops), t)
    ensures var total := LineItemsTotal(Run(EMPTY, ops).lines, t.id); t.amount == total <==> Fits64(total)
  {
    RunIsSound(ops);
    SoundAmount(Run(EMPTY, ops), t);
  }

  // ------------------------------------------- where the sum passes 64 bits

  /** The highest price there is. */
  const DEAREST: int := INT64 / 2 - 1

  function One(name: string, price: string): LineInput {
    LineInput(name, "1", price)
  }

  function Thrice(input: LineInput): EntryInput {
    EntryInput(Credit, true, "", "", "", "", NoTime, [input, input, input], None)
  }

  lemma OneIsAHundred()
    ensures Money.ParseQuantity("1") == Some(100)
  {
    Money.PlainDigitsRead("1");
    Money.PlainIsReadWhole("1");
  }

  lemma OneIsRead(name: string, price: string)
    requires Text.Present(name) && Money.ParseCents(price) == Some(DEAREST)
    ensures var input := One(name, price);
            !Blank(input) && LineFaults(input) == [] && LineOf(input) == Line(Text.Trim(name), 100, DEAREST)
  {
    OneIsAHundred();
  }

  lemma LinesNext(inputs: seq<LineInput>, more: seq<LineInput>, input: LineInput, line: Line)
    requires !Blank(input) && LineFaults(input) == [] && LineOf(input) == line && more == inputs + [input]
    ensures LinesFrom(more) == LinesFrom(inputs) + [line] && FaultsFrom(more) == FaultsFrom(inputs)
  {
    assert more[..|inputs|] == inputs;
  }

  lemma ThriceRead(input: LineInput, line: Line)
    requires !Blank(input) && LineFaults(input) == [] && LineOf(input) == line
    ensures LinesFrom([input, input, input]) == [line, line, line]
    ensures FaultsFrom([input, input, input]) == []
  {
    LinesNext([], [input], input, line);
    LinesNext([input], [input, input], input, line);
    LinesNext([input, input], [input, input, input], input, line);
  }

  lemma SumNext(lines: seq<Line>, line: Line)
    requires line.quantity == 100
    ensures ExactSum(lines + [line]) == ExactSum(lines) + line.unitPrice
  {
    assert (lines + [line])[..|lines|] == lines;
  }

  lemma ThriceSummed(line: Line)
    requires line.quantity == 100
    ensures ExactSum([line, line, line]) == 3 * line.unitPrice
  {
    SumNext([], line);
    SumNext([line], line);
    SumNext([line, line], line);
    assert [] + [line] == [line] && [line] + [line] == [line, line] && [line, line] + [line] == [line, line, line];
  }

  lemma DearSum(line: Line)
    requires line.quantity == 100 && line.unitPrice == DEAREST
    ensures LinesSum([line, line, line]) == DEAREST - 2 && ExactSum([line, line, line]) == 3 * DEAREST
  {
    ThriceSummed(line);
    SumWraps([line, line, line]);
  }

  lemma ThriceIsRead(input: LineInput, line: Line)
    requires !Blank(input) && LineFaults(input) == [] && LineOf(input) == line
    requires line.quantity == 100 && line.unitPrice == DEAREST
    ensures EntryFaults(Thrice(input)) == [] && EntryAmount(Thrice(input)) == Some(DEAREST - 2)
    ensures EntryLines(Thrice(input)) != [] && ExactSum(EntryLines(Thrice(input))) == 3 * DEAREST
  {
    ThriceRead(input, line);
    assert Thrice(input).lineItems == [input, input, input];
    DearSum(line);
  }

  /** The first entry of all, on the first account. */
  lemma FirstEntry(input: EntryInput, actor: nat, now: int)
    requires EntryFaults(input) == [] && input.key == None
    ensures var b := Run(EMPTY, [Opening, Recording(0, actor, now, input)]);
            && |b.rows| == 1 && b.rows[0].amount == EntryAmount(input).value
            && (EntryLines(input) != [] ==> HasLines(b.lines, b.rows[0].id))
            && LineItemsTotal(b.lines, b.rows[0].id) == ExactSum(EntryLines(input))
  {
    OneMore([], Opening, 0);
    OneMore([Opening], Recording(0, actor, now, input), 0);
    assert [] + [Opening] == [Opening];
    assert [Opening] + [Recording(0, actor, now, input)] == [Opening, Recording(0, actor, now, input)];
    var b := Enter(OpenAccount(EMPTY), 0, actor, now, input);
    LineItemsTotalAppend([], EntryLines(input), 0, 0);
    assert b.lines == [] + Stored(EntryLines(input), 0);
    assert EntryLines(input) != [] ==> b.lines[0].entry == 0;
  }

  /**
   * Three lines at the highest price that can be typed: the server's sum comes round to a positive number
   * again, so the entry is made, for a third of what its lines come to.
   */
  lemma DearLinesPassOver(name: string, price: string, actor: nat, now: int)
    requires Text.Present(name) && Money.ParseCents(price) == Some(DEAREST)
    ensures var b := Run(EMPTY, [Opening, Recording(0, actor, now, Thrice(One(name, price)))]);
            && |b.rows| == 1 && HasLines(b.lines, b.rows[0].id)
            && LineItemsTotal(b.lines, b.rows[0].id) == 3 * DEAREST && b.rows[0].amount == DEAREST - 2
  {
    OneIsRead(name, price);
    ThriceIsRead(One(name, price), LineOf(One(name, price)));
    FirstEntry(Thrice(One(name, price)), actor, now);
  }
}
