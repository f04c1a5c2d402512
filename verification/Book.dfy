/**
 * The credit book as stored: transactions, their line items, accounts with a cached balance, and the
 * audit trail; and what each request does to it.
 */
module Book {
  import opened Widths
  import opened Wrappers
  import Money
  import Text

  /** Idempotency keys are only compared; a number stands for each. */
  type Key = nat

  datatype Kind = Credit | Payment

  datatype Transaction = Transaction(
    id: nat, account: nat, kind: Kind, amount: int,
    description: Option<string>, notes: Option<string>, paymentMethod: Option<string>,
    occurredAt: int, itemized: bool, key: Option<Key>, crossedOut: bool)

  /** A quantity is kept in hundredths, as the numeric(10, 2) column does. */
  datatype LineItem = LineItem(entry: nat, name: string, quantity: int, unitPrice: int)

  datatype Account = Account(balance: int, lastActivity: Option<int>)

  datatype Action = Created | Edited | CrossedOut

  datatype AuditEvent = AuditEvent(entry: nat, action: Action, actor: nat, amount: int)

  datatype Book = Book(
    rows: seq<Transaction>, lines: seq<LineItem>, accounts: map<nat, Account>, audit: seq<AuditEvent>,
    nextRow: nat, nextAccount: nat)

  const EMPTY := Book([], [], map[], [], 0, 0)

  // ------------------------------------------------------------- sums

  function SignedAmount(t: Transaction): int {
    if t.kind == Credit then t.amount else -t.amount
  }

  predicate Live(t: Transaction, account: nat) {
    t.account == account && !t.crossedOut
  }

  /** Where a row stands in the chronological order: by date, then by id. */
  datatype Place = Place(at: int, id: nat)

  function PlaceOf(t: Transaction): Place {
    Place(t.occurredAt, t.id)
  }

  predicate AtOrBefore(p: Place, q: Place) {
    p.at < q.at || (p.at == q.at && p.id <= q.id)
  }

  datatype Cut = Everything | UpTo(place: Place)

  predicate Within(t: Transaction, cut: Cut) {
    cut.UpTo? ==> AtOrBefore(PlaceOf(t), cut.place)
  }

  function Weight(t: Transaction, account: nat, cut: Cut): int {
    if Live(t, account) && Within(t, cut) then SignedAmount(t) else 0
  }

  /** What the account owes counting its live rows within the cut, in whatever order they are listed. */
  function Balance(rows: seq<Transaction>, account: nat, cut: Cut): int {
    if rows == [] then 0
    else Balance(rows[..|rows| - 1], account, cut) + Weight(rows[|rows| - 1], account, cut)
  }

  /** The total of an account's live rows of one kind. */
  function Total(rows: seq<Transaction>, account: nat, kind: Kind): int {
    if rows == [] then 0
    else
      var t := rows[|rows| - 1];
      Total(rows[..|rows| - 1], account, kind) + if Live(t, account) && t.kind == kind then t.amount else 0
  }

  function Latest(rows: seq<Transaction>, account: nat): Option<int> {
    if rows == [] then None
    else
      var t := rows[|rows| - 1];
      var earlier := Latest(rows[..|rows| - 1], account);
      if !Live(t, account) then earlier
      else if earlier.Some? && earlier.value > t.occurredAt then earlier
      else Some(t.occurredAt)
  }

  /** BR-6, BR-7, BR-8: the cached balance and last activity, taken from the account's live rows. */
  function RecomputeBalance(b: Book, account: nat): Book {
    if account in b.accounts
    then b.(accounts := b.accounts[account := Account(Balance(b.rows, account, Everything), Latest(b.rows, account))])
    else b
  }

  // -------------------------------------------------------- line items

  datatype LineInput = LineInput(name: string, quantity: string, unitPrice: string)

  datatype Line = Line(name: string, quantity: int, unitPrice: int)

  datatype Fault =
    | LineNameBlank | LineQuantityNotPositive | LinePriceNotANumber | LinePriceNegative
    | AmountNotPositive | BadDate

  /** A row of the itemized form with no name and no price is skipped, not reported (BR-14). */
  predicate Blank(input: LineInput) {
    !Text.Present(input.name) && !Text.Present(input.unitPrice)
  }

  function LineFaults(input: LineInput): seq<Fault> {
    var quantity := Money.ParseQuantity(input.quantity);
    var price := Money.ParseCents(input.unitPrice);
    (if Text.Present(input.name) then [] else [LineNameBlank])
    + (if quantity.Some? && quantity.value > 0 then [] else [LineQuantityNotPositive])
    + (if price == None then [LinePriceNotANumber] else if price.value < 0 then [LinePriceNegative] else [])
  }

  /** What is kept of a row: a quantity that could not be read counts as one, a price as nothing. */
  function LineOf(input: LineInput): Line {
    var quantity := Money.ParseQuantity(input.quantity);
    var price := Money.ParseCents(input.unitPrice);
    Line(Text.Trim(input.name), if quantity.Some? then quantity.value else 100, if price.Some? then price.value else 0)
  }

  function LinesFrom(inputs: seq<LineInput>): seq<Line> {
    if inputs == [] then []
    else
      var last := inputs[|inputs| - 1];
      LinesFrom(inputs[..|inputs| - 1]) + if Blank(last) then [] else [LineOf(last)]
  }

  function FaultsFrom(inputs: seq<LineInput>): seq<Fault> {
    if inputs == [] then []
    else
      var last := inputs[|inputs| - 1];
      FaultsFrom(inputs[..|inputs| - 1]) + if Blank(last) then [] else LineFaults(last)
  }

  /** The server's sum over the lines typed, in 64 bits. */
  function LinesSum(lines: seq<Line>): int {
    if lines == [] then 0
    else
      var last := lines[|lines| - 1];
      ToInt64(LinesSum(lines[..|lines| - 1]) + Money.LineTotal(last.quantity, last.unitPrice))
  }

  function ExactSum(lines: seq<Line>): int {
    if lines == [] then 0
    else
      var last := lines[|lines| - 1];
      ExactSum(lines[..|lines| - 1]) + Money.ExactLineTotal(last.quantity, last.unitPrice)
  }

  /** Whatever wrapped on the way, the sum is the exact one's 64 bits. */
  lemma {:induction false} SumWraps(lines: seq<Line>)
    ensures LinesSum(lines) == ToInt64(ExactSum(lines))
  {
    if lines != [] {
      var (init, last) := (lines[..|lines| - 1], lines[|lines| - 1]);
      SumWraps(init);
      WrapsBy64(ExactSum(init), Money.ExactLineTotal(last.quantity, last.unitPrice));
    }
  }

  /** The total the database takes over an entry's stored line items; nothing when it has none. */
  function LineItemsTotal(lines: seq<LineItem>, entry: nat): int {
    if lines == [] then 0
    else
      var last := lines[|lines| - 1];
      LineItemsTotal(lines[..|lines| - 1], entry)
      + if last.entry == entry then Money.ExactLineTotal(last.quantity, last.unitPrice) else 0
  }

  predicate HasLines(lines: seq<LineItem>, entry: nat) {
    exists i :: 0 <= i < |lines| && lines[i].entry == entry
  }

  function Stored(lines: seq<Line>, entry: nat): seq<LineItem> {
    seq(|lines|, i requires 0 <= i < |lines| => LineItem(entry, lines[i].name, lines[i].quantity, lines[i].unitPrice))
  }

  // ------------------------------------------------------------ record

  /** What reading a typed date gives: none was typed, it makes no sense, or a moment. */
  datatype TypedTime = NoTime | BadTime | At(time: int)

  datatype EntryInput = EntryInput(
    kind: Kind, itemized: bool, amount: string, description: string, notes: string, paymentMethod: string,
    occurredAt: TypedTime, lineItems: seq<LineInput>, key: Option<Key>)

  datatype Recorded =
    | Entered(entry: Transaction)
    | Duplicate(entry: Transaction)
    | Refused(faults: seq<Fault>)
    | NotFound
    | Failed                       // an internal error; nothing is kept

  function FindByKey(rows: seq<Transaction>, key: Key): Option<Transaction> {
    if rows == [] then None
    else if rows[|rows| - 1].key == Some(key) then Some(rows[|rows| - 1])
    else FindByKey(rows[..|rows| - 1], key)
  }

  function Itemized(input: EntryInput): bool {
    input.kind == Credit && input.itemized
  }

  function EntryLines(input: EntryInput): seq<Line> {
    if Itemized(input) then LinesFrom(input.lineItems) else []
  }

  /** BR-12: an itemized credit's lines decide its amount, whatever was typed for it. */
  function EntryAmount(input: EntryInput): Option<int> {
    if EntryLines(input) != [] then Some(LinesSum(EntryLines(input))) else Money.ParseCents(input.amount)
  }

  predicate Positive(amount: Option<int>) {
    amount.Some? && amount.value > 0
  }

  function EntryFaults(input: EntryInput): seq<Fault> {
    (if Itemized(input) then FaultsFrom(input.lineItems) else [])
    + (if Positive(EntryAmount(input)) then [] else [AmountNotPositive])
    + (if input.occurredAt == BadTime then [BadDate] else [])
  }

  function NewRow(b: Book, account: nat, now: int, input: EntryInput): Transaction
    requires EntryFaults(input) == []
  {
    Transaction(
      b.nextRow, account, input.kind, EntryAmount(input).value,
      Text.Presence(input.description), Text.Presence(input.notes),
      if input.kind == Payment then Text.Presence(input.paymentMethod) else None,
      if input.occurredAt.At? then input.occurredAt.time else now,
      Itemized(input), input.key, false)
  }

  function Enter(b: Book, account: nat, actor: nat, now: int, input: EntryInput): Book
    requires EntryFaults(input) == []
  {
    Finished(b, NewRow(b, account, now, input), EntryLines(input), actor)
  }

  /** The book with a row, its lines, its account's balance and its audit event. */
  function Finished(b: Book, row: Transaction, lines: seq<Line>, actor: nat): Book {
    var inserted := b.(rows := b.rows + [row], nextRow := b.nextRow + 1, lines := b.lines + Stored(lines, row.id));
    var counted := RecomputeBalance(inserted, row.account);
    counted.(audit := counted.audit + [AuditEvent(row.id, Created, actor, row.amount)])
  }

  /** Recording as one step: a key the book already has changes nothing. */
  function Record(b: Book, account: nat, actor: nat, now: int, input: EntryInput): (Book, Recorded) {
    if input.key.Some? && FindByKey(b.rows, input.key.value).Some? then
      (b, Duplicate(FindByKey(b.rows, input.key.value).value))
    else if EntryFaults(input) != [] then
      (b, Refused(EntryFaults(input)))
    else
      (Enter(b, account, actor, now, input), Entered(NewRow(b, account, now, input)))
  }

  /**
   * Recording as it runs: the key is looked up in one state of the book and the row inserted in a
   * later one, where a twin may have got there first, or the account may be gone, which its foreign
   * key reports; then nothing is inserted.
   */
  function RecordOver(before: Book, later: Book, account: nat, actor: nat, now: int, input: EntryInput): (Book, Recorded) {
    if input.key.Some? && FindByKey(before.rows, input.key.value).Some? then
      (later, Duplicate(FindByKey(before.rows, input.key.value).value))
    else if EntryFaults(input) != [] then
      (later, Refused(EntryFaults(input)))
    else if input.key.Some? && FindByKey(later.rows, input.key.value).Some? then
      (later, Duplicate(FindByKey(later.rows, input.key.value).value))
    else if account !in later.accounts then
      (later, Failed)
    else
      (Enter(later, account, actor, now, input), Entered(NewRow(later, account, now, input)))
  }

  // --------------------------------------------------- edit, cross out

  datatype EditInput = EditInput(
    amount: string, description: string, notes: string, paymentMethod: string, occurredAt: TypedTime)

  datatype Answer =
    | Done | Missing | Invalid(faults: seq<Fault>) | AlreadyCrossedOut | BalanceNotZero
    | Broken                       // an internal error; nothing is kept

  function FindById(rows: seq<Transaction>, id: nat): Option<Transaction> {
    if rows == [] then None
    else if rows[|rows| - 1].id == id then Some(rows[|rows| - 1])
    else FindById(rows[..|rows| - 1], id)
  }

  /** UPDATE ... WHERE id = $1. */
  function Replace(rows: seq<Transaction>, id: nat, row: Transaction): seq<Transaction> {
    seq(|rows|, i requires 0 <= i < |rows| => if rows[i].id == id then row else rows[i])
  }

  function EditAmount(b: Book, t: Transaction, input: EditInput): Option<int> {
    if t.itemized && LineItemsTotal(b.lines, t.id) > 0 then Some(LineItemsTotal(b.lines, t.id))
    else Money.ParseCents(input.amount)
  }

  function EditFaults(b: Book, t: Transaction, input: EditInput): seq<Fault> {
    (if Positive(EditAmount(b, t, input)) then [] else [AmountNotPositive])
    + (if input.occurredAt == BadTime then [BadDate] else [])
  }

  function EditedRow(b: Book, t: Transaction, input: EditInput): Transaction
    requires EditFaults(b, t, input) == []
  {
    t.(amount := EditAmount(b, t, input).value,
       description := if t.kind == Credit then Text.Presence(input.description) else t.description,
       notes := Text.Presence(input.notes),
       paymentMethod := if t.kind == Credit then t.paymentMethod else Text.Presence(input.paymentMethod),
       occurredAt := if input.occurredAt.At? then input.occurredAt.time else t.occurredAt)
  }

  function Rewrite(b: Book, row: Transaction, action: Action, actor: nat): Book {
    var written := b.(rows := Replace(b.rows, row.id, row));
    var counted := RecomputeBalance(written, row.account);
    counted.(audit := counted.audit + [AuditEvent(row.id, action, actor, row.amount)])
  }

  function Edit(b: Book, id: nat, actor: nat, input: EditInput): (Book, Answer) {
    match FindById(b.rows, id)
    case None => (b, Missing)
    case Some(t) =>
      if t.itemized && !Fits64(LineItemsTotal(b.lines, t.id)) then (b, Broken)
      else if EditFaults(b, t, input) != [] then (b, Invalid(EditFaults(b, t, input)))
      else (Rewrite(b, EditedRow(b, t, input), Edited, actor), Done)
  }

  function CrossOut(b: Book, id: nat, actor: nat): (Book, Answer) {
    match FindById(b.rows, id)
    case None => (b, Missing)
    case Some(t) =>
      if t.crossedOut then (b, AlreadyCrossedOut)
      else (Rewrite(b, t.(crossedOut := true), CrossedOut, actor), Done)
  }

  // ---------------------------------------------------------- accounts

  function OpenAccount(b: Book): Book {
    b.(accounts := b.accounts[b.nextAccount := Account(0, None)], nextAccount := b.nextAccount + 1)
  }

  function RowsWithout(rows: seq<Transaction>, account: nat): seq<Transaction> {
    if rows == [] then []
    else
      var last := rows[|rows| - 1];
      RowsWithout(rows[..|rows| - 1], account) + if last.account == account then [] else [last]
  }

  function IdsOf(rows: seq<Transaction>, account: nat): set<nat> {
    set i | 0 <= i < |rows| && rows[i].account == account :: rows[i].id
  }

  function LinesWithout(lines: seq<LineItem>, entries: set<nat>): seq<LineItem> {
    if lines == [] then []
    else
      var last := lines[|lines| - 1];
      LinesWithout(lines[..|lines| - 1], entries) + if last.entry in entries then [] else [last]
  }

  function AuditWithout(audit: seq<AuditEvent>, entries: set<nat>): seq<AuditEvent> {
    if audit == [] then []
    else
      var last := audit[|audit| - 1];
      AuditWithout(audit[..|audit| - 1], entries) + if last.entry in entries then [] else [last]
  }

  /** Removing a settled account takes everything hanging off it along. */
  function Destroy(b: Book, account: nat): (Book, Answer) {
    if account !in b.accounts then (b, Missing)
    else if b.accounts[account].balance != 0 then (b, BalanceNotZero)
    else
      var ids := IdsOf(b.rows, account);
      (b.(rows := RowsWithout(b.rows, account), lines := LinesWithout(b.lines, ids),
          audit := AuditWithout(b.audit, ids), accounts := b.accounts - {account}), Done)
  }

  // -------------------------------------------------------------- runs

  datatype Op =
    | Opening
    | Recording(account: nat, actor: nat, now: int, input: EntryInput)
    | Editing(id: nat, actor: nat, edit: EditInput)
    | CrossingOut(id: nat, actor: nat)
    | Destroying(account: nat)

  /** The recording endpoint looks the account up first. */
  function RecordIn(b: Book, account: nat, actor: nat, now: int, input: EntryInput): (Book, Recorded) {
    if account in b.accounts then Record(b, account, actor, now, input) else (b, NotFound)
  }

  function Apply(b: Book, op: Op): Book {
    match op
    case Opening => OpenAccount(b)
    case Recording(account, actor, now, input) => RecordIn(b, account, actor, now, input).0
    case Editing(id, actor, edit) => Edit(b, id, actor, edit).0
    case CrossingOut(id, actor) => CrossOut(b, id, actor).0
    case Destroying(account) => Destroy(b, account).0
  }

  function Run(b: Book, ops: seq<Op>): Book {
    if ops == [] then b else Apply(Run(b, ops[..|ops| - 1]), ops[|ops| - 1])
  }

  // ------------------------------------------------------------ ledger

  function InsertByPlace(rows: seq<Transaction>, t: Transaction): seq<Transaction> {
    if rows == [] || AtOrBefore(PlaceOf(rows[|rows| - 1]), PlaceOf(t)) then rows + [t]
    else InsertByPlace(rows[..|rows| - 1], t) + [rows[|rows| - 1]]
  }

  /** The account's rows ORDER BY occurred_at, id; the crossed-out ones only when asked for. */
  function AccountLedger(rows: seq<Transaction>, account: nat, includeCrossedOut: bool): seq<Transaction> {
    if rows == [] then []
    else
      var earlier := AccountLedger(rows[..|rows| - 1], account, includeCrossedOut);
      var t := rows[|rows| - 1];
      if t.account == account && (includeCrossedOut || !t.crossedOut) then InsertByPlace(earlier, t) else earlier
  }
}
