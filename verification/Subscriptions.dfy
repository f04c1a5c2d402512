/**
 * One shop's subscription: a status derived from the clock over a cached column, stale refreshes of that
 * column, and reviewed payments that extend the period.
 */
module Subscriptions {
  import opened Calendar
  import opened Widths
  import opened Wrappers
  import Decimals
  import Money
  import Text

  const TRIAL_MONTHS := 3
  const GRACE_DAYS := 14

  datatype Status = Trialing | Active | PastDue | Disabled

  datatype Subscription = Subscription(status: Status, periodEnd: int, graceUntil: Option<int>, disabledAt: Option<int>)

  /** BR-37: where the shop stands at a moment; the stored status only tells a trial from a paid period. */
  function EffectiveStatus(s: Subscription, now: int): Status {
    if now <= s.periodEnd then (if s.status == Trialing then Trialing else Active)
    else if s.graceUntil.Some? && now <= s.graceUntil.value then PastDue
    else Disabled
  }

  predicate WriteLocked(s: Subscription, now: int) {
    EffectiveStatus(s, now) == Disabled
  }

  function Later(a: int, b: int): int {
    if a < b then b else a
  }

  /** BR-43: months are counted on from the period's end, or from now once that is past. */
  function Extended(s: Subscription, months: Int32, now: int): Subscription {
    var newEnd := AddMonths(Later(now, s.periodEnd), months);
    Subscription(Active, newEnd, Some(AddDays(newEnd, GRACE_DAYS)), None)
  }

  function Provisioned(now: int): Subscription {
    var end := AddMonths(now, TRIAL_MONTHS);
    Subscription(Trialing, end, Some(AddDays(end, GRACE_DAYS)), None)
  }

  // ---------------------------------------------------------- months typed

  /** The months typed: a year when left blank; nothing when it is no whole number of 64 bits, or less than one. */
  function TypedMonths(text: string): Option<int> {
    var trimmed := Text.Trim(text);
    var typed := if trimmed == "" then Some(12) else Decimals.ParseInt(trimmed);
    if typed.Some? && 1 <= typed.value < INT64 / 2 then typed else None
  }

  /** The low bits put it below half: the stored number is not negative. */
  predicate Fits(text: string) {
    TypedMonths(text).Some? ==> TypedMonths(text).value % INT32 < INT32 / 2
  }

  /** The months stored are those typed exactly up to 2^31, and not negative exactly when the low bits fit. */
  lemma StoredMonths(text: string)
    requires TypedMonths(text).Some?
    ensures var n := TypedMonths(text).value;
            && (ToInt32(n) == n <==> n < INT32 / 2)
            && (ToInt32(n) >= 0 <==> Fits(text))
            && (ToInt32(n) - n) % INT32 == 0
  {
    var n := TypedMonths(text).value;
    assert n == n / INT32 * INT32 + n % INT32;
    WrapsBy32(n);
  }

  lemma TrimmedAlready(text: string)
    requires text != "" && !Text.IsSpace(text[0]) && !Text.IsSpace(text[|text| - 1])
    ensures Text.Trim(text) == text
  {
  }

  lemma SignedIsRead(sign: string, digits: string)
    requires (sign == "" || sign == "+" || sign == "-") && digits != "" && Text.AllDigits(digits)
    ensures var n := Text.DigitsValue(digits);
            Decimals.ParseInt(sign + digits) == Some(if sign == "-" then -(n as int) else n)
  {
    if sign == "" {
      assert sign + digits == digits;
    } else {
      assert (sign + digits)[1..] == digits;
    }
  }

  lemma SignedHasNoSpaces(sign: string, digits: string)
    requires (sign == "" || sign == "+" || sign == "-") && digits != "" && Text.AllDigits(digits)
    ensures Text.Trim(sign + digits) == sign + digits
  {
    var text := sign + digits;
    assert text[|text| - 1] == digits[|digits| - 1];
    assert text[0] == if sign == "" then digits[0] else sign[0];
    TrimmedAlready(text);
  }

  /** Nothing typed is a year. */
  lemma BlankIsAYear(text: string)
    requires forall i :: 0 <= i < |text| ==> Text.IsSpace(text[i])
    ensures TypedMonths(text) == Some(12)
  {
    Text.SpacesTrimToNothing(text);
  }

  /** Digits, with a sign or without, are their number when that is at least one and of 64 bits, and otherwise refused. */
  lemma TypedIs(sign: string, n: nat)
    requires sign == "" || sign == "+" || sign == "-"
    ensures TypedMonths(sign + Text.Digits(n))
         == if sign != "-" && 1 <= n < 0x8000_0000_0000_0000 then Some(n) else None
  {
    SignedHasNoSpaces(sign, Text.Digits(n));
    SignedIsRead(sign, Text.Digits(n));
    Text.DigitsRoundTrip(n);
  }

  // ---------------------------------------------------------------- steps

  /** A rejection keeps the reason its submitter reads. */
  datatype Review = Pending | Approved | Rejected(reason: string)

  datatype Payment = Payment(months: Int32, review: Review)

  /** A status write worked out from a snapshot, not yet in the database. */
  datatype Write = Write(status: Status, disabledAt: Option<int>)

  datatype State = State(
    sub: Subscription,
    payments: seq<Payment>,
    clock: int,
    snapshots: map<nat, Subscription>,   // snapshots held by requests under way
    pending: map<nat, Write>)         // refreshes they are about to write

  datatype Step =
    | Tick(to: int)
    | Submit(months: string)
    | Approve(id: nat)
    | Reject(id: nat, reason: string)
    | Read(slot: nat)
    | Derive(slot: nat)
    | Refresh(slot: nat)

  /** RefreshStatus, from a snapshot: nothing to write, or a status and when it was disabled. */
  function Derived(s: Subscription, now: int): Option<Write> {
    var derived := EffectiveStatus(s, now);
    if s.status == derived then None
    else if derived != Disabled then Some(Write(derived, None))
    else Some(Write(derived, if s.disabledAt == None then Some(now) else s.disabledAt))
  }

  function Approving(s: State, id: nat): State {
    if id < |s.payments| && s.payments[id].review == Pending
    then s.(payments := s.payments[id := s.payments[id].(review := Approved)],
            sub := Extended(s.sub, s.payments[id].months, s.clock))
    else s
  }

  /** The reason as kept: trimmed, and never blank. */
  function Reason(typed: string): (reason: string)
    ensures reason != ""
  {
    if Text.Trim(typed) == "" then "No reason given" else Text.Trim(typed)
  }

  function Rejecting(s: State, id: nat, reason: string): State {
    if id < |s.payments| && s.payments[id].review == Pending
    then s.(payments := s.payments[id := s.payments[id].(review := Rejected(Reason(reason)))])
    else s
  }

  /** A payment is stored with as much of the months typed as the column takes. */
  function Submitting(s: State, text: string): State {
    match TypedMonths(text)
    case None => s
    case Some(n) => s.(payments := s.payments + [Payment(ToInt32(n), Pending)])
  }

  function Next(s: State, step: Step): State {
    match step
    case Tick(to) => s.(clock := Later(s.clock, to))
    case Submit(text) => Submitting(s, text)
    case Approve(id) => Approving(s, id)
    case Reject(id, reason) => Rejecting(s, id, reason)
    case Read(slot) => s.(snapshots := s.snapshots[slot := s.sub])
    case Derive(slot) =>
      if slot !in s.snapshots then s
      else
        var write := Derived(s.snapshots[slot], s.clock);
        if write.Some? then s.(pending := s.pending[slot := write.value]) else s.(pending := s.pending - {slot})
    case Refresh(slot) =>
      if slot !in s.pending then s
      else s.(sub := s.sub.(status := s.pending[slot].status, disabledAt := s.pending[slot].disabledAt),
              pending := s.pending - {slot})
  }

  function Run(s: State, steps: seq<Step>): State {
    if steps == [] then s else Next(Run(s, steps[..|steps| - 1]), steps[|steps| - 1])
  }

  function Opened(now: int): State {
    State(Provisioned(now), [], now, map[], map[])
  }

  // ---------------------------------------------------------- extending

  /**
   * Approving m months moves the end from max(now, end) by exactly m calendar months, back when m is
   * negative; it keeps grace fourteen days after the end, and the shop is locked exactly after grace. With
   * m not negative the end never moves back and the shop is active at once.
   */
  lemma ExtendedMoves(s: Subscription, months: Int32, now: int)
    ensures var t := Extended(s, months, now);
            var base := Later(now, s.periodEnd);
            && t.periodEnd == AddDays(base, DaysAcross(MonthOf(base / DAY), months))
            && (if months >= 0 then AddDays(base, 28 * months) <= t.periodEnd <= AddDays(base, 31 * months)
                else AddDays(base, 31 * months) <= t.periodEnd <= AddDays(base, 28 * months))
            && (months == 12 ==> t.periodEnd == AddDays(base, 365) || t.periodEnd == AddDays(base, 366))
            && t.graceUntil == Some(AddDays(t.periodEnd, GRACE_DAYS))
            && t.disabledAt == None
            && (forall at: int :: WriteLocked(t, at) <==> at > AddDays(t.periodEnd, GRACE_DAYS))
            && (EffectiveStatus(t, now) == Active <==> now <= t.periodEnd)
            && (months >= 0 ==> base <= t.periodEnd)
            && (months < 0 ==> t.periodEnd < base)
  {
    AddMonthsMoves(Later(now, s.periodEnd), months);
  }

  // ------------------------------------------------- the cached status

  /**
   * What makes stale refreshes harmless: while the row still says trial, it has always said so with this
   * same end, and any write under way was worked out after that end.
   */
  predicate Fresh(s: State) {
    && (forall i :: i in s.pending ==> s.pending[i].status != Trialing)
    && (s.sub.status == Trialing ==>
          && (forall i :: i in s.snapshots ==> s.snapshots[i].status == Trialing && s.snapshots[i].periodEnd == s.sub.periodEnd)
          && (forall i :: i in s.pending ==> s.clock > s.sub.periodEnd))
  }

  lemma FreshStays(s: State, step: Step)
    requires Fresh(s)
    ensures Fresh(Next(s, step))
  {
  }

  /** The same but for the cached column, which differs only where it no longer matters. */
  predicate Alike(s: State, t: State) {
    && s.payments == t.payments && s.clock == t.clock
    && s.sub.periodEnd == t.sub.periodEnd && s.sub.graceUntil == t.sub.graceUntil
    && ((s.sub.status == Trialing <==> t.sub.status == Trialing) || s.clock > s.sub.periodEnd)
  }

  lemma AlikeStays(s: State, t: State, step: Step)
    requires Fresh(s) && Alike(s, t)
    ensures Alike(Next(s, step), if step.Refresh? then t else Next(t, step))
  {
  }

  /** A run as if no refresh ever reached the database. */
  function WithoutRefreshes(s: State, steps: seq<Step>): State {
    if steps == [] then s
    else
      var before := WithoutRefreshes(s, steps[..|steps| - 1]);
      var step := steps[|steps| - 1];
      if step.Refresh? then before else Next(before, step)
  }

  lemma {:induction false} RunsAlike(s: State, steps: seq<Step>)
    requires Fresh(s)
    ensures Fresh(Run(s, steps)) && Alike(Run(s, steps), WithoutRefreshes(s, steps))
  {
    if steps != [] {
      var init := steps[..|steps| - 1];
      RunsAlike(s, init);
      FreshStays(Run(s, init), steps[|steps| - 1]);
      AlikeStays(Run(s, init), WithoutRefreshes(s, init), steps[|steps| - 1]);
    }
  }

  /**
   * However stale the refreshes, at every later moment the shop stands exactly as it would have without
   * any: no refresh locks a shop, unlocks one, or gives its trial back.
   */
  lemma StaleRefreshesAreHarmless(now: int, steps: seq<Step>, at: int)
    requires at >= Run(Opened(now), steps).clock
    ensures EffectiveStatus(Run(Opened(now), steps).sub, at) == EffectiveStatus(WithoutRefreshes(Opened(now), steps).sub, at)
  {
    RunsAlike(Opened(now), steps);
  }

  /** Neither approvals nor refreshes in it: the subscription stays as it was. */
  lemma {:induction false} NothingApproved(s: State, steps: seq<Step>)
    requires forall i :: 0 <= i < |steps| ==> !steps[i].Approve?
    ensures WithoutRefreshes(s, steps).sub == s.sub
  {
    if steps != [] { NothingApproved(s, steps[..|steps| - 1]); }
  }

  /** Until a payment is approved, whatever else happens: three months of trial, then fourteen days of grace, then locked. */
  lemma TrialStands(now: int, steps: seq<Step>, at: int)
    requires (forall i :: 0 <= i < |steps| ==> !steps[i].Approve?) && at >= Run(Opened(now), steps).clock
    ensures EffectiveStatus(Run(Opened(now), steps).sub, at)
         == if at <= AddMonths(now, 3) then Trialing
            else if at <= AddMonths(now, 3) + 14 * DAY then PastDue
            else Disabled
    ensures WriteLocked(Run(Opened(now), steps).sub, at) <==> at > AddMonths(now, 3) + 14 * DAY
  {
    NothingApproved(Opened(now), steps);
    StaleRefreshesAreHarmless(now, steps, at);
    AddMonthsMoves(now, 3);
  }

  /** After an approval, until the next: active for the months paid from the later of now and the old end, then as after a trial. */
  lemma PaidStands(s: State, id: nat, at: int)
    requires id < |s.payments| && s.payments[id].review == Pending
    ensures var end := AddMonths(if s.sub.periodEnd < s.clock then s.clock else s.sub.periodEnd, s.payments[id].months);
            var t := Next(s, Approve(id));
            && t.payments == s.payments[id := Payment(s.payments[id].months, Approved)] && t.sub.periodEnd == end
            && EffectiveStatus(t.sub, at)
               == if at <= end then Active else if at <= end + 14 * DAY then PastDue else Disabled
  {
  }

  /** A refresh that is not overtaken makes the column say what holds, and notes when the shop was first locked. */
  lemma RefreshSettles(s: State, slot: nat)
    ensures var t := Next(Next(Next(s, Read(slot)), Derive(slot)), Refresh(slot));
            var now := EffectiveStatus(s.sub, s.clock);
            && t.sub.status == now && t.sub.periodEnd == s.sub.periodEnd && t.sub.graceUntil == s.sub.graceUntil
            && (now == s.sub.status ==> t.sub.disabledAt == s.sub.disabledAt)
            && (now != s.sub.status && now != Disabled ==> t.sub.disabledAt == None)
            && (now != s.sub.status && now == Disabled ==>
                t.sub.disabledAt == if s.sub.disabledAt == None then Some(s.clock) else s.sub.disabledAt)
  {
  }

  // -------------------------------------------------------------- reviews

  /** The stored months of all approved payments. */
  function MonthsApproved(payments: seq<Payment>): int {
    if payments == [] then 0
    else
      var last := payments[|payments| - 1];
      MonthsApproved(payments[..|payments| - 1]) + if last.review == Approved then last.months else 0
  }

  lemma {:induction false} ReviewCounts(payments: seq<Payment>, id: nat, review: Review)
    requires id < |payments| && payments[id].review == Pending
    ensures MonthsApproved(payments[id := payments[id].(review := review)])
         == MonthsApproved(payments) + if review == Approved then payments[id].months else 0
  {
    var n := |payments| - 1;
    var after := payments[id := payments[id].(review := review)];
    if id == n {
      assert after[..n] == payments[..n];
    } else {
      assert after[..n] == payments[..n][id := payments[id].(review := review)];
      ReviewCounts(payments[..n], id, review);
    }
  }

  predicate NoneNegative(payments: seq<Payment>) {
    forall i :: 0 <= i < |payments| ==> payments[i].months >= 0
  }

  /**
   * Cover is conserved: the end lies at least 28 and at most 31 days a month approved beyond where it
   * began, counting at most from the present; and grace always ends 14 days after it.
   */
  predicate Covered(s: State, end0: int) {
    && s.sub.graceUntil == Some(AddDays(s.sub.periodEnd, GRACE_DAYS))
    && AddDays(end0, 28 * MonthsApproved(s.payments)) <= s.sub.periodEnd
    && s.sub.periodEnd <= AddDays(Later(s.clock, end0), 31 * MonthsApproved(s.payments))
    && NoneNegative(s.payments)
  }

  lemma {:induction false} NoneApprovedIsNegative(payments: seq<Payment>)
    requires NoneNegative(payments)
    ensures MonthsApproved(payments) >= 0
  {
    if payments != [] { NoneApprovedIsNegative(payments[..|payments| - 1]); }
  }

  lemma ApprovalCovers(s: State, id: nat, end0: int)
    requires Covered(s, end0) && id < |s.payments| && s.payments[id].review == Pending
    ensures Covered(Approving(s, id), end0) && s.sub.periodEnd <= Approving(s, id).sub.periodEnd
  {
    ReviewCounts(s.payments, id, Approved);
    NoneApprovedIsNegative(s.payments);
    ExtendedMoves(s.sub, s.payments[id].months, s.clock);
  }

  lemma RejectionCovers(s: State, id: nat, reason: string, end0: int)
    requires Covered(s, end0)
    ensures Covered(Rejecting(s, id, reason), end0)
  {
    if id < |s.payments| && s.payments[id].review == Pending {
      ReviewCounts(s.payments, id, Rejected(Reason(reason)));
    }
  }

  lemma SubmissionCovers(s: State, text: string, end0: int)
    requires Covered(s, end0) && Fits(text)
    ensures Covered(Submitting(s, text), end0)
  {
    if TypedMonths(text).Some? {
      StoredMonths(text);
      assert Submitting(s, text).payments[..|s.payments|] == s.payments;
    }
  }

  /** Time only raises the bound, and the cached column is not looked at. */
  lemma OthersCover(s: State, t: State, end0: int)
    requires Covered(s, end0) && t.payments == s.payments && t.clock >= s.clock
    requires t.sub.periodEnd == s.sub.periodEnd && t.sub.graceUntil == s.sub.graceUntil
    ensures Covered(t, end0)
  {
    NoneApprovedIsNegative(s.payments);
  }

  predicate StepFits(step: Step) {
    step.Submit? ==> Fits(step.months)
  }

  /** Every number of months typed in this run is stored as one that is not negative. */
  predicate AllFit(steps: seq<Step>) {
    forall i :: 0 <= i < |steps| ==> StepFits(steps[i])
  }

  lemma CoverStays(s: State, step: Step, end0: int)
    requires Covered(s, end0) && StepFits(step)
    ensures Covered(Next(s, step), end0)
    ensures s.sub.periodEnd <= Next(s, step).sub.periodEnd
  {
    match step
    case Approve(id) =>
      if id < |s.payments| && s.payments[id].review == Pending { ApprovalCovers(s, id, end0); }
    case Reject(id, reason) => RejectionCovers(s, id, reason, end0);
    case Submit(text) => SubmissionCovers(s, text, end0);
    case _ => OthersCover(s, Next(s, step), end0);
  }

  lemma {:induction false} CoverIsConserved(now: int, steps: seq<Step>)
    requires AllFit(steps)
    ensures Covered(Run(Opened(now), steps), Provisioned(now).periodEnd)
  {
    if steps == [] {
      AddMonthsMoves(now, TRIAL_MONTHS);
    } else {
      CoverIsConserved(now, steps[..|steps| - 1]);
      CoverStays(Run(Opened(now), steps[..|steps| - 1]), steps[|steps| - 1], Provisioned(now).periodEnd);
    }
  }

  /** A payment once settled is as it was settled, with the months it was stored with. */
  predicate KeptFrom(s: State, t: State, id: nat) {
    && id < |s.payments| && id < |t.payments| && t.payments[id].months == s.payments[id].months
    && (s.payments[id].review != Pending ==> t.payments[id] == s.payments[id])
  }

  /** Over a longer run, whatever was typed, a payment once settled stays as it was settled. */
  lemma {:induction false} SettledOnce(now: int, steps: seq<Step>, more: seq<Step>, id: nat)
    requires id < |Run(Opened(now), steps).payments|
    ensures KeptFrom(Run(Opened(now), steps), Run(Opened(now), steps + more), id)
    decreases |more|
  {
    if more == [] {
      assert steps + more == steps;
    } else {
      var init := more[..|more| - 1];
      SettledOnce(now, steps, init, id);
      assert (steps + more)[..|steps + more| - 1] == steps + init;
    }
  }

  // ------------------------------------------------- when the end moves back

  /** No step of the run moves the end back. */
  predicate NeverBack(now: int, steps: seq<Step>) {
    forall i :: 0 <= i < |steps| ==>
      Run(Opened(now), steps[..i]).sub.periodEnd <= Run(Opened(now), steps[..i + 1]).sub.periodEnd
  }

  lemma FittingNeverBack(now: int, steps: seq<Step>)
    requires AllFit(steps)
    ensures NeverBack(now, steps)
  {
    forall i | 0 <= i < |steps|
      ensures Run(Opened(now), steps[..i]).sub.periodEnd <= Run(Opened(now), steps[..i + 1]).sub.periodEnd
    {
      assert steps[..i + 1][..i] == steps[..i];
      CoverIsConserved(now, steps[..i]);
      CoverStays(Run(Opened(now), steps[..i]), steps[i], Provisioned(now).periodEnd);
    }
  }

  lemma TwoSteps(s: State, first: Step, second: Step)
    ensures Run(s, [first, second][..1]) == Next(s, first)
    ensures Run(s, [first, second]) == Next(Next(s, first), second) && [first, second][..2] == [first, second]
  {
    assert [first, second][..1] == [first] && [first][..0] == [];
    assert Run(s, [first]) == Next(Run(s, []), first);
  }

  /** Typed, stored and approved at once, a number that does not fit takes the end of the trial back. */
  lemma MisfitMovesBack(now: int, text: string)
    requires !Fits(text)
    ensures !NeverBack(now, [Submit(text), Approve(0)])
    ensures Run(Opened(now), [Submit(text), Approve(0)]).sub
         == Extended(Provisioned(now), ToInt32(TypedMonths(text).value), now)
  {
    var steps := [Submit(text), Approve(0)];
    var months := ToInt32(TypedMonths(text).value);
    TwoSteps(Opened(now), Submit(text), Approve(0));
    StoredMonths(text);
    AddMonthsMoves(now, TRIAL_MONTHS);
    ExtendedMoves(Provisioned(now), months, now);
    assert Run(Opened(now), steps[..1 + 1]).sub.periodEnd < Run(Opened(now), steps[..1]).sub.periodEnd;
  }

  /** Only these texts are typed for the months. */
  ghost predicate OnlyTyped(steps: seq<Step>, texts: set<string>) {
    forall i :: 0 <= i < |steps| && steps[i].Submit? ==> steps[i].months in texts
  }

  /**
   * The end never moves back in any run with these months typed exactly when each, where it is accepted,
   * is below half in its low 32 bits.
   */
  lemma NeverBackIffFit(texts: set<string>)
    ensures (forall text :: text in texts ==> Fits(text))
       <==> forall now: int, steps: seq<Step> :: OnlyTyped(steps, texts) ==> NeverBack(now, steps)
  {
    if forall text :: text in texts ==> Fits(text) {
      forall now: int, steps: seq<Step> | OnlyTyped(steps, texts) ensures NeverBack(now, steps) {
        FittingNeverBack(now, steps);
      }
    } else {
      var text :| text in texts && !Fits(text);
      MisfitMovesBack(0, text);
      assert OnlyTyped([Submit(text), Approve(0)], texts);
    }
  }

  const MISFIT := 4_294_967_284

  /**
   * With 4294967284 typed, which passes for a number of months, twelve less than none are stored; approved in
   * a running trial, they take the end back a year and lock the shop at once.
   */
  lemma YearTakenBack(now: int, text: string)
    requires TypedMonths(text) == Some(MISFIT)
    ensures var after := Run(Opened(now), [Submit(text), Approve(0)]).sub;
            var end := Provisioned(now).periodEnd;
            && EffectiveStatus(Provisioned(now), now) == Trialing && WriteLocked(after, now)
            && (after.periodEnd == AddDays(end, -365) || after.periodEnd == AddDays(end, -366))
  {
    MisfitIsTwelveLess();
    MisfitMovesBack(now, text);
    var after := Run(Opened(now), [Submit(text), Approve(0)]).sub;
    assert after == Extended(Provisioned(now), -12, now);
    TrialTakenBack(now);
  }

  lemma MisfitIsTwelveLess()
    ensures ToInt32(MISFIT) == -12
  {
  }

  lemma TrialTakenBack(now: int)
    ensures var (trial, after) := (Provisioned(now), Extended(Provisioned(now), -12, now));
            && EffectiveStatus(trial, now) == Trialing && WriteLocked(after, now)
            && (after.periodEnd == AddDays(trial.periodEnd, -365) || after.periodEnd == AddDays(trial.periodEnd, -366))
  {
    AddMonthsMoves(now, TRIAL_MONTHS);
    AddMonthsMoves(Provisioned(now).periodEnd, -12);
    ExtendedMoves(Provisioned(now), -12, now);
  }

  // ------------------------------------------------------------ database

  class Billing {
    var sub: Option<Subscription>
    var payments: seq<Payment>

    /** The shop's books agree with a state of the step system. */
    ghost predicate Shows(s: State)
      reads this
    {
      sub == Some(s.sub) && payments == s.payments
    }

    constructor (now: int)
      ensures Shows(Opened(now))
    {
      var end := AddMonths(now, TRIAL_MONTHS);
      sub := Some(Subscription(Trialing, end, Some(AddDays(end, GRACE_DAYS)), None));
      payments := [];
    }

    /** The months as stored; nothing, and nothing changed, when what was typed is no number of months. */
    method SubmitPayment(text: string) returns (months: Option<Int32>)
      modifies this`payments
      ensures months.Some? <==> TypedMonths(text).Some?
      ensures months.Some? ==> months.value == ToInt32(TypedMonths(text).value)
      ensures Text.Trim(text) == "" ==> months == Some(12)
      ensures forall s: State :: old(Shows(s)) ==> Shows(Submitting(s, text))
    {
      var trimmed := Text.Trim(text);
      var typed := Some(12);
      if trimmed != "" {
        typed := Decimals.ParseInt(trimmed);
      }
      if typed == None || typed.value < 1 || typed.value >= INT64 / 2 {
        return None;
      }
      payments := payments + [Payment(ToInt32(typed.value), Pending)];
      months := Some(ToInt32(typed.value));
    }

    method ExtendPeriod(s: Subscription, months: Int32, now: int) returns (newEnd: int)
      modifies this`sub
      ensures sub == Some(Extended(s, months, now)) && newEnd == Extended(s, months, now).periodEnd
    {
      var base := s.periodEnd;
      if now > base {
        base := now;
      }
      newEnd := AddMonths(base, months);
      sub := Some(Subscription(Active, newEnd, Some(AddDays(newEnd, GRACE_DAYS)), None));
    }

    /** The new paid-through date; nothing, and nothing changed, when it had been reviewed or there is no subscription. */
    method ApprovePayment(id: nat, now: int) returns (paidThrough: Option<int>)
      modifies this
      ensures paidThrough.Some? <==> id < |old(payments)| && old(payments)[id].review == Pending && old(sub).Some?
      ensures paidThrough == None ==> sub == old(sub) && payments == old(payments)
      ensures forall s: State :: old(Shows(s)) && s.clock == now ==> Shows(Approving(s, id))
      ensures paidThrough.Some? ==> sub.Some? && paidThrough.value == sub.value.periodEnd
    {
      if id >= |payments| || payments[id].review != Pending || sub == None {
        return None;
      }
      payments := payments[id := payments[id].(review := Approved)];
      var newEnd := ExtendPeriod(sub.value, payments[id].months, now);
      paidThrough := Some(newEnd);
    }

    /** The reason kept; nothing, and nothing changed, when it had been reviewed. */
    method RejectPayment(id: nat, typed: string) returns (reason: Option<string>)
      modifies this`payments
      ensures reason.Some? <==> id < |old(payments)| && old(payments)[id].review == Pending
      ensures reason.Some? ==>
        reason.value != "" && id < |payments| && payments[id].review == Rejected(reason.value)
      ensures reason.Some? ==>
        reason.value == if Text.Trim(typed) == "" then "No reason given" else Text.Trim(typed)
      ensures forall s: State :: old(Shows(s)) ==> Shows(Rejecting(s, id, typed))
      ensures reason == None ==> payments == old(payments)
    {
      if id >= |payments| || payments[id].review != Pending {
        return None;
      }
      var kept := Text.Trim(typed);
      if kept == "" {
        kept := "No reason given";
      }
      payments := payments[id := payments[id].(review := Rejected(kept))];
      reason := Some(kept);
    }

    /** Keeps the cached column honest, working from a snapshot that may be stale by now. */
    method RefreshStatus(s: Subscription, now: int)
      requires sub.Some?
      modifies this`sub
      ensures match Derived(s, now)
              case None => sub == old(sub)
              case Some(write) => sub == Some(old(sub).value.(status := write.status, disabledAt := write.disabledAt))
    {
      var derived := EffectiveStatus(s, now);
      if s.status == derived {
        return;
      }
      var disabledAt := None;
      if derived == Disabled {
        disabledAt := s.disabledAt;
        if disabledAt == None {
          disabledAt := Some(now);
        }
      }
      sub := Some(sub.value.(status := derived, disabledAt := disabledAt));
    }
  }
}
