/**
 * Who is on which plan: the subscription table, the operations that write it,
 * and what the entitlement check reads out of it. Times are milliseconds.
 *
 * Rows are never deleted, so the table is a sequence in creation order and a
 * row's index is its identity. Two unique indexes guard every write: one live
 * row per user, and one row per provider subscription.
 */
module Subscriptions {
  import opened Options

  type Id = nat

  const DAY_MS := 86_400_000
  const SWEEP_SIZE := 500

  datatype Status = Trialing | Active | PastDue | Canceled | Incomplete | Expired

  datatype Row = Row(user: Id, plan: Id, status: Status, subscription: Option<Id>, start: int, end: Option<int>,
                     cancelAtEnd: bool, canceledAt: Option<int>)

  datatype Plan = Plan(id: Id, active: bool, intervalDays: int)

  /** What a caller asks `grantPlan` for; absent options take the defaults. */
  datatype Request = Request(user: Id, plan: Plan, key: Option<Id>, subscription: Option<Id>, status: Option<Status>,
                             start: Option<int>, end: Option<Option<int>>, cancelAtEnd: bool)

  /** The subscription table, and the provider events its grants were recorded under. */
  datatype State = State(rows: seq<Row>, seen: set<Id>)

  predicate Entitling(status: Status) {
    status == Trialing || status == Active || status == PastDue
  }

  /** What the partial unique index covers: the entitling statuses and INCOMPLETE. */
  predicate Live(status: Status) {
    Entitling(status) || status == Incomplete
  }

  predicate EntitlingRow(rows: seq<Row>, i: nat, user: Id) {
    i < |rows| && rows[i].user == user && Entitling(rows[i].status)
  }

  predicate LiveRow(rows: seq<Row>, i: nat, user: Id) {
    i < |rows| && rows[i].user == user && Live(rows[i].status)
  }

  ghost predicate OneLive(rows: seq<Row>) {
    forall user, i, j :: LiveRow(rows, i, user) && LiveRow(rows, j, user) ==> i == j
  }

  ghost predicate OneEntitling(rows: seq<Row>) {
    forall user, i, j :: EntitlingRow(rows, i, user) && EntitlingRow(rows, j, user) ==> i == j
  }

  predicate DistinctSubscriptions(rows: seq<Row>) {
    forall i, j :: 0 <= i < j < |rows| && rows[i].subscription.Some? ==> rows[i].subscription != rows[j].subscription
  }

  ghost predicate Indexed(rows: seq<Row>) {
    OneLive(rows) && DistinctSubscriptions(rows)
  }

  // ----- the operations

  /** The user's most recently created entitling row. */
  function Current(rows: seq<Row>, user: Id): (found: Option<nat>)
    ensures found.Some? ==> EntitlingRow(rows, found.value, user)
    ensures found.None? ==> forall i :: !EntitlingRow(rows, i, user)
    ensures found.Some? ==> forall i: nat :: EntitlingRow(rows, i, user) ==> i <= found.value
  {
    if rows == [] then None
    else
      var last := |rows| - 1;
      if EntitlingRow(rows, last, user) then Some(last)
      else
        var earlier := Current(rows[..last], user);
        assert forall i: nat :: i < last ==> EntitlingRow(rows[..last], i, user) == EntitlingRow(rows, i, user);
        earlier
  }

  function PeriodStart(request: Request, now: int): int {
    if request.start.Some? then request.start.value else now
  }

  function PeriodEnd(request: Request, now: int): Option<int> {
    if request.end.Some? then request.end.value
    else if request.plan.intervalDays > 0 then Some(PeriodStart(request, now) + request.plan.intervalDays * DAY_MS)
    else None
  }

  function NewStatus(request: Request): Status {
    if request.status.Some? then request.status.value else Active
  }

  /** A grant renews the current row when the plan is the same, and so is the provider's subscription if one is named. */
  predicate Renews(rows: seq<Row>, request: Request) {
    var current := Current(rows, request.user);
    && current.Some?
    && rows[current.value].plan == request.plan.id
    && (request.subscription.None? || rows[current.value].subscription == request.subscription)
  }

  function RenewedRow(row: Row, request: Request, now: int): Row {
    row.(status := NewStatus(request), start := PeriodStart(request, now), end := PeriodEnd(request, now),
         cancelAtEnd := request.cancelAtEnd, canceledAt := None,
         subscription := if request.subscription.Some? then request.subscription else row.subscription)
  }

  function CreatedRow(request: Request, now: int): Row {
    Row(request.user, request.plan.id, NewStatus(request), request.subscription, PeriodStart(request, now),
        PeriodEnd(request, now), request.cancelAtEnd, None)
  }

  function Retired(rows: seq<Row>, user: Id, now: int): seq<Row> {
    match Current(rows, user)
    case None => rows
    case Some(i) => rows[i := rows[i].(status := Canceled, canceledAt := Some(now))]
  }

  /** What the transaction of a grant writes, if no index refuses it. */
  function GrantedRows(rows: seq<Row>, request: Request, now: int): seq<Row> {
    if Renews(rows, request) then
      var i := Current(rows, request.user).value;
      rows[i := RenewedRow(rows[i], request, now)]
    else Retired(rows, request.user, now) + [CreatedRow(request, now)]
  }

  /** The one way a grant of an open plan under a new event meets a unique index. */
  ghost predicate Refused(rows: seq<Row>, request: Request) {
    && !Renews(rows, request)
    && ((Current(rows, request.user).None? && Live(NewStatus(request)) && exists i: nat :: LiveRow(rows, i, request.user))
        || (request.subscription.Some? && exists i: nat :: i < |rows| && rows[i].subscription == request.subscription))
  }

  predicate Replayed(s: State, request: Request) {
    request.key.Some? && request.key.value in s.seen
  }

  ghost predicate Grants(s: State, request: Request) {
    request.plan.active && !Replayed(s, request) && !Refused(s.rows, request)
  }

  ghost function Grant(s: State, request: Request, now: int): State {
    if !Grants(s, request) then s
    else State(GrantedRows(s.rows, request, now), if request.key.Some? then s.seen + {request.key.value} else s.seen)
  }

  function Cancel(rows: seq<Row>, user: Id, immediately: bool, now: int): seq<Row> {
    match Current(rows, user)
    case None => rows
    case Some(i) =>
      rows[i := if immediately then rows[i].(status := Canceled, canceledAt := Some(now), cancelAtEnd := false)
                else rows[i].(cancelAtEnd := true)]
  }

  predicate Lapsed(rows: seq<Row>, i: nat, now: int) {
    i < |rows| && Entitling(rows[i].status) && rows[i].end.Some? && rows[i].end.value < now
  }

  /** The rows the sweep reads: any lapsed ones, and all of them up to its size. */
  ghost predicate SweepReads(rows: seq<Row>, picked: set<nat>, now: int) {
    && (forall i <- picked :: Lapsed(rows, i, now))
    && |picked| <= 500
    && (|picked| < 500 ==> forall i :: Lapsed(rows, i, now) ==> i in picked)
  }

  /** What a sweep at `now` may do to this user, whenever it read its rows: the current row is over. */
  predicate Spares(rows: seq<Row>, picked: set<nat>, user: Id, now: int) {
    var current := Current(rows, user);
    current.Some? && current.value in picked ==> Lapsed(rows, current.value, now)
  }

  function Swept(rows: seq<Row>, picked: set<nat>): seq<Row> {
    seq(|rows|, i requires 0 <= i < |rows| => if i in picked then rows[i].(status := Expired) else rows[i])
  }

  function MarkedPastDue(rows: seq<Row>, i: nat): seq<Row>
    requires i < |rows|
  {
    rows[i := rows[i].(status := PastDue)]
  }

  /** The plan the user may use: the row's period must not be over and its plan still offered. */
  function Resolve(rows: seq<Row>, user: Id, now: int, offered: set<Id>): Option<Id> {
    match Current(rows, user)
    case None => None
    case Some(i) =>
      if rows[i].end.Some? && rows[i].end.value < now then None
      else if rows[i].plan !in offered then None
      else Some(rows[i].plan)
  }

  /** What the invoice and the wallet services ask for when a period is paid. */
  predicate Extends(rows: seq<Row>, user: Id, plan: Id, now: int) {
    var current := Current(rows, user);
    && current.Some?
    && rows[current.value].plan == plan
    && rows[current.value].status == Active
    && rows[current.value].end.Some?
    && rows[current.value].end.value > now
  }

  function PaidFrom(rows: seq<Row>, user: Id, plan: Id, now: int): int {
    if Extends(rows, user, plan, now) then rows[Current(rows, user).value].end.value else now
  }

  function PaidLength(days: int): int {
    (if days < 1 then 1 else days) * DAY_MS
  }

  function PaidRequest(rows: seq<Row>, user: Id, plan: Plan, days: int, key: Id, now: int): Request {
    Request(user, plan, Some(key), None, None,
            Some(if Extends(rows, user, plan.id, now) then rows[Current(rows, user).value].start else now),
            Some(Some(PaidFrom(rows, user, plan.id, now) + PaidLength(days))), false)
  }

  // ----- what the look-ups mean

  /** The row found is the user's last that is trialing, active or past due. */
  lemma CurrentExactly(rows: seq<Row>, user: Id, i: nat)
    ensures Current(rows, user) == Some(i)
            <==> && i < |rows| && rows[i].user == user && rows[i].status in {Trialing, Active, PastDue}
                 && forall j | i < j < |rows| && rows[j].user == user :: rows[j].status !in {Trialing, Active, PastDue}
  {
    assert forall j: nat | j < |rows| :: EntitlingRow(rows, j, user) <==> rows[j].user == user && rows[j].status in {Trialing, Active, PastDue};
  }

  /** A user may use a plan if and only if that row is for it, its period is not over, and the plan is still offered. */
  lemma ResolveExactly(rows: seq<Row>, user: Id, now: int, offered: set<Id>, plan: Id)
    ensures Resolve(rows, user, now, offered) == Some(plan)
            <==> && plan in offered && Current(rows, user).Some?
                 && var row := rows[Current(rows, user).value];
                    row.plan == plan && (row.end.None? || now <= row.end.value)
  {
  }

  // ----- at most one entitling subscription

  lemma OneLiveIsOneEntitling(rows: seq<Row>)
    requires OneLive(rows)
    ensures OneEntitling(rows)
  {
    assert forall user, i :: EntitlingRow(rows, i, user) ==> LiveRow(rows, i, user);
  }

  lemma RenewalKeeps(rows: seq<Row>, request: Request, now: int)
    requires OneLive(rows) && Renews(rows, request)
    ensures OneLive(GrantedRows(rows, request, now))
  {
    var after := GrantedRows(rows, request, now);
    var current := Current(rows, request.user).value;
    assert LiveRow(rows, current, request.user);
    assert forall user, i :: LiveRow(after, i, user) ==> LiveRow(rows, i, user);
  }

  lemma RetiringKeeps(rows: seq<Row>, user: Id, now: int)
    requires OneLive(rows)
    ensures OneLive(Retired(rows, user, now))
    ensures forall other, i :: LiveRow(Retired(rows, user, now), i, other) ==> LiveRow(rows, i, other)
    ensures (exists i :: LiveRow(Retired(rows, user, now), i, user)) <==> Current(rows, user).None? && exists i :: LiveRow(rows, i, user)
  {
    var after := Retired(rows, user, now);
    assert forall other, i :: LiveRow(after, i, other) ==> LiveRow(rows, i, other);
    match Current(rows, user)
    case None =>
    case Some(current) =>
      assert LiveRow(rows, current, user);
      assert !LiveRow(after, current, user);
  }

  /**
   * Retiring the old row before creating the new one keeps the live rows
   * unique, except for a user whose only live row is an INCOMPLETE one: that
   * row is not found, hence not retired, and the index refuses the new row.
   */
  lemma GrantKeepsOneLiveExactly(rows: seq<Row>, request: Request, now: int)
    requires OneLive(rows)
    ensures OneLive(GrantedRows(rows, request, now)) <==>
              Renews(rows, request) || !Live(NewStatus(request)) || Current(rows, request.user).Some?
              || !exists i :: LiveRow(rows, i, request.user)
  {
    if Renews(rows, request) {
      RenewalKeeps(rows, request, now);
    } else {
      RetiringKeeps(rows, request.user, now);
      var retired := Retired(rows, request.user, now);
      var after := GrantedRows(rows, request, now);
      assert forall user, i: nat :: i < |rows| ==> LiveRow(after, i, user) == LiveRow(retired, i, user);
      assert LiveRow(after, |rows|, request.user) <==> Live(NewStatus(request));
      assert forall user, i: nat :: LiveRow(after, i, user) && i >= |rows| ==> i == |rows| && user == request.user;
      if Live(NewStatus(request)) && exists i :: LiveRow(retired, i, request.user) {
        var i :| LiveRow(retired, i, request.user);
        assert LiveRow(after, i, request.user) && LiveRow(after, |rows|, request.user);
      }
    }
  }

  lemma GrantKeepsDistinctExactly(rows: seq<Row>, request: Request, now: int)
    requires DistinctSubscriptions(rows)
    ensures DistinctSubscriptions(GrantedRows(rows, request, now)) <==>
              Renews(rows, request) || request.subscription.None?
              || !exists i: nat :: i < |rows| && rows[i].subscription == request.subscription
  {
    var after := GrantedRows(rows, request, now);
    assert forall i: nat :: i < |rows| ==> after[i].subscription == rows[i].subscription;
    if !Renews(rows, request) {
      assert after[|rows|].subscription == request.subscription;
    }
  }

  /**
   * The unique indexes refuse exactly two kinds of grant: to a user whose live
   * row is INCOMPLETE, and a change of plan inside one provider subscription,
   * whose id the retired row still carries.
   */
  lemma RefusedExactly(rows: seq<Row>, request: Request, now: int)
    requires Indexed(rows)
    ensures Indexed(GrantedRows(rows, request, now)) <==> !Refused(rows, request)
  {
    GrantKeepsOneLiveExactly(rows, request, now);
    GrantKeepsDistinctExactly(rows, request, now);
  }

  /** Without help from any index, every grant keeps at most one entitling row per user. */
  lemma GrantKeepsOneEntitling(rows: seq<Row>, request: Request, now: int)
    requires OneEntitling(rows)
    ensures OneEntitling(GrantedRows(rows, request, now))
  {
    var after := GrantedRows(rows, request, now);
    var current := Current(rows, request.user);
    assert forall user, i: nat :: i < |rows| && EntitlingRow(after, i, user) ==> EntitlingRow(rows, i, user);
    if !Renews(rows, request) {
      assert forall i: nat :: i < |rows| ==> !EntitlingRow(after, i, request.user);
    }
  }

  lemma CancelKeepsOneLive(rows: seq<Row>, user: Id, immediately: bool, now: int)
    requires Indexed(rows)
    ensures Indexed(Cancel(rows, user, immediately, now))
  {
    var after := Cancel(rows, user, immediately, now);
    assert forall other, i :: LiveRow(after, i, other) ==> LiveRow(rows, i, other);
  }

  lemma SweepKeepsOneLive(rows: seq<Row>, picked: set<nat>)
    requires Indexed(rows)
    ensures Indexed(Swept(rows, picked))
  {
    assert forall other, i :: LiveRow(Swept(rows, picked), i, other) ==> LiveRow(rows, i, other);
  }

  /** Past due is the one write that can revive a row, and the one the index is needed for. */
  lemma PastDueKeepsOneLiveExactly(rows: seq<Row>, i: nat)
    requires OneLive(rows) && i < |rows|
    ensures OneLive(MarkedPastDue(rows, i)) <==> Live(rows[i].status) || !exists j :: LiveRow(rows, j, rows[i].user)
  {
    var after := MarkedPastDue(rows, i);
    assert LiveRow(after, i, rows[i].user);
    assert forall user, j :: j != i ==> LiveRow(after, j, user) == LiveRow(rows, j, user);
    if Live(rows[i].status) {
      assert LiveRow(rows, i, rows[i].user);
      assert forall user, j :: LiveRow(after, j, user) == LiveRow(rows, j, user);
    } else if exists j :: LiveRow(rows, j, rows[i].user) {
      var j :| LiveRow(rows, j, rows[i].user);
      assert LiveRow(after, j, rows[i].user) && i != j;
    }
  }

  // ----- every run

  datatype Op =
    | Pay(user: Id, plan: Plan, days: int, key: Id, now: int)
    | OtherGrant(request: Request, now: int)
    | CancelOp(user: Id, immediately: bool, now: int)
    | PastDueOp(row: nat, now: int)
    | Sweep(picked: set<nat>, now: int)

  predicate Enabled(s: State, op: Op) {
    match op
    case PastDueOp(i, _) => i < |s.rows|
    case _ => true
  }

  ghost function Step(s: State, op: Op): State
    requires Enabled(s, op)
  {
    match op
    case Pay(user, plan, days, key, now) => Grant(s, PaidRequest(s.rows, user, plan, days, key, now), now)
    case OtherGrant(request, now) => Grant(s, request, now)
    case CancelOp(user, immediately, now) => s.(rows := Cancel(s.rows, user, immediately, now))
    case PastDueOp(i, _) => if OneLive(MarkedPastDue(s.rows, i)) then s.(rows := MarkedPastDue(s.rows, i)) else s
    case Sweep(picked, _) => s.(rows := Swept(s.rows, picked))
  }

  lemma StepKeepsIndexed(s: State, op: Op)
    requires Indexed(s.rows) && Enabled(s, op)
    ensures Indexed(Step(s, op).rows)
  {
    match op
    case Pay(user, plan, days, key, now) => RefusedExactly(s.rows, PaidRequest(s.rows, user, plan, days, key, now), now);
    case OtherGrant(request, now) => RefusedExactly(s.rows, request, now);
    case CancelOp(user, immediately, now) => CancelKeepsOneLive(s.rows, user, immediately, now);
    case PastDueOp(i, _) =>
    case Sweep(picked, _) => SweepKeepsOneLive(s.rows, picked);
  }

  /** A paid stretch of time; both ends belong to it. */
  datatype Period = Period(from: int, until: int)

  predicate Within(periods: seq<Period>, t: int) {
    exists k :: 0 <= k < |periods| && periods[k].from <= t <= periods[k].until
  }

  /** The period a paid step of `user` grants. */
  ghost function PaidPeriod(s: State, op: Op, user: Id): Option<Period> {
    if op.Pay? && op.user == user && Grants(s, PaidRequest(s.rows, user, op.plan, op.days, op.key, op.now)) then
      var from := PaidFrom(s.rows, user, op.plan.id, op.now);
      Some(Period(from, from + PaidLength(op.days)))
    else None
  }

  ghost predicate IsRun(states: seq<State>, ops: seq<Op>) {
    && |states| == |ops| + 1
    && Indexed(states[0].rows)
    && (forall k :: 0 <= k < |ops| ==> Enabled(states[k], ops[k]) && states[k + 1] == Step(states[k], ops[k]))
    && (forall j, k :: 0 <= j < k < |ops| ==> ops[j].now <= ops[k].now)
  }

  /**
   * What happens to this user is payment for one plan, cancelling at period end,
   * and expiry by a sweep that did not read the row before it was renewed; other
   * users do anything.
   */
  ghost predicate OnlyPays(s: State, op: Op, user: Id, plan: Id) {
    match op
    case Pay(payer, bought, _, _, _) => payer == user ==> bought.id == plan
    case OtherGrant(request, _) => request.user != user
    case CancelOp(who, immediately, _) => who == user ==> !immediately
    case PastDueOp(i, _) => i < |s.rows| ==> s.rows[i].user != user
    case Sweep(picked, now) => Spares(s.rows, picked, user, now)
  }

  ghost predicate PaidRun(states: seq<State>, ops: seq<Op>, user: Id, plan: Id) {
    && IsRun(states, ops)
    && Current(states[0].rows, user).None?
    && (forall k :: 0 <= k < |ops| ==> OnlyPays(states[k], ops[k], user, plan))
  }

  /** The periods granted to the user by the first `n` steps. */
  ghost function PaidPeriods(states: seq<State>, ops: seq<Op>, user: Id, n: nat): seq<Period>
    requires n <= |ops| && n <= |states|
  {
    if n == 0 then []
    else
      var earlier := PaidPeriods(states, ops, user, n - 1);
      match PaidPeriod(states[n - 1], ops[n - 1], user)
      case None => earlier
      case Some(period) => earlier + [period]
  }

  predicate InOrder(periods: seq<Period>) {
    && (forall k :: 0 <= k < |periods| ==> periods[k].from < periods[k].until)
    && (forall j, k :: 0 <= j < k < |periods| ==> periods[j].until <= periods[k].from)
  }

  ghost predicate Covered(periods: seq<Period>, from: int, until: int) {
    forall t :: from <= t <= until ==> Within(periods, t)
  }

  /** The paid periods and the current row tell the same story from `clock` on. */
  ghost predicate Told(rows: seq<Row>, user: Id, plan: Id, periods: seq<Period>, clock: int) {
    && InOrder(periods)
    && match Current(rows, user)
       case None => forall k :: 0 <= k < |periods| ==> periods[k].until < clock
       case Some(i) =>
         && rows[i].plan == plan && rows[i].status == Active
         && |periods| > 0 && rows[i].end == Some(periods[|periods| - 1].until)
         && rows[i].start <= clock
         && Covered(periods, rows[i].start, rows[i].end.value)
  }

  lemma ToldLater(rows: seq<Row>, user: Id, plan: Id, periods: seq<Period>, clock: int, now: int)
    requires Told(rows, user, plan, periods, clock) && clock <= now
    ensures Told(rows, user, plan, periods, now)
  {
  }

  /** Only the user's own entitling rows matter to who is current. */
  lemma CurrentAfter(rows: seq<Row>, after: seq<Row>, user: Id)
    requires forall i :: EntitlingRow(after, i, user) <==> EntitlingRow(rows, i, user)
    ensures Current(after, user) == Current(rows, user)
  {
    hide Entitling;
    var before, now := Current(rows, user), Current(after, user);
    if before.Some? { assert EntitlingRow(after, before.value, user); }
    if now.Some? { assert EntitlingRow(rows, now.value, user); }
  }

  lemma TheCurrentRow(rows: seq<Row>, user: Id, i: nat)
    requires OneLive(rows) && EntitlingRow(rows, i, user)
    ensures Current(rows, user) == Some(i)
  {
    var current := Current(rows, user).value;
    assert LiveRow(rows, i, user) && LiveRow(rows, current, user);
  }

  lemma CoveredFurther(periods: seq<Period>, start: int, period: Period)
    requires period.from <= period.until
    requires start == period.from || Covered(periods, start, period.from)
    ensures Covered(periods + [period], start, period.until)
  {
    var longer := periods + [period];
    forall t | start <= t <= period.until ensures Within(longer, t) {
      if t < period.from {
        assert Within(periods, t);
        var k :| 0 <= k < |periods| && periods[k].from <= t <= periods[k].until;
        assert longer[k] == periods[k];
      } else {
        assert longer[|periods|] == period;
      }
    }
  }

  /** The row a payment leaves the user with: the current one, extended if its period is not over, or a new one. */
  lemma PaidRow(rows: seq<Row>, user: Id, plan: Plan, days: int, key: Id, now: int)
    requires var current := Current(rows, user); current.Some? ==> rows[current.value].plan == plan.id
    ensures var after := GrantedRows(rows, PaidRequest(rows, user, plan, days, key, now), now);
            var i := if Current(rows, user).Some? then Current(rows, user).value else |rows|;
            && EntitlingRow(after, i, user) && after[i].plan == plan.id && after[i].status == Active
            && after[i].start == (if Extends(rows, user, plan.id, now) then rows[Current(rows, user).value].start else now)
            && after[i].end == Some(PaidFrom(rows, user, plan.id, now) + PaidLength(days))
  {
  }

  /** What the payment is added to: periods that end by its start, and cover the row so far if it is extended. */
  lemma PaidAfter(rows: seq<Row>, user: Id, plan: Id, now: int, periods: seq<Period>)
    requires Told(rows, user, plan, periods, now)
    ensures var from := PaidFrom(rows, user, plan, now);
            && (|periods| > 0 ==> periods[|periods| - 1].until <= from)
            && if Extends(rows, user, plan, now) then
                 var start := rows[Current(rows, user).value].start; start <= now && Covered(periods, start, from)
               else from == now
  {
    hide Covered;
  }

  lemma OnePeriodMore(periods: seq<Period>, period: Period)
    requires InOrder(periods) && period.from < period.until && (|periods| > 0 ==> periods[|periods| - 1].until <= period.from)
    ensures InOrder(periods + [period])
  {
  }

  lemma PayKeepsTold(s: State, user: Id, plan: Plan, days: int, key: Id, now: int, periods: seq<Period>)
    requires Indexed(s.rows) && Told(s.rows, user, plan.id, periods, now)
    requires Grants(s, PaidRequest(s.rows, user, plan, days, key, now))
    ensures var from := PaidFrom(s.rows, user, plan.id, now);
            Told(Step(s, Pay(user, plan, days, key, now)).rows, user, plan.id, periods + [Period(from, from + PaidLength(days))], now)
  {
    hide OneLive;
    hide DistinctSubscriptions;
    hide Refused;
    hide Covered;
    hide GrantedRows;
    hide PaidRequest;
    hide PaidFrom;
    hide Extends;
    hide EntitlingRow;
    var request := PaidRequest(s.rows, user, plan, days, key, now);
    RefusedExactly(s.rows, request, now);
    PaidRow(s.rows, user, plan, days, key, now);
    PaidAfter(s.rows, user, plan.id, now, periods);
    var from := PaidFrom(s.rows, user, plan.id, now);
    var after := GrantedRows(s.rows, request, now);
    var i := if Current(s.rows, user).Some? then Current(s.rows, user).value else |s.rows|;
    TheCurrentRow(after, user, i);
    CoveredFurther(periods, after[i].start, Period(from, from + PaidLength(days)));
    OnePeriodMore(periods, Period(from, from + PaidLength(days)));
  }

  lemma OthersUntouched(rows: seq<Row>, after: seq<Row>, user: Id)
    requires |rows| <= |after|
    requires forall i :: 0 <= i < |rows| && (rows[i].user == user || after[i].user == user) ==> after[i] == rows[i]
    requires forall i :: |rows| <= i < |after| ==> after[i].user != user
    ensures Current(after, user) == Current(rows, user)
    ensures Current(rows, user).Some? ==> after[Current(rows, user).value] == rows[Current(rows, user).value]
  {
    assert forall i :: EntitlingRow(after, i, user) <==> EntitlingRow(rows, i, user);
    CurrentAfter(rows, after, user);
  }

  lemma CancelKeepsTold(rows: seq<Row>, who: Id, immediately: bool, now: int, user: Id, plan: Id, periods: seq<Period>)
    requires Indexed(rows) && Told(rows, user, plan, periods, now)
    requires who == user ==> !immediately
    ensures Told(Cancel(rows, who, immediately, now), user, plan, periods, now)
  {
    hide Covered;
    if who == user {
      var after := Cancel(rows, who, immediately, now);
      assert forall i :: EntitlingRow(after, i, user) <==> EntitlingRow(rows, i, user);
      CurrentAfter(rows, after, user);
    } else {
      OthersUntouched(rows, Cancel(rows, who, immediately, now), user);
    }
  }

  lemma CurrentAfterSweep(rows: seq<Row>, picked: set<nat>, user: Id)
    requires OneLive(rows)
    ensures var before := Current(rows, user);
            Current(Swept(rows, picked), user) == if before.Some? && before.value in picked then None else before
  {
    var after := Swept(rows, picked);
    var before, now := Current(rows, user), Current(after, user);
    forall i ensures EntitlingRow(after, i, user) ==> EntitlingRow(rows, i, user) && i !in picked && before == Some(i) {
      if EntitlingRow(after, i, user) { TheCurrentRow(rows, user, i); }
    }
    if before.Some? && before.value !in picked {
      assert EntitlingRow(after, before.value, user);
    }
  }

  lemma SweepKeepsTold(rows: seq<Row>, picked: set<nat>, now: int, user: Id, plan: Id, periods: seq<Period>)
    requires OneLive(rows) && Told(rows, user, plan, periods, now) && Spares(rows, picked, user, now)
    ensures Told(Swept(rows, picked), user, plan, periods, now)
  {
    CurrentAfterSweep(rows, picked, user);
    hide Covered;
    hide OneLive;
    var before := Current(rows, user);
    if before.Some? {
      var last := |periods| - 1;
      if before.value in picked {
        assert periods[last].until < now;
        assert forall k :: 0 <= k < |periods| ==> periods[k].until <= periods[last].until;
      } else {
        assert Swept(rows, picked)[before.value] == rows[before.value];
      }
    }
  }

  lemma GrantKeepsOthersTold(s: State, request: Request, now: int, user: Id, plan: Id, periods: seq<Period>)
    requires Told(s.rows, user, plan, periods, now) && request.user != user
    ensures Told(Grant(s, request, now).rows, user, plan, periods, now)
  {
    hide Covered;
    hide Refused;
    OthersUntouched(s.rows, Grant(s, request, now).rows, user);
  }

  lemma StepKeepsTold(s: State, op: Op, user: Id, plan: Id, periods: seq<Period>)
    requires Indexed(s.rows) && Enabled(s, op) && OnlyPays(s, op, user, plan)
    requires Told(s.rows, user, plan, periods, op.now)
    ensures var paid := PaidPeriod(s, op, user);
            Told(Step(s, op).rows, user, plan, if paid.Some? then periods + [paid.value] else periods, op.now)
  {
    hide Covered;
    hide Refused;
    hide OneLive;
    match op
    case Pay(payer, bought, days, key, now) =>
      if payer != user {
        GrantKeepsOthersTold(s, PaidRequest(s.rows, payer, bought, days, key, now), now, user, plan, periods);
      } else if Grants(s, PaidRequest(s.rows, user, bought, days, key, now)) {
        PayKeepsTold(s, user, bought, days, key, now, periods);
      }
    case OtherGrant(request, now) => GrantKeepsOthersTold(s, request, now, user, plan, periods);
    case CancelOp(who, immediately, now) => CancelKeepsTold(s.rows, who, immediately, now, user, plan, periods);
    case PastDueOp(i, _) =>
      OthersUntouched(s.rows, Step(s, op).rows, user);
    case Sweep(picked, now) => SweepKeepsTold(s.rows, picked, now, user, plan, periods);
  }

  lemma {:induction false} RunIsIndexed(states: seq<State>, ops: seq<Op>, n: nat)
    requires IsRun(states, ops) && n <= |ops|
    ensures Indexed(states[n].rows)
  {
    if n > 0 {
      RunIsIndexed(states, ops, n - 1);
      StepKeepsIndexed(states[n - 1], ops[n - 1]);
    }
  }

  /** In every run, whatever is asked for and in whatever order, a user has at most one entitling subscription. */
  lemma AlwaysOneEntitling(states: seq<State>, ops: seq<Op>, n: nat, user: Id, i: nat, j: nat)
    requires IsRun(states, ops) && n <= |ops|
    requires EntitlingRow(states[n].rows, i, user) && EntitlingRow(states[n].rows, j, user)
    ensures i == j && Current(states[n].rows, user) == Some(i)
  {
    RunIsIndexed(states, ops, n);
    OneLiveIsOneEntitling(states[n].rows);
  }

  /** The time of the last of the first `n` steps, and of the first step before any. */
  function Clock(ops: seq<Op>, n: nat): int
    requires n <= |ops| && |ops| > 0
  {
    if n == 0 then ops[0].now else ops[n - 1].now
  }

  lemma {:induction false} RunIsTold(states: seq<State>, ops: seq<Op>, user: Id, plan: Id, n: nat)
    requires PaidRun(states, ops, user, plan) && n <= |ops| && |ops| > 0
    ensures Told(states[n].rows, user, plan, PaidPeriods(states, ops, user, n), Clock(ops, n))
  {
    if n > 0 {
      RunIsTold(states, ops, user, plan, n - 1);
      RunIsIndexed(states, ops, n - 1);
      var periods := PaidPeriods(states, ops, user, n - 1);
      ToldLater(states[n - 1].rows, user, plan, periods, Clock(ops, n - 1), ops[n - 1].now);
      assert OnlyPays(states[n - 1], ops[n - 1], user, plan) && Enabled(states[n - 1], ops[n - 1]);
      StepKeepsTold(states[n - 1], ops[n - 1], user, plan, periods);
    }
  }

  /** However early or late each payment comes, no two paid periods share time: none of the days paid for are lost. */
  lemma PaidPeriodsDisjoint(states: seq<State>, ops: seq<Op>, user: Id, plan: Id, n: nat, j: nat, k: nat)
    requires PaidRun(states, ops, user, plan) && n <= |ops| && |ops| > 0
    requires j < k < |PaidPeriods(states, ops, user, n)|
    ensures PaidPeriods(states, ops, user, n)[j].until <= PaidPeriods(states, ops, user, n)[k].from
  {
    RunIsTold(states, ops, user, plan, n);
  }

  /** Each paid period is as long as what was paid for, and never starts in the past. */
  lemma {:induction false} PaidPeriodLengths(states: seq<State>, ops: seq<Op>, user: Id, n: nat, k: nat) returns (step: nat)
    requires |states| > |ops| && n <= |ops| && k < |PaidPeriods(states, ops, user, n)|
    ensures step < n && ops[step].Pay? && ops[step].user == user
    ensures var period := PaidPeriods(states, ops, user, n)[k];
            && period.until - period.from == (if ops[step].days < 1 then 1 else ops[step].days) * 86_400_000
            && period.from >= ops[step].now
  {
    if k == |PaidPeriods(states, ops, user, n)| - 1 && PaidPeriod(states[n - 1], ops[n - 1], user).Some? {
      step := n - 1;
    } else {
      step := PaidPeriodLengths(states, ops, user, n - 1, k);
    }
  }

  /** A payment is granted exactly when its plan is offered, its event is new, and no INCOMPLETE row stands in its way. */
  lemma PaidExactly(s: State, user: Id, plan: Plan, days: int, key: Id, now: int)
    ensures PaidPeriod(s, Pay(user, plan, days, key, now), user).Some?
            <==> plan.active && key !in s.seen && (Current(s.rows, user).Some? || forall i :: !LiveRow(s.rows, i, user))
  {
    var request := PaidRequest(s.rows, user, plan, days, key, now);
    if Current(s.rows, user).None? && exists i :: LiveRow(s.rows, i, user) {
      var i: nat :| LiveRow(s.rows, i, user);
      assert Refused(s.rows, request);
    }
    if Refused(s.rows, request) && !Renews(s.rows, request) {
      assert request.subscription.None?;
    }
  }

  function TotalTime(periods: seq<Period>): int {
    if periods == [] then 0
    else TotalTime(periods[..|periods| - 1]) + periods[|periods| - 1].until - periods[|periods| - 1].from
  }

  /** The days the user has paid for in the first `n` steps, of the payments that are granted; each counts as at least one. */
  ghost function DaysPaid(states: seq<State>, ops: seq<Op>, user: Id, n: nat): int
    requires n <= |ops| && n <= |states|
  {
    if n == 0 then 0
    else
      DaysPaid(states, ops, user, n - 1)
      + if PaidPeriod(states[n - 1], ops[n - 1], user).None? then 0 else (if ops[n - 1].days < 1 then 1 else ops[n - 1].days)
  }

  lemma PaidPeriodLength(s: State, op: Op, user: Id)
    ensures var paid := PaidPeriod(s, op, user);
            paid.Some? ==> op.Pay? && paid.value.until - paid.value.from == (if op.days < 1 then 1 else op.days) * 86_400_000
  {
  }

  lemma {:induction false} DaysAddUp(states: seq<State>, ops: seq<Op>, user: Id, n: nat)
    requires n <= |ops| < |states|
    ensures TotalTime(PaidPeriods(states, ops, user, n)) == DaysPaid(states, ops, user, n) * 86_400_000
  {
    hide PaidPeriod;
    if n > 0 {
      DaysAddUp(states, ops, user, n - 1);
      PaidPeriodLength(states[n - 1], ops[n - 1], user);
      var before, paid := PaidPeriods(states, ops, user, n - 1), PaidPeriod(states[n - 1], ops[n - 1], user);
      if paid.Some? { assert (before + [paid.value])[..|before|] == before; }
    }
  }

  /** No day paid for is lost or given twice: the periods, which share no time, last as long as all that was paid for. */
  lemma PaidDaysAddUp(states: seq<State>, ops: seq<Op>, user: Id, plan: Id, n: nat)
    requires PaidRun(states, ops, user, plan) && n <= |ops| && |ops| > 0
    ensures TotalTime(PaidPeriods(states, ops, user, n)) == DaysPaid(states, ops, user, n) * 86_400_000
    ensures InOrder(PaidPeriods(states, ops, user, n))
  {
    hide PaidPeriods;
    RunIsTold(states, ops, user, plan, n);
    DaysAddUp(states, ops, user, n);
  }

  lemma ToldEntitles(rows: seq<Row>, user: Id, plan: Id, periods: seq<Period>, clock: int, t: int, offered: set<Id>)
    requires Told(rows, user, plan, periods, clock) && t >= clock && plan in offered
    ensures Resolve(rows, user, t, offered) == if Within(periods, t) then Some(plan) else None
  {
    if Within(periods, t) {
      var k :| 0 <= k < |periods| && periods[k].from <= t <= periods[k].until;
      assert k < |periods| - 1 ==> periods[k].until <= periods[|periods| - 1].from;
    }
  }

  /**
   * After any number of steps and until the next one, the user has the paid
   * plan exactly inside a paid period, whether or not the sweep has come by.
   */
  lemma EntitledExactlyWhenPaid(states: seq<State>, ops: seq<Op>, user: Id, plan: Id, n: nat, t: int, offered: set<Id>)
    requires PaidRun(states, ops, user, plan) && n <= |ops| && |ops| > 0 && t >= Clock(ops, n) && plan in offered
    ensures Resolve(states[n].rows, user, t, offered) == if Within(PaidPeriods(states, ops, user, n), t) then Some(plan) else None
  {
    RunIsTold(states, ops, user, plan, n);
    ToldEntitles(states[n].rows, user, plan, PaidPeriods(states, ops, user, n), Clock(ops, n), t, offered);
  }

  /**
   * A payment starts no earlier than the current period ends exactly when that
   * period is over or is an ACTIVE one of the same plan: a payment for another
   * plan, or during dunning, overlaps what is left of it.
   */
  lemma PaymentFollowsCurrentExactly(rows: seq<Row>, user: Id, plan: Id, now: int, i: nat)
    requires Current(rows, user) == Some(i) && rows[i].end.Some?
    ensures PaidFrom(rows, user, plan, now) >= rows[i].end.value <==>
              rows[i].end.value <= now || (rows[i].plan == plan && rows[i].status == Active)
  {
  }

  /** A sweep that writes at once spares everyone. */
  lemma ReadAtOnceSpares(rows: seq<Row>, picked: set<nat>, user: Id, now: int)
    requires SweepReads(rows, picked, now)
    ensures Spares(rows, picked, user, now)
  {
  }

  /** The sweep takes a plan that is offered from a user whose current row it names although that is not over. */
  ghost predicate Takes(rows: seq<Row>, picked: set<nat>, user: Id, now: int, offered: set<Id>) {
    var current := Current(rows, user);
    && current.Some? && current.value in picked && rows[current.value].plan in offered
    && (rows[current.value].end.None? || rows[current.value].end.value >= now)
  }

  /** Whatever rows a sweep names, it changes nothing of what the user may do from `now` on exactly when it takes nothing. */
  lemma SweepHarmlessExactly(rows: seq<Row>, picked: set<nat>, user: Id, now: int, offered: set<Id>)
    requires OneLive(rows)
    ensures (forall t | t >= now :: Resolve(Swept(rows, picked), user, t, offered) == Resolve(rows, user, t, offered))
            <==> !Takes(rows, picked, user, now, offered)
  {
    CurrentAfterSweep(rows, picked, user);
    if Takes(rows, picked, user, now, offered) {
      assert Resolve(Swept(rows, picked), user, now, offered) != Resolve(rows, user, now, offered);
    }
  }

  /**
   * It does take one when a payment comes between its read and its update, which
   * names the rows read without looking at them again: the renewed row is expired
   * with the period just paid for.
   */
  lemma StaleSweepEndsPaidPeriod(s: State, user: Id, plan: Plan, days: int, key: Id, readAt: int, now: int, picked: set<nat>, i: nat,
                                 offered: set<Id>)
    requires Indexed(s.rows) && Grants(s, PaidRequest(s.rows, user, plan, days, key, now))
    requires SweepReads(s.rows, picked, readAt) && readAt <= now
    requires Current(s.rows, user) == Some(i) && s.rows[i].plan == plan.id && i in picked && plan.id in offered
    ensures var paid := Step(s, Pay(user, plan, days, key, now)).rows;
            && Takes(paid, picked, user, now, offered)
            && (forall t | t <= now + (if days < 1 then 1 else days) * 86_400_000 :: Resolve(paid, user, t, offered) == Some(plan.id))
            && (forall t :: Resolve(Swept(paid, picked), user, t, offered) == None)
  {
    var request := PaidRequest(s.rows, user, plan, days, key, now);
    var paid := GrantedRows(s.rows, request, now);
    assert Lapsed(s.rows, i, readAt);
    RefusedExactly(s.rows, request, now);
    TheCurrentRow(paid, user, i);
    CurrentAfterSweep(paid, picked, user);
  }

  /**
   * What a grant leaves in the table, field by field: the user's current row is
   * renewed in place when plan and provider subscription agree, else it is
   * retired for a new row.
   */
  ghost predicate Written(before: seq<Row>, after: seq<Row>, request: Request, now: int, row: nat) {
    var found := Current(before, request.user);
    var renews := found.Some? && before[found.value].plan == request.plan.id
                  && (request.subscription.None? || before[found.value].subscription == request.subscription);
    && row == (if renews then found.value else |before|) < |after|
    && |after| == (if renews then |before| else |before| + 1)
    && (forall i | 0 <= i < |before| && i != row ::
          after[i] == if found == Some(i) then before[i].(status := Canceled, canceledAt := Some(now)) else before[i])
    && IsGranted(after[row], request, now)
    && after[row].subscription == if request.subscription.None? && renews then before[found.value].subscription else request.subscription
  }

  /** The granted row: the values asked for, or the defaults. */
  ghost predicate IsGranted(row: Row, request: Request, now: int) {
    && row.user == request.user && row.plan == request.plan.id
    && row.status == (if request.status.Some? then request.status.value else Active)
    && row.cancelAtEnd == request.cancelAtEnd && row.canceledAt.None?
    && row.start == (if request.start.Some? then request.start.value else now)
    && row.end == if request.end.Some? then request.end.value
                  else if request.plan.intervalDays > 0 then Some(row.start + request.plan.intervalDays * 86_400_000)
                  else None
  }

  lemma RenewedIsGranted(row: Row, request: Request, now: int)
    requires row.user == request.user && row.plan == request.plan.id
    ensures IsGranted(RenewedRow(row, request, now), request, now)
    ensures RenewedRow(row, request, now).subscription == if request.subscription.None? then row.subscription else request.subscription
  {
  }

  lemma CreatedIsGranted(request: Request, now: int)
    ensures IsGranted(CreatedRow(request, now), request, now) && CreatedRow(request, now).subscription == request.subscription
  {
  }

  lemma RenewalWrites(rows: seq<Row>, request: Request, now: int)
    requires Renews(rows, request)
    ensures Written(rows, GrantedRows(rows, request, now), request, now, Current(rows, request.user).value)
  {
    hide IsGranted;
    hide RenewedRow;
    hide Current;
    RenewedIsGranted(rows[Current(rows, request.user).value], request, now);
  }

  lemma RetiredRows(rows: seq<Row>, user: Id, now: int)
    ensures |Retired(rows, user, now)| == |rows|
    ensures forall i | 0 <= i < |rows| ::
              Retired(rows, user, now)[i]
              == if Current(rows, user) == Some(i) then rows[i].(status := Canceled, canceledAt := Some(now)) else rows[i]
  {
    hide Current;
  }

  lemma CreationWrites(rows: seq<Row>, request: Request, now: int)
    requires !Renews(rows, request)
    ensures Written(rows, GrantedRows(rows, request, now), request, now, |rows|)
  {
    hide IsGranted;
    hide CreatedRow;
    hide Current;
    hide Retired;
    CreatedIsGranted(request, now);
    RetiredRows(rows, request.user, now);
  }

  lemma GrantWrites(rows: seq<Row>, request: Request, now: int)
    ensures Written(rows, GrantedRows(rows, request, now), request, now,
                    if Renews(rows, request) then Current(rows, request.user).value else |rows|)
  {
    hide Written;
    hide GrantedRows;
    hide Renews;
    hide Current;
    if Renews(rows, request) { RenewalWrites(rows, request, now); } else { CreationWrites(rows, request, now); }
  }

  // ----- the service

  datatype Answer = Unchanged(row: nat) | Changed(row: nat) | Threw

  /** Two rows no unique index lets stand together: both live and of one user, or of one provider subscription. */
  predicate Collide(a: Row, b: Row) {
    || (a.user == b.user && a.status in {Trialing, Active, PastDue, Incomplete} && b.status in {Trialing, Active, PastDue, Incomplete})
    || (a.subscription.Some? && a.subscription == b.subscription)
  }

  lemma IndexedExactly(rows: seq<Row>)
    ensures Indexed(rows) <==> forall a, b :: 0 <= a < b < |rows| ==> !Collide(rows[a], rows[b])
  {
    forall i | 0 <= i < |rows| ensures LiveRow(rows, i, rows[i].user) <==> rows[i].status in {Trialing, Active, PastDue, Incomplete} {}
    if forall a, b :: 0 <= a < b < |rows| ==> !Collide(rows[a], rows[b]) {
      forall i, j, user | 0 <= i < j < |rows| ensures !(LiveRow(rows, i, user) && LiveRow(rows, j, user)) {
        assert !Collide(rows[i], rows[j]);
      }
      assert DistinctSubscriptions(rows) by {
        forall i, j | 0 <= i < j < |rows| && rows[i].subscription.Some? ensures rows[i].subscription != rows[j].subscription {
          assert !Collide(rows[i], rows[j]);
        }
      }
    } else {
      var a, b :| 0 <= a < b < |rows| && Collide(rows[a], rows[b]);
      assert LiveRow(rows, a, rows[a].user) && LiveRow(rows, b, rows[a].user) ==> !OneLive(rows);
    }
  }

  class SubscriptionsService {
    var rows: seq<Row>
    var seen: set<Id>

    ghost predicate Valid()
      reads this
    {
      Indexed(rows)
    }

    /** The unique indexes, as the database checks them on every write. */
    method Violates(table: seq<Row>) returns (violates: bool)
      ensures violates <==> !Indexed(table)
      ensures violates <==> exists a, b :: 0 <= a < b < |table| && Collide(table[a], table[b])
    {
      IndexedExactly(table);
      var i := 0;
      while i < |table|
        invariant 0 <= i <= |table|
        invariant forall a, b :: 0 <= a < b < i && Live(table[a].status) && Live(table[b].status) ==> table[a].user != table[b].user
        invariant forall a, b :: 0 <= a < b < i && table[a].subscription.Some? ==> table[a].subscription != table[b].subscription
      {
        var j := 0;
        while j < i
          invariant 0 <= j <= i
          invariant forall a :: 0 <= a < j && Live(table[a].status) && Live(table[i].status) ==> table[a].user != table[i].user
          invariant forall a :: 0 <= a < j && table[a].subscription.Some? ==> table[a].subscription != table[i].subscription
        {
          if Live(table[j].status) && Live(table[i].status) && table[j].user == table[i].user {
            assert LiveRow(table, j, table[i].user) && LiveRow(table, i, table[i].user);
            return true;
          }
          if table[j].subscription.Some? && table[j].subscription == table[i].subscription { return true; }
          j := j + 1;
        }
        i := i + 1;
      }
      violates := false;
    }

    /** Moves a user onto a plan. The transaction's writes are checked one by one; a refused one undoes them all. */
    method GrantPlan(request: Request, now: int) returns (answer: Answer)
      requires Valid()
      modifies this
      ensures Valid()
      ensures State(rows, seen) == Grant(State(old(rows), old(seen)), request, now)
      ensures answer.Changed? <==> Grants(State(old(rows), old(seen)), request)
      ensures answer.Changed? ==> Written(old(rows), rows, request, now, answer.row)
      ensures answer.Changed? || (rows == old(rows) && seen == old(seen))
      ensures answer.Unchanged? <==> request.plan.active && Replayed(State(old(rows), old(seen)), request)
                                     && Current(old(rows), request.user).Some?
      ensures answer.Unchanged? ==> EntitlingRow(rows, answer.row, request.user)
    {
      if !request.plan.active { return Threw; }
      if request.key.Some? && request.key.value in seen {
        var existing := Current(rows, request.user);
        if existing.Some? { return Unchanged(existing.value); }
      }
      hide Written;
      RefusedExactly(rows, request, now);
      GrantWrites(rows, request, now);
      var table := rows;
      var previous := Current(table, request.user);
      var row: nat;
      if previous.Some? && table[previous.value].plan == request.plan.id
         && (request.subscription.None? || table[previous.value].subscription == request.subscription) {
        row := previous.value;
        table := table[row := RenewedRow(table[row], request, now)];
      } else {
        if previous.Some? {
          table := table[previous.value := table[previous.value].(status := Canceled, canceledAt := Some(now))];
        }
        row := |table|;
        table := table + [CreatedRow(request, now)];
      }
      var violates := Violates(table);
      if violates || (request.key.Some? && request.key.value in seen) { return Threw; }
      rows := table;
      if request.key.Some? { seen := seen + {request.key.value}; }
      return Changed(row);
    }

    /** Grants a paid period; early renewals of the same plan add to what is left. */
    method GrantPeriod(user: Id, plan: Plan, days: int, key: Id, now: int) returns (answer: Answer)
      requires Valid()
      modifies this
      ensures Valid()
      ensures State(rows, seen) == Step(State(old(rows), old(seen)), Pay(user, plan, days, key, now))
      ensures answer.Changed? <==> plan.active && key !in old(seen)
                                   && (Current(old(rows), user).Some? || forall i :: !LiveRow(old(rows), i, user))
      ensures answer.Changed? ==>
                var found := Current(old(rows), user);
                var extended := found.Some? && old(rows)[found.value].plan == plan.id && old(rows)[found.value].status == Active
                                && old(rows)[found.value].end.Some? && old(rows)[found.value].end.value > now;
                && answer.row < |rows|
                && rows[answer.row].user == user && rows[answer.row].plan == plan.id && rows[answer.row].status == Active
                && rows[answer.row].start == (if extended then old(rows)[found.value].start else now)
                && rows[answer.row].end == Some((if extended then old(rows)[found.value].end.value else now)
                                                + (if days < 1 then 1 else days) * 86_400_000)
    {
      hide GrantedRows;
      hide Refused;
      hide OneLive;
      hide DistinctSubscriptions;
      PaidExactly(State(rows, seen), user, plan, days, key, now);
      var current := Current(rows, user);
      var extendsCurrent := current.Some? && rows[current.value].plan == plan.id && rows[current.value].status == Active
                            && rows[current.value].end.Some? && rows[current.value].end.value > now;
      var from := if extendsCurrent then rows[current.value].end.value else now;
      var start := if extendsCurrent then rows[current.value].start else now;
      answer := GrantPlan(Request(user, plan, Some(key), None, None, Some(start), Some(Some(from + PaidLength(days))), false), now);
    }

    method CancelPlan(user: Id, immediately: bool, now: int) returns (answer: Answer)
      requires Valid()
      modifies this`rows
      ensures Valid() && rows == Cancel(old(rows), user, immediately, now)
      ensures answer == match Current(old(rows), user) { case None => Threw case Some(i) => Changed(i) }
      ensures answer.Threw? ==> rows == old(rows)
      ensures answer.Changed? ==>
                var row := old(rows)[answer.row];
                rows == old(rows)[answer.row := if immediately then row.(status := Canceled, canceledAt := Some(now), cancelAtEnd := false)
                                                else row.(cancelAtEnd := true)]
    {
      CancelKeepsOneLive(rows, user, immediately, now);
      var found := Current(rows, user);
      if found.None? { return Threw; }
      var row := rows[found.value];
      row := if immediately then row.(status := Canceled, canceledAt := Some(now), cancelAtEnd := false)
             else row.(cancelAtEnd := true);
      rows := rows[found.value := row];
      return Changed(found.value);
    }

    /** A provider reports a failed payment for a row: past due, unless another row of the user is live and this one is not. */
    method MarkPastDue(i: nat, now: int) returns (answer: Answer)
      requires Valid() && i < |rows|
      modifies this`rows
      ensures Valid() && State(rows, seen) == Step(State(old(rows), seen), PastDueOp(i, now))
      ensures answer == (if old(rows)[i].status !in {Trialing, Active, PastDue, Incomplete}
                            && exists j :: LiveRow(old(rows), j, old(rows)[i].user) then Threw else Changed(i))
      ensures rows == if answer == Threw then old(rows) else old(rows)[i := old(rows)[i].(status := PastDue)]
    {
      PastDueKeepsOneLiveExactly(rows, i);
      assert DistinctSubscriptions(rows[i := rows[i].(status := PastDue)]);
      var violates := Violates(rows[i := rows[i].(status := PastDue)]);
      if violates { return Threw; }
      rows := rows[i := rows[i].(status := PastDue)];
      return Changed(i);
    }

    /** The rows whose period is over, at most 500 of them. */
    method FindLapsed(now: int) returns (picked: set<nat>)
      ensures SweepReads(rows, picked, now)
    {
      picked := {};
      var i := 0;
      while i < |rows| && |picked| < SWEEP_SIZE
        invariant i <= |rows| && |picked| <= SWEEP_SIZE
        invariant forall k <- picked :: k < i && Lapsed(rows, k, now)
        invariant forall k: nat | k < i && Lapsed(rows, k, now) :: k in picked
      {
        if Entitling(rows[i].status) && rows[i].end.Some? && rows[i].end.value < now { picked := picked + {i}; }
        i := i + 1;
      }
    }

    /** The update, which names the rows by id, whenever they were read. */
    method Expire(picked: set<nat>)
      requires Valid() && forall i <- picked :: i < |rows|
      modifies this`rows
      ensures Valid() && rows == Swept(old(rows), picked)
      ensures |rows| == |old(rows)|
      ensures forall i | 0 <= i < |rows| :: rows[i] == if i in picked then old(rows)[i].(status := Expired) else old(rows)[i]
    {
      SweepKeepsOneLive(rows, picked);
      ghost var before := rows;
      var left := picked;
      while left != {}
        invariant left <= picked && |rows| == |before|
        invariant forall i :: 0 <= i < |rows| ==>
                    rows[i] == if i in picked && i !in left then before[i].(status := Expired) else before[i]
        decreases |left|
      {
        var i :| i in left;
        rows := rows[i := rows[i].(status := Expired)];
        left := left - {i};
      }
      assert rows == Swept(before, picked);
    }

    /** One run of the sweep with nothing between its read and its update. */
    method ExpireLapsed(now: int) returns (expired: nat, ghost picked: set<nat>)
      requires Valid()
      modifies this`rows
      ensures Valid() && SweepReads(old(rows), picked, now)
      ensures rows == Swept(old(rows), picked) && expired == |picked|
    {
      var lapsed := FindLapsed(now);
      Expire(lapsed);
      expired, picked := |lapsed|, lapsed;
    }
  }
}
