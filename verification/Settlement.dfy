/**
 * Paying invoices and approving manual payments, under replayed, duplicated
 * and interleaved events. Every database statement is one step.
 *
 * Two things keep a source of money from granting twice: the conditional claim
 * (undone only by the handler that holds it) and the unique key of the event row
 * that a grant writes.
 */
module Settlement {

  type Id = nat

  /** What a plan period is paid with. */
  datatype Source = Invoice(id: Id) | Payment(id: Id)

  datatype Status =
    | Pending | Paid | Failed | Canceled | Refunded
    | AwaitingPayment | Submitted | Approved | Rejected | Cancelled

  /** The unique (provider, providerEventId) of a subscription event. */
  datatype Key = Online(provider: Id, eventId: Id) | Wallet(payment: Id)

  /** What a handler found and what it does next; `found` is the status it read. */
  datatype Task =
    | CheckingOut(invoice: Id)
    | Declining(source: Source, found: Status)
    | Mismatched(source: Source)
    | Paying(source: Source, key: Key, found: Status)
    | Claimed(source: Source, key: Key, found: Status)
    | Granting(source: Source, key: Key, found: Status)
    | RollingBack(source: Source, found: Status)
    | Submitting(source: Source)
    | Cancelling(source: Source)

  datatype Grant = Grant(source: Source, key: Key)

  datatype State = State(orders: map<Source, Status>, keys: set<Key>, grants: seq<Grant>, tasks: map<Id, Task>)

  datatype Notice =
    | PaidNotice(provider: Id, eventId: Id)
    | MismatchNotice
    | FailedNotice
    | ApproveClick
    | SubmitClick
    | CancelClick

  datatype Event =
    | OpenInvoice(task: Id, invoice: Id)
    | CheckoutEnds(task: Id, ok: bool)
    | OpenPayment(payment: Id)
    | Find(task: Id, source: Source, notice: Notice)
    | Act(task: Id)
    | CheckSeen(task: Id, entitled: bool)
    | Commit(task: Id)
    | Fail(task: Id)
    | RejectPayment(payment: Id)
    | OtherEvent(key: Key)

  predicate Open(status: Status) {
    status == AwaitingPayment || status == Submitted
  }

  predicate Claimable(source: Source, status: Status) {
    if source.Invoice? then status == Pending || status == Failed else Open(status)
  }

  function ClaimedStatus(source: Source): Status {
    if source.Invoice? then Paid else Approved
  }

  /** Holding the claim: claimed, and neither granted nor rolled back. */
  predicate Holding(task: Task) {
    task.Claimed? || task.Granting? || task.RollingBack?
  }

  /** Whether a notice is about this kind of source, and the handler goes on after its read. */
  predicate Applies(source: Source, notice: Notice, status: Status) {
    match notice
    case PaidNotice(_, _) => source.Invoice?
    case MismatchNotice => source.Invoice?
    case FailedNotice => source.Invoice?
    case ApproveClick => source.Payment?
    case SubmitClick => source.Payment? && status == AwaitingPayment
    case CancelClick => source.Payment? && Open(status)
  }

  function TaskFor(source: Source, notice: Notice, status: Status): Task {
    match notice
    case PaidNotice(provider, eventId) => Paying(source, Online(provider, eventId), status)
    case MismatchNotice => Mismatched(source)
    case FailedNotice => Declining(source, status)
    case ApproveClick => Paying(source, Wallet(source.id), status)
    case SubmitClick => Submitting(source)
    case CancelClick => Cancelling(source)
  }

  predicate Writes(task: Task) {
    task.Declining? || task.Mismatched? || task.Paying? || task.RollingBack? || task.Submitting? || task.Cancelling?
  }

  predicate Enabled(s: State, e: Event) {
    match e
    case OpenInvoice(t, id) => t !in s.tasks && Invoice(id) !in s.orders
    case CheckoutEnds(t, _) => t in s.tasks && s.tasks[t].CheckingOut?
    case OpenPayment(id) => Payment(id) !in s.orders
    case Find(t, source, notice) => t !in s.tasks && source in s.orders && Applies(source, notice, s.orders[source])
    case Act(t) => t in s.tasks && Writes(s.tasks[t]) && s.tasks[t].source in s.orders
    case CheckSeen(t, _) => t in s.tasks && s.tasks[t].Claimed?
    case Commit(t) => t in s.tasks && s.tasks[t].Granting?
    case Fail(t) => t in s.tasks && (s.tasks[t].Claimed? || s.tasks[t].Granting?)
    case RejectPayment(id) => Payment(id) in s.orders
    case OtherEvent(key) => key !in s.keys
  }

  function Done(s: State, t: Id): State {
    s.(tasks := s.tasks - {t})
  }

  function Set(s: State, source: Source, status: Status): State {
    s.(orders := s.orders[source := status])
  }

  /** The next write of a task. */
  function Write(s: State, t: Id): State
    requires Enabled(s, Act(t))
  {
    var task := s.tasks[t];
    var source := task.source;
    var status := s.orders[source];
    match task
    case Declining(_, found) =>
      if found == Paid then Done(Set(s, source, Refunded), t)
      else if status == Pending then Done(Set(s, source, Failed), t) else Done(s, t)
    case Mismatched(_) => if status == Pending then Done(Set(s, source, Failed), t) else Done(s, t)
    case Paying(_, key, found) =>
      if Claimable(source, status) then
        Set(s, source, ClaimedStatus(source)).(tasks := s.tasks[t := Claimed(source, key, found)])
      else Done(s, t)
    case RollingBack(_, found) => Done(Set(s, source, found), t)
    case Submitting(_) => Done(Set(s, source, Submitted), t)
    case Cancelling(_) => Done(Set(s, source, Cancelled), t)
  }

  function Step(s: State, e: Event): State
    requires Enabled(s, e)
  {
    match e
    case OpenInvoice(t, id) => Set(s, Invoice(id), Pending).(tasks := s.tasks[t := CheckingOut(id)])
    case CheckoutEnds(t, ok) => if ok then Done(s, t) else Done(Set(s, Invoice(s.tasks[t].invoice), Failed), t)
    case OpenPayment(id) => Set(s, Payment(id), AwaitingPayment)
    case Find(t, source, notice) => s.(tasks := s.tasks[t := TaskFor(source, notice, s.orders[source])])
    case Act(t) => Write(s, t)
    case CheckSeen(t, entitled) =>
      var task := s.tasks[t];
      if task.key in s.keys && entitled then Done(s, t)
      else s.(tasks := s.tasks[t := Granting(task.source, task.key, task.found)])
    case Commit(t) =>
      var task := s.tasks[t];
      if task.key in s.keys then s.(tasks := s.tasks[t := RollingBack(task.source, task.found)])
      else Done(s.(keys := s.keys + {task.key}, grants := s.grants + [Grant(task.source, task.key)]), t)
    case Fail(t) => s.(tasks := s.tasks[t := RollingBack(s.tasks[t].source, s.tasks[t].found)])
    case RejectPayment(id) => if Open(s.orders[Payment(id)]) then Set(s, Payment(id), Rejected) else s
    case OtherEvent(key) => s.(keys := s.keys + {key})
  }

  ghost predicate IsRun(states: seq<State>, events: seq<Event>) {
    && |states| == |events| + 1
    && states[0] == State(map[], {}, [], map[])
    && forall n | 0 <= n < |events| :: Enabled(states[n], events[n]) && states[n + 1] == Step(states[n], events[n])
  }

  /** The failure of a checkout overwrites a status that some handler has claimed, or that has granted. */
  ghost predicate Overwrites(s: State, e: Event)
    requires Enabled(s, e)
  {
    e.CheckoutEnds? && !e.ok && !Free(s, Invoice(s.tasks[e.task].invoice))
  }

  /** No checkout fails after its invoice was paid. */
  ghost predicate NothingOverwritten(states: seq<State>, events: seq<Event>)
    requires IsRun(states, events)
  {
    forall n | 0 <= n < |events| :: !Overwrites(states[n], events[n])
  }

  // ----- the unique event key

  ghost predicate KeyOf(source: Source, key: Key) {
    match source
    case Invoice(_) => key.Online?
    case Payment(id) => key == Wallet(id)
  }

  /** Tasks carry the key of their source, and customer writes are about payments. */
  ghost predicate TaskKeyed(task: Task) {
    && (task.Paying? || task.Claimed? || task.Granting? ==> KeyOf(task.source, task.key))
    && (task.Submitting? || task.Cancelling? ==> task.source.Payment?)
  }

  /** Every grant wrote its key, and no two the same. */
  ghost predicate KeysSound(s: State) {
    && (forall t <- s.tasks :: TaskKeyed(s.tasks[t]))
    && (forall i | 0 <= i < |s.grants| :: s.grants[i].key in s.keys && KeyOf(s.grants[i].source, s.grants[i].key))
    && (forall i, j | 0 <= i < j < |s.grants| :: s.grants[i].key != s.grants[j].key)
  }

  lemma StepKeepsKeys(s: State, e: Event)
    requires KeysSound(s) && Enabled(s, e)
    ensures KeysSound(Step(s, e))
  {
  }

  // ----- the conditional claim

  ghost predicate Granted(s: State, source: Source) {
    exists i :: 0 <= i < |s.grants| && s.grants[i].source == source
  }

  ghost predicate Settled(status: Status) {
    status == Paid || status == Refunded
  }

  ghost predicate Holder(s: State, t: Id, source: Source) {
    t in s.tasks && Holding(s.tasks[t]) && s.tasks[t].source == source
  }

  /** Who holds an invoice: at most one task, while it is paid or refunded, and none once it has granted. */
  ghost predicate ClaimSound(s: State, source: Source) {
    && (forall q, r :: Holder(s, q, source) && Holder(s, r, source) ==> q == r)
    && (forall t :: Holder(s, t, source) ==> source in s.orders && Settled(s.orders[source]) && !Granted(s, source))
    && (Granted(s, source) ==> source in s.orders && Settled(s.orders[source]))
    && (forall i, j | 0 <= i < j < |s.grants| :: s.grants[i].source == source ==> s.grants[j].source != source)
  }

  ghost predicate NobodyHolds(s: State, source: Source) {
    forall t :: !Holder(s, t, source)
  }

  /** Nobody holds it, and it has granted nothing. */
  ghost predicate Free(s: State, source: Source) {
    NobodyHolds(s, source) && !Granted(s, source)
  }

  /** A write of an unclaimed, ungranted order, of a refund, or of another order. */
  lemma SetKeeps(s: State, target: Source, status: Status, source: Source)
    requires ClaimSound(s, source)
    requires target == source ==> Settled(status) || Free(s, source)
    ensures ClaimSound(Set(s, target, status), source)
  {
    var t := Set(s, target, status);
    assert forall r :: Holder(t, r, source) <==> Holder(s, r, source);
    assert Granted(t, source) <==> Granted(s, source);
  }

  lemma DoneKeeps(s: State, t: Id, source: Source)
    requires ClaimSound(s, source)
    ensures ClaimSound(Done(s, t), source)
  {
    var after := Done(s, t);
    assert forall r :: Holder(after, r, source) ==> Holder(s, r, source);
    assert Granted(after, source) <==> Granted(s, source);
  }

  /** A task moves on: a holder stays one, or nobody held and the order has just been claimed. */
  lemma TaskKeeps(s: State, t: Id, task: Task, source: Source)
    requires ClaimSound(s, source)
    requires Holding(task) && task.source == source ==>
               Holder(s, t, source) || (Free(s, source) && source in s.orders && Settled(s.orders[source]))
    ensures ClaimSound(s.(tasks := s.tasks[t := task]), source)
  {
    var after := s.(tasks := s.tasks[t := task]);
    assert forall r | r != t :: Holder(after, r, source) <==> Holder(s, r, source);
    assert Granted(after, source) <==> Granted(s, source);
  }

  /** The holder's grant: it is the only one, and the handler is done. */
  lemma CommitKeeps(s: State, t: Id, source: Source)
    requires ClaimSound(s, source) && Enabled(s, Commit(t)) && s.tasks[t].key !in s.keys
    ensures ClaimSound(Step(s, Commit(t)), source)
  {
    var after := Step(s, Commit(t));
    var grant := Grant(s.tasks[t].source, s.tasks[t].key);
    assert after.grants == s.grants + [grant];
    assert grant.source == source ==> Holder(s, t, source);
    assert forall r :: Holder(after, r, source) ==> Holder(s, r, source) && r != t;
    assert forall i | 0 <= i < |s.grants| :: after.grants[i] == s.grants[i];
    assert after.grants[|s.grants|] == grant;
    assert Granted(after, source) <==> Granted(s, source) || grant.source == source;
  }

  /** An invoice that is neither paid nor refunded is held by nobody and has granted nothing. */
  lemma UnsettledIsFree(s: State, source: Source)
    requires ClaimSound(s, source) && (source in s.orders ==> !Settled(s.orders[source]))
    ensures Free(s, source)
  {
  }

  lemma HolderLeaves(s: State, t: Id, source: Source)
    requires ClaimSound(s, source) && Holder(s, t, source)
    ensures Free(Done(s, t), source)
  {
    assert forall r :: Holder(Done(s, t), r, source) ==> Holder(s, r, source) && r != t;
    assert Granted(Done(s, t), source) <==> Granted(s, source);
  }

  lemma SetThenDone(s: State, t: Id, target: Source, status: Status, source: Source)
    requires ClaimSound(s, source)
    requires target == source ==> Settled(status) || Free(s, source)
    ensures ClaimSound(Done(Set(s, target, status), t), source)
  {
    hide ClaimSound;
    SetKeeps(s, target, status, source);
    DoneKeeps(Set(s, target, status), t, source);
  }

  /** The claim: nobody held the invoice, and now `t` does. */
  lemma ClaimKeeps(s: State, t: Id, source: Source)
    requires ClaimSound(s, source) && Enabled(s, Act(t)) && source.Invoice?
    requires s.tasks[t].Paying? && Claimable(s.tasks[t].source, s.orders[s.tasks[t].source])
    ensures ClaimSound(Write(s, t), source)
  {
    hide ClaimSound;
    var task := s.tasks[t];
    var claimed := Set(s, task.source, ClaimedStatus(task.source));
    if task.source == source {
      UnsettledIsFree(s, source);
      assert forall r :: Holder(claimed, r, source) ==> Holder(s, r, source);
      assert Granted(claimed, source) <==> Granted(s, source);
    }
    SetKeeps(s, task.source, ClaimedStatus(task.source), source);
    TaskKeeps(claimed, t, Claimed(task.source, task.key, task.found), source);
  }

  lemma WriteKeeps(s: State, t: Id, source: Source)
    requires ClaimSound(s, source) && KeysSound(s) && Enabled(s, Act(t)) && source.Invoice?
    ensures ClaimSound(Write(s, t), source)
  {
    hide ClaimSound;
    hide Free;
    var task := s.tasks[t];
    DoneKeeps(s, t, source);
    if task.Paying? {
      if Claimable(task.source, s.orders[task.source]) { ClaimKeeps(s, t, source); }
    } else if task.RollingBack? {
      if task.source == source { HolderLeaves(s, t, source); }
      SetKeeps(Done(s, t), task.source, task.found, source);
      assert Done(Set(s, task.source, task.found), t) == Set(Done(s, t), task.source, task.found);
    } else if task.Declining? && task.found == Paid {
      SetThenDone(s, t, task.source, Refunded, source);
    } else if task.Declining? || task.Mismatched? {
      if s.orders[task.source] == Pending {
        if task.source == source { UnsettledIsFree(s, source); }
        SetThenDone(s, t, task.source, Failed, source);
      }
    } else {
      assert TaskKeyed(task);
      SetThenDone(s, t, task.source, if task.Submitting? then Submitted else Cancelled, source);
    }
  }

  lemma OpenKeeps(s: State, t: Id, id: Id, source: Source)
    requires ClaimSound(s, source) && Enabled(s, OpenInvoice(t, id))
    ensures ClaimSound(Step(s, OpenInvoice(t, id)), source)
  {
    if source == Invoice(id) { UnsettledIsFree(s, source); }
    SetKeeps(s, Invoice(id), Pending, source);
    TaskKeeps(Set(s, Invoice(id), Pending), t, CheckingOut(id), source);
  }

  /**
   * Every step keeps the claim sound, but for a failing checkout: it writes
   * FAILED whatever the status is.
   */
  lemma StepKeepsClaim(s: State, e: Event, source: Source)
    requires ClaimSound(s, source) && KeysSound(s) && Enabled(s, e) && source.Invoice? && !Overwrites(s, e)
    ensures ClaimSound(Step(s, e), source)
  {
    hide ClaimSound;
    hide Free;
    match e
    case OpenInvoice(t, id) => OpenKeeps(s, t, id, source);
    case CheckoutEnds(t, ok) =>
      DoneKeeps(s, t, source);
      if !ok { SetThenDone(s, t, Invoice(s.tasks[t].invoice), Failed, source); }
    case OpenPayment(id) => SetKeeps(s, Payment(id), AwaitingPayment, source);
    case Find(t, target, notice) => TaskKeeps(s, t, TaskFor(target, notice, s.orders[target]), source);
    case Act(t) => WriteKeeps(s, t, source);
    case CheckSeen(t, _) =>
      DoneKeeps(s, t, source);
      TaskKeeps(s, t, Granting(s.tasks[t].source, s.tasks[t].key, s.tasks[t].found), source);
    case Commit(t) =>
      if s.tasks[t].key in s.keys {
        TaskKeeps(s, t, RollingBack(s.tasks[t].source, s.tasks[t].found), source);
      } else {
        CommitKeeps(s, t, source);
      }
    case Fail(t) => TaskKeeps(s, t, RollingBack(s.tasks[t].source, s.tasks[t].found), source);
    case RejectPayment(id) => SetKeeps(s, Payment(id), Rejected, source);
    case OtherEvent(key) => KeyKeeps(s, key, source);
  }

  /** A failing checkout leaves the claim sound exactly when nobody holds its invoice and it has granted nothing. */
  lemma FailedCheckoutKeepsExactly(s: State, t: Id)
    requires Enabled(s, CheckoutEnds(t, false)) && ClaimSound(s, Invoice(s.tasks[t].invoice))
    ensures ClaimSound(Step(s, CheckoutEnds(t, false)), Invoice(s.tasks[t].invoice)) <==> Free(s, Invoice(s.tasks[t].invoice))
  {
    var source := Invoice(s.tasks[t].invoice);
    var after := Step(s, CheckoutEnds(t, false));
    assert forall r :: Holder(after, r, source) <==> Holder(s, r, source);
    assert Granted(after, source) <==> Granted(s, source);
  }

  lemma KeyKeeps(s: State, key: Key, source: Source)
    requires ClaimSound(s, source)
    ensures ClaimSound(s.(keys := s.keys + {key}), source)
  {
    var after := s.(keys := s.keys + {key});
    assert forall t :: Holder(after, t, source) <==> Holder(s, t, source);
    assert Granted(after, source) <==> Granted(s, source);
  }

  // ----- every run

  lemma {:induction false} KeysAlwaysSound(states: seq<State>, events: seq<Event>, n: nat)
    requires IsRun(states, events) && n < |states|
    ensures KeysSound(states[n])
  {
    if n > 0 {
      KeysAlwaysSound(states, events, n - 1);
      StepKeepsKeys(states[n - 1], events[n - 1]);
    }
  }

  lemma {:induction false} ClaimsAlwaysSound(states: seq<State>, events: seq<Event>, n: nat, source: Source)
    requires IsRun(states, events) && NothingOverwritten(states, events) && n < |states| && source.Invoice?
    ensures ClaimSound(states[n], source)
  {
    if n > 0 {
      ClaimsAlwaysSound(states, events, n - 1, source);
      KeysAlwaysSound(states, events, n - 1);
      assert Enabled(states[n - 1], events[n - 1]) && !Overwrites(states[n - 1], events[n - 1]);
      StepKeepsClaim(states[n - 1], events[n - 1], source);
    }
  }

  /** Every failing checkout finds its invoice neither paid nor refunded. */
  ghost predicate FailsUnsettled(states: seq<State>, events: seq<Event>)
    requires IsRun(states, events)
  {
    forall m | 0 <= m < |events| && events[m].CheckoutEnds? && !events[m].ok ::
      var invoice := Invoice(states[m].tasks[events[m].task].invoice);
      invoice in states[m].orders ==> !Settled(states[m].orders[invoice])
  }

  lemma {:induction false} SoundByStatus(states: seq<State>, events: seq<Event>, n: nat, source: Source)
    requires IsRun(states, events) && n < |states| && source.Invoice? && FailsUnsettled(states, events)
    ensures ClaimSound(states[n], source)
  {
    hide ClaimSound;
    if n == 0 {
      NothingClaimed(source);
    } else {
      var s, e := states[n - 1], events[n - 1];
      SoundByStatus(states, events, n - 1, source);
      KeysAlwaysSound(states, events, n - 1);
      assert Enabled(s, e);
      if e.CheckoutEnds? && !e.ok {
        SoundByStatus(states, events, n - 1, Invoice(s.tasks[e.task].invoice));
        UnsettledIsFree(s, Invoice(s.tasks[e.task].invoice));
      }
      StepKeepsClaim(s, e, source);
    }
  }

  /** So the status tells: failures over unsettled invoices overwrite nothing. */
  lemma UnsettledNotOverwritten(states: seq<State>, events: seq<Event>)
    requires IsRun(states, events) && FailsUnsettled(states, events)
    ensures NothingOverwritten(states, events)
  {
    hide ClaimSound;
    forall n | 0 <= n < |events| && events[n].CheckoutEnds? && !events[n].ok ensures !Overwrites(states[n], events[n]) {
      var s, e := states[n], events[n];
      assert Enabled(s, e);
      SoundByStatus(states, events, n, Invoice(s.tasks[e.task].invoice));
      UnsettledIsFree(s, Invoice(s.tasks[e.task].invoice));
    }
  }

  lemma NothingClaimed(source: Source)
    ensures ClaimSound(State(map[], {}, [], map[]), source)
  {
  }

  /** In every run each manual payment grants at most once, and so does each event key. */
  lemma PaymentGrantsOnce(states: seq<State>, events: seq<Event>, n: nat, i: nat, j: nat)
    requires IsRun(states, events) && n < |states| && i < j < |states[n].grants|
    ensures states[n].grants[i].key != states[n].grants[j].key
    ensures states[n].grants[i].source.Payment? ==> states[n].grants[i].source != states[n].grants[j].source
  {
    KeysAlwaysSound(states, events, n);
    assert KeyOf(states[n].grants[i].source, states[n].grants[i].key);
    assert KeyOf(states[n].grants[j].source, states[n].grants[j].key);
  }

  /**
   * In every run in which no checkout fails over an invoice that is claimed or
   * has granted, each invoice too grants at most once, whatever keys its events
   * have, and whether or not they arrive while the checkout is still open.
   */
  lemma EachSourceGrantsOnce(states: seq<State>, events: seq<Event>, n: nat, i: nat, j: nat)
    requires IsRun(states, events) && NothingOverwritten(states, events) && n < |states| && i < j < |states[n].grants|
    ensures states[n].grants[i].source != states[n].grants[j].source
  {
    PaymentGrantsOnce(states, events, n, i, j);
    if states[n].grants[i].source.Invoice? {
      ClaimsAlwaysSound(states, events, n, states[n].grants[i].source);
    }
  }

  // ----- what an overwritten status leads to

  lemma Extend(states: seq<State>, events: seq<Event>, e: Event) returns (after: seq<State>, more: seq<Event>)
    requires IsRun(states, events) && Enabled(states[|events|], e)
    ensures after == states + [Step(states[|events|], e)] && more == events + [e] && IsRun(after, more)
  {
    hide Step;
    hide Enabled;
    after, more := states + [Step(states[|events|], e)], events + [e];
    forall n | 0 <= n < |more| ensures Enabled(after[n], more[n]) && after[n + 1] == Step(after[n], more[n]) {
      if n < |events| {
        assert more[n] == events[n] && after[n] == states[n] && after[n + 1] == states[n + 1];
      }
    }
  }

  /** An event about a payment reads the invoice. */
  lemma Read(states: seq<State>, events: seq<Event>, t: Id, source: Source, provider: Id, eventId: Id)
    returns (after: seq<State>, more: seq<Event>)
    requires IsRun(states, events) && source.Invoice?
    requires t !in states[|events|].tasks && source in states[|events|].orders
    ensures IsRun(after, more) && states <= after && more == events + [Find(t, source, PaidNotice(provider, eventId))]
    ensures var s := states[|events|];
            after[|more|] == s.(tasks := s.tasks[t := Paying(source, Online(provider, eventId), s.orders[source])])
  {
    after, more := Extend(states, events, Find(t, source, PaidNotice(provider, eventId)));
  }

  /** Its update claims the invoice if the status can be claimed. */
  lemma Claim(states: seq<State>, events: seq<Event>, t: Id) returns (after: seq<State>, more: seq<Event>)
    requires IsRun(states, events)
    requires var s := states[|events|];
             && t in s.tasks && s.tasks[t].Paying? && s.tasks[t].source in s.orders
             && Claimable(s.tasks[t].source, s.orders[s.tasks[t].source])
    ensures IsRun(after, more) && states <= after && more == events + [Act(t)]
    ensures var s, task := states[|events|], states[|events|].tasks[t];
            after[|more|] == State(s.orders[task.source := ClaimedStatus(task.source)], s.keys, s.grants,
                                   s.tasks[t := Claimed(task.source, task.key, task.found)])
  {
    after, more := Extend(states, events, Act(t));
  }

  /** A claimable invoice and a new event: four steps, and the period is granted. */
  lemma Pay(states: seq<State>, events: seq<Event>, t: Id, invoice: Id, provider: Id, eventId: Id)
    returns (after: seq<State>, more: seq<Event>)
    requires IsRun(states, events)
    requires var s := states[|events|];
             && Invoice(invoice) in s.orders && Claimable(Invoice(invoice), s.orders[Invoice(invoice)])
             && t !in s.tasks && Online(provider, eventId) !in s.keys
    ensures IsRun(after, more) && events <= more && states <= after
    ensures var s := states[|events|];
            after[|more|] == State(s.orders[Invoice(invoice) := Paid], s.keys + {Online(provider, eventId)},
                                   s.grants + [Grant(Invoice(invoice), Online(provider, eventId))], s.tasks)
  {
    var s := states[|events|];
    after, more := Read(states, events, t, Invoice(invoice), provider, eventId);
    after, more := Claim(after, more, t);
    after, more := Extend(after, more, CheckSeen(t, false));
    after, more := Extend(after, more, Commit(t));
    assert after[|more|].tasks == s.tasks;
  }

  ghost predicate GrantedTwice(s: State, source: Source) {
    exists i, j :: 0 <= i < j < |s.grants| && s.grants[i].source == s.grants[j].source == source
  }

  /**
   * Once a failing checkout has overwritten an invoice that has granted, the
   * condition above is needed: whatever the run was, any other event for that
   * invoice grants a second time.
   */
  lemma OverwrittenGrantsAgain(states: seq<State>, events: seq<Event>, checkout: Id, t: Id, provider: Id, eventId: Id)
    returns (after: seq<State>, more: seq<Event>)
    requires IsRun(states, events) && Enabled(states[|events|], CheckoutEnds(checkout, false))
    requires Granted(states[|events|], Invoice(states[|events|].tasks[checkout].invoice))
    requires t !in states[|events|].tasks && Online(provider, eventId) !in states[|events|].keys
    ensures IsRun(after, more) && events + [CheckoutEnds(checkout, false)] <= more
    ensures GrantedTwice(after[|more|], Invoice(states[|events|].tasks[checkout].invoice))
  {
    var s := states[|events|];
    var source := Invoice(s.tasks[checkout].invoice);
    var failed := CheckoutFails(s, checkout, source.id);
    after, more := Extend(states, events, CheckoutEnds(checkout, false));
    after, more := Pay(after, more, t, source.id, provider, eventId);
    var i :| 0 <= i < |s.grants| && s.grants[i].source == source;
    assert after[|more|].grants[i].source == source && after[|more|].grants[|s.grants|].source == source;
  }

  /** And so it does when the invoice is held by a handler about to grant: both that handler and a later event do. */
  lemma OverwrittenHolderGrantsToo(states: seq<State>, events: seq<Event>, checkout: Id, holder: Id, t: Id, provider: Id, eventId: Id)
    returns (after: seq<State>, more: seq<Event>)
    requires IsRun(states, events) && Enabled(states[|events|], CheckoutEnds(checkout, false))
    requires var s := states[|events|];
             && holder in s.tasks && (s.tasks[holder].Claimed? || s.tasks[holder].Granting?)
             && s.tasks[holder].source == Invoice(s.tasks[checkout].invoice)
             && s.tasks[holder].key !in s.keys
             && t !in s.tasks && Online(provider, eventId) !in s.keys && s.tasks[holder].key != Online(provider, eventId)
    ensures IsRun(after, more) && events + [CheckoutEnds(checkout, false)] <= more
    ensures GrantedTwice(after[|more|], Invoice(states[|events|].tasks[checkout].invoice))
  {
    var s := states[|events|];
    var source := Invoice(s.tasks[checkout].invoice);
    var failed := CheckoutFails(s, checkout, source.id);
    after, more := Extend(states, events, CheckoutEnds(checkout, false));
    after, more := Pay(after, more, t, source.id, provider, eventId);
    var last := after[|more|];
    assert last.tasks[holder] == s.tasks[holder];
    if s.tasks[holder].Claimed? { after, more := Extend(after, more, CheckSeen(holder, false)); }
    assert after[|more|].tasks[holder].Granting? && after[|more|].tasks[holder].key == s.tasks[holder].key;
    after, more := Extend(after, more, Commit(holder));
    assert after[|more|].grants == last.grants + [Grant(source, s.tasks[holder].key)];
    assert after[|more|].grants[|s.grants|].source == source && after[|more|].grants[|s.grants| + 1].source == source;
  }

  /**
   * A holder that gives its claim back to a claimable status does not grant
   * itself, but lets two later events do so: one before it gives the claim back
   * and one after.
   */
  lemma OverwrittenHolderLetsTwoGrant(states: seq<State>, events: seq<Event>, checkout: Id, holder: Id, t: Id, provider: Id,
                                      first: Id, second: Id)
    returns (after: seq<State>, more: seq<Event>)
    requires IsRun(states, events) && Enabled(states[|events|], CheckoutEnds(checkout, false))
    requires var s := states[|events|];
             && holder in s.tasks && Holding(s.tasks[holder]) && s.tasks[holder].source == Invoice(s.tasks[checkout].invoice)
             && Claimable(s.tasks[holder].source, s.tasks[holder].found)
             && t !in s.tasks && Online(provider, first) !in s.keys && Online(provider, second) !in s.keys && first != second
    ensures IsRun(after, more) && events + [CheckoutEnds(checkout, false)] <= more
    ensures GrantedTwice(after[|more|], Invoice(states[|events|].tasks[checkout].invoice))
  {
    var s := states[|events|];
    var source := Invoice(s.tasks[checkout].invoice);
    var failed := CheckoutFails(s, checkout, source.id);
    after, more := Extend(states, events, CheckoutEnds(checkout, false));
    after, more := Pay(after, more, t, source.id, provider, first);
    after, more := GiveClaimBack(after, more, holder);
    var returned := after[|more|];
    after, more := Pay(after, more, t, source.id, provider, second);
    assert after[|more|].grants == returned.grants + [Grant(source, Online(provider, second))];
    assert returned.grants == s.grants + [Grant(source, Online(provider, first))];
    assert after[|more|].grants[|s.grants|].source == source && after[|more|].grants[|s.grants| + 1].source == source;
  }

  /** Any holder may fail, and then writes back the status it read. */
  lemma GiveClaimBack(states: seq<State>, events: seq<Event>, holder: Id) returns (after: seq<State>, more: seq<Event>)
    requires IsRun(states, events)
    requires var s := states[|events|];
             holder in s.tasks && Holding(s.tasks[holder]) && s.tasks[holder].source in s.orders
    ensures IsRun(after, more) && events <= more && states <= after
    ensures forall n | |events| <= n < |more| :: !more[n].CheckoutEnds?
    ensures var s := states[|events|];
            after[|more|] == State(s.orders[s.tasks[holder].source := s.tasks[holder].found], s.keys, s.grants, s.tasks - {holder})
  {
    var s := states[|events|];
    after, more := states, events;
    if !s.tasks[holder].RollingBack? { after, more := Extend(after, more, Fail(holder)); }
    var failing := after[|more|];
    assert failing.tasks[holder] == RollingBack(s.tasks[holder].source, s.tasks[holder].found);
    assert failing.tasks - {holder} == s.tasks - {holder};
    after, more := Extend(after, more, Act(holder));
  }

  /** Such runs exist, for every invoice and every two events: paid while its checkout is open, which then fails. */
  lemma PaidDuringCheckoutGrantsTwice(invoice: Id, checkout: Id, t: Id, provider: Id, first: Id, second: Id)
    returns (states: seq<State>, events: seq<Event>)
    requires t != checkout && first != second
    ensures IsRun(states, events) && GrantedTwice(states[|events|], Invoice(invoice))
  {
    var s0 := State(map[], {}, [], map[]);
    assert IsRun([s0], []);
    var s1 := Opened(s0, checkout, invoice);
    states, events := Extend([s0], [], OpenInvoice(checkout, invoice));
    states, events := Pay(states, events, t, invoice, provider, first);
    var paid := states[|events|];
    assert paid.tasks[checkout] == CheckingOut(invoice);
    assert paid.grants[0].source == Invoice(invoice);
    states, events := OverwrittenGrantsAgain(states, events, checkout, t, provider, second);
  }

  lemma Opened(s: State, t: Id, invoice: Id) returns (after: State)
    requires t !in s.tasks && Invoice(invoice) !in s.orders
    ensures Enabled(s, OpenInvoice(t, invoice)) && after == Step(s, OpenInvoice(t, invoice))
    ensures after == State(s.orders[Invoice(invoice) := Pending], s.keys, s.grants, s.tasks[t := CheckingOut(invoice)])
  {
    after := Step(s, OpenInvoice(t, invoice));
  }

  lemma CheckoutFails(s: State, t: Id, invoice: Id) returns (after: State)
    requires t in s.tasks && s.tasks[t] == CheckingOut(invoice)
    ensures Enabled(s, CheckoutEnds(t, false)) && after == Step(s, CheckoutEnds(t, false))
    ensures after == State(s.orders[Invoice(invoice) := Failed], s.keys, s.grants, s.tasks - {t})
  {
    after := Step(s, CheckoutEnds(t, false));
  }

  // ----- paid, and nothing granted

  ghost predicate HeldByOther(s: State, t: Id, source: Source) {
    exists q :: q != t && Holder(s, q, source)
  }

  /** A paid or refunded invoice has granted, or is held by a handler that has yet to. */
  ghost predicate Backed(s: State, source: Source) {
    source in s.orders && Settled(s.orders[source]) ==> Granted(s, source) || exists t :: Holder(s, t, source)
  }

  /**
   * The last claim is given up without a grant, and the invoice stays settled:
   * the status written back is itself a claim or a refund, a refund is written
   * for a claim that has been given back, or the grant is taken for done already.
   */
  ghost predicate LosesPayment(s: State, e: Event, source: Source)
    requires Enabled(s, e)
  {
    match e
    case Act(t) =>
      && s.tasks[t].source == source && !Granted(s, source) && !HeldByOther(s, t, source)
      && ((s.tasks[t].RollingBack? && Settled(s.tasks[t].found)) || (s.tasks[t].Declining? && s.tasks[t].found == Paid))
    case CheckSeen(t, entitled) =>
      && s.tasks[t].source == source && !Granted(s, source) && !HeldByOther(s, t, source)
      && s.tasks[t].key in s.keys && entitled && source in s.orders && Settled(s.orders[source])
    case _ => false
  }

  lemma HoldersAfter(s: State, e: Event, source: Source)
    requires Enabled(s, e)
    ensures forall t :: !(e.Act? || e.CheckSeen? || e.Commit? || e.Fail?) || t != e.task ==>
                          (Holder(Step(s, e), t, source) <==> Holder(s, t, source))
    ensures Granted(Step(s, e), source) <==> Granted(s, source) || (e.Commit? && s.tasks[e.task].source == source && s.tasks[e.task].key !in s.keys)
  {
    var after := Step(s, e);
    if Granted(s, source) {
      var i :| 0 <= i < |s.grants| && s.grants[i].source == source;
      assert after.grants[i].source == source;
    }
    if e.Commit? && s.tasks[e.task].key !in s.keys { assert after.grants[|s.grants|].source == s.tasks[e.task].source; }
  }

  /** A step leaves a paid invoice without its grant exactly in those cases. */
  lemma BackedExactly(s: State, e: Event, source: Source)
    requires Enabled(s, e) && source.Invoice? && Backed(s, source)
    ensures Backed(Step(s, e), source) <==> !LosesPayment(s, e, source)
  {
    var after := Step(s, e);
    HoldersAfter(s, e, source);
    hide Granted;
    if e.Act? || e.CheckSeen? || e.Commit? || e.Fail? {
      assert Holder(after, e.task, source) ==> exists t :: Holder(after, t, source);
      assert HeldByOther(s, e.task, source) <==> HeldByOther(after, e.task, source);
    }
  }

  /** So in every run without such a step, an invoice that is paid or refunded has granted once nobody holds it. */
  lemma {:induction false} PaidIsGranted(states: seq<State>, events: seq<Event>, n: nat, source: Source)
    requires IsRun(states, events) && n < |states| && source.Invoice?
    requires forall k | 0 <= k < n :: !LosesPayment(states[k], events[k], source)
    ensures Backed(states[n], source)
  {
    hide Backed;
    hide LosesPayment;
    if n == 0 {
      NothingToBack(source);
    } else {
      PaidIsGranted(states, events, n - 1, source);
      assert Enabled(states[n - 1], events[n - 1]);
      BackedExactly(states[n - 1], events[n - 1], source);
    }
  }

  lemma NothingToBack(source: Source)
    ensures Backed(State(map[], {}, [], map[]), source)
  {
  }

  /** A task that may still change the status of a settled invoice to one that can be claimed, or grant it. */
  predicate Pursues(task: Task, source: Source) {
    match task
    case CheckingOut(id) => Invoice(id) == source
    case Paying(_, _, _) => false
    case Declining(_, _) => false
    case Mismatched(_) => false
    case _ => task.source == source
  }

  /** The invoice is settled without a grant, and nobody is at work on it who could change that. */
  ghost predicate Stuck(s: State, invoice: Id) {
    var source := Invoice(invoice);
    && source in s.orders && Settled(s.orders[source]) && !Granted(s, source)
    && forall t <- s.tasks :: !Pursues(s.tasks[t], source)
  }

  lemma StuckStep(s: State, e: Event, invoice: Id)
    requires Enabled(s, e) && Stuck(s, invoice)
    ensures Stuck(Step(s, e), invoice)
  {
  }

  /** Then no event ever grants it. */
  lemma {:induction false} StuckForever(states: seq<State>, events: seq<Event>, i: nat, n: nat, invoice: Id)
    requires IsRun(states, events) && i <= n < |states| && Stuck(states[i], invoice)
    ensures Stuck(states[n], invoice) && !Granted(states[n], Invoice(invoice))
    decreases n
  {
    if i < n {
      StuckForever(states, events, i, n - 1, invoice);
      assert Enabled(states[n - 1], events[n - 1]);
      StuckStep(states[n - 1], events[n - 1], invoice);
    }
  }

  /**
   * Runs that come to this exist for every invoice and every two events, with no
   * status overwritten: the second event reads the claim of the first, claims
   * when that is given back, fails in turn, and writes back the claim it read.
   */
  lemma PaidWithoutGrant(invoice: Id, checkout: Id, t: Id, u: Id, provider: Id, first: Id, second: Id)
    returns (states: seq<State>, events: seq<Event>)
    requires t != u
    ensures IsRun(states, events) && NothingOverwritten(states, events)
    ensures Invoice(invoice) in states[|events|].orders && states[|events|].orders[Invoice(invoice)] == Paid
    ensures Stuck(states[|events|], invoice)
  {
    hide Step;
    hide Enabled;
    hide IsRun;
    hide NothingOverwritten;
    var source := Invoice(invoice);
    states, events := CheckedOut(invoice, checkout);
    states, events := Read(states, events, t, source, provider, first);
    states, events := Claim(states, events, t);
    states, events := Read(states, events, u, source, provider, second);
    states, events := GiveClaimBack(states, events, t);
    states, events := Claim(states, events, u);
    states, events := GiveClaimBack(states, events, u);
    CheckoutsSucceed(states, events);
  }

  lemma CheckoutsSucceed(states: seq<State>, events: seq<Event>)
    requires IsRun(states, events) && forall n | 0 <= n < |events| && events[n].CheckoutEnds? :: events[n].ok
    ensures NothingOverwritten(states, events)
  {
  }

  lemma CheckedOut(invoice: Id, t: Id) returns (states: seq<State>, events: seq<Event>)
    ensures IsRun(states, events) && events == [OpenInvoice(t, invoice), CheckoutEnds(t, true)]
    ensures states[2] == State(map[Invoice(invoice) := Pending], {}, [], map[])
  {
    assert IsRun([State(map[], {}, [], map[])], []);
    states, events := Extend([State(map[], {}, [], map[])], [], OpenInvoice(t, invoice));
    states, events := Extend(states, events, CheckoutEnds(t, true));
  }

  // ----- closed payments

  /** A rejected or cancelled payment with nobody at work on it but approvals that have yet to claim it. */
  ghost predicate Closed(s: State, payment: Id) {
    var source := Payment(payment);
    && source in s.orders && (s.orders[source] == Rejected || s.orders[source] == Cancelled)
    && forall t <- s.tasks :: s.tasks[t].CheckingOut? || s.tasks[t].Paying? || s.tasks[t].source != source
  }

  lemma ClosedStep(s: State, e: Event, payment: Id)
    requires Enabled(s, e) && Closed(s, payment)
    ensures Closed(Step(s, e), payment)
    ensures s.grants <= Step(s, e).grants
    ensures forall k | |s.grants| <= k < |Step(s, e).grants| :: Step(s, e).grants[k].source != Payment(payment)
  {
  }

  /** Rejecting closes what is open, or closed already, and nothing else. */
  lemma RejectingCloses(s: State, payment: Id)
    requires Payment(payment) in s.orders
    requires forall t <- s.tasks :: s.tasks[t].CheckingOut? || s.tasks[t].Paying? || s.tasks[t].source != Payment(payment)
    ensures Closed(Step(s, RejectPayment(payment)), payment)
            <==> s.orders[Payment(payment)] in {AwaitingPayment, Submitted, Rejected, Cancelled}
  {
  }

  /** It stays closed, and whatever happens it grants nothing more. */
  lemma {:induction false} ClosedNeverGrants(states: seq<State>, events: seq<Event>, i: nat, n: nat, payment: Id)
    requires IsRun(states, events) && i <= n < |states| && Closed(states[i], payment)
    ensures Closed(states[n], payment) && states[i].grants <= states[n].grants
    ensures forall k | |states[i].grants| <= k < |states[n].grants| :: states[n].grants[k].source != Payment(payment)
    decreases n
  {
    hide Closed;
    if i < n {
      ClosedNeverGrants(states, events, i, n - 1, payment);
      assert Enabled(states[n - 1], events[n - 1]) && states[n] == Step(states[n - 1], events[n - 1]);
      ClosedStep(states[n - 1], events[n - 1], payment);
      hide Step;
    }
  }
}
