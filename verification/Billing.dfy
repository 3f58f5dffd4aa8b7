/**
 * The two payment services, one call at a time: what each call does to the
 * tables, and that with nothing in between it is a run of the protocol's steps.
 */
module Billing {
  import opened Options
  import opened Settlement

  // ----- calls as runs of steps

  /** The state after the events, if each can happen in its turn. */
  ghost function Play(s: State, events: seq<Event>): Option<State> {
    if events == [] then Some(s)
    else
      var before := Play(s, events[..|events| - 1]);
      var e := events[|events| - 1];
      if before.Some? && Enabled(before.value, e) then Some(Step(before.value, e)) else None
  }

  lemma PlayNext(s: State, events: seq<Event>, before: State, e: Event)
    requires Play(s, events) == Some(before) && Enabled(before, e)
    ensures Play(s, events + [e]) == Some(Step(before, e))
  {
    assert (events + [e])[..|events|] == events;
  }

  lemma ReadPlays(s: State, t: Id, source: Source, notice: Notice)
    requires t !in s.tasks && source in s.orders && Applies(source, notice, s.orders[source])
    ensures Play(s, [Find(t, source, notice)]) == Some(s.(tasks := s.tasks[t := TaskFor(source, notice, s.orders[source])]))
  {
    PlayNext(s, [], s, Find(t, source, notice));
    assert [] + [Find(t, source, notice)] == [Find(t, source, notice)];
  }

  lemma GivingBackPlays(s: State, events: seq<Event>, before: State, t: Id)
    requires Play(s, events) == Some(before) && t in before.tasks && before.tasks[t].RollingBack? && before.tasks[t].source in before.orders
    ensures Play(s, events + [Act(t)])
            == Some(before.(orders := before.orders[before.tasks[t].source := before.tasks[t].found], tasks := before.tasks - {t}))
  {
    PlayNext(s, events, before, Act(t));
  }

  /** A task that read a claimable order claims it, grants, and gives the claim back when the grant throws. */
  lemma ClaimPlays(s: State, t: Id, entitled: bool, broken: bool) returns (steps: seq<Event>, after: State)
    requires t in s.tasks && s.tasks[t].Paying? && s.tasks[t].source in s.orders && s.tasks[t].found == s.orders[s.tasks[t].source]
    ensures Play(s, steps) == Some(after) && after.tasks == s.tasks - {t}
    ensures var task := s.tasks[t];
            var claimed := task.found in if task.source.Invoice? then {Pending, Failed} else {AwaitingPayment, Submitted};
            var grants := claimed && !broken && task.key !in s.keys;
            && after.orders == (if claimed && (grants || (task.key in s.keys && entitled))
                                then s.orders[task.source := if task.source.Invoice? then Paid else Approved] else s.orders)
            && after.keys == (if grants then s.keys + {task.key} else s.keys)
            && after.grants == if grants then s.grants + [Grant(task.source, task.key)] else s.grants
  {
    var source, key, found := s.tasks[t].source, s.tasks[t].key, s.tasks[t].found;
    PlayNext(s, [], s, Act(t));
    steps, after := [] + [Act(t)], Step(s, Act(t));
    if after.tasks == s.tasks - {t} { return; }
    PlayNext(s, steps, after, CheckSeen(t, entitled));
    steps, after := steps + [CheckSeen(t, entitled)], Step(after, CheckSeen(t, entitled));
    if key in s.keys && entitled { return; }
    var e := if broken then Fail(t) else Commit(t);
    PlayNext(s, steps, after, e);
    steps, after := steps + [e], Step(after, e);
    if broken || key in s.keys {
      GivingBackPlays(s, steps, after, t);
      steps, after := steps + [Act(t)], Step(after, Act(t));
    }
  }

  /** One notice that is not a payment, read and acted on. */
  lemma NoticePlays(s: State, t: Id, source: Source, notice: Notice)
    requires t !in s.tasks && source in s.orders && Applies(source, notice, s.orders[source])
    requires notice != ApproveClick && !notice.PaidNotice?
    ensures var status := s.orders[source];
            Play(s, [Find(t, source, notice), Act(t)])
            == Some(s.(orders := s.orders[source :=
                 match notice
                 case FailedNotice => if status == Paid then Refunded else if status == Pending then Failed else status
                 case MismatchNotice => if status == Pending then Failed else status
                 case SubmitClick => Submitted
                 case _ => Cancelled]))
  {
    hide Play;
    hide Applies;
    var read := s.(tasks := s.tasks[t := TaskFor(source, notice, s.orders[source])]);
    ReadPlays(s, t, source, notice);
    PlayNext(s, [Find(t, source, notice)], read, Act(t));
    assert [Find(t, source, notice)] + [Act(t)] == [Find(t, source, notice), Act(t)];
    assert Step(read, Act(t)).tasks == s.tasks;
    assert s.orders[source := s.orders[source]] == s.orders;
  }

  /** And one that is. */
  lemma PaymentPlays(s: State, t: Id, source: Source, notice: Notice, entitled: bool, broken: bool)
    returns (steps: seq<Event>, after: State)
    requires t !in s.tasks && source in s.orders && Applies(source, notice, s.orders[source])
    requires notice == ApproveClick || notice.PaidNotice?
    ensures Play(s, steps) == Some(after) && after.tasks == s.tasks && steps != [] && steps[0] == Find(t, source, notice)
    ensures var found := s.orders[source];
            var key := if notice == ApproveClick then Wallet(source.id) else Online(notice.provider, notice.eventId);
            var claimed := found in if source.Invoice? then {Pending, Failed} else {AwaitingPayment, Submitted};
            var grants := claimed && !broken && key !in s.keys;
            && after.orders == (if claimed && (grants || (key in s.keys && entitled))
                                then s.orders[source := if source.Invoice? then Paid else Approved] else s.orders)
            && after.keys == (if grants then s.keys + {key} else s.keys)
            && after.grants == if grants then s.grants + [Grant(source, key)] else s.grants
  {
    hide Play;
    hide Step;
    hide Enabled;
    var read := s.(tasks := s.tasks[t := TaskFor(source, notice, s.orders[source])]);
    ReadPlays(s, t, source, notice);
    steps, after := ClaimPlays(read, t, entitled, broken);
    PlayOn(s, [Find(t, source, notice)], read, steps);
    steps := [Find(t, source, notice)] + steps;
    assert read.tasks - {t} == s.tasks;
  }

  /** Runs follow one another. */
  lemma {:induction false} PlayOn(s: State, events: seq<Event>, mid: State, more: seq<Event>)
    requires Play(s, events) == Some(mid)
    ensures Play(s, events + more) == Play(mid, more)
  {
    if more == [] {
      assert events + more == events;
    } else {
      var n := |more| - 1;
      PlayOn(s, events, mid, more[..n]);
      assert (events + more)[..|events| + n] == events + more[..n];
    }
  }

  // ----- the services

  datatype Outcome = PendingOutcome | FailedOutcome | PaidOutcome

  datatype Answer = Ignored | Answered(status: Status) | Threw

  /** The tables the two payment services write; `grants` are the event rows that came with a grant. */
  class Billing {
    var orders: map<Source, Status>
    var keys: set<Key>
    var grants: seq<Grant>

    /**
     * `grantPlan`: a no-op for a seen key while the user is entitled; otherwise
     * its transaction commits unless something fails or the key is taken.
     */
    method GrantPlan(source: Source, key: Key, entitled: bool, broken: bool) returns (threw: bool)
      modifies this`keys, this`grants
      ensures threw == (!(key in old(keys) && entitled) && (key in old(keys) || broken))
      ensures if key in old(keys) || broken then keys == old(keys) && grants == old(grants)
              else keys == old(keys) + {key} && grants == old(grants) + [Grant(source, key)]
    {
      if key in keys && entitled { return false; }
      if key in keys || broken { return true; }
      keys, grants := keys + {key}, grants + [Grant(source, key)];
      return false;
    }

    /** Claims the order, grants, and gives the claim back when the grant throws. */
    method ClaimAndGrant(source: Source, key: Key, entitled: bool, broken: bool) returns (claimed: bool, threw: bool)
      requires source in orders
      modifies this
      ensures claimed <==> old(orders)[source] in (if source.Invoice? then {Pending, Failed} else {AwaitingPayment, Submitted})
      ensures orders == if claimed && !threw then old(orders)[source := if source.Invoice? then Paid else Approved] else old(orders)
      ensures threw == (claimed && !(key in old(keys) && entitled) && (key in old(keys) || broken))
      ensures keys == (if claimed && !broken && key !in old(keys) then old(keys) + {key} else old(keys))
      ensures grants == (if claimed && !broken && key !in old(keys) then old(grants) + [Grant(source, key)] else old(grants))
    {
      var found := orders[source];
      claimed, threw := Claimable(source, found), false;
      if !claimed { return; }
      orders := orders[source := ClaimedStatus(source)];
      threw := GrantPlan(source, key, entitled, broken);
      if threw { orders := orders[source := found]; }
    }

    /** One verified provider event, applied with nothing in between. */
    method Settle(invoice: Id, key: Key, outcome: Outcome, amountMatches: bool, entitled: bool, broken: bool,
                  ghost t: Id, ghost tasks: map<Id, Task>) returns (answer: Answer, ghost steps: seq<Event>)
      requires key.Online? && t !in tasks
      modifies this
      // the protocol's steps come to the same, whatever other tasks are under way
      ensures Play(State(old(orders), old(keys), old(grants), tasks), steps) == Some(State(orders, keys, grants, tasks))
      ensures Invoice(invoice) in old(orders) && outcome != PendingOutcome ==>
                steps != [] && steps[0] == Find(t, Invoice(invoice), if outcome == FailedOutcome then FailedNotice
                                                else if !amountMatches then MismatchNotice else PaidNotice(key.provider, key.eventId))
      ensures Invoice(invoice) !in old(orders) ==> answer == Ignored && orders == old(orders)
      ensures orders.Keys == old(orders).Keys
      ensures forall other <- old(orders) | other != Invoice(invoice) :: orders[other] == old(orders)[other]
      // a grant happens exactly on a matching payment of a claimable invoice under a new key
      ensures grants == if Invoice(invoice) in old(orders) && outcome == PaidOutcome && amountMatches && !broken && key !in old(keys)
                           && old(orders)[Invoice(invoice)] in {Pending, Failed}
                        then old(grants) + [Grant(Invoice(invoice), key)] else old(grants)
      // a replay, and an event for a settled invoice, changes nothing but a refund
      ensures Invoice(invoice) in old(orders) && old(orders)[Invoice(invoice)] in {Paid, Refunded} ==>
                && grants == old(grants) && keys == old(keys)
                && orders[Invoice(invoice)] == if outcome == FailedOutcome && old(orders)[Invoice(invoice)] == Paid then Refunded
                                               else old(orders)[Invoice(invoice)]
      // a matching payment claims the invoice unless its grant throws, and then the old status is back
      ensures Invoice(invoice) in old(orders) && outcome == PaidOutcome && amountMatches ==>
                var found := old(orders)[Invoice(invoice)];
                var throws := !(key in old(keys) && entitled) && (key in old(keys) || broken);
                && answer == (if found !in {Pending, Failed} then Answered(found) else if throws then Threw else Answered(Paid))
                && orders[Invoice(invoice)] == if answer == Answered(Paid) then Paid else found
      // any other news fails a pending invoice
      ensures Invoice(invoice) in old(orders) && old(orders)[Invoice(invoice)] !in {Paid, Refunded} && !(outcome == PaidOutcome && amountMatches) ==>
                orders[Invoice(invoice)] == if outcome != PendingOutcome && old(orders)[Invoice(invoice)] == Pending then Failed
                                            else old(orders)[Invoice(invoice)]
      ensures Invoice(invoice) in old(orders) && !(outcome == PaidOutcome && amountMatches) ==>
                var found := old(orders)[Invoice(invoice)];
                answer == Answered(if outcome == PendingOutcome then found
                                   else if outcome == FailedOutcome && found == Paid then Refunded else Failed)
      ensures keys == if |grants| == |old(grants)| then old(keys) else old(keys) + {key}
    {
      var source := Invoice(invoice);
      ghost var before := State(orders, keys, grants, tasks);
      steps := [];
      if source !in orders { return Ignored, []; }
      var found := orders[source];
      assert orders[source := found] == orders;
      if outcome == PendingOutcome { return Answered(found), []; }
      if outcome == FailedOutcome {
        NoticePlays(before, t, source, FailedNotice);
        steps := [Find(t, source, FailedNotice), Act(t)];
        if found == Paid {
          orders := orders[source := Refunded];
          return Answered(Refunded), steps;
        }
        if found == Pending { orders := orders[source := Failed]; }
        return Answered(Failed), steps;
      }
      if !amountMatches {
        NoticePlays(before, t, source, MismatchNotice);
        steps := [Find(t, source, MismatchNotice), Act(t)];
        if found == Pending { orders := orders[source := Failed]; }
        return Answered(Failed), steps;
      }
      ghost var after;
      steps, after := PaymentPlays(before, t, source, PaidNotice(key.provider, key.eventId), entitled, broken);
      var claimed, threw := ClaimAndGrant(source, key, entitled, broken);
      answer := if !claimed then Answered(found) else if threw then Threw else Answered(Paid);
    }

    /** The owner approves a manual payment, with nothing in between. */
    method Approve(payment: Id, entitled: bool, broken: bool, ghost t: Id, ghost tasks: map<Id, Task>)
      returns (answer: Answer, ghost steps: seq<Event>)
      requires t !in tasks
      modifies this
      ensures Play(State(old(orders), old(keys), old(grants), tasks), steps) == Some(State(orders, keys, grants, tasks))
      ensures Payment(payment) in old(orders) ==> steps != [] && steps[0] == Find(t, Payment(payment), ApproveClick)
      ensures Payment(payment) !in old(orders) || old(orders)[Payment(payment)] !in {AwaitingPayment, Submitted} ==>
                answer == Threw && orders == old(orders) && keys == old(keys) && grants == old(grants)
      ensures Payment(payment) in old(orders) && old(orders)[Payment(payment)] in {AwaitingPayment, Submitted} ==>
                var seen := Wallet(payment) in old(keys);
                && (answer == Threw <==> !(seen && entitled) && (seen || broken))
                && (answer == Threw || answer == Answered(Approved))
                && orders == (if answer == Threw then old(orders) else old(orders)[Payment(payment) := Approved])
                && grants == if seen || broken then old(grants) else old(grants) + [Grant(Payment(payment), Wallet(payment))]
    {
      var source := Payment(payment);
      if source !in orders { return Threw, []; }
      ghost var after;
      steps, after := PaymentPlays(State(orders, keys, grants, tasks), t, source, ApproveClick, entitled, broken);
      var claimed, threw := ClaimAndGrant(source, Wallet(payment), entitled, broken);
      answer := if !claimed || threw then Threw else Answered(Approved);
    }

    /** The customer says the order is paid; `accepted` if the method is offered and the reference is long enough and new. */
    method Submit(payment: Id, accepted: bool, ghost t: Id, ghost tasks: map<Id, Task>)
      returns (answer: Answer, ghost steps: seq<Event>)
      requires t !in tasks
      modifies this`orders
      ensures Play(State(old(orders), keys, grants, tasks), steps) == Some(State(orders, keys, grants, tasks))
      ensures answer == (if Payment(payment) in old(orders) && old(orders)[Payment(payment)] == AwaitingPayment && accepted
                         then Answered(Submitted) else Threw)
      ensures orders == if answer == Threw then old(orders) else old(orders)[Payment(payment) := Submitted]
      ensures answer != Threw ==> steps != [] && steps[0] == Find(t, Payment(payment), SubmitClick)
    {
      var source := Payment(payment);
      if source !in orders || orders[source] != AwaitingPayment || !accepted { return Threw, []; }
      NoticePlays(State(orders, keys, grants, tasks), t, source, SubmitClick);
      orders := orders[source := Submitted];
      return Answered(Submitted), [Find(t, source, SubmitClick), Act(t)];
    }

    /** The customer cancels an order that is still open. */
    method Cancel(payment: Id, ghost t: Id, ghost tasks: map<Id, Task>) returns (answer: Answer, ghost steps: seq<Event>)
      requires t !in tasks
      modifies this`orders
      ensures Play(State(old(orders), keys, grants, tasks), steps) == Some(State(orders, keys, grants, tasks))
      ensures answer == (if Payment(payment) in old(orders) && old(orders)[Payment(payment)] in {AwaitingPayment, Submitted}
                         then Answered(Cancelled) else Threw)
      ensures orders == if answer == Threw then old(orders) else old(orders)[Payment(payment) := Cancelled]
      ensures answer != Threw ==> steps != [] && steps[0] == Find(t, Payment(payment), CancelClick)
    {
      var source := Payment(payment);
      if source !in orders || !Open(orders[source]) { return Threw, []; }
      NoticePlays(State(orders, keys, grants, tasks), t, source, CancelClick);
      orders := orders[source := Cancelled];
      return Answered(Cancelled), [Find(t, source, CancelClick), Act(t)];
    }

    /** The owner rejects one: one conditional update, one step, whatever it finds. */
    method Reject(payment: Id, ghost tasks: map<Id, Task>) returns (answer: Answer)
      modifies this`orders
      ensures Payment(payment) in old(orders) ==>
                State(orders, keys, grants, tasks) == Step(State(old(orders), keys, grants, tasks), RejectPayment(payment))
      ensures answer == (if Payment(payment) in old(orders) && old(orders)[Payment(payment)] in {AwaitingPayment, Submitted}
                         then Answered(Rejected) else Threw)
      ensures orders == if answer == Threw then old(orders) else old(orders)[Payment(payment) := Rejected]
    {
      var source := Payment(payment);
      if source !in orders || !Open(orders[source]) { return Threw; }
      orders := orders[source := Rejected];
      return Answered(Rejected);
    }
  }
}
