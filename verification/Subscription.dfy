/** One channel over every run: the subscription flags and the one-shot history waiter.

    Callbacks may re-enter the client. Raw listeners run before an event touches the channel, message and
    history callbacks after it has; so what they call appears in a run as events before or after it. */
module Subscription {
  import opened CStrings

  /** `waiter` identifies the registered history callback. */
  datatype Chan = Chan(subscribed: bool, subscribing: bool, waiter: Option<nat>)

  const FRESH := Chan(false, false, None)

  /** `connected`: the client is CONNECTED; `sent`: the frame is queued. */
  datatype Event =
    | Subscribe(connected: bool, sent: bool)
    | Unsubscribe(connected: bool, sent: bool)
    | GetHistory(connected: bool, sent: bool)
    | Arrives(event: string, query: bool)

  predicate SubscribeSends(c: Chan, e: Event) {
    e.Subscribe? && !c.subscribed && !c.subscribing && e.connected && e.sent
  }

  /** A history request registers its callback even when the frame cannot be sent. */
  predicate Registers(e: Event) { e.GetHistory? && e.connected }

  /** Event `e`, the `at`-th of the run. */
  function Step(c: Chan, e: Event, at: nat): Chan {
    match e
    case Subscribe(_, _) => if SubscribeSends(c, e) then c.(subscribing := true) else c
    case Unsubscribe(_, _) => c
    case GetHistory(_, _) => if Registers(e) then c.(waiter := Some(at)) else c
    case Arrives(event, query) =>
      if event == "subscribed" then c.(subscribed := true, subscribing := false)
      else if event == "unsubscribed" then c.(subscribed := false)
      else if event == "history" && query then c.(waiter := None)
      else c
  }

  /** The channel before the `k`-th event. */
  function Before(run: seq<Event>, k: nat): Chan
    requires k <= |run|
  {
    if k == 0 then FRESH else Step(Before(run, k - 1), run[k - 1], k - 1)
  }

  /** The registration that the `k`-th event delivers to. */
  function Delivers(run: seq<Event>, k: nat): Option<nat>
    requires k < |run|
  {
    if run[k] == Arrives("history", true) then Before(run, k).waiter else None
  }

  predicate Sends(run: seq<Event>, k: nat)
    requires k < |run|
  {
    SubscribeSends(Before(run, k), run[k])
  }

  // ---------------------------------------------------------------- subscription flags

  lemma {:induction false} NeverBoth(run: seq<Event>, k: nat)
    requires k <= |run|
    ensures !(Before(run, k).subscribed && Before(run, k).subscribing)
  {
    if k > 0 { NeverBoth(run, k - 1); }
  }

  predicate Says(run: seq<Event>, k: nat, event: string)
    requires k < |run|
  {
    run[k].Arrives? && run[k].event == event
  }

  /** A channel is subscribed exactly when the server's last word on it was "subscribed". */
  lemma {:induction false} SubscribedIff(run: seq<Event>, k: nat)
    requires k <= |run|
    ensures Before(run, k).subscribed <==>
            exists j :: 0 <= j < k && Says(run, j, "subscribed") &&
                        forall m :: j < m < k ==> !Says(run, m, "unsubscribed")
  {
    if k > 0 {
      SubscribedIff(run, k - 1);
      var joined, left := Says(run, k - 1, "subscribed"), Says(run, k - 1, "unsubscribed");
    }
  }

  /** It is subscribing exactly while a subscribe that was sent has not been answered by "subscribed". */
  lemma {:induction false} SubscribingIff(run: seq<Event>, k: nat)
    requires k <= |run|
    ensures Before(run, k).subscribing <==>
            exists j :: 0 <= j < k && Sends(run, j) && forall m :: j < m < k ==> !Says(run, m, "subscribed")
  {
    if k > 0 {
      SubscribingIff(run, k - 1);
      var sent, answered := Sends(run, k - 1), Says(run, k - 1, "subscribed");
    }
  }

  /** And a subscribe is sent exactly when it can be and the channel is neither. */
  lemma SendsIff(run: seq<Event>, k: nat)
    requires k < |run|
    ensures Sends(run, k) <==>
            run[k] == Subscribe(true, true) && !Before(run, k).subscribed && !Before(run, k).subscribing
  {
  }

  /** Only "subscribed" ends a pending subscribe. */
  lemma {:induction false} SubscribedBetween(run: seq<Event>, m: nat, j: nat) returns (k: nat)
    requires m <= j <= |run| && Before(run, m).subscribing && !Before(run, j).subscribing
    ensures m <= k < j && run[k].Arrives? && run[k].event == "subscribed" && Before(run, k + 1).subscribed
    decreases j
  {
    if Before(run, j - 1).subscribing {
      k := j - 1;
    } else {
      k := SubscribedBetween(run, m, j - 1);
    }
  }

  /** Only "unsubscribed" ends a subscription. */
  lemma {:induction false} UnsubscribedBetween(run: seq<Event>, m: nat, j: nat) returns (k: nat)
    requires m <= j <= |run| && Before(run, m).subscribed && !Before(run, j).subscribed
    ensures m <= k < j && run[k].Arrives? && run[k].event == "unsubscribed"
    decreases j
  {
    if Before(run, j - 1).subscribed {
      k := j - 1;
    } else {
      k := UnsubscribedBetween(run, m, j - 1);
    }
  }

  /** Between two subscribes that are sent, the server says "subscribed" and, later, "unsubscribed". */
  lemma SendsAreSeparated(run: seq<Event>, i: nat, j: nat) returns (k: nat, l: nat)
    requires i < j < |run| && Sends(run, i) && Sends(run, j)
    ensures i < k < l < j
    ensures run[k].Arrives? && run[k].event == "subscribed" && run[l].Arrives? && run[l].event == "unsubscribed"
  {
    k := SubscribedBetween(run, i + 1, j);
    l := UnsubscribedBetween(run, k + 1, j);
  }

  // ---------------------------------------------------------------- the history waiter

  /** The waiter is the latest registration so far, and nothing has been delivered since. */
  lemma {:induction false} WaiterIsLatest(run: seq<Event>, k: nat)
    requires k <= |run|
    ensures var w := Before(run, k).waiter;
            w.Some? ==> w.value < k && Registers(run[w.value]) &&
                        forall m :: w.value < m < k ==> !Registers(run[m]) && Delivers(run, m).None?
  {
    if k > 0 { WaiterIsLatest(run, k - 1); }
  }

  /** A delivery goes to the latest registration, and only on a history event with query true. */
  lemma DeliversToLatest(run: seq<Event>, k: nat)
    requires k < |run| && Delivers(run, k).Some?
    ensures run[k] == Arrives("history", true)
    ensures var w := Delivers(run, k).value;
            w < k && Registers(run[w]) && forall m :: w < m < k ==> !Registers(run[m]) && Delivers(run, m).None?
  {
    WaiterIsLatest(run, k);
  }

  /** Each registration is delivered to at most once, on every run and whatever callbacks do. */
  lemma DeliversOnce(run: seq<Event>, j: nat, k: nat)
    requires j < k < |run| && Delivers(run, j).Some? && Delivers(run, k).Some?
    ensures Delivers(run, j) != Delivers(run, k)
  {
    DeliversToLatest(run, j);
    DeliversToLatest(run, k);
  }

  /** A registration stays until the next query answer or the next registration: snapshots, flags and
      any other event leave it alone. So the first answer after it is its own. */
  lemma {:induction false} WaiterStays(run: seq<Event>, i: nat, k: nat)
    requires i < k <= |run| && Registers(run[i])
    requires forall m :: i < m < k ==> !Registers(run[m]) && run[m] != Arrives("history", true)
    ensures Before(run, k).waiter == Some(i)
    decreases k
  {
    if i + 1 < k { WaiterStays(run, i, k - 1); }
  }

  lemma FirstAnswerIsDelivered(run: seq<Event>, i: nat, k: nat)
    requires i < k < |run| && Registers(run[i]) && run[k] == Arrives("history", true)
    requires forall m :: i < m < k ==> !Registers(run[m]) && run[m] != Arrives("history", true)
    ensures Delivers(run, k) == Some(i)
  {
    WaiterStays(run, i, k);
  }
}
