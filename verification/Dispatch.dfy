/** `dispatch_socketio_event` and the channel calls on the channel object itself: from the text of an
    event to the flags it changes and the callback it reaches. */
module Dispatch {
  import opened CStrings
  import opened JsonTable
  import RawValue
  import SplitArray
  import S = Subscription

  const MAX_MESSAGE_SIZE := 32768
  const SUCCESS := 0
  const ERROR_NOT_CONNECTED := -8
  const ERROR_ALREADY_SUBSCRIBED := -10
  const ERROR_NOT_SUBSCRIBED := -11
  const ERROR_WEBSOCKET_ERROR := -12

  /** The callback an event reaches, with what it is handed. */
  datatype Delivery =
    | Nothing
    | Message(callback: nat, body: string)
    | Presence(callback: nat, occupancy: string)
    | History(waiter: nat, items: SplitArray.Outcome)
    | Failure(text: string)

  /** The name of the channel a payload is for. */
  function ChannelOf(payload: string): Option<string> { Lookup(Parse(payload), "channel") }

  /** The published body, or the whole envelope where it cannot be isolated. */
  function BodyOf(payload: string): string {
    var body := RawValue.RawValueOf(payload, "message", MAX_MESSAGE_SIZE);
    if body.Some? then body.value else Take(payload, MAX_MESSAGE_SIZE - 1)
  }

  function OccupancyOf(payload: string): string {
    var occupancy := RawValue.RawValueOf(payload, "occupancy", 32);
    if occupancy.Some? then occupancy.value else "0"
  }

  function ItemsOf(payload: string): SplitArray.Outcome {
    var arr := RawValue.RawValueOf(payload, "messages", MAX_MESSAGE_SIZE);
    if arr.Some? then SplitArray.Split(arr.value) else SplitArray.Items([])
  }

  /** Whether a history event answers a request (rather than being the snapshot sent on joining). */
  function IsQuery(payload: string): bool { GetBool(Parse(payload), "query", false) }

  /** The text of an "error" event. */
  function ErrorOf(payload: string): string {
    var text := RawValue.RawValueOf(payload, "message", 256);
    if text.Some? then text.value else "worker error"
  }

  datatype Callbacks = Callbacks(message: Option<nat>, presence: Option<nat>, history: Option<nat>)

  const NO_CALLBACKS := Callbacks(None, None, None)

  /** What an event for a channel with these callbacks delivers. */
  function Delivers(cbs: Callbacks, event: string, payload: string): Delivery {
    if event == "message" && cbs.message.Some? then Message(cbs.message.value, BodyOf(payload))
    else if event == "presence" && cbs.presence.Some? then Presence(cbs.presence.value, OccupancyOf(payload))
    else if event == "history" && IsQuery(payload) && cbs.history.Some? then History(cbs.history.value, ItemsOf(payload))
    else Nothing
  }

  /** The flag, in words of the table: a history event answers exactly if "query" reads "true" or "1".
      One without the member, or with any other value, is a snapshot and reaches nobody. */
  lemma QueryDecides(cbs: Callbacks, payload: string)
    ensures var flag := Lookup(Parse(payload), "query");
            Delivers(cbs, "history", payload) ==
            if (flag == Some("true") || flag == Some("1")) && cbs.history.Some?
            then History(cbs.history.value, ItemsOf(payload)) else Nothing
  {
    var message := "message";
    assert message[0] == 'm' && "presence"[0] == 'p' && "history"[0] == 'h';
  }

  ghost predicate Plenty(grants: nat -> bool) { forall k: nat :: grants(k) }

  /** What is left of it when memory runs out: a message may be lost, a waiter is always called, with
      the front of its list. */
  predicate Curtails(d: Delivery, full: Delivery) {
    match full
    case Message(_, _) => d == full || d == Nothing
    case History(waiter, items) =>
      d.History? && d.waiter == waiter && (items.Items? ==> d.items.Items? && d.items.items <= items.items)
    case _ => d == full
  }

  class Channel {
    const name: string
    var subscribed: bool
    var subscribing: bool
    var messageCallback: Option<nat>
    var presenceCallback: Option<nat>
    var historyCallback: Option<nat>

    constructor (name: string)
      ensures this.name == name && Abs() == S.FRESH && Registered() == NO_CALLBACKS
    {
      this.name := name;
      subscribed, subscribing := false, false;
      messageCallback, presenceCallback, historyCallback := None, None, None;
    }

    function Abs(): S.Chan
      reads this
    {
      S.Chan(subscribed, subscribing, historyCallback)
    }

    function Registered(): Callbacks
      reads this
    {
      Callbacks(messageCallback, presenceCallback, historyCallback)
    }

    /** `oddsockets_channel_subscribe`; `connected` and `sent` as the connection decides. */
    method Subscribe(callback: nat, connected: bool, sent: bool, ghost at: nat) returns (result: int)
      modifies this
      ensures Abs() == S.Step(old(Abs()), S.Subscribe(connected, sent), at)
      ensures result == SUCCESS <==> S.SubscribeSends(old(Abs()), S.Subscribe(connected, sent))
      ensures result == if old(subscribed) || old(subscribing) then ERROR_ALREADY_SUBSCRIBED
                        else if !connected then ERROR_NOT_CONNECTED
                        else if !sent then ERROR_WEBSOCKET_ERROR else SUCCESS
      ensures subscribed == old(subscribed) && subscribing == (old(subscribing) || result == SUCCESS)
      ensures presenceCallback == old(presenceCallback) && historyCallback == old(historyCallback)
      ensures messageCallback == if result == SUCCESS || result == ERROR_WEBSOCKET_ERROR then Some(callback)
                                 else old(messageCallback)
    {
      if subscribed || subscribing { return ERROR_ALREADY_SUBSCRIBED; }
      if !connected { return ERROR_NOT_CONNECTED; }
      messageCallback := Some(callback);
      subscribing := true;
      if !sent {
        subscribing := false;
        return ERROR_WEBSOCKET_ERROR;
      }
      return SUCCESS;
    }

    /** `oddsockets_channel_unsubscribe`: only the server's answer changes the flag. */
    method Unsubscribe(connected: bool, sent: bool, ghost at: nat) returns (result: int)
      ensures Abs() == S.Step(Abs(), S.Unsubscribe(connected, sent), at)
      ensures result == (if !subscribed then ERROR_NOT_SUBSCRIBED else if !connected then ERROR_NOT_CONNECTED
                         else if !sent then ERROR_WEBSOCKET_ERROR else SUCCESS)
    {
      if !subscribed { return ERROR_NOT_SUBSCRIBED; }
      if !connected { return ERROR_NOT_CONNECTED; }
      if !sent { return ERROR_WEBSOCKET_ERROR; }
      return SUCCESS;
    }

    /** `oddsockets_channel_get_history`, registering the callback `at`. */
    method GetHistory(at: nat, connected: bool, sent: bool) returns (result: int)
      modifies this`historyCallback
      ensures Abs() == S.Step(old(Abs()), S.GetHistory(connected, sent), at)
      ensures historyCallback == if connected then Some(at) else old(historyCallback)
      ensures result == if !connected then ERROR_NOT_CONNECTED
                        else if !sent then ERROR_WEBSOCKET_ERROR else SUCCESS
    {
      if !connected { return ERROR_NOT_CONNECTED; }
      historyCallback := Some(at);
      if !sent { return ERROR_WEBSOCKET_ERROR; }
      return SUCCESS;
    }

    /** `oddsockets_channel_get_presence` */
    method GetPresence(callback: nat, connected: bool, sent: bool) returns (result: int)
      modifies this`presenceCallback
      ensures presenceCallback == if connected then Some(callback) else old(presenceCallback)
      ensures result == if !connected then ERROR_NOT_CONNECTED
                        else if !sent then ERROR_WEBSOCKET_ERROR else SUCCESS
    {
      if !connected { return ERROR_NOT_CONNECTED; }
      presenceCallback := Some(callback);
      if !sent { return ERROR_WEBSOCKET_ERROR; }
      return SUCCESS;
    }

    /** The part of `dispatch_socketio_event` for the channel the payload names. `grants(k)` says whether
        its k-th request for memory succeeds. */
    method OnEvent(event: string, payload: string, grants: nat -> bool, ghost at: nat) returns (delivery: Delivery)
      requires ChannelOf(payload) == Some(name)
      modifies this`subscribed, this`subscribing, this`historyCallback
      ensures Abs() == S.Step(old(Abs()), S.Arrives(event, IsQuery(payload)), at)
      ensures Plenty(grants) ==> delivery == Delivers(old(Registered()), event, payload)
      ensures Curtails(delivery, Delivers(old(Registered()), event, payload))
      // the flags follow the server's word
      ensures subscribed == (event == "subscribed" || (old(subscribed) && event != "unsubscribed"))
      ensures subscribing == (old(subscribing) && event != "subscribed")
      // a history event without a true flag is ignored; one with it is for the waiter, once
      ensures var flag := Lookup(Parse(payload), "query");
              var answers := event == "history" && (flag == Some("true") || flag == Some("1"));
              historyCallback == (if answers then None else old(historyCallback)) &&
              (delivery.History? <==> answers && old(historyCallback).Some?) &&
              (delivery.History? ==> Some(delivery.waiter) == old(historyCallback))
      // messages and presence reach their own callbacks, everything else none
      ensures delivery.Message? ==> event == "message" && Some(delivery.callback) == messageCallback
      ensures delivery.Message? <==> event == "message" && messageCallback.Some? && grants(0)
      ensures delivery.History? && !grants(0) ==> delivery.items == SplitArray.Items([])
      ensures delivery.Presence? <==> event == "presence" && presenceCallback.Some?
      ensures delivery.Presence? ==> Some(delivery.callback) == presenceCallback
      ensures !delivery.Failure?
    {
      delivery := Nothing;
      if event == "message" && messageCallback.Some? {
        if grants(0) {
          var body := ExtractBody(payload);
          delivery := Message(messageCallback.value, body);
        }
      } else if event == "subscribed" {
        subscribed := true;
        subscribing := false;
      } else if event == "unsubscribed" {
        subscribed := false;
      } else if event == "published" {
      } else if event == "presence" && presenceCallback.Some? {
        var occupancy := ExtractOccupancy(payload);
        delivery := Presence(presenceCallback.value, occupancy);
      } else if event == "history" && historyCallback.Some? {
        var pj := new JsonObject(payload);
        var query := pj.GetBoolean("query", false);
        if query {
          var waiter := historyCallback.value;
          historyCallback := None;
          var items := ExtractItems(payload, grants);
          delivery := History(waiter, items);
        }
      }
    }
  }

  /** Through a 256-byte buffer that starts out as "worker error". */
  method ExtractError(payload: string) returns (text: string)
    ensures text == ErrorOf(payload)
  {
    var buf := new char[256];
    RawValue.CopyOut("worker error", buf);
    var ok := RawValue.ExtractRawValue(payload, "message", buf);
    text := buf[..|ErrorOf(payload)|];
  }

  /** Through a 32-byte buffer that starts out as "0". */
  method ExtractOccupancy(payload: string) returns (occupancy: string)
    ensures occupancy == OccupancyOf(payload)
  {
    var buf := new char[32];
    buf[0], buf[1] := '0', '\0';
    var ok := RawValue.ExtractRawValue(payload, "occupancy", buf);
    occupancy := buf[..|OccupancyOf(payload)|];
  }

  /** Extracted into a buffer, then split. Without memory for the buffer there are no items. */
  method ExtractItems(payload: string, grants: nat -> bool) returns (items: SplitArray.Outcome)
    ensures Plenty(grants) ==> items == ItemsOf(payload)
    ensures ItemsOf(payload).Items? ==> items.Items? && items.items <= ItemsOf(payload).items
    ensures !grants(0) ==> items == SplitArray.Items([])
  {
    if !grants(0) { return SplitArray.Items([]); }
    var buf := new char[MAX_MESSAGE_SIZE];
    var ok := RawValue.ExtractRawValue(payload, "messages", buf);
    if !ok { return SplitArray.Items([]); }
    var arr := buf[..|RawValue.RawValueOf(payload, "messages", MAX_MESSAGE_SIZE).value|];
    var starved;
    items, starved := SplitArray.SplitJsonArray(arr, k requires k >= 0 => grants(k + 1));
  }

  /** Through the 32768-byte body buffer. */
  method ExtractBody(payload: string) returns (body: string)
    ensures body == BodyOf(payload)
  {
    var buf := new char[MAX_MESSAGE_SIZE];
    var ok := RawValue.ExtractRawValue(payload, "message", buf);
    if !ok {
      RawValue.CopyOut(payload, buf);
    }
    body := buf[..|BodyOf(payload)|];
  }

  // ---------------------------------------------------------------- when an event hangs the client

  /** The value of "messages" is an array in which a closing brace comes at depth 0 outside strings:
      before the end the extractor finds, and inside its buffer. */
  predicate StrayInMessages(payload: string) {
    var start := RawValue.ValueStart(payload, "messages");
    start.Some? && At(payload, start.value, '[') &&
    var stray := SplitArray.StrayAt(payload, start.value + 1, 0, false);
    stray.Some? && stray.value < RawValue.ValueEnd(payload, start.value) &&
    stray.value < start.value + MAX_MESSAGE_SIZE - 1
  }

  lemma ItemsSpinIff(payload: string)
    ensures ItemsOf(payload).Spins? <==> StrayInMessages(payload)
  {
    hide ItemsOf, SplitArray.Split, SplitArray.StrayAt, RawValue.ValueEnd, RawValue.ValueStart, SkipBlank;
    var start := RawValue.ValueStart(payload, "messages");
    if start.Some? {
      var b := MessagesAre(payload, start.value);
      SliceSpinsIff(payload, start.value, b);
    } else {
      NoValueNoItems(payload);
    }
  }

  lemma NoValueNoItems(payload: string)
    requires RawValue.ValueStart(payload, "messages").None?
    ensures ItemsOf(payload) == SplitArray.Items([])
  {
  }

  lemma SliceSpinsIff(payload: string, p: nat, b: nat)
    requires p <= b <= |payload| && (At(payload, p, '[') ==> p < b) && SkipBlank(Json, payload[p..b], 0) == 0
    ensures SplitArray.Split(payload[p..b]).Spins? <==>
            At(payload, p, '[') &&
            var stray := SplitArray.StrayAt(payload, p + 1, 0, false); stray.Some? && stray.value < b
  {
    SplitArray.HangsExactlyOnStrayBrace(payload[p..b]);
    if At(payload, p, '[') { SplitArray.StrayInPart(payload[p..b], payload, p, 1, 0, false); }
    hide SplitArray.Split, SplitArray.StrayAt, SkipBlank;
  }

  /** What is split: from the start of the value to its end, or as much as the buffer holds. */
  lemma MessagesAre(payload: string, p: nat) returns (b: nat)
    requires RawValue.ValueStart(payload, "messages") == Some(p)
    ensures p <= b <= |payload| && (At(payload, p, '[') ==> p < b)
    ensures var q := RawValue.ValueEnd(payload, p);
            b == if q - p <= MAX_MESSAGE_SIZE - 1 then q else p + MAX_MESSAGE_SIZE - 1
    ensures ItemsOf(payload) == SplitArray.Split(payload[p..b]) && SkipBlank(Json, payload[p..b], 0) == 0
  {
    var q := RawValue.ValueEnd(payload, p);
    b := if q - p <= MAX_MESSAGE_SIZE - 1 then q else p + MAX_MESSAGE_SIZE - 1;
    RawValue.RawValueFrom(payload, "messages", p, MAX_MESSAGE_SIZE);
    assert Take(payload[p..q], MAX_MESSAGE_SIZE - 1) == payload[p..b];
    ValueIsNotBlank(payload, "messages");
    hide SplitArray.Split, RawValue.RawValueOf, RawValue.ValueStart;
  }

  lemma ValueIsNotBlank(payload: string, key: string)
    requires RawValue.ValueStart(payload, key).Some?
    ensures !AtBlank(Json, payload, RawValue.ValueStart(payload, key).value)
  {
  }

  /** An event never returns exactly when it is the answer to a pending history request and its list
      has a stray brace. */
  lemma EventHangsIff(cbs: Callbacks, event: string, payload: string)
    ensures var d := Delivers(cbs, event, payload);
            d.History? && d.items.Spins? <==>
            event == "history" && cbs.history.Some? && IsQuery(payload) && StrayInMessages(payload)
  {
    ItemsSpinIff(payload);
  }

  /** Such a list is easily written. */
  lemma StrayBraceHangs(payload: string, i: nat)
    requires RawValue.FirstMention(payload, "messages", i) && Occurs(payload, i + 10, ":[}]")
    ensures ItemsOf(payload) == SplitArray.Spins
  {
    var p := i + 10;
    assert ":[}]" == "" + ":" + "" + "[}]" && |"messages"| == 8;
    assert payload[p] == ":[}]"[0] && payload[p + 1] == ":[}]"[1] && payload[p + 2] == ":[}]"[2];
    assert Occurs(payload, p, "" + ":" + "");
    RawValue.StartsAfterColon(payload, "messages", i, "", "");
    assert SplitArray.StrayAt(payload, p + 2, 0, false) == Some(p + 2);
    ItemsSpinIff(payload);
  }
}
