/** A received event message, all the way: out of the frame, to the channel it names, to the callback. */
module Receive {
  import opened CStrings
  import opened StringScan
  import opened JsonText
  import opened JsonTable
  import opened Dispatch
  import opened Connection
  import EventFrame
  import Registry
  import Publish
  import RawValue
  import S = Subscription

  // ---------------------------------------------------------------- all channels as a value

  datatype ChannelState = ChannelState(name: string, chan: S.Chan, callbacks: Callbacks)

  function StateOf(c: Channel): ChannelState
    reads c
  {
    ChannelState(c.name, c.Abs(), c.Registered())
  }

  ghost function States(table: Registry.Client): (r: seq<ChannelState>)
    requires table.Valid()
    reads table, table.channels, table.Channels()
    ensures |r| == table.channelCount && forall i :: 0 <= i < |r| ==> r[i] == StateOf(table.channels[i])
  {
    var cs := table.Channels();
    seq(|cs|, i requires 0 <= i < |cs| reads cs => StateOf(cs[i]))
  }

  predicate IsFor(c: ChannelState, payload: Option<string>) {
    payload.Some? && ChannelOf(payload.value) == Some(c.name)
  }

  /** What becomes of one channel: it takes the event if the payload names it. */
  function AfterArrival(c: ChannelState, event: string, payload: Option<string>): ChannelState {
    if !IsFor(c, payload) then c
    else
      var chan := S.Step(c.chan, S.Arrives(event, IsQuery(payload.value)), 0);
      c.(chan := chan, callbacks := c.callbacks.(history := chan.waiter))
  }

  function AfterEvent(cs: seq<ChannelState>, event: string, payload: Option<string>): seq<ChannelState> {
    seq(|cs|, i requires 0 <= i < |cs| => AfterArrival(cs[i], event, payload))
  }

  /** What the event delivers: an error to the error callback, anything else to its channel. */
  function Delivery(cs: seq<ChannelState>, event: string, payload: Option<string>): Dispatch.Delivery {
    if payload.None? then Nothing
    else if event == "error" then Failure(ErrorOf(payload.value))
    else if cs == [] then Nothing
    else if IsFor(cs[0], payload) then Delivers(cs[0].callbacks, event, payload.value)
    else Delivery(cs[1..], event, payload)
  }

  /** In the words of the fields: only a channel that the payload names changes; it takes the server's word
      on its flags, and gives up its waiter to a flagged history event. */
  lemma ArrivalChanges(c: ChannelState, event: string, payload: Option<string>)
    ensures var d := AfterArrival(c, event, payload);
            var named := payload.Some? && ChannelOf(payload.value) == Some(c.name);
            if !named then d == c
            else
              var flag := Lookup(Parse(payload.value), "query");
              var answered := event == "history" && (flag == Some("true") || flag == Some("1"));
              d.name == c.name &&
              d.chan.subscribed == (event == "subscribed" || (c.chan.subscribed && event != "unsubscribed")) &&
              d.chan.subscribing == (c.chan.subscribing && event != "subscribed") &&
              d.chan.waiter == (if answered then None else c.chan.waiter) &&
              d.callbacks == c.callbacks.(history := d.chan.waiter)
  {
    assert "history"[0] == 'h' && "subscribed"[0] == 's' && "unsubscribed"[0] == 'u';
  }

  lemma {:induction false} DeliveryIs(cs: seq<ChannelState>, i: nat, event: string, payload: string)
    requires i < |cs| && IsFor(cs[i], Some(payload)) && event != "error"
    requires forall k :: 0 <= k < i ==> !IsFor(cs[k], Some(payload))
    ensures Delivery(cs, event, Some(payload)) == Delivers(cs[i].callbacks, event, payload)
    decreases i
  {
    if i > 0 { DeliveryIs(cs[1..], i - 1, event, payload); }
  }

  lemma {:induction false} NobodyIsThere(cs: seq<ChannelState>, event: string, payload: string)
    requires forall k :: 0 <= k < |cs| ==> !IsFor(cs[k], Some(payload))
    ensures AfterEvent(cs, event, Some(payload)) == cs
    ensures event != "error" ==> Delivery(cs, event, Some(payload)) == Nothing
  {
    if cs != [] { NobodyIsThere(cs[1..], event, payload); }
  }

  // ---------------------------------------------------------------- the methods

  /** `dispatch_socketio_event` after the raw listeners: find the channel, if there is one, and hand it
      the event. */
  method DispatchEvent(table: Registry.Client, event: string, payload: Option<string>, grants: nat -> bool)
    returns (delivery: Dispatch.Delivery)
    requires table.Valid()
    modifies table.Channels()
    ensures table.Valid() && table.Channels() == old(table.Channels())
    ensures States(table) == AfterEvent(old(States(table)), event, payload)
    ensures Curtails(delivery, Delivery(old(States(table)), event, payload))
    ensures Plenty(grants) ==> delivery == Delivery(old(States(table)), event, payload)
    ensures event == "error" && payload.Some? ==> delivery == Failure(ErrorOf(payload.value))
  {
    if payload.None? { return Nothing; }
    delivery := ToChannel(table, event, payload.value, grants);
    if event == "error" {
      var text := ExtractError(payload.value);
      delivery := Failure(text);
    }
    hide AfterEvent, Delivers, ChannelOf, ErrorOf, StateOf;
  }

  /** To the channel, if there is one. */
  method ToChannel(table: Registry.Client, event: string, payload: string, grants: nat -> bool)
    returns (delivery: Dispatch.Delivery)
    requires table.Valid()
    modifies table.Channels()
    ensures table.Valid() && table.Channels() == old(table.Channels())
    ensures States(table) == AfterEvent(old(States(table)), event, Some(payload))
    ensures event != "error" ==> Curtails(delivery, Delivery(old(States(table)), event, Some(payload)))
    ensures event != "error" && Plenty(grants) ==> delivery == Delivery(old(States(table)), event, Some(payload))
  {
    hide AfterEvent, Delivers, ChannelOf, ErrorOf, Delivery, StateOf;
    ghost var before := States(table);
    var channel := FindNamed(table, payload);
    if channel != null {
      delivery := DispatchTo(table, channel, event, payload, grants);
    } else {
      delivery := Nothing;
      NobodyIsThere(before, event, payload);
    }
  }

  method FindNamed(table: Registry.Client, payload: string) returns (channel: Channel?)
    requires table.Valid()
    ensures channel != null ==> channel in table.Channels() && ChannelOf(payload) == Some(channel.name)
    ensures channel == null ==> forall k :: 0 <= k < |States(table)| ==> !IsFor(States(table)[k], Some(payload))
    ensures States(table) == old(States(table))
  {
    var pj := new JsonObject(payload);
    var name := pj.GetString("channel");
    if name.None? { return null; }
    channel := table.Find(name.value);
    assert channel == null ==> forall k :: 0 <= k < table.channelCount ==> table.Names()[k] != name.value;
  }

  method DispatchTo(table: Registry.Client, channel: Channel, event: string, payload: string, grants: nat -> bool)
    returns (delivery: Dispatch.Delivery)
    requires table.Valid() && channel in table.Channels() && ChannelOf(payload) == Some(channel.name)
    modifies channel
    ensures table.Valid() && table.Channels() == old(table.Channels())
    ensures States(table) == AfterEvent(old(States(table)), event, Some(payload))
    ensures event != "error" ==> Curtails(delivery, Delivery(old(States(table)), event, Some(payload)))
    ensures event != "error" && Plenty(grants) ==> delivery == Delivery(old(States(table)), event, Some(payload))
  {
    hide Delivers, Curtails, ChannelOf, IsQuery, AfterArrival, StateOf;
    ghost var before := States(table);
    ghost var i: nat :| i < table.channelCount && table.channels[i] == channel;
    OnlyOne(table, i, payload);
    if event != "error" { DeliveryIs(before, i, event, payload); }
    delivery := ToOne(channel, event, payload, grants);
    assert forall k :: 0 <= k < |before| && k != i ==> table.channels[k] != channel;
    assert forall k :: 0 <= k < |before| && k != i ==> AfterArrival(before[k], event, Some(payload)) == before[k] by {
      OthersStay(before, i, event, payload);
    }
  }

  method ToOne(channel: Channel, event: string, payload: string, grants: nat -> bool) returns (delivery: Dispatch.Delivery)
    requires ChannelOf(payload) == Some(channel.name)
    modifies channel
    ensures StateOf(channel) == AfterArrival(old(StateOf(channel)), event, Some(payload))
    ensures Curtails(delivery, Delivers(old(StateOf(channel)).callbacks, event, payload))
    ensures Plenty(grants) ==> delivery == Delivers(old(StateOf(channel)).callbacks, event, payload)
  {
    delivery := channel.OnEvent(event, payload, grants, 0);
    hide Delivers, Curtails, ChannelOf, IsQuery, Lookup, Parse, S.Step;
  }

  lemma OthersStay(before: seq<ChannelState>, i: nat, event: string, payload: string)
    requires forall k :: 0 <= k < |before| ==> (IsFor(before[k], Some(payload)) <==> k == i)
    ensures forall k :: 0 <= k < |before| && k != i ==> AfterArrival(before[k], event, Some(payload)) == before[k]
  {
  }

  /** Names are distinct, so the channel a payload names is the only one. */
  lemma OnlyOne(table: Registry.Client, i: nat, payload: string)
    requires table.Valid() && i < table.channelCount && ChannelOf(payload) == Some(table.channels[i].name)
    ensures forall k :: 0 <= k < table.channelCount ==> (IsFor(States(table)[k], Some(payload)) <==> k == i)
  {
  }

  /** The `42` branch of `on_websocket_message`, on the copy of the message that the RECEIVE callback made. */
  method OnEventMessage(table: Registry.Client, message: string, grants: nat -> bool)
    returns (delivery: Dispatch.Delivery)
    requires table.Valid() && Classify(message) == EventPacket && '\0' !in message
    modifies table.Channels()
    ensures table.Valid() && table.Channels() == old(table.Channels())
    ensures match EventFrame.ParseFrame(message)
            case None => delivery == Nothing && States(table) == old(States(table))
            case Some(Event(event, payload)) =>
              States(table) == AfterEvent(old(States(table)), event, payload) &&
              Curtails(delivery, Delivery(old(States(table)), event, payload)) &&
              (Plenty(grants) ==> delivery == Delivery(old(States(table)), event, payload))
  {
    var parsed := Deframe(message);
    if parsed.None? { return Nothing; }
    delivery := DispatchEvent(table, parsed.value.name, parsed.value.payload, grants);
  }

  method Deframe(message: string) returns (r: Option<EventFrame.Event>)
    requires '\0' !in message
    ensures r == EventFrame.ParseFrame(message)
  {
    var buf := new char[|message| + 1];
    RawValue.CopyOut(message, buf);
    var eventOut := new char[EventFrame.EVENT_SIZE];
    var ok, at := EventFrame.ParseEventFrame(buf, message, eventOut);
    if !ok { return None; }
    var event := eventOut[..|EventFrame.Header(message).value.0|];
    return Some(EventFrame.Event(event, if at.Some? then Some(CText(buf[at.value..])) else None));
  }

  // ---------------------------------------------------------------- from publish to callback

  /** A server that relays what is published: the body that one client publishes on a channel reaches the
      message callback of another, byte for byte exactly if it is one that can be delivered. */
  method Relay(table: Registry.Client, channel: Channel, message: string, lead: string, v: Json, trail: string,
               options: Option<Publish.Options>, grants: nat -> bool) returns (delivery: Dispatch.Delivery)
    requires table.Valid() && channel in table.Channels() && channel.messageCallback.Some?
    requires Plain(channel.name) && |channel.name| < 128 && channel.name != "message" && Publish.Publishes(message, lead, v, trail)
    requires Publish.InBounds(channel.name, options) && Publish.FitsSlack(channel.name, message, options)
    requires |message| <= MAX_MESSAGE_SIZE && Plenty(grants) && '\0' !in Publish.Payload(channel.name, message, options)
    modifies table.Channels()
    ensures delivery.Message? && Some(delivery.callback) == old(channel.messageCallback)
    ensures delivery.body == Print(v) <==> Publish.Delivered(v)
  {
    var built := Publish.BuildPayload(channel.name, message, options);
    var frame := EventFrame.BuildFrame("message", Some(built.payload));
    Publish.PublishedBodyArrives(channel.name, message, lead, v, trail, options);
    RelayedFrame(built.payload);
    ReachesItsChannel(table, channel, "message", built.payload);
    MessageIsDelivered(channel.Registered(), built.payload);
    hide *;
    delivery := OnEventMessage(table, frame, grants);
  }

  /** Every event but "error" is delivered to the one channel that its payload names. */
  lemma ReachesItsChannel(table: Registry.Client, channel: Channel, event: string, payload: string)
    requires table.Valid() && channel in table.Channels() && event != "error"
    requires ChannelOf(payload) == Some(channel.name)
    ensures Delivery(States(table), event, Some(payload)) == Delivers(channel.Registered(), event, payload)
  {
    var i: nat :| i < table.channelCount && table.channels[i] == channel;
    OnlyOne(table, i, payload);
    DeliveryIs(States(table), i, event, payload);
  }

  lemma MessageIsDelivered(cbs: Callbacks, payload: string)
    requires cbs.message.Some?
    ensures Delivers(cbs, "message", payload) == Message(cbs.message.value, BodyOf(payload)) && "message" != "error"
  {
    assert "message"[0] == 'm' && "error"[0] == 'e';
  }

  lemma RelayedFrame(payload: string)
    requires '\0' !in payload
    ensures var f := EventFrame.Frame("message", Some(payload)); '\0' !in f && Classify(f) == EventPacket
  {
  }
}
