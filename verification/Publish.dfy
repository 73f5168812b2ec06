/** The whole way of a message: published, framed, deframed, dispatched, and handed to the callback.
    And the way of a history answer to its waiter. */
module Publish {
  import opened CStrings
  import opened StringScan
  import opened JsonText
  import opened JsonTable
  import opened Flatten
  import opened RawValue
  import opened Dispatch
  import SplitArray
  import EventFrame

  datatype Options = Options(ttlSeconds: int, storeInHistory: bool, metadata: Option<string>)

  function BoolText(b: bool): string { if b then "true" else "false" }

  /** A message that starts with a bracket after spaces and tabs is embedded as it is. */
  predicate IsRaw(message: string)
    decreases |message|
  {
    if message != "" && (message[0] == ' ' || message[0] == '\t') then IsRaw(message[1..])
    else At(message, 0, '{') || At(message, 0, '[')
  }

  function MessageText(message: string): string { if IsRaw(message) then message else Quote(message) }

  function OptionsText(options: Option<Options>): string {
    match options
    case None => ""
    case Some(Options(ttl, store, metadata)) =>
      if metadata.Some? then
        ",\"options\":{\"ttl\":" + DecInt(ttl) + ",\"storeInHistory\":" + BoolText(store) +
        ",\"metadata\":\"" + metadata.value + "\"}"
      else ",\"options\":{\"ttl\":" + DecInt(ttl) + ",\"storeInHistory\":" + BoolText(store) + "}"
  }

  function Head(name: string): string { "{" + (Quote("channel") + ":" + Quote(name)) + "," + (Quote("message") + ":") }

  function Payload(name: string, message: string, options: Option<Options>): string {
    Head(name) + MessageText(message) + OptionsText(options) + "}"
  }

  const SLACK := 768

  /** A channel has a short name, and the time to live is a 32-bit number. */
  predicate InBounds(name: string, options: Option<Options>) {
    |name| < 128 && (options.Some? ==> -0x8000_0000 <= options.value.ttlSeconds < 0x8000_0000)
  }

  /** The slack is enough without metadata. With it, the name, the number, the flag, the metadata and the
      quotes of a text body share 691 bytes. */
  predicate FitsSlack(name: string, message: string, options: Option<Options>) {
    match options
    case None => true
    case Some(Options(ttl, store, metadata)) =>
      metadata.None? ||
      |name| + |DecInt(ttl)| + |BoolText(store)| + |metadata.value| + (if IsRaw(message) then 0 else 2) <= 691
  }

  datatype Built = TooLarge | Built(payload: string)

  /** `oddsockets_channel_publish` up to the send: the size check, and four `snprintf` calls into one
      buffer, none of which truncates. */
  method BuildPayload(name: string, message: string, options: Option<Options>) returns (r: Built)
    requires InBounds(name, options) && FitsSlack(name, message, options)
    ensures r == if |message| > 32768 then TooLarge else Built(Payload(name, message, options))
  {
    if |message| > MAX_MESSAGE_SIZE { return TooLarge; }
    var raw := StartsRaw(message);
    var cap := |message| + SLACK;
    FitsSlackIff(name, message, options);
    hide Head, OptionsText, IsRaw, FitsSlack;
    var payload := Take(Head(name), cap - 1);
    payload := payload + Take(if raw then message else Quote(message), cap - |payload| - 1);
    payload := payload + Take(OptionsText(options), cap - |payload| - 1);
    payload := payload + Take("}", cap - |payload| - 1);
    return Built(payload);
  }

  method StartsRaw(message: string) returns (raw: bool)
    ensures raw == IsRaw(message)
  {
    var m := 0;
    while m < |message| && (message[m] == ' ' || message[m] == '\t')
      invariant 0 <= m <= |message| && IsRaw(message[m..]) == IsRaw(message)
    {
      assert message[m..][1..] == message[m + 1..];
      m := m + 1;
    }
    return m < |message| && (message[m] == '{' || message[m] == '[');
  }

  /** Exactly then the payload and its terminator fit the buffer. */
  lemma FitsSlackIff(name: string, message: string, options: Option<Options>)
    requires InBounds(name, options)
    ensures FitsSlack(name, message, options) <==> |Payload(name, message, options)| < |message| + SLACK
  {
    if options.Some? { IntLength(options.value.ttlSeconds); }
  }

  lemma IntLength(n: int)
    requires -0x8000_0000 <= n < 0x8000_0000
    ensures |DecInt(n)| <= 11
  {
    assert Pow10(5) == 100000;
    assert Pow10(10) == 1_00000_00000;
    DecLength(if n < 0 then -n else n, 10);
  }

  // ---------------------------------------------------------------- reading the envelope

  /** The envelope starts with the channel member, whatever follows its comma. */
  lemma ChannelIsRead(name: string, rest: string)
    requires Plain(name) && |name| < 128
    ensures ChannelOf("{" + (Quote("channel") + ":" + Quote(name)) + "," + rest) == Some(name)
  {
    var fs := Field("", "channel", "", "", Str(name), "", NoFields(""));
    ChannelField(name);
    FirstEntry(name);
    hide *;
    LeavesSurvive(fs, rest);
    var text := "{" + (Quote("channel") + ":" + Quote(name)) + "," + rest;
    LookupInPrefix([Entry("channel", name)], Parse(text), "channel");
    ChannelIsLookup(text);
  }

  lemma ChannelIsLookup(payload: string)
    ensures ChannelOf(payload) == Lookup(Parse(payload), "channel")
  {
  }

  lemma FirstEntry(name: string)
    ensures Lookup([Entry("channel", name)], "channel") == Some(name)
  {
  }

  lemma ChannelField(name: string)
    requires Plain(name) && |name| < 128
    ensures var fs := Field("", "channel", "", "", Str(name), "", NoFields(""));
            ReadableObject(fs) && Upto(Entries(Leaves(fs, []))) == [Entry("channel", name)] &&
            PrintFields(fs) == Quote("channel") + ":" + Quote(name)
  {
    PlainIsRaw(name);
    ChannelPrints(name);
    assert Plain("channel") && |"channel"| == 7;
    LoneScalar("channel", Str(name));
  }

  lemma ChannelPrints(name: string)
    ensures PrintFields(Field("", "channel", "", "", Str(name), "", NoFields(""))) == Quote("channel") + ":" + Quote(name)
  {
  }

  predicate QuoteFree(s: string) { forall i :: 0 <= i < |s| ==> s[i] != '"' }

  /** Over one quoted text and the punctuation around it, the quoted key cannot be found, unless it is
      that text itself. */
  lemma NoMentionIn(s: string, p: nat, a: string, x: string, c: string, key: string)
    requires Occurs(s, p, a) && Occurs(s, p + |a|, Quote(x)) && Occurs(s, p + |a| + |x| + 2, c)
    requires QuoteFree(a) && Plain(x) && QuoteFree(c) && Plain(key) && key != "" && key != x && c != "" && c[0] != key[0]
    ensures forall k :: p <= k < p + |a| + |x| + 2 + |c| ==> !Occurs(s, k, Quote(key))
  {
    var open, close := p + |a|, p + |a| + |x| + 1;
    QuoteParts(s, open, x);
    forall k | p <= k < close + 1 + |c| ensures !Occurs(s, k, Quote(key)) {
      QuoteParts(s, k, key);
      if k < open {
        assert s[k] == a[k - p];
      } else if k == open {
        OtherName(s, open + 1, x, key);
      } else if k < close {
        assert s[k] == x[k - open - 1];
      } else if k == close {
        assert s[close + 1] == c[0];
        FirstDiffers(s, close + 1, key);
      } else {
        assert s[k] == c[k - close - 1];
      }
    }
  }

  lemma FirstDiffers(s: string, p: nat, key: string)
    requires p < |s| && key != "" && s[p] != key[0]
    ensures !Occurs(s, p, key)
  {
  }

  /** Two plain texts that end at a quote at the same place are the same. */
  lemma OtherName(s: string, p: nat, x: string, key: string)
    requires Plain(x) && Plain(key) && key != x && Occurs(s, p, x) && At(s, p + |x|, '"')
    ensures !(Occurs(s, p, key) && At(s, p + |key|, '"'))
  {
    if Occurs(s, p, key) && At(s, p + |key|, '"') { SameName(s, p, x, key); }
  }

  lemma SameName(s: string, p: nat, x: string, y: string)
    requires Plain(x) && Plain(y) && Occurs(s, p, x) && Occurs(s, p, y)
    requires At(s, p + |x|, '"') && At(s, p + |y|, '"')
    ensures x == y
  {
    NotShorter(s, p, x, y);
    NotShorter(s, p, y, x);
    assert forall j :: 0 <= j < |x| ==> s[p + j] == x[j] && s[p + j] == y[j];
  }

  lemma NotShorter(s: string, p: nat, x: string, y: string)
    requires Plain(x) && Occurs(s, p, x) && At(s, p + |y|, '"')
    ensures |y| >= |x|
  {
    if |y| < |x| { NoQuoteAt(s, p, x, |y|); }
  }

  lemma NoQuoteAt(s: string, p: nat, x: string, j: nat)
    requires Plain(x) && Occurs(s, p, x) && j < |x|
    ensures s[p + j] != '"'
  {
    assert s[p + j] == x[j];
  }

  /** `{"channel":"name","key"` and the rest. */
  function Envelope(name: string, key: string, rest: string): string {
    "{" + Quote("channel") + ":" + Quote(name) + "," + Quote(key) + rest
  }

  lemma EnvelopeParts(name: string, key: string, rest: string)
    ensures var s := Envelope(name, key, rest);
            Occurs(s, 0, "{") && Occurs(s, 1, Quote("channel")) && Occurs(s, 10, ":") && Occurs(s, 11, Quote(name)) &&
            Occurs(s, |name| + 13, ",") && Occurs(s, |name| + 14, Quote(key)) &&
            Occurs(s, |name| + |key| + 16, rest) && |s| == |name| + |key| + 16 + |rest|
  {
  }

  /** In such an envelope the key is first mentioned where it stands, unless the channel has its name. */
  lemma KeyIsFirstMention(name: string, key: string, rest: string)
    requires Plain(name) && Plain(key) && |key| + 2 < NEEDLE_SIZE && key != name && key != "channel"
    requires key != "" && key[0] != ':' && key[0] != ','
    ensures FirstMention(Envelope(name, key, rest), key, |name| + 14)
  {
    hide Occurs;
    var s := Envelope(name, key, rest);
    EnvelopeParts(name, key, rest);
    assert Plain("channel") && Occurs(s, 11, "") by { OccursNothing(s, 11); }
    NoMentionIn(s, 0, "{", "channel", ":", key);
    NoMentionIn(s, 11, "", name, ",", key);
  }

  lemma OccursNothing(s: string, p: nat)
    requires p <= |s|
    ensures Occurs(s, p, "")
  {
  }

  lemma ChannelOfEnvelope(name: string, key: string, rest: string)
    requires Plain(name) && |name| < 128
    ensures ChannelOf(Envelope(name, key, rest)) == Some(name)
  {
    hide ChannelOf;
    var c, n, k := Quote("channel"), Quote(name), Quote(key);
    assert "{" + c + ":" + n + "," + k + rest == "{" + (c + ":" + n) + "," + (k + rest);
    ChannelIsRead(name, k + rest);
  }

  // ---------------------------------------------------------------- publish to callback

  /** A body as the caller gives it: a text in brackets literally, after spaces and tabs and before anything,
      or a text that is embedded as a string. None has to be well-formed. */
  predicate Publishes(message: string, lead: string, v: Json, trail: string) {
    match v
    case Prim(_) => false
    case Str(raw) => message == raw && !IsRaw(message) && lead == trail == ""
    case _ => message == lead + Print(v) + trail && OnlySpaces(lead)
  }

  predicate OnlySpaces(lead: string) { forall i :: 0 <= i < |lead| ==> lead[i] == ' ' || lead[i] == '\t' }

  /** A message is taken for JSON exactly if its first character other than a space or tab is a bracket. */
  lemma {:induction false} RawIff(message: string)
    ensures IsRaw(message) <==>
            exists i :: 0 <= i < |message| && (message[i] == '{' || message[i] == '[') && OnlySpaces(message[..i])
    decreases |message|
  {
    if message != "" && OnlySpaces(message[..1]) {
      var rest := message[1..];
      RawIff(rest);
      if IsRaw(rest) {
        var i :| 0 <= i < |rest| && (rest[i] == '{' || rest[i] == '[') && OnlySpaces(rest[..i]);
        assert message[..i + 1] == message[..1] + rest[..i];
        assert message[i + 1] == rest[i];
      }
      forall i | 0 <= i < |message| && (message[i] == '{' || message[i] == '[') && OnlySpaces(message[..i])
        ensures IsRaw(rest)
      {
        assert message[..1][0] == message[0] && i > 0;
        assert rest[..i - 1] == message[..i][1..] && rest[i - 1] == message[i];
      }
    } else if message != "" {
      assert message[..1][0] == message[0];
      if At(message, 0, '{') || At(message, 0, '[') { assert OnlySpaces(message[..0]); }
      assert forall i :: 0 < i < |message| ==> message[..i][0] == message[0];
    }
  }

  lemma EmbedsBody(message: string, lead: string, v: Json, trail: string)
    requires Publishes(message, lead, v, trail)
    ensures MessageText(message) == lead + Print(v) + trail && !v.Prim? && AllBlank(Json, lead)
  {
    if v.Str? {
      assert "" + Print(v) + "" == Print(v);
    } else {
      var i := |lead|;
      assert message[..i] == lead && message[i] == Print(v)[0];
      RawIff(message);
    }
  }

  lemma PayloadIsEnvelope(name: string, message: string, options: Option<Options>)
    ensures Payload(name, message, options) ==
            Envelope(name, "message", ":" + MessageText(message) + (OptionsText(options) + "}"))
  {
  }

  lemma MessageIsKey()
    ensures Plain("message") && "message"[0] == 'm' && |"message"| == 7 && "message" != "channel"
  {
    assert "channel"[0] == 'c';
  }

  /** The dispatcher finds the channel in the envelope of a body, and the body under its key. */
  lemma BodyIsMember(name: string, lead: string, v: Json, more: string)
    requires Plain(name) && |name| < 128 && name != "message" && !v.Prim? && AllBlank(Json, lead)
    ensures var p := Envelope(name, "message", ":" + lead + Print(v) + more);
            ChannelOf(p) == Some(name) && MemberAt(p, "message", |name| + 14, "", lead, v) &&
            |p| == |name| + 24 + |lead| + |Print(v)| + |more|
  {
    hide ChannelOf, Print, Occurs, FirstMention, Plain, AllBlank;
    assert AllBlank(Json, "") by { NothingIsBlank(); }
    var rest := ":" + lead + Print(v) + more;
    var p := Envelope(name, "message", rest);
    MessageIsKey();
    ChannelOfEnvelope(name, "message", rest);
    EnvelopeParts(name, "message", rest);
    KeyIsFirstMention(name, "message", rest);
    OccursSplit(p, |name| + 23, ":" + lead + Print(v), more);
    assert ":" + lead + Print(v) == "" + ":" + lead + Print(v);
  }

  lemma NothingIsBlank()
    ensures AllBlank(Json, "")
  {
  }

  /** Whatever text follows in the envelope (and some does), the body is isolated exactly if it is shorter
      than the buffer and its scan stops at its end: by itself, or by filling the buffer. */
  lemma BodyIsFound(name: string, lead: string, v: Json, more: string)
    requires Plain(name) && |name| < 128 && name != "message" && !v.Prim? && more != "" && AllBlank(Json, lead)
    ensures var p := Envelope(name, "message", ":" + lead + Print(v) + more);
            ChannelOf(p) == Some(name) && (BodyOf(p) == Print(v) <==> Delivered(v))
    ensures var p := Envelope(name, "message", ":" + lead + Print(v) + more);
            ValueFate(v).Exact? ==> BodyOf(p) == Take(Print(v), MAX_MESSAGE_SIZE - 1)
  {
    var p := Envelope(name, "message", ":" + lead + Print(v) + more);
    BodyIsMember(name, lead, v, more);
    MessageIsKey();
    hide ChannelOf, Print, MemberAt, ValueFate, Envelope;
    ExtractsExactlyIff(p, "message", |name| + 14, "", lead, v, MAX_MESSAGE_SIZE);
    if ValueFate(v).Exact? { ExtractsExactly(p, "message", |name| + 14, "", lead, v, MAX_MESSAGE_SIZE); }
    BodyIsRawValue(p, |name| + 14, lead, v);
  }

  lemma BodyIsRawValue(p: string, i: nat, lead: string, v: Json)
    requires MemberAt(p, "message", i, "", lead, v)
    ensures RawValueOf(p, "message", MAX_MESSAGE_SIZE) == Some(BodyOf(p))
  {
    BracketedStart(p, "message", i, "", lead, v);
  }

  /** The bodies that arrive as they are. */
  predicate Delivered(v: Json)
    requires !v.Prim?
  {
    |Print(v)| < 32768 && (ValueFate(v).Exact? || (ValueFate(v).RunsOn? && |Print(v)| == 32767))
  }

  /** Published, framed, deframed and dispatched as a "message" event, a body reaches the channel's
      callback byte for byte exactly under that condition, for every body and all options. */
  lemma PublishedBodyArrives(name: string, message: string, lead: string, v: Json, trail: string,
                             options: Option<Options>)
    requires Plain(name) && |name| < 128 && name != "message" && Publishes(message, lead, v, trail)
    ensures var p := Payload(name, message, options);
            EventFrame.ParseFrame(EventFrame.Frame("message", Some(p))) == Some(EventFrame.Event("message", Some(p))) &&
            ChannelOf(p) == Some(name) && (BodyOf(p) == Print(v) <==> Delivered(v))
    ensures ValueFate(v).Exact? ==>
              BodyOf(Payload(name, message, options)) == Take(Print(v), MAX_MESSAGE_SIZE - 1)
  {
    hide *;
    EmbedsBody(message, lead, v, trail);
    PayloadIsEnvelope(name, message, options);
    var more := trail + OptionsText(options) + "}";
    assert |more| > 0;
    assert ":" + (lead + Print(v) + trail) + (OptionsText(options) + "}") == ":" + lead + Print(v) + more;
    BodyIsFound(name, lead, v, more);
    SurvivesFraming(name, message, options);
  }

  /** For a body with room to spare, what a caller can check: the brackets of an object or array, those
      in its strings included, balance; a text has no bare quote and no backslash before its end. */
  lemma ShortBodyArrivesIff(name: string, message: string, lead: string, v: Json, trail: string,
                            options: Option<Options>)
    requires Plain(name) && |name| < 128 && name != "message" && Publishes(message, lead, v, trail)
    requires |Print(v)| < MAX_MESSAGE_SIZE - 1
    ensures BodyOf(Payload(name, message, options)) == Print(v) <==> Balanced(v)
  {
    hide *;
    EmbedsBody(message, lead, v, trail);
    PublishedBodyArrives(name, message, lead, v, trail, options);
    BalancedIsExact(v);
    ShortIsDelivered(v);
  }

  predicate Balanced(v: Json)
    requires !v.Prim?
  {
    match v
    case Str(raw) => RawOk(raw)
    case Arr(es) => Neutral(PrintElems(es), '[', ']')
    case Obj(fs) => Neutral(PrintFields(fs), '{', '}')
  }

  lemma BalancedIsExact(v: Json)
    requires !v.Prim?
    ensures ValueFate(v).Exact? <==> Balanced(v)
  {
    if v.Str? { LiteralFateIsRawOk(v.raw); }
  }

  lemma ShortIsDelivered(v: Json)
    requires !v.Prim? && |Print(v)| < MAX_MESSAGE_SIZE - 1
    ensures Delivered(v) <==> ValueFate(v).Exact?
  {
  }

  lemma SurvivesFraming(name: string, message: string, options: Option<Options>)
    ensures var p := Payload(name, message, options);
            EventFrame.ParseFrame(EventFrame.Frame("message", Some(p))) == Some(EventFrame.Event("message", Some(p)))
  {
    StartsWithBrace(name, message, options);
    hide Payload, EventFrame.ParseFrame, EventFrame.Frame;
    assert Plain("message") && |"message"| == 7;
    EventFrame.PayloadUnchangedIff("message", Payload(name, message, options));
  }

  lemma StartsWithBrace(name: string, message: string, options: Option<Options>)
    ensures Payload(name, message, options) != "" && Payload(name, message, options)[0] == '{'
  {
  }

  /** On a channel called "message" the body is never isolated: the callback gets the envelope. */
  lemma ChannelNamedMessage(message: string, options: Option<Options>)
    ensures var p := Payload("message", message, options);
            ChannelOf(p) == Some("message") && BodyOf(p) == Take(p, MAX_MESSAGE_SIZE - 1)
  {
    var rest := ":" + MessageText(message) + (OptionsText(options) + "}");
    PayloadIsEnvelope("message", message, options);
    hide ChannelOf, MessageText, OptionsText, Payload;
    var p := Envelope("message", "message", rest);
    assert Plain("message") && "message"[0] == 'm' && |"message"| == 7 && "channel"[0] == 'c';
    ChannelOfEnvelope("message", "message", rest);
    EnvelopeParts("message", "message", rest);
    NoMentionIn(p, 0, "{", "channel", ":", "message");
    assert StrStr(p, Quote("message")) == Some(11) by { StrStrAt(p, Quote("message"), 11); }
    OccursChar(p, 20, ',');
  }
}
