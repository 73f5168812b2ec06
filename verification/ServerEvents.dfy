/** Events of the server as the client understands them: presence, errors, and the history snapshot that
    must not be taken for an answer; and the client's CONNECT packet as the server understands it. */
module ServerEvents {
  import opened CStrings
  import opened StringScan
  import opened JsonText
  import opened JsonTable
  import opened Flatten
  import opened RawValue
  import opened Dispatch
  import opened Publish
  import SplitArray
  import Emitters
  import ClientObject

  // ---------------------------------------------------------------- presence and errors

  /** A presence event with a 32-bit number hands its callback exactly that number, whatever members follow. */
  lemma PresenceArrives(cbs: Callbacks, name: string, n: int, c: char, more: string)
    requires Plain(name) && |name| < 128 && name != "occupancy" && -0x8000_0000 <= n < 0x8000_0000
    requires c == ',' || c == '}' || c == ']'
    ensures var p := Envelope(name, "occupancy", ":" + DecInt(n) + [c] + more);
            ChannelOf(p) == Some(name) &&
            (cbs.presence.Some? ==> Delivers(cbs, "presence", p) == Presence(cbs.presence.value, DecInt(n)))
  {
    hide *;
    var rest := ":" + DecInt(n) + [c] + more;
    var p := Envelope(name, "occupancy", rest);
    OccupancyIsKey();
    ChannelOfEnvelope(name, "occupancy", rest);
    KeyIsFirstMention(name, "occupancy", rest);
    NumberStands(name, n, c, more);
    NumberIsBare(n);
    IntLength(n);
    ExtractsPrimitive(p, "occupancy", |name| + 14, "", "", DecInt(n), 32);
    if cbs.presence.Some? { PresenceDelivers(cbs, p, DecInt(n)); }
  }

  lemma OccupancyIsKey()
    ensures Plain("occupancy") && |"occupancy"| == 9 && "occupancy"[0] == 'o' && "occupancy" != "channel"
    ensures 9 + 2 < NEEDLE_SIZE && AllBlank(Json, "")
  {
    assert "channel"[0] == 'c';
  }

  lemma NumberIsBare(n: int)
    ensures DecInt(n) != "" && (IsDigit(DecInt(n)[0]) || DecInt(n)[0] == '-')
    ensures !IsBlank(Json, DecInt(n)[0])
    ensures forall k :: 0 <= k < |DecInt(n)| ==> DecInt(n)[k] != ',' && DecInt(n)[k] != '}' && DecInt(n)[k] != ']'
    ensures DecInt(n)[0] != '"' && DecInt(n)[0] != '{' && DecInt(n)[0] != '['
  {
    var d := Dec(if n < 0 then -n else n);
    if n < 0 { assert DecInt(n) == "-" + d; }
  }

  lemma NumberStands(name: string, n: int, c: char, more: string)
    ensures var p := Envelope(name, "occupancy", ":" + DecInt(n) + [c] + more);
            var end := |name| + 26 + |DecInt(n)|;
            Occurs(p, |name| + 25, "" + ":" + "" + DecInt(n)) && end < |p| && p[end] == c
  {
    hide *;
    var d := DecInt(n);
    var rest := ":" + d + [c] + more;
    var p := Envelope(name, "occupancy", rest);
    OccupancyIsKey();
    EnvelopeParts(name, "occupancy", rest);
    assert rest == ("" + ":" + "" + d) + ([c] + more);
    OccursSplit(p, |name| + 25, "" + ":" + "" + d, [c] + more);
    OccursFirst(p, |name| + 26 + |d|, [c] + more);
    AtIs(p, |name| + 26 + |d|, c);
  }

  lemma AtIs(s: string, p: nat, c: char)
    requires At(s, p, c)
    ensures p < |s| && s[p] == c
  {
  }

  lemma PresenceDelivers(cbs: Callbacks, p: string, text: string)
    requires cbs.presence.Some? && RawValueOf(p, "occupancy", 32) == Some(Take(text, 31)) && |text| <= 11
    ensures Delivers(cbs, "presence", p) == Presence(cbs.presence.value, text)
  {
    assert "message"[0] == 'm' && "presence"[0] == 'p';
    hide RawValueOf;
  }

  /** What events without the member they are about deliver. */
  lemma WithoutTheMember(payload: string)
    ensures NotMentioned(payload, "occupancy") ==> OccupancyOf(payload) == "0"
    ensures NotMentioned(payload, "message") ==> ErrorOf(payload) == "worker error"
    ensures NotMentioned(payload, "message") ==> BodyOf(payload) == Take(payload, 32767)
    ensures NotMentioned(payload, "messages") ==> ItemsOf(payload) == SplitArray.Items([])
  {
    assert |"occupancy"| == 9 && |"message"| == 7 && |"messages"| == 8;
    if NotMentioned(payload, "occupancy") { NothingWithoutMention(payload, "occupancy", 32); }
    if NotMentioned(payload, "message") {
      NothingWithoutMention(payload, "message", 256);
      NothingWithoutMention(payload, "message", MAX_MESSAGE_SIZE);
    }
    if NotMentioned(payload, "messages") { NothingWithoutMention(payload, "messages", MAX_MESSAGE_SIZE); }
    hide RawValueOf, SplitArray.Split;
  }

  ghost predicate NotMentioned(payload: string, key: string) {
    forall k :: 0 <= k <= |payload| ==> !Occurs(payload, k, Quote(key))
  }

  /** An error event reports the value of "message" as it is written, up to 255 bytes: a string keeps its quotes. */
  lemma ErrorTextArrives(payload: string, i: nat, mid: string, pre: string, v: Json)
    requires MemberAt(payload, "message", i, mid, pre, v) && ValueFate(v).Exact?
    ensures ErrorOf(payload) == Take(Print(v), 255)
  {
    ExtractsExactly(payload, "message", i, mid, pre, v, 256);
    hide RawValueOf, MemberAt, ValueFate, Print;
  }

  // ---------------------------------------------------------------- the snapshot on joining

  /** A history event in which, after the channel, "query" is not mentioned (and nothing is escaped) is a
      snapshot: it reaches nobody. */
  lemma SnapshotIsIgnored(cbs: Callbacks, name: string, key: string, tail: string)
    requires Plain(name) && |name| < 128 && Silent(Envelope(name, key, tail), |name| + 14, "query")
    ensures var p := Envelope(name, key, tail);
            ChannelOf(p) == Some(name) && Lookup(Parse(p), "query") == None && Delivers(cbs, "history", p) == Nothing
  {
    hide *;
    var p := Envelope(name, key, tail);
    QueryIsSimple();
    ChannelOfEnvelope(name, key, tail);
    AfterChannel(name, key, tail);
    NeverRead(p, |name| + 14, "", [Entry("channel", name)], "query");
    QueryDecides(cbs, p);
  }

  lemma QueryIsSimple()
    ensures SimpleKey("query") && Lookup([], "query") == None
    ensures forall name :: Lookup([Entry("channel", name)], "query") == None
    ensures "query" != "channel"
  {
    assert "query"[0] == 'q' && "channel"[0] == 'c' && |"query"| == 5;
    assert forall name :: [Entry("channel", name)][1..] == [];
  }

  /** The parser behind the channel member. */
  lemma AfterChannel(name: string, key: string, tail: string)
    requires Plain(name) && |name| < 128
    ensures var p := Envelope(name, key, tail);
            |name| + 14 <= |p| && Parse(p) == ParseMembers(p, |name| + 14, "", [Entry("channel", name)])
  {
    hide *;
    var fs := Field("", "channel", "", "", Str(name), "", NoFields(""));
    var p := Envelope(name, key, tail);
    ChannelField(name);
    NothingIsBlank();
    var head := Quote("channel") + ":" + Quote(name);
    EnvelopeSplits(name, key, tail, head);
    var q := ParsedUpTo(p, fs, "", Quote(key) + tail);
    EnvelopeParts(name, key, tail);
    assert q == |p| - |Quote(key) + tail|;
    QuoteLength(key);
  }

  lemma QuoteLength(key: string)
    ensures |Quote(key)| == |key| + 2
  {
  }

  lemma NothingIsBlank()
    ensures AllBlank(Ctype, "")
  {
  }

  lemma EnvelopeSplits(name: string, key: string, tail: string, head: string)
    requires head == Quote("channel") + ":" + Quote(name)
    ensures Envelope(name, key, tail) == "" + "{" + head + "," + (Quote(key) + tail)
  {
    hide Quote;
  }

  /** The snapshot of an empty list, of any channel. */
  lemma EmptySnapshot(cbs: Callbacks, name: string)
    requires Plain(name) && |name| < 128
    ensures var p := Envelope(name, "messages", ":[]}");
            ChannelOf(p) == Some(name) && Delivers(cbs, "history", p) == Nothing
  {
    hide *;
    var p := Envelope(name, "messages", ":[]}");
    TailIs(name, "messages", ":[]}");
    EmptyListIsSilent();
    SilentTail(p, |name| + 14, Quote("messages") + ":[]}");
    SnapshotIsIgnored(cbs, name, "messages", ":[]}");
  }

  lemma TailIs(name: string, key: string, tail: string)
    ensures var p := Envelope(name, key, tail); |name| + 14 <= |p| && p[|name| + 14..] == Quote(key) + tail
  {
    var q := Quote(key);
    assert |"{" + Quote("channel") + ":" + Quote(name) + ","| == |name| + 14;
    assert Envelope(name, key, tail) == ("{" + Quote("channel") + ":" + Quote(name) + ",") + (q + tail);
    hide Quote;
  }

  /** No quote is followed by a `q`, and nothing is escaped. */
  predicate NoQuery(text: string) {
    (forall i :: 0 <= i < |text| ==> text[i] != '\\') &&
    forall i :: 0 <= i < |text| && text[i] == '"' ==> !At(text, i + 1, 'q')
  }

  lemma EmptyListIsSilent()
    ensures NoQuery(Quote("messages") + ":[]}")
  {
    var t := "\"messages\":[]}";
    assert Quote("messages") + ":[]}" == t;
    assert t[1] == 'm' && t[10] == ':';
  }

  lemma SilentTail(p: string, from: nat, text: string)
    requires from <= |p| && p[from..] == text && NoQuery(text)
    ensures Silent(p, from, "query")
  {
    assert forall i :: from <= i < |p| ==> p[i] == text[i - from];
    forall k | from <= k <= |p| ensures !Occurs(p, k, Quote("query")) {
      if k < |p| && p[k] == '"' { assert !At(text, k - from + 1, 'q'); }
      NoQueryAt(p, k);
    }
    forall i | from <= i < |p| ensures p[i] != '\\' { assert text[i - from] != '\\'; }
  }

  lemma NoQueryAt(p: string, k: nat)
    requires !(At(p, k, '"') && At(p, k + 1, 'q'))
    ensures !Occurs(p, k, Quote("query"))
  {
    var q := Quote("query");
    assert |q| == 7 && q[0] == '"' && q[1] == 'q';
  }

  /** A flag before the list decides by itself, whatever follows it: `true` and `1` make an answer, any
      other number or word a snapshot. */
  lemma FlagDecides(cbs: Callbacks, name: string, flag: string, rest: string)
    requires Plain(name) && |name| < 128 && PrimOk(flag) && |flag| < MAX_VALUE_LEN
    ensures var p := Envelope(name, "query", ":" + flag + "," + rest);
            ChannelOf(p) == Some(name) && Lookup(Parse(p), "query") == Some(flag) &&
            Delivers(cbs, "history", p) ==
              if (flag == "true" || flag == "1") && cbs.history.Some? then History(cbs.history.value, ItemsOf(p)) else Nothing
  {
    hide *;
    var p := Envelope(name, "query", ":" + flag + "," + rest);
    var t := [Entry("channel", name)];
    ChannelOfEnvelope(name, "query", ":" + flag + "," + rest);
    AfterChannel(name, "query", ":" + flag + "," + rest);
    QueryIsSimple();
    TailIs(name, "query", ":" + flag + "," + rest);
    FlagIsBare(flag);
    TailForm("query", flag, ',', rest);
    TakesBare(p, |name| + 14, "query", flag, ',', rest, t);
    LookupSnoc(t, Entry("query", flag), "query");
    FoundStays(p, |name| + 14 + |"query"| + 3 + |flag|, t + [Entry("query", flag)], "query");
    QueryDecides(cbs, p);
  }

  lemma FoundStays(s: string, p: nat, t: seq<Entry>, key: string)
    requires p <= |s| && Lookup(t, key).Some?
    ensures Lookup(ParseMembers(s, p, "", t), key) == Lookup(t, key)
  {
    TableGrows(s, p, "", t);
    LookupInPrefix(t, ParseMembers(s, p, "", t), key);
  }

  lemma TailForm(key: string, text: string, c: char, rest: string)
    ensures Quote(key) + (":" + text + [c] + rest) == Quote(key) + ":" + text + [c] + rest
    ensures "," == [','] && "}" == ['}']
  {
  }

  lemma FlagIsBare(flag: string)
    requires PrimOk(flag)
    ensures Bare(flag) && SimpleKey("query") && |"query"| == 5
  {
  }

  /** A text the parser takes for a number or word: it starts no object or string and holds nothing that
      ends one. */
  predicate Bare(text: string) {
    text != "" && text[0] != '{' && text[0] != '"' &&
    forall i :: 0 <= i < |text| ==> text[i] != ',' && text[i] != '}' && !IsBlank(Ctype, text[i])
  }

  /** One compact member with such a value. */
  lemma TakesBare(s: string, p: nat, key: string, text: string, c: char, rest: string, t: seq<Entry>)
    requires p <= |s| && s[p..] == Quote(key) + ":" + text + [c] + rest && (c == ',' || c == '}')
    requires SimpleKey(key) && Bare(text) && |text| < MAX_VALUE_LEN && |t| < 64
    ensures p + |key| + 3 + |text| <= |s|
    ensures ParseMembers(s, p, "", t) == ParseMembers(s, p + |key| + 3 + |text|, "", t + [Entry(key, text)])
  {
    hide *;
    var start := p + |key| + 3;
    BareParts(s, p, key, text, c, rest);
    SimpleKeyFits(key);
    ReadsLiteral(s, p, key, MAX_KEY_LEN);
    BareStops(s, start, text, MAX_VALUE_LEN - 1);
    TakesBareAt(s, p, key, text, t);
  }

  lemma SimpleKeyFits(key: string)
    requires SimpleKey(key)
    ensures RawOk(key) && Unslash(key) == key && |key| < MAX_KEY_LEN - 1
    ensures FullKey("", key) == key && MAX_VALUE_LEN > 0 && MAX_KEY_LEN > 0
  {
    PlainIsRaw(key);
  }

  lemma BareParts(s: string, p: nat, key: string, text: string, c: char, rest: string)
    requires p <= |s| && s[p..] == Quote(key) + ":" + text + [c] + rest && (c == ',' || c == '}') && Bare(text)
    ensures var start := p + |key| + 3;
            Occurs(s, p, Quote(key)) && At(s, p, '"') && At(s, start - 1, ':') && Occurs(s, start, text) &&
            At(s, start, text[0]) && start + |text| < |s| && (At(s, start + |text|, ',') || At(s, start + |text|, '}'))
    ensures forall i :: 0 <= i < |text| ==> text[i] != ',' && text[i] != '}' && !IsBlank(Ctype, text[i])
  {
    var u := s[p..];
    assert forall i :: 0 <= i < |u| ==> s[p + i] == u[i];
    assert u[0] == '"' && u[|key| + 2] == ':' && u[|key| + 3 + |text|] == c;
    assert Occurs(u, 0, Quote(key)) && Occurs(u, |key| + 3, text);
    assert u[|key| + 3] == text[0];
  }

  lemma {:induction false} BareStops(s: string, p: nat, text: string, room: nat)
    requires Occurs(s, p, text) && |text| <= room && p + |text| < |s|
    requires forall i :: 0 <= i < |text| ==> text[i] != ',' && text[i] != '}' && !IsBlank(Ctype, text[i])
    requires At(s, p + |text|, ',') || At(s, p + |text|, '}')
    ensures BareEnd(s, p, room) == p + |text|
    decreases |text|
  {
    if text != "" {
      assert s[p] == text[0];
      var tail := text[1..];
      assert forall i :: 0 <= i < |tail| ==> tail[i] == text[i + 1];
      BareStops(s, p + 1, tail, room - 1);
    }
  }

  lemma TakesBareAt(s: string, p: nat, key: string, text: string, t: seq<Entry>)
    requires var start := p + |key| + 3;
             At(s, p, '"') && At(s, start - 1, ':') && Occurs(s, start, text) && start + |text| < |s| &&
             BareEnd(s, start, MAX_VALUE_LEN - 1) == start + |text|
    requires ExtractString(s, p, MAX_KEY_LEN) == Some((key, p + |key| + 2)) && FullKey("", key) == key
    requires Bare(text) && At(s, p + |key| + 3, text[0]) && |t| < 64
    ensures ParseMembers(s, p, "", t) == ParseMembers(s, p + |key| + 3 + |text|, "", t + [Entry(key, text)])
  {
    hide *;
    var start := p + |key| + 3;
    OccursSlice(s, start, text);
    StandsStill(s, p, '"');
    StandsStill(s, start - 1, ':');
    StartsBare(s, start, text);
    HeadIs(s, p, key, start);
    EntersMember(s, p, p, key, start, "", t);
    ValueIsBare(s, start, key, text, t);
  }

  lemma StandsStill(s: string, p: nat, c: char)
    requires At(s, p, c) && (c == '"' || c == ':')
    ensures p < |s| && SkipBlank(Ctype, s, p) == p
  {
  }

  lemma StartsBare(s: string, p: nat, text: string)
    requires Bare(text) && At(s, p, text[0])
    ensures p < |s| && SkipBlank(Ctype, s, p) == p && !At(s, p, '{') && !At(s, p, '"')
  {
  }

  lemma HeadIs(s: string, p: nat, key: string, start: nat)
    requires p < |s| && 0 < start <= |s| && At(s, start - 1, ':')
    requires ExtractString(s, p, MAX_KEY_LEN) == Some((key, start - 1))
    requires SkipBlank(Ctype, s, start - 1) == start - 1 && SkipBlank(Ctype, s, start) == start
    ensures MemberHead(s, p) == Some((key, start)) && 64 == MAX_KEYS
  {
    hide ExtractString, SkipBlank;
  }

  lemma ValueIsBare(s: string, p: nat, key: string, text: string, t: seq<Entry>)
    requires 0 < p <= |s| && !At(s, p, '{') && !At(s, p, '"') && BareEnd(s, p, MAX_VALUE_LEN - 1) == p + |text|
    requires p + |text| <= |s| && s[p..p + |text|] == text
    ensures ParseValue(s, p, "", key, t) == ParseMembers(s, p + |text|, "", t + [Entry(key, text)])
  {
    hide ParseMembers, BareEnd;
  }

  /** The parser takes the list for a word, so a member of a message inside it can pass for the flag: a
      snapshot that begins with one such message is delivered as an answer and uses up the waiter. */
  lemma SnapshotMistaken(cbs: Callbacks, name: string, text: string, c: char, rest: string)
    requires Plain(name) && |name| < 128 && Bare(text) && |text| < MAX_VALUE_LEN && cbs.history.Some?
    requires c == ',' || c == '}'
    ensures var p := Envelope(name, "messages", ":" + text + "," + (Quote("query") + ":true" + [c] + rest));
            ChannelOf(p) == Some(name) && Delivers(cbs, "history", p) == History(cbs.history.value, ItemsOf(p))
  {
    hide *;
    var tail := ":" + text + "," + (Quote("query") + ":true" + [c] + rest);
    var p := Envelope(name, "messages", tail);
    var t := [Entry("channel", name)];
    ChannelOfEnvelope(name, "messages", tail);
    AfterChannel(name, "messages", tail);
    TailIs(name, "messages", tail);
    TailForm("messages", text, ',', Quote("query") + ":true" + [c] + rest);
    MistakenFacts(name, text);
    var t' := t + [Entry("messages", text)];
    TakesBare(p, |name| + 14, "messages", text, ',', Quote("query") + ":true" + [c] + rest, t);
    var q := |name| + 25 + |text|;
    SuffixAfter(p, |name| + 14, text, Quote("query") + ":true" + [c] + rest);
    OverTheComma(p, q, t');
    QueryBehindList(p, q + 1, c, rest, t');
    QueryDecides(cbs, p);
  }

  lemma SuffixAfter(p: string, from: nat, text: string, rest: string)
    requires from <= |p| && p[from..] == Quote("messages") + ":" + text + [','] + rest
    ensures var q := from + 11 + |text|; q + 1 <= |p| && At(p, q, ',') && p[q + 1..] == rest
  {
    assert |Quote("messages")| == 10;
    var u := p[from..];
    hide Quote;
    assert u[11 + |text|] == ',' && u[12 + |text|..] == rest;
    assert u[12 + |text|..] == p[from + 12 + |text|..];
  }

  lemma OverTheComma(p: string, q: nat, t: seq<Entry>)
    requires At(p, q, ',') && q + 1 <= |p|
    ensures ParseMembers(p, q, "", t) == ParseMembers(p, q + 1, "", t)
  {
    OverComma(p, q, "", t);
  }

  lemma QueryBehindList(p: string, q: nat, c: char, rest: string, t: seq<Entry>)
    requires q <= |p| && p[q..] == Quote("query") + ":true" + [c] + rest && (c == ',' || c == '}')
    requires Lookup(t, "query") == None && |t| < 64
    ensures Lookup(ParseMembers(p, q, "", t), "query") == Some("true")
  {
    hide *;
    QueryIsSimple();
    TrueIsBare();
    assert Quote("query") + ":true" == Quote("query") + ":" + "true";
    TakesBare(p, q, "query", "true", c, rest, t);
    LookupSnoc(t, Entry("query", "true"), "query");
    FoundStays(p, q + |"query"| + 3 + |"true"|, t + [Entry("query", "true")], "query");
  }

  lemma TrueIsBare()
    ensures Bare("true") && |"true"| < MAX_VALUE_LEN
  {
  }

  lemma MistakenFacts(name: string, text: string)
    ensures SimpleKey("messages") && |"messages"| == 8
    ensures Lookup([Entry("channel", name)] + [Entry("messages", text)], "query") == None
    ensures |[Entry("channel", name)]| < 64
  {
    assert "messages"[0] == 'm' && "query"[0] == 'q' && "channel"[0] == 'c';
    LookupSnoc([], Entry("channel", name), "query");
    LookupSnoc([Entry("channel", name)], Entry("messages", text), "query");
    assert [] + [Entry("channel", name)] == [Entry("channel", name)];
  }

  /** For instance the snapshot of one message with an id and a flag of its own: well-formed JSON. */
  lemma MistakenExample(cbs: Callbacks, name: string)
    requires Plain(name) && |name| < 128 && cbs.history.Some?
    ensures var p := Envelope(name, "messages", ":[{\"id\":1,\"query\":true}]}");
            ChannelOf(p) == Some(name) && Delivers(cbs, "history", p) == History(cbs.history.value, ItemsOf(p))
  {
    hide ChannelOf, Delivers, ItemsOf, Envelope;
    SnapshotMistaken(cbs, name, "[{\"id\":1", '}', "]}");
    assert ":[{\"id\":1,\"query\":true}]}" ==
           ":" + "[{\"id\":1" + "," + (Quote("query") + ":true" + ['}'] + "]}");
  }

  // ---------------------------------------------------------------- the CONNECT packet

  /** The server finds the key and the user id of the CONNECT packet each under its name. */
  lemma ConnectPacketIsRead(userId: string, apiKey: string)
    requires Plain(userId) && Plain(apiKey) && |userId| < MAX_VALUE_LEN && |apiKey| < MAX_VALUE_LEN
    ensures var packet := ClientObject.ConnectPacket(userId, apiKey);
            "40" <= packet && Lookup(Parse(packet[2..]), "apiKey") == Some(apiKey) &&
            Lookup(Parse(packet[2..]), "userId") == Some(userId)
  {
    hide *;
    var f1 := Credentials(userId, apiKey);
    PacketText(userId, apiKey);
    CredentialsPrint(userId, apiKey);
    CredentialsRecord(userId, apiKey);
    Emitters.RecordReadsBack(f1);
  }

  function Credentials(userId: string, apiKey: string): Fields {
    Emitters.Member("apiKey", apiKey, Emitters.Member("userId", userId, NoFields("")))
  }

  lemma CredentialsPrint(userId: string, apiKey: string)
    ensures Print(Obj(Credentials(userId, apiKey))) ==
            "{" + (Emitters.Pair("apiKey", apiKey) + "," + Emitters.Pair("userId", userId)) + "}"
  {
    Emitters.PrintsRecord(Credentials(userId, apiKey));
  }

  lemma CredentialsRecord(userId: string, apiKey: string)
    requires Plain(userId) && Plain(apiKey) && |userId| < MAX_VALUE_LEN && |apiKey| < MAX_VALUE_LEN
    ensures var f1 := Credentials(userId, apiKey);
            Emitters.RecordOk(f1) && Emitters.Count(f1) <= MAX_KEYS &&
            Emitters.RecordGet(f1, "apiKey") == Some(apiKey) && Emitters.RecordGet(f1, "userId") == Some(userId)
  {
    PlainIsRaw(userId);
    PlainIsRaw(apiKey);
    CredentialKeys();
    hide Plain, RawOk, Unslash;
  }

  lemma CredentialKeys()
    ensures Plain("apiKey") && Plain("userId") && 0 < |"apiKey"| < MAX_KEY_LEN && 0 < |"userId"| < MAX_KEY_LEN
    ensures "apiKey" != "userId"
  {
    assert "apiKey"[0] == 'a' && "userId"[0] == 'u';
  }

  lemma PacketText(userId: string, apiKey: string)
    ensures var packet := ClientObject.ConnectPacket(userId, apiKey);
            "40" <= packet &&
            packet[2..] == "{" + (Emitters.Pair("apiKey", apiKey) + "," + Emitters.Pair("userId", userId)) + "}"
  {
    var packet := ClientObject.ConnectPacket(userId, apiKey);
    assert "40{\"apiKey\":\"" == "40" + ("{" + (Quote("apiKey") + ":\""));
    assert "\",\"userId\":\"" == "\"" + ("," + (Quote("userId") + ":\""));
    assert "\"}" == "\"" + "}";
    var body := "{" + (Emitters.Pair("apiKey", apiKey) + "," + Emitters.Pair("userId", userId)) + "}";
    assert packet == "40" + body;
  }
}
