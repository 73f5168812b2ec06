/** enhanced_features.c: the bounded JSON escaper and the payloads built with it. */
module Emitters {
  import opened CStrings
  import opened StringScan
  import opened JsonText
  import opened JsonTable
  import opened Flatten
  import EventFrame

  function EscapeChar(c: char): (r: string)
    ensures 1 <= |r| <= 2
  {
    if c == '"' then "\\\""
    else if c == '\\' then "\\\\"
    else if c == '\n' then "\\n"
    else if c == '\r' then "\\r"
    else if c == '\t' then "\\t"
    else [c]
  }

  function Escape(s: string): string {
    if s == "" then "" else Escape(s[..|s| - 1]) + EscapeChar(s[|s| - 1])
  }

  /** How many characters `json_escape` takes into a buffer of `size` bytes: it stops as soon as an
      escape of two characters and the terminator might not fit any more. */
  function Kept(s: string, size: nat): (k: nat)
    ensures k <= |s|
  {
    if s == "" then 0
    else
      var k := Kept(s[..|s| - 1], size);
      if k == |s| - 1 && |Escape(s[..k])| + 2 < size then k + 1 else k
  }

  function Escaped(s: string, size: nat): string { Escape(s[..Kept(s, size)]) }

  method JsonEscape(input: Option<string>, out: array<char>)
    requires out.Length > 0
    modifies out
    ensures Holds(out, if input.None? then "" else Escaped(input.value, out.Length))
  {
    if input.None? {
      out[0] := '\0';
      return;
    }
    hide Escape, Kept;
    var s := input.value;
    EscapeNothing(s, out.Length);
    var o, i := 0, 0;
    while i < |s| && o + 2 < out.Length
      invariant 0 <= i <= |s| && 0 <= o < out.Length
      invariant out[..o] == Escape(s[..i]) && Kept(s[..i], out.Length) == i
    {
      o := PutEscape(out, o, s[i]);
      EscapeSnoc(s, i, out.Length);
      i := i + 1;
    }
    out[o] := '\0';
    KeptStays(s, i, out.Length);
  }

  /** The body of the loop: one character, as two if it needs an escape. */
  method PutEscape(out: array<char>, o: nat, c: char) returns (next: nat)
    requires o + 2 < out.Length
    modifies out
    ensures o <= next < out.Length && out[..next] == old(out[..o]) + EscapeChar(c)
  {
    if c == '"' { out[o], out[o + 1] := '\\', '"'; next := o + 2; }
    else if c == '\\' { out[o], out[o + 1] := '\\', '\\'; next := o + 2; }
    else if c == '\n' { out[o], out[o + 1] := '\\', 'n'; next := o + 2; }
    else if c == '\r' { out[o], out[o + 1] := '\\', 'r'; next := o + 2; }
    else if c == '\t' { out[o], out[o + 1] := '\\', 't'; next := o + 2; }
    else { out[o] := c; next := o + 1; }
  }

  lemma EscapeSnoc(s: string, i: nat, size: nat)
    requires i < |s| && Kept(s[..i], size) == i && |Escape(s[..i])| + 2 < size
    ensures Escape(s[..i + 1]) == Escape(s[..i]) + EscapeChar(s[i]) && Kept(s[..i + 1], size) == i + 1
  {
    assert s[..i + 1][..i] == s[..i];
  }

  lemma EscapeNothing(s: string, size: nat)
    ensures Escape(s[..0]) == "" && Kept(s[..0], size) == 0
  {
  }

  lemma {:induction false} KeptStays(s: string, i: nat, size: nat)
    requires i <= |s| && Kept(s[..i], size) == i
    requires i == |s| || |Escape(s[..i])| + 2 >= size
    ensures Kept(s, size) == i
    decreases |s|
  {
    if i == |s| {
      assert s[..i] == s;
    } else {
      var init := s[..|s| - 1];
      assert init[..i] == s[..i];
      KeptStays(init, i, size);
    }
  }

  /** The output is the escape of a prefix, never a split escape, always inside the buffer; and the
      prefix is as long as it can be: the next character was refused for want of room. */
  lemma {:induction false} KeptIsMaximal(s: string, size: nat)
    requires size > 0
    ensures var k := Kept(s, size); |Escape(s[..k])| < size && (k < |s| ==> |Escape(s[..k])| + 2 >= size)
    decreases |s|
  {
    if s != "" {
      var init := s[..|s| - 1];
      var k := Kept(init, size);
      KeptIsMaximal(init, size);
      assert init[..k] == s[..k];
      if k == |init| && |Escape(s[..k])| + 2 < size {
        assert s[..k + 1] == s && s[..k] == init;
      }
    }
  }

  /** Nothing is cut off exactly when everything before the last character leaves room for two more
      characters and the terminator. */
  lemma {:induction false} KeepsAllIff(s: string, size: nat)
    ensures Kept(s, size) == |s| <==> s == "" || |Escape(s[..|s| - 1])| + 2 < size
  {
    if s != "" {
      var init := s[..|s| - 1];
      if |Escape(init)| + 2 < size {
        EscapeGrows(init, size);
      }
      assert s[..|init|] == init;
    }
  }

  lemma {:induction false} EscapeGrows(s: string, size: nat)
    requires |Escape(s)| + 2 < size
    ensures Kept(s, size) == |s|
  {
    if s != "" {
      EscapeGrows(s[..|s| - 1], size);
    }
  }

  /** What a reader that only drops backslashes gets back: escapes of control characters turn into letters. */
  function Lettered(c: char): char {
    if c == '\n' then 'n' else if c == '\r' then 'r' else if c == '\t' then 't' else c
  }

  function Flat(s: string): (r: string)
    ensures |r| == |s| && forall i :: 0 <= i < |s| ==> r[i] == Lettered(s[i])
  {
    seq(|s|, i requires 0 <= i < |s| => Lettered(s[i]))
  }

  lemma EscapeCharReads(c: char)
    ensures RawOk(EscapeChar(c)) && Unslash(EscapeChar(c)) == [Lettered(c)]
  {
  }

  lemma {:induction false} EscapeReadsBack(s: string)
    ensures RawOk(Escape(s)) && Unslash(Escape(s)) == Flat(s)
  {
    if s == "" {
    } else {
      var init, last := s[..|s| - 1], s[|s| - 1];
      var e := EscapeChar(last);
      EscapeReadsBack(init);
      EscapeCharReads(last);
      RawConcat(Escape(init), e);
      assert Flat(s) == Flat(init) + [Lettered(last)];
    }
  }

  /** What a literal body means to a reader that follows section 7 of RFC 8259, as far as escapes of two
      characters go. */
  function Meaning(raw: string): Option<string> {
    if raw == "" then Some("")
    else if raw[0] == '"' then None
    else if raw[0] != '\\' then Put(Some(raw[0]), Meaning(raw[1..]))
    else if |raw| == 1 then None
    else Put(Unescaped(raw[1]), Meaning(raw[2..]))
  }

  function Put(c: Option<char>, rest: Option<string>): Option<string> {
    if c.Some? && rest.Some? then Some([c.value] + rest.value) else None
  }

  function Unescaped(c: char): Option<char> {
    match c
    case '"' => Some('"')
    case '\\' => Some('\\')
    case '/' => Some('/')
    case 'b' => Some('\U{8}')
    case 'f' => Some('\U{C}')
    case 'n' => Some('\n')
    case 'r' => Some('\r')
    case 't' => Some('\t')
    case _ => None
  }

  /** To such a reader the escape of any text is that text, control characters included. */
  lemma {:induction false} EscapeMeansText(s: string)
    ensures Meaning(Escape(s)) == Some(s)
  {
    if s != "" {
      var init, last := s[..|s| - 1], s[|s| - 1];
      EscapeMeansText(init);
      EscapeCharMeans(last);
      MeaningConcat(Escape(init), EscapeChar(last));
      assert init + [last] == s;
    }
  }

  lemma EscapeCharMeans(c: char)
    ensures Meaning(EscapeChar(c)) == Some([c])
  {
    var e := EscapeChar(c);
    assert Meaning("") == Some("") && [c] + "" == [c];
    if |e| == 2 {
      assert e[0] == '\\' && e[2..] == "" && Unescaped(e[1]) == Some(c);
      assert Meaning(e) == Put(Unescaped(e[1]), Meaning(e[2..]));
    } else {
      assert e[0] == c && e[1..] == "";
      assert Meaning(e) == Put(Some(c), Meaning(e[1..]));
    }
  }

  lemma {:induction false} MeaningConcat(a: string, b: string)
    requires Meaning(a).Some? && Meaning(b).Some?
    ensures Meaning(a + b) == Some(Meaning(a).value + Meaning(b).value)
    decreases |a|
  {
    if a == "" {
      assert a + b == b && Meaning(a) == Some("") && "" + Meaning(b).value == Meaning(b).value;
    } else {
      var k := if a[0] == '\\' then 2 else 1;
      assert (a + b)[k..] == a[k..] + b;
      MeaningConcat(a[k..], b);
      var c := if k == 2 then Unescaped(a[1]) else Some(a[0]);
      assert Meaning(a) == Put(c, Meaning(a[k..]));
      assert Meaning(a + b) == Put(c, Meaning((a + b)[k..]));
      assert [c.value] + (Meaning(a[k..]).value + Meaning(b).value) == Meaning(a).value + Meaning(b).value;
    }
  }

  predicate NoControl(s: string) {
    forall i :: 0 <= i < |s| ==> s[i] != '\n' && s[i] != '\r' && s[i] != '\t'
  }

  /** What the receiver reads back for a field sent through a buffer of `size` bytes. */
  function ReadBack(s: string, size: nat): string { Flat(s[..Kept(s, size)]) }

  /** A field survives exactly when it fits and holds no newline, carriage return or tab. */
  lemma SurvivesIff(s: string, size: nat)
    ensures ReadBack(s, size) == s <==> Sendable(s, size)
  {
    KeepsAllIff(s, size);
    var k := Kept(s, size);
    if k == |s| {
      assert s[..k] == s;
      if ReadBack(s, size) == s {
        forall i | 0 <= i < |s| ensures s[i] != '\n' && s[i] != '\r' && s[i] != '\t' {
          assert Flat(s)[i] == Lettered(s[i]);
        }
      }
    }
  }

  // ---------------------------------------------------------------- payloads

  const ID_SIZE := 128
  const CHANNEL_SIZE := 256

  /** `"key":"%s"` */
  function Pair(key: string, raw: string): string { Quote(key) + ":" + Quote(raw) }

  /** Escaping a field through its own stack buffer. */
  method EscapeField(s: string, size: nat) returns (e: string)
    requires size > 0
    ensures e == Escaped(s, size) && |e| < size
  {
    var buf := new char[size];
    JsonEscape(Some(s), buf);
    KeptIsMaximal(s, size);
    e := buf[..|Escaped(s, size)|];
  }

  /** `oddsockets_start_typing` and `oddsockets_stop_typing`: the payload, through a 512-byte buffer. */
  method TypingPayload(userId: string, channel: string) returns (payload: string)
    ensures payload == Print(Obj(TypingFields(userId, channel)))
  {
    var eu := EscapeField(userId, ID_SIZE);
    var ec := EscapeField(channel, CHANNEL_SIZE);
    payload := Take("{" + (Pair("userId", eu) + "," + Pair("channel", ec)) + "}", 511);
    PrintsRecord(TypingFields(userId, channel));
  }

  /** `oddsockets_add_reaction`: five fields through a 1024-byte buffer; the name defaults to the id. */
  method AddReactionPayload(messageId: string, channel: string, emoji: string, userId: string,
                            userName: Option<string>) returns (payload: string)
    ensures payload == Print(Obj(AddReactionFields(messageId, channel, emoji, userId, userName)))
  {
    var em := EscapeField(messageId, ID_SIZE);
    var ec := EscapeField(channel, CHANNEL_SIZE);
    var ee := EscapeField(emoji, ID_SIZE);
    var eu := EscapeField(userId, ID_SIZE);
    var en := EscapeField(if userName.Some? then userName.value else userId, ID_SIZE);
    payload := Take("{" + (Pair("messageId", em) + "," + (Pair("channel", ec) + "," + (Pair("emoji", ee) + "," +
                    (Pair("userId", eu) + "," + Pair("userName", en))))) + "}", 1023);
    PrintsRecord(AddReactionFields(messageId, channel, emoji, userId, userName));
  }

  /** `oddsockets_remove_reaction`: four fields through a 768-byte buffer. */
  method RemoveReactionPayload(messageId: string, channel: string, emoji: string, userId: string)
    returns (payload: string)
    ensures payload == Print(Obj(RemoveReactionFields(messageId, channel, emoji, userId)))
  {
    var em := EscapeField(messageId, ID_SIZE);
    var ec := EscapeField(channel, CHANNEL_SIZE);
    var ee := EscapeField(emoji, ID_SIZE);
    var eu := EscapeField(userId, ID_SIZE);
    payload := Take("{" + (Pair("messageId", em) + "," + (Pair("channel", ec) + "," + (Pair("emoji", ee) + "," +
                    Pair("userId", eu)))) + "}", 767);
    PrintsRecord(RemoveReactionFields(messageId, channel, emoji, userId));
  }

  // ---------------------------------------------------------------- the payloads as objects

  function Member(key: string, raw: string, tail: Fields): (r: Fields)
    ensures IsRecord(tail) ==>
              IsRecord(r) &&
              RecordText(r) == if tail.NoFields? then Pair(key, raw) else Pair(key, raw) + "," + RecordText(tail)
  {
    Field("", key, "", "", Str(raw), "", tail)
  }

  function TypingFields(userId: string, channel: string): Fields {
    Member("userId", Escaped(userId, ID_SIZE), Member("channel", Escaped(channel, CHANNEL_SIZE), NoFields("")))
  }

  function RemoveReactionFields(messageId: string, channel: string, emoji: string, userId: string): Fields {
    ReactionFields(messageId, channel, emoji, userId, NoFields(""))
  }

  function AddReactionFields(messageId: string, channel: string, emoji: string, userId: string,
                             userName: Option<string>): Fields
  {
    var name := if userName.Some? then userName.value else userId;
    ReactionFields(messageId, channel, emoji, userId, Member("userName", Escaped(name, ID_SIZE), NoFields("")))
  }

  function ReactionFields(messageId: string, channel: string, emoji: string, userId: string, tail: Fields): Fields {
    Member("messageId", Escaped(messageId, ID_SIZE),
      Member("channel", Escaped(channel, CHANNEL_SIZE),
        Member("emoji", Escaped(emoji, ID_SIZE), Member("userId", Escaped(userId, ID_SIZE), tail))))
  }

  /** A flat list of string members without whitespace, as these formats print it. */
  predicate IsRecord(fs: Fields) {
    match fs
    case NoFields(gap) => gap == ""
    case Field(lead, _, mid, pre, value, trail, tail) =>
      lead == "" && mid == "" && pre == "" && value.Str? && trail == "" && IsRecord(tail)
  }

  function RecordText(fs: Fields): string
    requires IsRecord(fs)
  {
    match fs
    case NoFields(_) => ""
    case Field(_, key, _, _, value, _, tail) =>
      if tail.NoFields? then Pair(key, value.raw) else Pair(key, value.raw) + "," + RecordText(tail)
  }

  lemma {:induction false} PrintsRecord(fs: Fields)
    requires IsRecord(fs)
    ensures PrintFields(fs) == RecordText(fs)
  {
    if fs.Field? {
      PrintsRecord(fs.tail);
      var q, r := Quote(fs.key), Print(fs.value);
      assert "" + q + "" + ":" + "" + r + "" == Pair(fs.key, fs.value.raw);
      if fs.tail.NoFields? {
        assert Pair(fs.key, fs.value.raw) + "" + "" == Pair(fs.key, fs.value.raw);
      }
    }
  }

  // ---------------------------------------------------------------- what the receiver reads back

  /** A record whose keys are plain names and whose texts are literals that fit the table. */
  ghost predicate RecordOk(fs: Fields) {
    IsRecord(fs) &&
    (fs.Field? ==>
       Plain(fs.key) && fs.key != "" && |fs.key| < MAX_KEY_LEN &&
       RawOk(fs.value.raw) && |Unslash(fs.value.raw)| < MAX_VALUE_LEN && RecordOk(fs.tail))
  }

  /** The text of the first member with this key. */
  function RecordGet(fs: Fields, key: string): Option<string>
    requires RecordOk(fs)
  {
    if fs.NoFields? then None
    else if fs.key == key then Some(Unslash(fs.value.raw))
    else RecordGet(fs.tail, key)
  }

  function Count(fs: Fields): nat { if fs.NoFields? then 0 else 1 + Count(fs.tail) }

  lemma {:induction false} RecordIsReadable(fs: Fields)
    requires RecordOk(fs)
    ensures ReadableObject(fs) && |Entries(Leaves(fs, []))| == Count(fs)
    ensures forall key :: Lookup(Entries(Leaves(fs, [])), key) == RecordGet(fs, key)
  {
    if fs.Field? {
      RecordIsReadable(fs.tail);
      PlainIsRaw(fs.key);
      ConsScalar(fs);
      var rest := Entries(Leaves(fs.tail, []));
      assert Entries(Leaves(fs, []))[1..] == rest;
    }
  }

  /** Every field of a record of at most 64 members is found again by its key. */
  lemma RecordReadsBack(fs: Fields)
    requires RecordOk(fs) && Count(fs) <= MAX_KEYS
    ensures forall key :: Lookup(Parse(Print(Obj(fs))), key) == RecordGet(fs, key)
  {
    RecordIsReadable(fs);
    FitsTable(Entries(Leaves(fs, [])));
    hide *;
    ParsesToLeaves(fs, "", "");
    assert "" + Print(Obj(fs)) + "" == Print(Obj(fs));
  }

  lemma FitsTable(t: seq<Entry>)
    requires |t| <= MAX_KEYS
    ensures Upto(t) == t
    ensures AllBlank(Ctype, "")
  {
  }

  lemma EscapedIsLiteral(s: string, size: nat)
    requires 0 < size <= MAX_VALUE_LEN
    ensures RawOk(Escaped(s, size)) && Unslash(Escaped(s, size)) == ReadBack(s, size)
    ensures |ReadBack(s, size)| < MAX_VALUE_LEN
  {
    EscapeReadsBack(s[..Kept(s, size)]);
    KeptIsMaximal(s, size);
  }

  /** `json_parse` of an add_reaction payload returns each field as far as it fits; the name defaults
      to the user id. */
  lemma AddReactionReadsBack(messageId: string, channel: string, emoji: string, userId: string,
                             userName: Option<string>)
    ensures var t := Parse(Print(Obj(AddReactionFields(messageId, channel, emoji, userId, userName))));
            Lookup(t, "messageId") == Some(ReadBack(messageId, ID_SIZE)) &&
            Lookup(t, "channel") == Some(ReadBack(channel, CHANNEL_SIZE)) &&
            Lookup(t, "emoji") == Some(ReadBack(emoji, ID_SIZE)) &&
            Lookup(t, "userId") == Some(ReadBack(userId, ID_SIZE)) &&
            Lookup(t, "userName") == Some(ReadBack(if userName.Some? then userName.value else userId, ID_SIZE))
  {
    var name := if userName.Some? then userName.value else userId;
    var f5 := Member("userName", Escaped(name, ID_SIZE), NoFields(""));
    var f4 := Member("userId", Escaped(userId, ID_SIZE), f5);
    var f3 := Member("emoji", Escaped(emoji, ID_SIZE), f4);
    var f2 := Member("channel", Escaped(channel, CHANNEL_SIZE), f3);
    var f1 := Member("messageId", Escaped(messageId, ID_SIZE), f2);
    assert AddReactionFields(messageId, channel, emoji, userId, userName) == f1;
    hide Member, Escaped, ReadBack, RecordOk, RecordGet, Count, Parse, Print, Plain;
    KeysArePlain();
    KeysDiffer();
    MemberReadsBack("userName", name, ID_SIZE, NoFields(""));
    MemberReadsBack("userId", userId, ID_SIZE, f5);
    MemberReadsBack("emoji", emoji, ID_SIZE, f4);
    MemberReadsBack("channel", channel, CHANNEL_SIZE, f3);
    MemberReadsBack("messageId", messageId, ID_SIZE, f2);
    RecordReadsBack(f1);
  }

  lemma MemberReadsBack(key: string, s: string, size: nat, tail: Fields)
    requires Plain(key) && key != "" && |key| < MAX_KEY_LEN && 0 < size <= MAX_VALUE_LEN
    requires tail == NoFields("") || RecordOk(tail)
    ensures var fs := Member(key, Escaped(s, size), tail);
            RecordOk(tail) && RecordOk(fs) && Count(fs) == Count(tail) + 1 &&
            forall k :: RecordGet(fs, k) == if k == key then Some(ReadBack(s, size)) else RecordGet(tail, k)
    ensures Count(NoFields("")) == 0
  {
    EscapedIsLiteral(s, size);
  }

  lemma KeysArePlain()
    ensures Plain("messageId") && Plain("channel") && Plain("emoji") && Plain("userId") && Plain("userName")
  {
  }

  lemma KeysDiffer()
    ensures "messageId" != "channel" && "messageId" != "emoji" && "messageId" != "userId" && "messageId" != "userName"
    ensures "channel" != "emoji" && "channel" != "userId" && "channel" != "userName"
    ensures "emoji" != "userId" && "emoji" != "userName" && "userId" != "userName"
  {
  }

  /** The field fits its buffer and holds no newline, carriage return or tab. */
  predicate Sendable(s: string, size: nat) {
    (s == "" || |Escape(s[..|s| - 1])| + 2 < size) && NoControl(s)
  }

  /** The whole path: add_reaction emitted, framed, deframed and parsed on the other side gives back
      every field, exactly when all of them are sendable: in buffers of 128 bytes, the channel in 256. */
  lemma ReactionArrives(messageId: string, channel: string, emoji: string, userId: string, userName: Option<string>)
    ensures var payload := Print(Obj(AddReactionFields(messageId, channel, emoji, userId, userName)));
            var name := if userName.Some? then userName.value else userId;
            var e := EventFrame.ParseFrame(EventFrame.Frame("add_reaction", Some(payload)));
            e == Some(EventFrame.Event("add_reaction", Some(payload))) &&
            var t := Parse(e.value.payload.value);
            (Lookup(t, "messageId") == Some(messageId) && Lookup(t, "channel") == Some(channel) &&
             Lookup(t, "emoji") == Some(emoji) && Lookup(t, "userId") == Some(userId) &&
             Lookup(t, "userName") == Some(name)
             <==> Sendable(messageId, 128) && Sendable(channel, 256) && Sendable(emoji, 128) &&
                  Sendable(userId, 128) && Sendable(name, 128))
  {
    hide *;
    var name := if userName.Some? then userName.value else userId;
    Survives(messageId);
    Survives(channel);
    Survives(emoji);
    Survives(userId);
    Survives(name);
    AddReactionReadsBack(messageId, channel, emoji, userId, userName);
    EventNames();
    SurvivesFraming("add_reaction", AddReactionFields(messageId, channel, emoji, userId, userName));
  }

  lemma Survives(s: string)
    ensures ReadBack(s, ID_SIZE) == s <==> Sendable(s, 128)
    ensures ReadBack(s, CHANNEL_SIZE) == s <==> Sendable(s, 256)
  {
    SurvivesIff(s, 128);
    SurvivesIff(s, 256);
  }

  lemma EventNames()
    ensures Plain("add_reaction") && Plain("remove_reaction") && Plain("start_typing") && Plain("stop_typing")
    ensures |"add_reaction"| < 64 && |"remove_reaction"| < 64 && |"start_typing"| < 64 && |"stop_typing"| < 64
  {
  }

  /** The same for remove_reaction and its four fields. */
  lemma RemovalArrives(messageId: string, channel: string, emoji: string, userId: string)
    ensures var payload := Print(Obj(RemoveReactionFields(messageId, channel, emoji, userId)));
            var e := EventFrame.ParseFrame(EventFrame.Frame("remove_reaction", Some(payload)));
            e == Some(EventFrame.Event("remove_reaction", Some(payload))) &&
            var t := Parse(e.value.payload.value);
            (Lookup(t, "messageId") == Some(messageId) && Lookup(t, "channel") == Some(channel) &&
             Lookup(t, "emoji") == Some(emoji) && Lookup(t, "userId") == Some(userId)
             <==> Sendable(messageId, 128) && Sendable(channel, 256) && Sendable(emoji, 128) && Sendable(userId, 128))
  {
    hide *;
    Survives(messageId);
    Survives(channel);
    Survives(emoji);
    Survives(userId);
    RemovalReadsBack(messageId, channel, emoji, userId);
    EventNames();
    SurvivesFraming("remove_reaction", RemoveReactionFields(messageId, channel, emoji, userId));
  }

  lemma RemovalReadsBack(messageId: string, channel: string, emoji: string, userId: string)
    ensures var t := Parse(Print(Obj(RemoveReactionFields(messageId, channel, emoji, userId))));
            Lookup(t, "messageId") == Some(ReadBack(messageId, ID_SIZE)) &&
            Lookup(t, "channel") == Some(ReadBack(channel, CHANNEL_SIZE)) &&
            Lookup(t, "emoji") == Some(ReadBack(emoji, ID_SIZE)) &&
            Lookup(t, "userId") == Some(ReadBack(userId, ID_SIZE))
  {
    var f4 := Member("userId", Escaped(userId, ID_SIZE), NoFields(""));
    var f3 := Member("emoji", Escaped(emoji, ID_SIZE), f4);
    var f2 := Member("channel", Escaped(channel, CHANNEL_SIZE), f3);
    var f1 := Member("messageId", Escaped(messageId, ID_SIZE), f2);
    assert RemoveReactionFields(messageId, channel, emoji, userId) == f1;
    hide Member, Escaped, ReadBack, RecordOk, RecordGet, Count, Parse, Print, Plain;
    KeysArePlain();
    KeysDiffer();
    MemberReadsBack("userId", userId, ID_SIZE, NoFields(""));
    MemberReadsBack("emoji", emoji, ID_SIZE, f4);
    MemberReadsBack("channel", channel, CHANNEL_SIZE, f3);
    MemberReadsBack("messageId", messageId, ID_SIZE, f2);
    RecordReadsBack(f1);
  }

  /** And for the typing events and their two. */
  lemma TypingArrives(event: string, userId: string, channel: string)
    requires event == "start_typing" || event == "stop_typing"
    ensures var payload := Print(Obj(TypingFields(userId, channel)));
            var e := EventFrame.ParseFrame(EventFrame.Frame(event, Some(payload)));
            e == Some(EventFrame.Event(event, Some(payload))) &&
            var t := Parse(e.value.payload.value);
            (Lookup(t, "userId") == Some(userId) && Lookup(t, "channel") == Some(channel)
             <==> Sendable(userId, 128) && Sendable(channel, 256))
  {
    hide *;
    Survives(channel);
    Survives(userId);
    TypingReadsBack(userId, channel);
    EventNames();
    SurvivesFraming(event, TypingFields(userId, channel));
  }

  lemma TypingReadsBack(userId: string, channel: string)
    ensures var t := Parse(Print(Obj(TypingFields(userId, channel))));
            Lookup(t, "userId") == Some(ReadBack(userId, ID_SIZE)) &&
            Lookup(t, "channel") == Some(ReadBack(channel, CHANNEL_SIZE))
  {
    var f2 := Member("channel", Escaped(channel, CHANNEL_SIZE), NoFields(""));
    var f1 := Member("userId", Escaped(userId, ID_SIZE), f2);
    assert TypingFields(userId, channel) == f1;
    hide Member, Escaped, ReadBack, RecordOk, RecordGet, Count, Parse, Print, Plain;
    KeysArePlain();
    KeysDiffer();
    MemberReadsBack("channel", channel, CHANNEL_SIZE, NoFields(""));
    MemberReadsBack("userId", userId, ID_SIZE, f2);
    RecordReadsBack(f1);
  }

  lemma SurvivesFraming(event: string, fs: Fields)
    requires Plain(event) && |event| < 64
    ensures EventFrame.ParseFrame(EventFrame.Frame(event, Some(Print(Obj(fs))))) ==
            Some(EventFrame.Event(event, Some(Print(Obj(fs)))))
  {
    hide PrintFields, EventFrame.ParseFrame, EventFrame.Frame;
    EventFrame.PayloadUnchangedIff(event, Print(Obj(fs)));
  }
}
