/** Socket.IO EVENT frames: `send_socketio_event` prints `42["event",payload]`,
    `parse_socketio_event_frame` takes it apart again, in place. */
module EventFrame {
  import opened CStrings
  import opened StringScan

  const EVENT_SIZE := 64

  function PayloadText(payload: Option<string>): string {
    if payload.None? then "" else payload.value
  }

  /** A payload is sent when there is one and it is not empty. */
  function Frame(event: string, payload: Option<string>): string {
    if PayloadText(payload) != "" then "42[" + Quote(event) + "," + payload.value + "]" else "42[" + Quote(event) + "]"
  }

  /** The frame as the source builds it: `snprintf` into `strlen(event) + strlen(payload) + 16` bytes.
      Nothing is ever cut off. */
  method BuildFrame(event: string, payload: Option<string>) returns (frame: string)
    ensures frame == Frame(event, payload)
    ensures frame == if payload.Some? && payload.value != "" then "42[\"" + event + "\"," + payload.value + "]"
                     else "42[\"" + event + "\"]"
  {
    var len := |event| + (if payload.Some? then |payload.value| else 0) + 16;
    if payload.Some? && payload.value != "" {
      frame := Take("42[" + Quote(event) + "," + payload.value + "]", len - 1);
    } else {
      frame := Take("42[" + Quote(event) + "]", len - 1);
    }
  }

  /** Where the argument of the event starts, after the comma and blanks, and the event name read. */
  function Header(frame: string): (r: Option<(string, nat)>)
    ensures r.Some? ==> r.value.1 <= |frame| && |r.value.0| < EVENT_SIZE
  {
    var open := StrChr(frame, '[');
    if open.None? then None
    else
      var name := ExtractString(frame, SkipBlank(Json, frame, open.value + 1), EVENT_SIZE);
      if name.None? then None
      else
        var p := SkipBlank(Json, frame, name.value.1);
        Some((name.value.0, if At(frame, p, ',') then SkipBlank(Json, frame, p + 1) else p))
  }

  /** The argument: none at the closing bracket; otherwise the rest, less one final `]` and the blanks after it. */
  function Argument(frame: string, p: nat): Option<string>
    requires p <= |frame|
  {
    if p == |frame| || frame[p] == ']' then None
    else
      var end := TrimEnd(Json, frame, p, |frame|);
      Some(if end > p && frame[end - 1] == ']' then frame[p..end - 1] else frame[p..])
  }

  datatype Event = Event(name: string, payload: Option<string>)

  function ParseFrame(frame: string): Option<Event> {
    var h := Header(frame);
    if h.None? then None else Some(Event(h.value.0, Argument(frame, h.value.1)))
  }

  /** The parser on its own buffer: it writes the event name out and ends the payload with a NUL
      inside the frame, so that the payload is the C string at the returned index. */
  method ParseEventFrame(buf: array<char>, frame: string, eventOut: array<char>)
    returns (ok: bool, payload: Option<nat>)
    requires Holds(buf, frame) && '\0' !in frame && eventOut.Length == EVENT_SIZE && buf != eventOut
    modifies buf, eventOut
    ensures ok == ParseFrame(frame).Some?
    ensures ok ==> var e := ParseFrame(frame).value;
                   Holds(eventOut, e.name) && payload.Some? == e.payload.Some? &&
                   (payload.Some? ==> payload.value <= buf.Length && CText(buf[payload.value..]) == e.payload.value)
    ensures !ok ==> payload.None?
  {
    var p := ReadHeader(frame, eventOut);
    if p.None? { return false, None; }
    payload := CutArgument(buf, frame, p.value);
    return true, payload;
  }

  method ReadHeader(frame: string, eventOut: array<char>) returns (at: Option<nat>)
    requires eventOut.Length == EVENT_SIZE
    modifies eventOut
    ensures at.Some? == Header(frame).Some?
    ensures at.Some? ==> at.value == Header(frame).value.1 && Holds(eventOut, Header(frame).value.0)
  {
    var open := StrChr(frame, '[');
    if open.None? { return None; }
    var p := SkipWs(Json, frame, open.value + 1);
    var after := ExtractStringInto(frame, p, eventOut);
    if after.None? { return None; }
    p := SkipWs(Json, frame, after.value);
    if p < |frame| && frame[p] == ',' {
      p := SkipWs(Json, frame, p + 1);
    }
    return Some(p);
  }

  method CutArgument(buf: array<char>, frame: string, p: nat) returns (payload: Option<nat>)
    requires Holds(buf, frame) && '\0' !in frame && p <= |frame|
    modifies buf
    ensures payload.Some? == Argument(frame, p).Some?
    ensures payload.Some? ==> payload.value == p && CText(buf[p..]) == Argument(frame, p).value
  {
    hide TrimEnd, CText;
    if p == |frame| || frame[p] == ']' { return None; }
    var end := TrimTrailing(Json, frame, p, |frame|);
    if end > p && frame[end - 1] == ']' {
      buf[end - 1] := '\0';
      PayloadInPlace(buf[p..], frame[p..end - 1], frame);
    } else {
      PayloadInPlace(buf[p..], frame[p..], frame);
    }
    return Some(p);
  }

  lemma PayloadInPlace(tail: seq<char>, t: string, frame: string)
    requires '\0' !in frame && (forall i :: 0 <= i < |t| ==> t[i] in frame)
    requires |t| < |tail| && tail[|t|] == '\0'
    requires forall i :: 0 <= i < |t| ==> tail[i] == t[i]
    ensures CText(tail) == t
  {
    CTextOf(tail, t);
  }

  // ---------------------------------------------------------------- round trip

  /** What the receiving side makes of a payload: leading blanks are lost, and a payload that then
      starts with `]` (or is empty) is taken for no payload at all. */
  function Received(payload: string): Option<string> {
    var q := SkipBlank(Json, payload, 0);
    if q == |payload| || payload[q] == ']' then None else Some(payload[q..])
  }

  /** Every frame this side sends for a plain event name of at most 63 characters comes back as that
      event, with exactly the payload `Received` says. */
  lemma FrameRoundTrip(event: string, payload: string)
    requires Plain(event) && |event| < EVENT_SIZE && payload != ""
    ensures ParseFrame(Frame(event, Some(payload))) == Some(Event(event, Received(payload)))
  {
    hide *;
    var f := Frame(event, Some(payload));
    var head := "42[" + Quote(event) + ",";
    FrameText(event, payload);
    QuoteLength(event);
    OccursSelf(head + payload, "]");
    OccursSplit(f, 0, head, payload);
    HeaderOf(f, event, payload, "]");
    PayloadOf(f, |head|, payload);
    ParsedAs(f, event, SkipBlank(Json, f, |event| + 6));
  }

  lemma FrameText(event: string, payload: string)
    requires payload != ""
    ensures Frame(event, Some(payload)) == "42[" + Quote(event) + "," + payload + "]"
  {
  }

  /** The payload comes back unchanged exactly when it starts with neither a blank nor `]`. */
  lemma PayloadUnchangedIff(event: string, payload: string)
    requires Plain(event) && |event| < EVENT_SIZE && payload != ""
    ensures ParseFrame(Frame(event, Some(payload))) == Some(Event(event, Some(payload))) <==>
            !IsBlank(Json, payload[0]) && payload[0] != ']'
  {
    FrameRoundTrip(event, payload);
    var q := SkipBlank(Json, payload, 0);
    if q > 0 && Received(payload).Some? { assert |Received(payload).value| < |payload|; }
  }

  /** The event name comes back unchanged exactly when it is plain and has at most 63 characters. */
  lemma NameUnchangedIff(event: string, payload: Option<string>)
    ensures var h := Header(Frame(event, payload));
            h.Some? && (h.value.0 == event <==> Plain(event) && |event| < 64)
  {
    var f := Frame(event, payload);
    FrameStart(event, payload);
    Opening(f, event);
    ReadsItselfIff(f, 3, event, EVENT_SIZE);
  }

  lemma FrameStart(event: string, payload: Option<string>)
    ensures Occurs(Frame(event, payload), 0, "42[" + Quote(event))
  {
  }

  /** The name stands in quotes behind the first bracket. */
  lemma Opening(f: string, event: string)
    requires Occurs(f, 0, "42[" + Quote(event))
    ensures StrChr(f, '[') == Some(2) && SkipBlank(Json, f, 3) == 3 && Occurs(f, 3, Quote(event))
  {
    OccursSplit(f, 0, "42[", Quote(event));
    assert "42["[0] == '4' && "42["[1] == '2' && "42["[2] == '[';
    assert f[0] == '4' && f[1] == '2' && f[2] == '[';
    QuoteParts(f, 3, event);
  }

  /** No payload, or an empty one, comes back as none. */
  lemma BareFrameRoundTrip(event: string)
    requires Plain(event) && |event| < EVENT_SIZE
    ensures ParseFrame(Frame(event, None)) == Some(Event(event, None))
    ensures ParseFrame(Frame(event, Some(""))) == Some(Event(event, None))
  {
    var f := "42[" + Quote(event) + "]";
    OccursSelf("42[" + Quote(event), "]");
    NameOf(f, event);
  }

  /** The name is read from behind the first bracket. */
  lemma NameOf(f: string, event: string)
    requires Plain(event) && |event| < EVENT_SIZE && Occurs(f, 0, "42[" + Quote(event))
    ensures StrChr(f, '[') == Some(2)
    ensures SkipBlank(Json, f, 3) == 3
    ensures ExtractString(f, 3, EVENT_SIZE) == Some((event, |event| + 5))
  {
    Opening(f, event);
    PlainIsRaw(event);
    ReadsLiteral(f, 3, event, EVENT_SIZE);
  }

  lemma HeaderOf(f: string, event: string, payload: string, rest: string)
    requires Plain(event) && |event| < EVENT_SIZE && f == "42[" + Quote(event) + "," + payload + rest
    ensures Header(f) == Some((event, SkipBlank(Json, f, |event| + 6)))
  {
    var head := "42[" + Quote(event);
    OccursSelf(head + ",", payload + rest);
    assert head + "," + (payload + rest) == f;
    OccursSplit(f, 0, head, ",");
    OccursChar(f, |event| + 5, ',');
    NameOf(f, event);
    assert SkipBlank(Json, f, |event| + 5) == |event| + 5;
  }

  lemma PayloadOf(f: string, at: nat, payload: string)
    requires Occurs(f, at, payload) && |f| == at + |payload| + 1 && f[at + |payload|] == ']'
    ensures Argument(f, SkipBlank(Json, f, at)) == Received(payload)
  {
    OccursSlice(f, at, payload);
    var q := SkipBlank(Json, payload, 0);
    assert forall i :: 0 <= i < |payload| ==> f[at + i] == payload[i];
    SkipBlankOver(Json, f, at, payload[..q]);
    assert f[at + q..at + |payload|] == payload[q..];
  }

  // ---------------------------------------------------------------- frames of any sender

  /** A frame with anything but a bracket before its list (a namespace, say) and whitespace between its
      tokens and after it: the event is read, and the payload ends before the closing bracket. */
  lemma ReadsAnyFrame(f: string, head: string, gap: string, raw: string, mid: string, pre: string,
                      payload: string, tail: string)
    requires f == head + "[" + gap + Quote(raw) + mid + "," + pre + payload + "]" + tail
    requires '[' !in head && AllBlank(Json, gap) && AllBlank(Json, mid) && AllBlank(Json, pre) && AllBlank(Json, tail)
    requires RawOk(raw) && |Unslash(raw)| < EVENT_SIZE
    requires payload != "" && !IsBlank(Json, payload[0]) && payload[0] != ']'
    ensures ParseFrame(f) == Some(Event(Unslash(raw), Some(payload)))
  {
    hide *;
    var arg := head + "[" + gap + Quote(raw) + mid + "," + pre;
    var rest := payload + "]" + tail;
    assert f == arg + rest && rest[0] == payload[0];
    QuoteLength(raw);
    AnyHeader(f, head, gap, raw, mid, pre, rest);
    assert f[|arg|..] == rest;
    AnyArgument(f, |arg|, payload, tail);
    ParsedAs(f, Unslash(raw), |arg|);
  }

  lemma QuoteLength(raw: string)
    ensures |Quote(raw)| == |raw| + 2
  {
  }

  lemma ParsedAs(f: string, event: string, at: nat)
    requires Header(f) == Some((event, at))
    ensures at <= |f| && ParseFrame(f) == Some(Event(event, Argument(f, at)))
  {
  }

  lemma AnyHeader(f: string, head: string, gap: string, raw: string, mid: string, pre: string, rest: string)
    requires f == head + "[" + gap + Quote(raw) + mid + "," + pre + rest
    requires '[' !in head && AllBlank(Json, gap) && AllBlank(Json, mid) && AllBlank(Json, pre)
    requires RawOk(raw) && |Unslash(raw)| < EVENT_SIZE && rest != "" && !IsBlank(Json, rest[0])
    ensures Header(f) == Some((Unslash(raw), |head| + 1 + |gap| + |raw| + 2 + |mid| + 1 + |pre|))
  {
    hide *;
    HeaderParts(f, head, gap, raw, mid, pre, rest);
    HeaderAt(f, |head|, gap, raw, mid, pre);
  }

  lemma HeaderAt(f: string, open: nat, gap: string, raw: string, mid: string, pre: string)
    requires At(f, open, '[') && forall k :: 0 <= k < open ==> f[k] != '['
    requires AllBlank(Json, gap) && AllBlank(Json, mid) && AllBlank(Json, pre)
    requires RawOk(raw) && |Unslash(raw)| < EVENT_SIZE
    requires var name := open + 1 + |gap|;
             var comma := name + |raw| + 2 + |mid|;
             Occurs(f, open + 1, gap) && Occurs(f, name, Quote(raw)) && Occurs(f, name + |raw| + 2, mid) &&
             At(f, comma, ',') && Occurs(f, comma + 1, pre) && !AtBlank(Json, f, comma + 1 + |pre|)
    ensures Header(f) == Some((Unslash(raw), open + 1 + |gap| + |raw| + 2 + |mid| + 1 + |pre|))
  {
    var name := open + 1 + |gap|;
    var comma := name + |raw| + 2 + |mid|;
    hide *;
    FirstBracket(f, open);
    QuoteParts(f, name, raw);
    NotBlankAt(f, name, '"');
    NotBlankAt(f, comma, ',');
    SkipBlankOver(Json, f, open + 1, gap);
    ReadsLiteral(f, name, raw, EVENT_SIZE);
    SkipBlankOver(Json, f, name + |raw| + 2, mid);
    SkipBlankOver(Json, f, comma + 1, pre);
    HeaderIs(f, open, name, Unslash(raw), name + |raw| + 2, comma, comma + 1 + |pre|);
  }

  lemma FirstBracket(f: string, open: nat)
    requires At(f, open, '[') && forall k :: 0 <= k < open ==> f[k] != '['
    ensures open < |f| && StrChr(f, '[') == Some(open)
  {
  }

  lemma NotBlankAt(f: string, p: nat, c: char)
    requires At(f, p, c) && (c == '"' || c == ',')
    ensures !AtBlank(Json, f, p) && p < |f|
  {
  }

  lemma HeaderIs(f: string, open: nat, name: nat, event: string, after: nat, comma: nat, end: nat)
    requires open < |f| && StrChr(f, '[') == Some(open) && SkipBlank(Json, f, open + 1) == name
    requires ExtractString(f, name, EVENT_SIZE) == Some((event, after)) && after <= |f|
    requires SkipBlank(Json, f, after) == comma && At(f, comma, ',') && SkipBlank(Json, f, comma + 1) == end
    ensures Header(f) == Some((event, end))
  {
  }

  lemma HeaderParts(f: string, head: string, gap: string, raw: string, mid: string, pre: string, rest: string)
    requires f == head + "[" + gap + Quote(raw) + mid + "," + pre + rest && '[' !in head
    requires rest != "" && !IsBlank(Json, rest[0])
    ensures var open, name := |head|, |head| + 1 + |gap|;
            var comma := name + |raw| + 2 + |mid|;
            At(f, open, '[') && (forall k :: 0 <= k < open ==> f[k] != '[') && Occurs(f, open + 1, gap) &&
            Occurs(f, name, Quote(raw)) && Occurs(f, name + |raw| + 2, mid) && At(f, comma, ',') &&
            Occurs(f, comma + 1, pre) && !AtBlank(Json, f, comma + 1 + |pre|)
  {
    assert forall k :: 0 <= k < |head| ==> f[k] == head[k];
  }

  lemma AnyArgument(f: string, at: nat, payload: string, tail: string)
    requires at <= |f| && f[at..] == payload + "]" + tail && AllBlank(Json, tail)
    requires payload != "" && payload[0] != ']'
    ensures Argument(f, at) == Some(payload)
  {
    var end := at + |payload| + 1;
    var rest := f[at..];
    assert forall k :: 0 <= k < |rest| ==> f[at + k] == rest[k];
    assert f[at] == payload[0] && f[end - 1] == ']';
    assert Occurs(f, end, tail);
    TrimOver(Json, f, at, end, tail);
    assert f[at..end - 1] == payload;
  }

  /** Without a closing bracket the payload is everything to the end. */
  lemma UnclosedArgument(f: string, at: nat, payload: string)
    requires at <= |f| && f[at..] == payload && payload != "" && payload[0] != ']'
    requires !IsBlank(Json, payload[|payload| - 1]) && payload[|payload| - 1] != ']'
    ensures Argument(f, at) == Some(payload)
  {
    assert f[at] == payload[0] && f[|f| - 1] == payload[|payload| - 1];
    TrimOver(Json, f, at, |f|, "");
  }

  /** A text without a list, or with a list that does not begin with a string, is no event; any other is. */
  lemma DeframesIff(f: string)
    ensures ParseFrame(f).Some? <==>
            '[' in f && exists p :: 0 <= p < |f| && f[p] == '"' && Begins(f, p)
  {
    var open := StrChr(f, '[');
    DeframesAt(f);
    hide ParseFrame;
    if open.Some? {
      var q := SkipBlank(Json, f, open.value + 1);
      BeginsAt(f, open.value);
      forall p | 0 <= p < |f| && f[p] == '"' && Begins(f, p) ensures p == q { BeginsOnce(f, p, open.value); }
    }
  }

  lemma DeframesAt(f: string)
    ensures var open := StrChr(f, '[');
            ParseFrame(f).Some? <==> open.Some? && At(f, SkipBlank(Json, f, open.value + 1), '"')
  {
    hide SkipBlank, StrChr, Argument;
  }

  lemma BeginsAt(f: string, open: nat)
    requires StrChr(f, '[') == Some(open) && open < |f|
    ensures Begins(f, SkipBlank(Json, f, open + 1))
  {
    hide SkipBlank, StrChr;
    var q := SkipBlank(Json, f, open + 1);
    assert f[open] == '[' && '[' !in f[..open] && AllBlank(Json, f[open + 1..q]);
  }

  lemma BeginsOnce(f: string, p: nat, open: nat)
    requires StrChr(f, '[') == Some(open) && p < |f| && f[p] == '"' && Begins(f, p)
    ensures open < |f| && p == SkipBlank(Json, f, open + 1)
  {
    hide SkipBlank, StrChr;
    var k :| 0 <= k < p && f[k] == '[' && '[' !in f[..k] && AllBlank(Json, f[k + 1..p]);
    assert k == open;
    assert Occurs(f, k + 1, f[k + 1..p]);
    SkipBlankOver(Json, f, k + 1, f[k + 1..p]);
  }

  /** Only whitespace stands between the first bracket and `p`. */
  ghost predicate Begins(f: string, p: nat)
    requires p <= |f|
  {
    exists k :: 0 <= k < p && f[k] == '[' && '[' !in f[..k] && AllBlank(Json, f[k + 1..p])
  }
}
