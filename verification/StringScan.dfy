/** JSON string literals: the one scanner both `os_extract_string` (oddsockets.c) and
    `extract_string` (json_parser.c) implement, and the literals it reads back exactly. */
module StringScan {
  import opened CStrings

  /** The characters up to the closing quote, dropping the backslash of every escape, at most
      `room` of them, and the index where the loop stops. */
  function StringBody(s: string, p: nat, room: nat): (r: (string, nat))
    requires p <= |s|
    ensures p <= r.1 <= |s| && |r.0| <= room
    decreases |s| - p
  {
    if p == |s| || s[p] == '"' || room == 0 then ("", p)
    else
      var k := if s[p] == '\\' && p + 1 < |s| then p + 1 else p;
      var (body, q) := StringBody(s, k + 1, room - 1);
      ([s[k]] + body, q)
  }

  /** The text read from a literal at `p` into a buffer of `size`, and the index after it. */
  function ExtractString(s: string, p: nat, size: nat): (r: Option<(string, nat)>)
    requires p <= |s| && size > 0
    ensures r.Some? <==> At(s, p, '"')
    ensures r.Some? ==> p < r.value.1 <= |s| && |r.value.0| < size
  {
    if !At(s, p, '"') then None
    else
      var (body, q) := StringBody(s, p + 1, size - 1);
      Some((body, if At(s, q, '"') then q + 1 else q))
  }

  method ExtractStringInto(s: string, p: nat, out: array<char>) returns (q: Option<nat>)
    requires p <= |s| && out.Length > 0
    modifies out
    ensures q.None? ==> ExtractString(s, p, out.Length).None? && out[..] == old(out[..])
    ensures q.Some? ==>
              var r := ExtractString(s, p, out.Length);
              r.Some? && q.value == r.value.1 && Holds(out, r.value.0)
  {
    if p == |s| || s[p] != '"' {
      return None;
    }
    var room := out.Length - 1;
    var at, i := p + 1, 0;
    ghost var whole := StringBody(s, p + 1, room);
    ghost var done := "";
    assert "" + whole.0 == whole.0;
    while at < |s| && s[at] != '"' && i < room
      invariant p < at <= |s| && i == |done| <= room && out[..i] == done
      invariant Reaches(whole, done, StringBody(s, at, room - i))
    {
      BodyStep(s, at, room - i, whole, done);
      if s[at] == '\\' && at + 1 < |s| {
        at := at + 1;
      }
      out[i] := s[at];
      done := done + [s[at]];
      i, at := i + 1, at + 1;
    }
    out[i] := '\0';
    if at < |s| && s[at] == '"' {
      at := at + 1;
    }
    return Some(at);
  }

  /** What is written, then what is still to come, is the whole result. */
  ghost predicate Reaches(whole: (string, nat), done: string, todo: (string, nat)) {
    whole == (done + todo.0, todo.1)
  }

  lemma BodyStep(s: string, at: nat, room: nat, whole: (string, nat), done: string)
    requires at < |s| && s[at] != '"' && room > 0 && Reaches(whole, done, StringBody(s, at, room))
    ensures var k := if s[at] == '\\' && at + 1 < |s| then at + 1 else at;
            Reaches(whole, done + [s[k]], StringBody(s, k + 1, room - 1))
  {
    var k := if s[at] == '\\' && at + 1 < |s| then at + 1 else at;
    var todo := StringBody(s, k + 1, room - 1);
    assert done + ([s[k]] + todo.0) == done + [s[k]] + todo.0;
  }

  /** The body of a literal: every quote in it is escaped and no escape is cut off by its end. */
  predicate RawOk(raw: string) {
    raw == "" ||
    (raw[0] != '"' && if raw[0] == '\\' then |raw| > 1 && RawOk(raw[2..]) else RawOk(raw[1..]))
  }

  /** What the scanner makes of a literal body: each escaped character stands for itself. */
  function Unslash(raw: string): (r: string)
    requires RawOk(raw)
    ensures |r| <= |raw|
  {
    if raw == "" then ""
    else if raw[0] == '\\' then [raw[1]] + Unslash(raw[2..])
    else [raw[0]] + Unslash(raw[1..])
  }

  function Quote(raw: string): string { "\"" + raw + "\"" }

  /** A literal that fits is read whole, whatever text stands around it. */
  lemma ReadsLiteral(s: string, p: nat, raw: string, size: nat)
    requires Occurs(s, p, Quote(raw)) && RawOk(raw) && |Unslash(raw)| < size
    ensures ExtractString(s, p, size) == Some((Unslash(raw), p + |raw| + 2))
  {
    QuoteParts(s, p, raw);
    BodyOfLiteral(s, p + 1, raw, size - 1);
  }

  /** One that does not fit is cut, and the scan stops inside it: its first part `a` fills the buffer, and
      the cursor stays in front of the rest. */
  lemma ReadsCut(s: string, p: nat, a: string, b: string, size: nat)
    requires Occurs(s, p, Quote(a + b)) && RawOk(a) && RawOk(b) && b != "" && |Unslash(a)| == size - 1
    ensures ExtractString(s, p, size) == Some((Unslash(a), p + 1 + |a|))
  {
    hide *;
    CutParts(s, p, a, b);
    BodyFills(s, p + 1, a, size - 1);
    AfterBody(s, p, size, Unslash(a), p + 1 + |a|);
  }

  lemma AfterBody(s: string, p: nat, size: nat, body: string, q: nat)
    requires At(s, p, '"') && size > 0 && StringBody(s, p + 1, size - 1) == (body, q)
    ensures ExtractString(s, p, size) == Some((body, if At(s, q, '"') then q + 1 else q))
  {
  }

  lemma CutParts(s: string, p: nat, a: string, b: string)
    requires Occurs(s, p, Quote(a + b)) && RawOk(b) && b != ""
    ensures At(s, p, '"') && Occurs(s, p + 1, a) && p + 1 + |a| < |s| && !At(s, p + 1 + |a|, '"')
  {
    assert b[0] != '"';
    hide Unslash, RawOk, Quote, Occurs;
    QuoteParts(s, p, a + b);
    OccursSplit(s, p + 1, a, b);
    OccursFirst(s, p + 1 + |a|, b);
  }

  lemma {:induction false} BodyFills(s: string, p: nat, raw: string, room: nat)
    requires Occurs(s, p, raw) && RawOk(raw) && |Unslash(raw)| == room
    ensures StringBody(s, p, room) == (Unslash(raw), p + |raw|)
    decreases |raw|
  {
    if raw != "" {
      assert s[p] == raw[0];
      var k := if raw[0] == '\\' then 1 else 0;
      assert s[p + k] == raw[k];
      var rest := raw[k + 1..];
      assert forall i :: 0 <= i < |rest| ==> rest[i] == raw[k + 1 + i];
      BodyFills(s, p + k + 1, rest, room - 1);
    }
  }

  lemma QuoteParts(s: string, p: nat, raw: string)
    ensures Occurs(s, p, Quote(raw)) <==>
            At(s, p, '"') && Occurs(s, p + 1, raw) && At(s, p + 1 + |raw|, '"')
  {
    OccursSplit(s, p, "\"" + raw, "\"");
    OccursSplit(s, p, "\"", raw);
    OccursChar(s, p, '"');
    OccursChar(s, p + 1 + |raw|, '"');
  }

  lemma {:induction false} BodyOfLiteral(s: string, p: nat, raw: string, room: nat)
    requires Occurs(s, p, raw) && At(s, p + |raw|, '"')
    requires RawOk(raw) && |Unslash(raw)| <= room
    ensures StringBody(s, p, room) == (Unslash(raw), p + |raw|)
    decreases |raw|
  {
    if raw != "" {
      assert s[p] == raw[0];
      var k := if raw[0] == '\\' then 1 else 0;
      assert s[p + k] == raw[k];
      var rest := raw[k + 1..];
      assert forall i :: 0 <= i < |rest| ==> rest[i] == raw[k + 1 + i];
      BodyOfLiteral(s, p + k + 1, rest, room - 1);
    }
  }

  /** Text without quotes or backslashes is its own literal body. */
  predicate Plain(s: string) {
    forall i :: 0 <= i < |s| ==> s[i] != '"' && s[i] != '\\'
  }

  lemma {:induction false} PlainIsRaw(s: string)
    requires Plain(s)
    ensures RawOk(s) && Unslash(s) == s
  {
    if s != "" { PlainIsRaw(s[1..]); }
  }

  /** A text in quotes reads as itself exactly when it is plain and fits. */
  lemma ReadsItselfIff(s: string, p: nat, e: string, size: nat)
    requires Occurs(s, p, Quote(e)) && size > 0
    ensures ExtractString(s, p, size).Some?
    ensures ExtractString(s, p, size).value.0 == e <==> Plain(e) && |e| < size
  {
    QuoteParts(s, p, e);
    if Plain(e) && |e| < size {
      PlainIsRaw(e);
      ReadsLiteral(s, p, e, size);
    }
    if StringBody(s, p + 1, size - 1).0 == e { ReadBackIsPlain(s, p + 1, e, size - 1); }
  }

  lemma {:induction false} ReadBackIsPlain(s: string, p: nat, e: string, room: nat)
    requires Occurs(s, p, e) && At(s, p + |e|, '"') && StringBody(s, p, room).0 == e
    ensures Plain(e)
    decreases |e|
  {
    if e != "" {
      assert s[p] == e[0];
      if e[0] == '\\' { LagsBehind(s, p, p, p + |e|, room, e); }
      var rest := e[1..];
      assert forall i :: 0 <= i < |rest| ==> rest[i] == e[i + 1];
      ReadBackIsPlain(s, p + 1, rest, room - 1);
      assert e == [e[0]] + rest;
    }
  }

  /** Once a backslash is dropped the reading lags behind the text, and never catches up. */
  lemma {:induction false} LagsBehind(s: string, at: nat, q: nat, end: nat, room: nat, need: string)
    requires at <= q <= end && at < end && At(s, end, '"') && Occurs(s, at, need) && |need| == end - at
    requires s[at] == '\\' && forall i :: at <= i < q ==> s[i] == '\\'
    ensures StringBody(s, q, room).0 != need
    decreases end - q
  {
    assert need[0] == s[at];
    if q < end && s[q] == '\\' && room > 0 && s[q + 1] == '\\' {
      var rest := need[1..];
      assert forall i :: 0 <= i < |rest| ==> rest[i] == need[i + 1];
      LagsBehind(s, at + 1, q + 2, end, room - 1, rest);
    }
  }

  lemma {:induction false} RawConcat(a: string, b: string)
    requires RawOk(a) && RawOk(b)
    ensures RawOk(a + b) && Unslash(a + b) == Unslash(a) + Unslash(b)
    decreases |a|
  {
    if a == "" {
      assert a + b == b;
    } else {
      var k := if a[0] == '\\' then 2 else 1;
      assert (a + b)[k..] == a[k..] + b;
      RawConcat(a[k..], b);
    }
  }
}
