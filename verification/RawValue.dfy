/** `os_extract_raw_value`: the raw text of one value, cut out of an object without parsing it. */
module RawValue {
  import opened CStrings
  import opened StringScan
  import opened JsonText

  const NEEDLE_SIZE := 160

  /** Index after the closing quote of a literal whose opening quote is at `p - 1`. */
  function LiteralEnd(s: string, p: nat): (q: nat)
    requires p <= |s|
    ensures p <= q <= |s|
    decreases |s| - p
  {
    if p == |s| then p
    else if s[p] == '"' then p + 1
    else if s[p] == '\\' && p + 1 < |s| then LiteralEnd(s, p + 2)
    else LiteralEnd(s, p + 1)
  }

  predicate EndsPrimitive(c: char) { c == ',' || c == '}' || c == ']' }

  function PrimitiveEnd(s: string, p: nat): (q: nat)
    requires p <= |s|
    ensures p <= q <= |s|
    decreases |s| - p
  {
    if p == |s| || EndsPrimitive(s[p]) then p else PrimitiveEnd(s, p + 1)
  }

  function ValueEnd(s: string, p: nat): (q: nat)
    requires p <= |s|
    ensures p <= q <= |s|
  {
    if At(s, p, '{') then CloseAt(s, '{', '}', p + 1, 1)
    else if At(s, p, '[') then CloseAt(s, '[', ']', p + 1, 1)
    else if At(s, p, '"') then LiteralEnd(s, p + 1)
    else PrimitiveEnd(s, p)
  }

  function Needle(key: string): string { Take(Quote(key), NEEDLE_SIZE - 1) }

  /** Where the value of `key` starts: after the first occurrence of the quoted key, if a colon follows it. */
  function ValueStart(obj: string, key: string): (r: Option<nat>)
    ensures r.Some? ==> r.value <= |obj|
  {
    var at := StrStr(obj, Needle(key));
    if at.None? then None
    else
      var colon := SkipBlank(Json, obj, at.value + |Needle(key)|);
      if At(obj, colon, ':') then Some(SkipBlank(Json, obj, colon + 1)) else None
  }

  function RawValueOf(obj: string, key: string, size: nat): Option<string>
    requires size > 0
  {
    var start := ValueStart(obj, key);
    if start.None? then None else Some(Take(obj[start.value..ValueEnd(obj, start.value)], size - 1))
  }

  method ExtractRawValue(obj: string, key: string, out: array<char>) returns (ok: bool)
    requires out.Length > 0
    modifies out
    ensures ok == RawValueOf(obj, key, out.Length).Some?
    ensures ok ==> Holds(out, RawValueOf(obj, key, out.Length).value)
    ensures !ok ==> out[..] == old(out[..])
  {
    var found := FindValue(obj, key);
    if found.None? { return false; }
    var start := found.value;
    var p := start;
    if p < |obj| && (obj[p] == '{' || obj[p] == '[') {
      p := SkipBrackets(obj, p);
    } else if p < |obj| && obj[p] == '"' {
      p := SkipLiteral(obj, p);
    } else {
      p := SkipPrimitive(obj, p);
    }
    CopyOut(obj[start..p], out);
    return true;
  }

  method FindValue(obj: string, key: string) returns (start: Option<nat>)
    ensures start == ValueStart(obj, key)
  {
    var needle := Take(Quote(key), NEEDLE_SIZE - 1);
    var found := StrStr(obj, needle);
    if found.None? { return None; }
    var p := SkipWs(Json, obj, found.value + |needle|);
    if p == |obj| || obj[p] != ':' { return None; }
    p := SkipWs(Json, obj, p + 1);
    return Some(p);
  }

  /** The bounded copy: as much as fits, and a terminator. */
  method CopyOut(text: string, out: array<char>)
    requires out.Length > 0
    modifies out
    ensures Holds(out, Take(text, out.Length - 1))
  {
    var len := |text|;
    if len >= out.Length { len := out.Length - 1; }
    forall i | 0 <= i < len { out[i] := text[i]; }
    out[len] := '\0';
  }

  method SkipPrimitive(s: string, start: nat) returns (p: nat)
    requires start <= |s|
    ensures p == PrimitiveEnd(s, start)
  {
    p := start;
    while p < |s| && s[p] != ',' && s[p] != '}' && s[p] != ']'
      invariant start <= p <= |s| && PrimitiveEnd(s, p) == PrimitiveEnd(s, start)
    {
      p := p + 1;
    }
  }

  method SkipBrackets(s: string, start: nat) returns (p: nat)
    requires At(s, start, '{') || At(s, start, '[')
    ensures p == ValueEnd(s, start)
  {
    p := start;
    var open := s[p];
    var close := if open == '{' then '}' else ']';
    var depth := 0;
    while p < |s|
      invariant start <= p <= |s|
      invariant if p == start then depth == 0
                else depth >= 1 && CloseAt(s, open, close, p, depth) == ValueEnd(s, start)
    {
      if s[p] == open {
        depth := depth + 1;
      } else if s[p] == close {
        depth := depth - 1;
        if depth == 0 {
          p := p + 1;
          break;
        }
      }
      p := p + 1;
    }
  }

  method SkipLiteral(s: string, start: nat) returns (p: nat)
    requires At(s, start, '"')
    ensures p == ValueEnd(s, start)
  {
    p := start + 1;
    while p < |s| && s[p] != '"'
      invariant start < p <= |s| && LiteralEnd(s, p) == LiteralEnd(s, start + 1)
    {
      if s[p] == '\\' && p + 1 < |s| { p := p + 1; }
      p := p + 1;
    }
    if p < |s| && s[p] == '"' { p := p + 1; }
  }

  // ---------------------------------------------------------------- exactness on well-formed values

  /** A literal body without its own end: a bare quote ends it early, a last backslash hides its end. */
  function LiteralFate(raw: string): Fate {
    if raw == "" then Exact
    else if raw[0] == '"' then CutShort
    else if raw[0] == '\\' then (if |raw| == 1 then RunsOn else LiteralFate(raw[2..]))
    else LiteralFate(raw[1..])
  }

  lemma {:induction false} LiteralFateIsRawOk(raw: string)
    ensures LiteralFate(raw).Exact? <==> RawOk(raw)
  {
    if raw != "" && raw[0] != '"' && (raw[0] != '\\' || |raw| > 1) {
      LiteralFateIsRawOk(raw[if raw[0] == '\\' then 2 else 1..]);
    }
  }

  lemma {:induction false} LiteralEnds(s: string, p: nat, raw: string)
    requires Occurs(s, p, raw) && At(s, p + |raw|, '"')
    ensures Stops(LiteralFate(raw), s, p + |raw| + 1, LiteralEnd(s, p))
    decreases |raw|
  {
    if raw != "" {
      assert s[p] == raw[0];
      if raw[0] != '"' && raw != "\\" {
        var k := if raw[0] == '\\' then 2 else 1;
        var rest := raw[k..];
        assert forall i :: 0 <= i < |rest| ==> rest[i] == raw[k + i];
        LiteralEnds(s, p + k, rest);
      }
    }
  }

  lemma {:induction false} PrimitiveEndOver(s: string, p: nat, text: string)
    requires Occurs(s, p, text)
    requires forall i :: 0 <= i < |text| ==> !EndsPrimitive(text[i])
    ensures PrimitiveEnd(s, p) == PrimitiveEnd(s, p + |text|)
    decreases |text|
  {
    if text != "" {
      assert s[p] == text[0];
      var rest := text[1..];
      assert forall i :: 0 <= i < |rest| ==> rest[i] == text[i + 1];
      PrimitiveEndOver(s, p + 1, rest);
    }
  }

  /** What becomes of the scan over a value. The trees need not be well-formed here: every text in
      brackets and every text in quotes is printed by one. */
  function ValueFate(v: Json): Fate
    requires !v.Prim?
  {
    if v.Str? then LiteralFate(v.raw) else OwnFate(v)
  }

  /** Where an object, an array or a string ends for the extractor, whatever text follows it. */
  lemma ValueEnds(s: string, p: nat, v: Json)
    requires Occurs(s, p, Print(v)) && !v.Prim?
    ensures Stops(ValueFate(v), s, p + |Print(v)|, ValueEnd(s, p))
  {
    if v.Str? {
      QuoteParts(s, p, v.raw);
      LiteralEnds(s, p + 1, v.raw);
    } else {
      var (o, c) := Kind(v);
      BracketEnds(s, o, c, p, Inner(v));
    }
  }

  /** `i` is where the key itself stands: the first place where its quoted text can be found. */
  ghost predicate FirstMention(obj: string, key: string, i: nat) {
    |key| + 2 < NEEDLE_SIZE && Occurs(obj, i, Quote(key)) &&
    forall k :: 0 <= k < i ==> !Occurs(obj, k, Quote(key))
  }

  lemma StartsAfterColon(obj: string, key: string, i: nat, mid: string, pre: string)
    requires FirstMention(obj, key, i) && AllBlank(Json, mid) && AllBlank(Json, pre)
    requires Occurs(obj, i + |key| + 2, mid + ":" + pre)
    requires !AtBlank(Json, obj, i + |key| + |mid| + |pre| + 3)
    ensures ValueStart(obj, key) == Some(i + |key| + |mid| + |pre| + 3)
  {
    StrStrAt(obj, Quote(key), i);
    var p := i + |key| + 2;
    OccursSplit(obj, p, mid + ":", pre);
    OccursSplit(obj, p, mid, ":");
    OccursChar(obj, p + |mid|, ':');
    SkipBlankOver(Json, obj, p, mid);
    SkipBlankOver(Json, obj, p + |mid| + 1, pre);
  }

  /** The extractor returns an object, an array or a string that its scan does not miss byte for byte, up
      to its buffer, wherever the key is first mentioned and whatever text follows the value. */
  lemma ExtractsExactly(obj: string, key: string, i: nat, mid: string, pre: string, v: Json, size: nat)
    requires MemberAt(obj, key, i, mid, pre, v) && ValueFate(v).Exact? && size > 0
    ensures RawValueOf(obj, key, size) == Some(Take(Print(v), size - 1))
  {
    var start := i + |key| + |mid| + |pre| + 3;
    BracketedStart(obj, key, i, mid, pre, v);
    ValueEnds(obj, start, v);
    OccursSlice(obj, start, Print(v));
    RawValueFrom(obj, key, start, size);
    hide *;
  }

  /** And exactly then, but for two coincidences: a scan that runs on is stopped at the right place by
      the end of the whole text or by the end of the buffer. */
  lemma ExtractsExactlyIff(obj: string, key: string, i: nat, mid: string, pre: string, v: Json, size: nat)
    requires MemberAt(obj, key, i, mid, pre, v) && size > 0
    ensures var end := i + |key| + |mid| + |pre| + 3 + |Print(v)|;
            RawValueOf(obj, key, size) == Some(Print(v)) <==>
            |Print(v)| < size &&
            (ValueFate(v).Exact? || (ValueFate(v).RunsOn? && (end == |obj| || |Print(v)| == size - 1)))
  {
    var start := i + |key| + |mid| + |pre| + 3;
    BracketedStart(obj, key, i, mid, pre, v);
    ValueEnds(obj, start, v);
    RawValueFrom(obj, key, start, size);
    CutsToText(obj, start, ValueEnd(obj, start), Print(v), size - 1);
    hide *;
  }

  /** The first `n` characters of a slice are a text that stands at its start. */
  lemma CutsToText(s: string, p: nat, q: nat, text: string, n: nat)
    requires Occurs(s, p, text) && p <= q <= |s|
    ensures Take(s[p..q], n) == text <==> |text| <= n && (q == p + |text| || (q > p + |text| && |text| == n))
  {
    OccursSlice(s, p, text);
    if q >= p + |text| { assert s[p..q][..|text|] == s[p..p + |text|]; }
  }

  /** The quoted key, first mentioned at `i`, a colon, and the value. */
  ghost predicate MemberAt(obj: string, key: string, i: nat, mid: string, pre: string, v: Json) {
    FirstMention(obj, key, i) && AllBlank(Json, mid) && AllBlank(Json, pre) && !v.Prim? &&
    Occurs(obj, i + |key| + 2, mid + ":" + pre + Print(v))
  }

  lemma BracketedStart(obj: string, key: string, i: nat, mid: string, pre: string, v: Json)
    requires MemberAt(obj, key, i, mid, pre, v)
    ensures var start := i + |key| + |mid| + |pre| + 3;
            ValueStart(obj, key) == Some(start) && Occurs(obj, start, Print(v))
  {
    OccursSplit(obj, i + |key| + 2, mid + ":" + pre, Print(v));
    assert !IsBlank(Json, Print(v)[0]);
    assert obj[i + |key| + |mid| + |pre| + 3] == Print(v)[0];
    StartsAfterColon(obj, key, i, mid, pre);
  }

  /** Anything else is returned with everything before the next `,`, `}` or `]`, or the end of the text:
      a number directly followed by one of them comes out as it is. */
  lemma ExtractsPrimitive(obj: string, key: string, i: nat, mid: string, pre: string, text: string, size: nat)
    requires FirstMention(obj, key, i) && AllBlank(Json, mid) && AllBlank(Json, pre)
    requires Occurs(obj, i + |key| + 2, mid + ":" + pre + text) && size > 0
    requires text != "" && !IsBlank(Json, text[0]) && text[0] != '"' && text[0] != '{' && text[0] != '['
    requires forall k :: 0 <= k < |text| ==> text[k] != ',' && text[k] != '}' && text[k] != ']'
    requires var end := i + |key| + |mid| + |pre| + 3 + |text|;
             end == |obj| || obj[end] == ',' || obj[end] == '}' || obj[end] == ']'
    ensures RawValueOf(obj, key, size) == Some(Take(text, size - 1))
  {
    var start := i + |key| + |mid| + |pre| + 3;
    OccursSplit(obj, i + |key| + 2, mid + ":" + pre, text);
    assert obj[start] == text[0];
    StartsAfterColon(obj, key, i, mid, pre);
    PrimitiveEndOver(obj, start, text);
    OccursSlice(obj, start, text);
    RawValueFrom(obj, key, start, size);
    hide SkipBlank, StrStr;
  }

  /** How a text goes on to the next of the three, or to the end. */
  lemma {:induction false} GoesOnTo(s: string, p: nat, text: string) returns (more: string)
    requires Occurs(s, p, text)
    ensures Occurs(s, p, text + more)
    ensures forall k :: 0 <= k < |more| ==> more[k] != ',' && more[k] != '}' && more[k] != ']'
    ensures var end := p + |text| + |more|; end == |s| || s[end] == ',' || s[end] == '}' || s[end] == ']'
    decreases |s| - |text|
  {
    var end := p + |text|;
    if end == |s| || s[end] == ',' || s[end] == '}' || s[end] == ']' {
      more := "";
      assert text + "" == text;
    } else {
      var tail := GoesOnTo(s, p, text + [s[end]]);
      more := [s[end]] + tail;
      assert text + more == text + [s[end]] + tail;
    }
  }

  lemma RawValueFrom(obj: string, key: string, start: nat, size: nat)
    requires ValueStart(obj, key) == Some(start) && start <= |obj| && size > 0
    ensures RawValueOf(obj, key, size) == Some(Take(obj[start..ValueEnd(obj, start)], size - 1))
  {
  }

  /** Without a mention of the key there is no value. */
  lemma NothingWithoutMention(obj: string, key: string, size: nat)
    requires |key| + 2 < NEEDLE_SIZE && size > 0
    requires forall k :: 0 <= k <= |obj| ==> !Occurs(obj, k, Quote(key))
    ensures RawValueOf(obj, key, size) == None
  {
    assert Needle(key) == Quote(key);
  }

  /** Nor if the first mention is not followed by a colon, whatever comes later. */
  lemma NothingWithoutColon(obj: string, key: string, i: nat, mid: string, size: nat)
    requires FirstMention(obj, key, i) && size > 0
    requires AllBlank(Json, mid) && Occurs(obj, i + |key| + 2, mid)
    requires var p := i + |key| + |mid| + 2; p == |obj| || (!IsBlank(Json, obj[p]) && obj[p] != ':')
    ensures RawValueOf(obj, key, size) == None
  {
    StrStrAt(obj, Quote(key), i);
    assert Needle(key) == Quote(key);
    hide StrStr, SkipBlank, Occurs;
    SkipBlankOver(Json, obj, i + |key| + 2, mid);
  }

  // ---------------------------------------------------------------- brackets in strings

  /** The object of one member, `{"key":value}`. */
  function OneMember(key: string, value: Json): Json { Obj(Field("", key, "", "", value, "", NoFields(""))) }

  lemma OneMemberText(key: string, value: Json)
    ensures Inner(OneMember(key, value)) == Quote(key) + ":" + Print(value)
    ensures Print(OneMember(key, value)) == "{" + (Quote(key) + ":" + Print(value)) + "}"
    ensures WellFormed(OneMember(key, value)) <==> RawOk(key) && WellFormed(value)
  {
    var q, r := Quote(key), Print(value);
    assert AllBlank(Json, "") && WellFormedFields(NoFields("")) && PrintFields(NoFields("")) == "";
    assert "" + q + "" + ":" + "" + r + "" + "" + "" == q + ":" + r;
  }

  /** Brackets inside strings are counted too: a closing brace in a key cuts its object short. */
  lemma StringBraceCutsShort()
    ensures var v := OneMember("}", Prim("1"));
            WellFormed(v) && Print(v) == "{\"}\":1}" && ValueFate(v).CutShort? && ValueEnd(Print(v), 0) == 3
  {
    OneMemberText("}", Prim("1"));
    var inner := "\"}\":1";
    assert inner[1..] == "}\":1";
    assert Walk(inner, '{', '}', 0) == Walk("}\":1", '{', '}', 0) == None;
    var s := "{\"}\":1}";
    assert CloseAt(s, '{', '}', 2, 1) == 3;
    hide OneMember;
  }

  /** An opening one makes it run on, here over the rest of the envelope. */
  lemma StringBraceRunsOn()
    ensures var v := OneMember("{", Prim("1"));
            WellFormed(v) && Print(v) == "{\"{\":1}" && ValueFate(v).RunsOn? && ValueEnd(Print(v) + "}", 0) == 8
  {
    var v := OneMember("{", Prim("1"));
    OneMemberText("{", Prim("1"));
    OpensOne("\":1");
    hide OneMember, Inner, Print, CloseAt, Walk;
    assert Inner(v) == "\"{" + "\":1";
    ValueEnds(Print(v) + "}", 0, v);
  }

  lemma OpensOne(rest: string)
    requires Free(rest, '{', '}')
    ensures Walk("\"{" + rest, '{', '}', 0) == Some(1)
  {
    var a := "\"{";
    assert a[1..] == "{" && a[1..][1..] == "";
    WalkConcat(a, rest, '{', '}', 0);
    FreeIsNeutral(rest, '{', '}');
    WalkLift(rest, '{', '}', 0, 1);
  }

  /** And braces that balance over several strings do no harm, although no string balances by itself. */
  lemma StringBracesCancelOut()
    ensures var v := OneMember("{", Str("}"));
            WellFormed(v) && !Neutral("{", '{', '}') && !Neutral("}", '{', '}') && ValueFate(v).Exact?
  {
    OneMemberText("{", Str("}"));
    var a, b := "\"{\":\"", "}\"";
    assert "\"{" + "\":\"" == a && b[1..] == "\"" && b[1..][1..] == "";
    OpensOne("\":\"");
    WalkConcat(a, b, '{', '}', 0);
    assert Inner(OneMember("{", Str("}"))) == a + b;
    hide OneMember, Inner;
    assert Walk("{", '{', '}', 0) == Some(1) && Walk("}", '{', '}', 0) == None;
  }
}
