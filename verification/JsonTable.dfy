/** json_parser.c: a JSON object flattened into a bounded table of dotted keys. */
module JsonTable {
  import opened CStrings
  import opened StringScan
  import opened JsonText

  const MAX_KEYS := 64
  const MAX_KEY_LEN := 128
  const MAX_VALUE_LEN := 1024

  datatype Entry = Entry(key: string, value: string)

  /** Where a number, `true`, `false` or `null` ends for this parser, in at most `room` characters. */
  function BareEnd(s: string, p: nat, room: nat): (q: nat)
    requires p <= |s|
    ensures p <= q <= |s| && q <= p + room
    decreases |s| - p
  {
    if p == |s| || s[p] == ',' || s[p] == '}' || IsBlank(Ctype, s[p]) || room == 0 then p
    else BareEnd(s, p + 1, room - 1)
  }

  /** The key and where its value starts; None where the parser gives up. */
  function MemberHead(s: string, p: nat): (r: Option<(string, nat)>)
    requires p <= |s|
    ensures r.Some? ==> p < r.value.1 <= |s| && |r.value.0| < MAX_KEY_LEN
  {
    var key := ExtractString(s, p, MAX_KEY_LEN);
    if key.None? then None
    else
      var colon := SkipBlank(Ctype, s, key.value.1);
      if At(s, colon, ':') then Some((key.value.0, SkipBlank(Ctype, s, colon + 1))) else None
  }

  function FullKey(prefix: string, key: string): string {
    Take(if prefix != "" then prefix + "." + key else key, MAX_KEY_LEN - 1)
  }

  /** The table `t` after the object text `s`, its keys under `prefix`. */
  function ParseObject(s: string, prefix: string, t: seq<Entry>): seq<Entry>
    decreases |s|, |s| + 1
  {
    var p := SkipBlank(Ctype, s, 0);
    if At(s, p, '{') then ParseMembers(s, p + 1, prefix, t) else t
  }

  function ParseMembers(s: string, p: nat, prefix: string, t: seq<Entry>): seq<Entry>
    requires p <= |s|
    decreases |s|, |s| - p, 0
  {
    if p == |s| || s[p] == '}' || |t| >= MAX_KEYS then t
    else
      var at := SkipBlank(Ctype, s, p);
      if At(s, at, '}') then t
      else if At(s, at, ',') then ParseMembers(s, at + 1, prefix, t)
      else
        var head := MemberHead(s, at);
        if head.None? then t else ParseValue(s, head.value.1, prefix, FullKey(prefix, head.value.0), t)
  }

  function ParseValue(s: string, p: nat, prefix: string, key: string, t: seq<Entry>): seq<Entry>
    requires 0 < p <= |s|
    decreases |s|, |s| - p, 1
  {
    if At(s, p, '{') then
      var q := CloseAt(s, '{', '}', p + 1, 1);
      ParseMembers(s, q, prefix, ParseObject(s[p..q], key, t))
    else if At(s, p, '"') then
      var (value, q) := ExtractString(s, p, MAX_VALUE_LEN).value;
      ParseMembers(s, q, prefix, t + [Entry(key, value)])
    else
      var q := BareEnd(s, p, MAX_VALUE_LEN - 1);
      ParseMembers(s, q, prefix, t + [Entry(key, s[p..q])])
  }

  function Parse(s: string): seq<Entry> { ParseObject(s, "", []) }

  /** `json_get_string`: the first entry with the key. */
  function Lookup(t: seq<Entry>, key: string): Option<string> {
    if t == [] then None
    else if t[0].key == key then Some(t[0].value)
    else Lookup(t[1..], key)
  }

  function GetBool(t: seq<Entry>, key: string, default: bool): bool {
    var v := Lookup(t, key);
    if v.None? then default else v.value == "true" || v.value == "1"
  }

  // ---------------------------------------------------------------- the parser object

  class JsonObject {
    var entries: array<Entry>
    var count: nat

    ghost predicate Valid()
      reads this
    {
      entries.Length == MAX_KEYS && count <= MAX_KEYS
    }

    function Table(): seq<Entry>
      requires Valid()
      reads this, entries
    {
      entries[..count]
    }

    /** `json_parse`: a zeroed object, filled from the text. */
    constructor (json: string)
      ensures Valid() && fresh(entries)
      ensures Table() == Parse(json)
    {
      entries := new Entry[MAX_KEYS](_ => Entry("", ""));
      count := 0;
      new;
      assert entries[..count] == [];
      ParseInto(json, "");
    }

    method Add(entry: Entry)
      requires Valid() && count < MAX_KEYS
      modifies this`count, entries
      ensures Valid() && Table() == old(Table()) + [entry]
    {
      entries[count] := entry;
      count := count + 1;
    }

    method ParseInto(json: string, prefix: string)
      requires Valid()
      modifies this`count, entries
      ensures Valid() && Table() == ParseObject(json, prefix, old(Table()))
      decreases |json|
    {
      var p := SkipWs(Ctype, json, 0);
      if p == |json| || json[p] != '{' { return; }
      FillMembers(json, p + 1, prefix);
    }

    /** The loop over the members. */
    method FillMembers(json: string, start: nat, prefix: string)
      requires Valid() && 0 < start <= |json|
      modifies this`count, entries
      ensures Valid() && Table() == ParseMembers(json, start, prefix, old(Table()))
      decreases |json|, 1
    {
      hide ParseObject, ParseValue, FullKey, MemberHead, SkipBlank;
      var p := start;
      while p < |json| && json[p] != '}' && count < MAX_KEYS
        invariant Valid() && start <= p <= |json|
        invariant ParseMembers(json, p, prefix, Table()) == ParseMembers(json, start, prefix, old(Table()))
        decreases |json| - p
      {
        p := SkipWs(Ctype, json, p);
        if p < |json| && json[p] == '}' { break; }
        if p < |json| && json[p] == ',' {
          p := p + 1;
          continue;
        }
        var head := ReadHead(json, p);
        if head.None? { return; }
        p := ReadValue(json, head.value.1, prefix, FullKey(prefix, head.value.0));
      }
    }

    method ReadHead(json: string, p: nat) returns (head: Option<(string, nat)>)
      requires p <= |json|
      ensures head == MemberHead(json, p)
    {
      var key := ExtractString(json, p, MAX_KEY_LEN);
      if key.None? { return None; }
      var q := SkipWs(Ctype, json, key.value.1);
      if q == |json| || json[q] != ':' { return None; }
      q := SkipWs(Ctype, json, q + 1);
      return Some((key.value.0, q));
    }

    method ReadValue(json: string, start: nat, prefix: string, key: string) returns (p: nat)
      requires Valid() && count < MAX_KEYS && 0 < start <= |json|
      modifies this`count, entries
      ensures Valid() && start <= p <= |json|
      ensures ParseMembers(json, p, prefix, Table()) == ParseValue(json, start, prefix, key, old(Table()))
      decreases |json|, 0
    {
      p := start;
      if p < |json| && json[p] == '{' {
        p := SkipNested(json, p);
        ParseInto(json[start..p], key);
      } else if p < |json| && json[p] == '"' {
        var (value, q) := ExtractString(json, p, MAX_VALUE_LEN).value;
        p := q;
        Add(Entry(key, value));
      } else {
        var room := MAX_VALUE_LEN - 1;
        while p < |json| && json[p] != ',' && json[p] != '}' && !IsBlank(Ctype, json[p]) && room > 0
          invariant start <= p <= |json| && room >= 0
          invariant BareEnd(json, p, room) == BareEnd(json, start, MAX_VALUE_LEN - 1)
        {
          p, room := p + 1, room - 1;
        }
        Add(Entry(key, json[start..p]));
      }
    }

    method SkipNested(json: string, start: nat) returns (p: nat)
      requires At(json, start, '{')
      ensures p == CloseAt(json, '{', '}', start + 1, 1)
    {
      p := start + 1;
      var depth := 1;
      while p < |json| && depth > 0
        invariant start < p <= |json| && depth >= 0
        invariant CloseAt(json, '{', '}', p, depth) == CloseAt(json, '{', '}', start + 1, 1)
      {
        if json[p] == '{' { depth := depth + 1; }
        else if json[p] == '}' { depth := depth - 1; }
        p := p + 1;
      }
    }

    /** `json_get_bool` */
    method GetBoolean(key: string, default: bool) returns (value: bool)
      requires Valid()
      ensures value == GetBool(Table(), key, default)
      ensures Lookup(Table(), key) == None ==> value == default
    {
      var text := GetString(key);
      if text.None? { return default; }
      return text.value == "true" || text.value == "1";
    }

    /** `json_get_string` */
    method GetString(key: string) returns (value: Option<string>)
      requires Valid()
      ensures value == Lookup(Table(), key)
    {
      var i := 0;
      assert Table()[0..] == Table();
      while i < count
        invariant 0 <= i <= count
        invariant Lookup(Table()[i..], key) == Lookup(Table(), key)
      {
        assert Table()[i..][1..] == Table()[i + 1..];
        if entries[i].key == key { return Some(entries[i].value); }
        i := i + 1;
      }
      return None;
    }
  }
}
