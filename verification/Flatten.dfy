/** The table that json_parser.c makes of a printed object is the in-order list of its leaves. */
module Flatten {
  import opened CStrings
  import opened StringScan
  import opened JsonText
  import opened JsonTable

  /** A leaf: the keys on the way to it, and its text. */
  datatype Leaf = Leaf(path: seq<string>, value: string)

  /** Trees of nested objects, strings and primitives, without empty keys. The braces inside a nested
      object must balance, those in its strings included (the parser finds its end by counting them). */
  ghost predicate Readable(fs: Fields) {
    fs.Field? ==>
      RawOk(fs.key) && Unslash(fs.key) != "" && Readable(fs.tail) &&
      match fs.value
      case Prim(_) => true
      case Str(raw) => RawOk(raw)
      case Arr(_) => false
      case Obj(inner) => Readable(inner) && Neutral(PrintFields(inner), '{', '}')
  }

  function Leaves(fs: Fields, path: seq<string>): seq<Leaf>
    requires Readable(fs)
  {
    if fs.NoFields? then []
    else ValueLeaves(fs.value, path + [Unslash(fs.key)]) + Leaves(fs.tail, path)
  }

  function ValueLeaves(v: Json, path: seq<string>): seq<Leaf>
    requires match v case Prim(_) => true case Str(raw) => RawOk(raw) case Arr(_) => false case Obj(fs) => Readable(fs)
  {
    match v
    case Prim(text) => [Leaf(path, text)]
    case Str(raw) => [Leaf(path, Unslash(raw))]
    case Obj(fs) => Leaves(fs, path)
  }

  function Dotted(path: seq<string>): string {
    if path == [] then ""
    else if |path| == 1 then path[0]
    else Dotted(path[..|path| - 1]) + "." + path[|path| - 1]
  }

  /** The dotted key of a path, as much of it as an entry holds. */
  function Key(path: seq<string>): string { Take(Dotted(path), 127) }

  /** Keys and values fit their buffers. */
  ghost predicate Fits(fs: Fields, path: seq<string>)
    requires Readable(fs)
  {
    fs.Field? ==>
      var path' := path + [Unslash(fs.key)];
      |Unslash(fs.key)| < 128 && Fits(fs.tail, path) &&
      match fs.value
      case Prim(text) => |text| < 1024
      case Str(raw) => |Unslash(raw)| < 1024
      case Obj(inner) => Fits(inner, path')
  }

  function Entries(ls: seq<Leaf>): seq<Entry> {
    if ls == [] then [] else [Entry(Key(ls[0].path), ls[0].value)] + Entries(ls[1..])
  }

  lemma {:induction false} EntriesConcat(a: seq<Leaf>, b: seq<Leaf>)
    ensures Entries(a + b) == Entries(a) + Entries(b)
  {
    if a == [] {
      assert a + b == b;
    } else {
      assert (a + b)[1..] == a[1..] + b;
      EntriesConcat(a[1..], b);
    }
  }

  /** All that fits the table. */
  function Upto(t: seq<Entry>): (r: seq<Entry>)
    ensures r <= t && |r| <= MAX_KEYS && (|t| <= MAX_KEYS ==> r == t)
  {
    if |t| <= MAX_KEYS then t else t[..MAX_KEYS]
  }

  lemma UptoConcat(t: seq<Entry>, a: seq<Entry>, b: seq<Entry>)
    ensures Upto(Upto(t + a) + b) == Upto(t + (a + b))
  {
  }

  lemma FullKeyIsKey(path: seq<string>, key: string)
    requires path != [] ==> Key(path) != ""
    ensures FullKey(Key(path), key) == Key(path + [key])
  {
    assert (path + [key])[..|path|] == path;
  }

  /** `at` is where the parser may stand after a member: before a comma or the closing brace. */
  predicate AfterMember(s: string, at: nat) { At(s, at, ',') || At(s, at, '}') }

  /** Blanks between members are skipped. */
  lemma OverGap(s: string, p: nat, gap: string, prefix: string, t: seq<Entry>)
    requires AllBlank(Ctype, gap) && Occurs(s, p, gap) && AfterMember(s, p + |gap|)
    ensures ParseMembers(s, p, prefix, t) == ParseMembers(s, p + |gap|, prefix, t)
  {
    hide ParseObject, ParseValue, MemberHead, FullKey;
    if gap != "" && |t| < MAX_KEYS {
      assert s[p] == gap[0];
      SkipBlankOver(Ctype, s, p, gap);
      assert SkipBlank(Ctype, s, p + |gap|) == p + |gap|;
    }
  }

  lemma OverComma(s: string, p: nat, prefix: string, t: seq<Entry>)
    requires At(s, p, ',') && p + 1 <= |s|
    ensures ParseMembers(s, p, prefix, t) == if |t| >= MAX_KEYS then t else ParseMembers(s, p + 1, prefix, t)
    ensures ParseMembers(s, p, prefix, t) == ParseMembers(s, p + 1, prefix, t)
  {
    hide ParseObject, ParseValue, MemberHead, FullKey;
    assert SkipBlank(Ctype, s, p) == p;
  }

  lemma JsonBlankIsCtype(gap: string)
    requires AllBlank(Json, gap)
    ensures AllBlank(Ctype, gap)
  {
  }

  /** Reading the lead, the key and the colon of a member. */
  lemma ReadsHead(s: string, p: nat, fs: Fields)
    requires fs.Field? && WellFormedFields(fs) && RawOk(fs.key) && |Unslash(fs.key)| < MAX_KEY_LEN
    requires Occurs(s, p, fs.lead + Quote(fs.key) + fs.mid + ":" + fs.pre + Print(fs.value))
    ensures var at := p + |fs.lead|;
            SkipBlank(Ctype, s, p) == at && At(s, at, '"') &&
            MemberHead(s, at) == Some((Unslash(fs.key), at + |fs.key| + |fs.mid| + |fs.pre| + 3))
    ensures Occurs(s, p + |fs.lead| + |fs.key| + |fs.mid| + |fs.pre| + 3, Print(fs.value))
  {
    hide Occurs, Unslash, Print, WellFormed, WellFormedFields, RawOk, SkipBlank, ExtractString;
    var at := p + |fs.lead|;
    HeadParts(s, p, fs);
    SkipBlankOver(Ctype, s, p, fs.lead);
    ReadsLiteral(s, at, fs.key, MAX_KEY_LEN);
    var colon := at + |fs.key| + |fs.mid| + 2;
    SkipBlankOver(Ctype, s, at + |fs.key| + 2, fs.mid);
    SkipBlankOver(Ctype, s, colon + 1, fs.pre);
  }

  /** Where the parts of a member's head stand, none of them running into a blank. */
  lemma HeadParts(s: string, p: nat, fs: Fields)
    requires fs.Field? && WellFormedFields(fs)
    requires Occurs(s, p, fs.lead + Quote(fs.key) + fs.mid + ":" + fs.pre + Print(fs.value))
    ensures var at := p + |fs.lead|;
            var mid := at + |fs.key| + 2;
            var pre := mid + |fs.mid| + 1;
            Occurs(s, p, fs.lead) && At(s, at, '"') && Occurs(s, at, Quote(fs.key)) &&
            Occurs(s, mid, fs.mid) && At(s, pre - 1, ':') && Occurs(s, pre, fs.pre) &&
            Occurs(s, pre + |fs.pre|, Print(fs.value)) && !AtBlank(Ctype, s, pre + |fs.pre|)
    ensures AllBlank(Ctype, fs.lead) && AllBlank(Ctype, fs.mid) && AllBlank(Ctype, fs.pre)
  {
    hide Occurs, Print;
    var lead, key, mid, pre := fs.lead, Quote(fs.key), fs.mid, fs.pre;
    OccursSplit(s, p, lead + key + mid + ":" + pre, Print(fs.value));
    OccursSplit(s, p, lead + key + mid + ":", pre);
    OccursSplit(s, p, lead + key + mid, ":");
    OccursSplit(s, p, lead + key, mid);
    OccursSplit(s, p, lead, key);
    JsonBlankIsCtype(lead);
    JsonBlankIsCtype(mid);
    JsonBlankIsCtype(pre);
    QuoteParts(s, p + |lead|, fs.key);
    OccursChar(s, p + |lead + key + mid|, ':');
    FirstOfValue(s, p + |lead + key + mid + ":" + pre|, fs.value);
  }

  lemma FirstOfValue(s: string, p: nat, v: Json)
    requires WellFormed(v) && Occurs(s, p, Print(v))
    ensures At(s, p, Print(v)[0]) && !AtBlank(Ctype, s, p)
  {
    PrintFirst(v);
    assert s[p] == Print(v)[0];
  }

  lemma {:induction false} BareEndOver(s: string, p: nat, text: string, room: nat)
    requires Occurs(s, p, text) && |text| <= room
    requires forall i :: 0 <= i < |text| ==> PrimChar(text[i])
    requires var q := p + |text|; AfterMember(s, q) || AtBlank(Ctype, s, q)
    ensures BareEnd(s, p, room) == p + |text|
    decreases |text|
  {
    if text != "" {
      assert s[p] == text[0];
      var rest := text[1..];
      assert forall i :: 0 <= i < |rest| ==> rest[i] == text[i + 1];
      BareEndOver(s, p + 1, rest, room - 1);
    }
  }

  /** A value is read to its end and adds its leaves. */
  lemma {:induction false} ReadsValue(s: string, p: nat, v: Json, prefix: string, path: seq<string>, t: seq<Entry>)
    requires 0 < p && Occurs(s, p, Print(v)) && WellFormed(v) && path != [] && Key(path) != ""
    requires var q := p + |Print(v)|; AfterMember(s, q) || AtBlank(Ctype, s, q)
    requires match v case Prim(text) => |text| < MAX_VALUE_LEN
                     case Str(raw) => |Unslash(raw)| < MAX_VALUE_LEN
                     case Arr(_) => false
                     case Obj(fs) => Readable(fs) && Neutral(PrintFields(fs), '{', '}') && Fits(fs, path)
    requires |t| < MAX_KEYS
    ensures ParseValue(s, p, prefix, Key(path), t) ==
            ParseMembers(s, p + |Print(v)|, prefix, Upto(t + Entries(ValueLeaves(v, path))))
    decreases v, 1
  {
    hide ParseMembers, ParseValue, ParseObject, Key, Occurs, Entries, Fits, Readable;
    match v
    case Prim(text) => ReadsBare(s, p, text, prefix, path, t);
    case Str(raw) => ReadsText(s, p, raw, prefix, path, t);
    case Obj(fs) =>
      ReadsNested(fs, path, t);
      AfterNested(s, p, fs, prefix, Key(path), t);
  }

  lemma ReadsBare(s: string, p: nat, text: string, prefix: string, path: seq<string>, t: seq<Entry>)
    requires 0 < p && Occurs(s, p, text) && PrimOk(text) && |text| < MAX_VALUE_LEN && |t| < MAX_KEYS
    requires var q := p + |text|; AfterMember(s, q) || AtBlank(Ctype, s, q)
    ensures ParseValue(s, p, prefix, Key(path), t) ==
            ParseMembers(s, p + |text|, prefix, Upto(t + Entries([Leaf(path, text)])))
  {
    hide ParseMembers, ParseObject, Key;
    FirstOfValue(s, p, Prim(text));
    BareEndOver(s, p, text, MAX_VALUE_LEN - 1);
    OccursSlice(s, p, text);
    OneEntry(Leaf(path, text));
  }

  lemma ReadsText(s: string, p: nat, raw: string, prefix: string, path: seq<string>, t: seq<Entry>)
    requires 0 < p && Occurs(s, p, Quote(raw)) && RawOk(raw) && |Unslash(raw)| < MAX_VALUE_LEN && |t| < MAX_KEYS
    ensures ParseValue(s, p, prefix, Key(path), t) ==
            ParseMembers(s, p + |raw| + 2, prefix, Upto(t + Entries([Leaf(path, Unslash(raw))])))
  {
    hide ParseMembers, ParseObject, Key;
    QuoteParts(s, p, raw);
    ReadsLiteral(s, p, raw, MAX_VALUE_LEN);
    OneEntry(Leaf(path, Unslash(raw)));
  }

  /** The nested text is cut out at its own closing brace and parsed by itself. */
  lemma AfterNested(s: string, p: nat, fs: Fields, prefix: string, key: string, t: seq<Entry>)
    requires 0 < p && Occurs(s, p, Print(Obj(fs))) && Neutral(PrintFields(fs), '{', '}')
    ensures ParseValue(s, p, prefix, key, t) ==
            ParseMembers(s, p + |Print(Obj(fs))|, prefix, ParseObject(Print(Obj(fs)), key, t))
  {
    hide ParseMembers, ParseObject, PrintFields;
    MatchesOwnBracket(s, '{', '}', p, PrintFields(fs));
    OccursSlice(s, p, Print(Obj(fs)));
  }

  lemma OneEntry(leaf: Leaf)
    ensures Entries([leaf]) == [Entry(Key(leaf.path), leaf.value)]
  {
    assert [leaf][1..] == [];
  }

  lemma {:induction false} ReadsNested(fs: Fields, path: seq<string>, t: seq<Entry>)
    requires WellFormedFields(fs) && Readable(fs) && Fits(fs, path)
    requires (path != [] ==> Key(path) != "") && |t| <= MAX_KEYS
    ensures ParseObject(Print(Obj(fs)), Key(path), t) == Upto(t + Entries(Leaves(fs, path)))
    decreases fs, 2
  {
    hide ParseMembers, PrintFields, Entries, Leaves, Key, Occurs, Fits, Readable, WellFormedFields;
    var s := Print(Obj(fs));
    assert s == "" + "{" + PrintFields(fs) + ['}'] + "";
    OpensObject(s, "", PrintFields(fs), '}', "");
    ReadsFields(s, 1, fs, path, t);
    ClosesObject(s, |s| - 1, Key(path), Upto(t + Entries(Leaves(fs, path))));
  }

  lemma ClosesObject(s: string, p: nat, prefix: string, t: seq<Entry>)
    requires At(s, p, '}')
    ensures ParseMembers(s, p, prefix, t) == t
  {
  }

  /** The members are read to their end; the table grows by their leaves, as far as it has room. */
  lemma {:induction false} ReadsFields(s: string, p: nat, fs: Fields, path: seq<string>, t: seq<Entry>)
    requires 0 < p && Occurs(s, p, PrintFields(fs)) && AfterMember(s, p + |PrintFields(fs)|)
    requires WellFormedFields(fs) && Readable(fs) && Fits(fs, path)
    requires (path != [] ==> Key(path) != "") && |t| <= MAX_KEYS
    ensures ParseMembers(s, p, Key(path), t) ==
            ParseMembers(s, p + |PrintFields(fs)|, Key(path), Upto(t + Entries(Leaves(fs, path))))
    decreases fs, 1
  {
    hide ParseMembers, ParseObject, Key, Occurs, Print, Entries, ValueLeaves, Quote, SkipBlank, Upto, RawOk, Unslash;
    if fs.NoFields? {
      JsonBlankIsCtype(fs.gap);
      NoEntries(t);
      OverGap(s, p, fs.gap, Key(path), t);
    } else {
      var value := ValueLeaves(fs.value, path + [Unslash(fs.key)]);
      var t' := Upto(t + Entries(value));
      var body := fs.lead + Quote(fs.key) + fs.mid + ":" + fs.pre + Print(fs.value);
      var sep := Separator(fs.tail.Field?);
      FieldParts(s, p, fs);
      ReadsMember(s, p, fs, path, t);
      OverTrail(s, p + |body|, fs, Key(path), t');
      ReadsFields(s, p + |body| + |fs.trail| + |sep|, fs.tail, path, t');
      EntriesConcat(value, Leaves(fs.tail, path));
      UptoConcat(t, Entries(value), Entries(Leaves(fs.tail, path)));
    }
  }

  /** From the end of a member's value to the start of the next member. */
  lemma OverTrail(s: string, p: nat, fs: Fields, prefix: string, t: seq<Entry>)
    requires fs.Field? && WellFormedFields(fs)
    requires var sep := Separator(fs.tail.Field?);
             var q := p + |fs.trail|;
             Occurs(s, p, fs.trail) && (fs.tail.Field? ==> At(s, q, ',')) &&
             Occurs(s, q + |sep|, PrintFields(fs.tail)) && AfterMember(s, q + |sep| + |PrintFields(fs.tail)|)
    ensures p + |fs.trail| + |Separator(fs.tail.Field?)| <= |s|
    ensures ParseMembers(s, p, prefix, t) ==
            ParseMembers(s, p + |fs.trail| + |Separator(fs.tail.Field?)|, prefix, t)
  {
    hide ParseMembers, Occurs, Quote;
    JsonBlankIsCtype(fs.trail);
    var q := p + |fs.trail|;
    if fs.tail.Field? {
      OverGap(s, p, fs.trail, prefix, t);
      OverComma(s, q, prefix, t);
    } else {
      JsonBlankIsCtype(fs.tail.gap);
      OverGap(s, q, fs.tail.gap, prefix, t);
      TwoGaps(s, p, fs.trail, fs.tail.gap, prefix, t);
    }
  }

  lemma NoEntries(t: seq<Entry>)
    ensures t + Entries([]) == t
  {
  }

  lemma TwoGaps(s: string, p: nat, a: string, b: string, prefix: string, t: seq<Entry>)
    requires AllBlank(Ctype, a) && AllBlank(Ctype, b)
    requires Occurs(s, p, a) && Occurs(s, p + |a|, b) && AfterMember(s, p + |a| + |b|)
    ensures ParseMembers(s, p, prefix, t) == ParseMembers(s, p + |a| + |b|, prefix, t)
  {
    OccursSplit(s, p, a, b);
    OverGap(s, p, a + b, prefix, t);
  }

  /** The parts of a printed member, the separator and the members after it. */
  lemma FieldParts(s: string, p: nat, fs: Fields)
    requires fs.Field? && Occurs(s, p, PrintFields(fs))
    ensures var body := fs.lead + Quote(fs.key) + fs.mid + ":" + fs.pre + Print(fs.value);
            var sep := Separator(fs.tail.Field?);
            var q := p + |body| + |fs.trail|;
            Occurs(s, p, body) && Occurs(s, p + |body|, fs.trail) && Occurs(s, q, sep) &&
            (fs.tail.Field? ==> At(s, q, ',')) &&
            Occurs(s, q + |sep|, PrintFields(fs.tail)) &&
            p + |PrintFields(fs)| == q + |sep| + |PrintFields(fs.tail)|
  {
    var body := fs.lead + Quote(fs.key) + fs.mid + ":" + fs.pre + Print(fs.value);
    var sep := Separator(fs.tail.Field?);
    OccursSplit(s, p, body + fs.trail + sep, PrintFields(fs.tail));
    OccursSplit(s, p, body + fs.trail, sep);
    OccursSplit(s, p, body, fs.trail);
    OccursChar(s, p + |body| + |fs.trail|, ',');
  }

  lemma {:induction false} ReadsMember(s: string, p: nat, fs: Fields, path: seq<string>, t: seq<Entry>)
    requires 0 < p && fs.Field? && WellFormedFields(fs) && Readable(fs) && Fits(fs, path)
    requires Occurs(s, p, PrintFields(fs)) && AfterMember(s, p + |PrintFields(fs)|)
    requires (path != [] ==> Key(path) != "") && |t| <= MAX_KEYS
    ensures var body := fs.lead + Quote(fs.key) + fs.mid + ":" + fs.pre + Print(fs.value);
            ParseMembers(s, p, Key(path), t) ==
            ParseMembers(s, p + |body|, Key(path),
                         Upto(t + Entries(ValueLeaves(fs.value, path + [Unslash(fs.key)]))))
    decreases fs, 0
  {
    hide ParseMembers, ParseValue, Key, Occurs, Print, Entries, Unslash, MemberHead, FullKey, Leaves;
    var path' := path + [Unslash(fs.key)];
    var at := p + |fs.lead|;
    var start := at + |fs.key| + |fs.mid| + |fs.pre| + 3;
    if |t| < MAX_KEYS {
      FieldParts(s, p, fs);
      AfterBody(s, start + |Print(fs.value)|, fs);
      ReadsHead(s, p, fs);
      FullKeyIsKey(path, Unslash(fs.key));
      DottedNonEmpty(path, Unslash(fs.key));
      ReadsValue(s, start, fs.value, Key(path), path', t);
      EntersMember(s, p, at, Unslash(fs.key), start, Key(path), t);
    } else {
      FieldParts(s, p, fs);
      ReadsHead(s, p, fs);
      IsFull(s, p, Key(path), t, Entries(ValueLeaves(fs.value, path')));
      IsFull(s, start + |Print(fs.value)|, Key(path), t, Entries(ValueLeaves(fs.value, path')));
    }
  }

  lemma IsFull(s: string, p: nat, prefix: string, t: seq<Entry>, more: seq<Entry>)
    requires |t| == MAX_KEYS && p <= |s|
    ensures ParseMembers(s, p, prefix, t) == t && Upto(t + more) == t
  {
  }

  lemma EntersMember(s: string, p: nat, at: nat, key: string, start: nat, prefix: string, t: seq<Entry>)
    requires p <= |s| && |t| < MAX_KEYS && SkipBlank(Ctype, s, p) == at && At(s, at, '"')
    requires MemberHead(s, at) == Some((key, start))
    ensures ParseMembers(s, p, prefix, t) == ParseValue(s, start, prefix, FullKey(prefix, key), t)
  {
    hide ParseValue, FullKey, MemberHead;
  }

  lemma DottedNonEmpty(path: seq<string>, key: string)
    requires key != ""
    ensures Key(path + [key]) != ""
  {
  }

  /** What follows a value: a blank, a comma or the closing brace. */
  lemma AfterBody(s: string, q: nat, fs: Fields)
    requires fs.Field? && WellFormedFields(fs)
    requires Occurs(s, q, fs.trail) && Occurs(s, q + |fs.trail|, Separator(fs.tail.Field?))
    requires fs.tail.Field? ==> At(s, q + |fs.trail|, ',')
    requires fs.tail.NoFields? ==> Occurs(s, q + |fs.trail|, fs.tail.gap) &&
                                   AfterMember(s, q + |fs.trail| + |fs.tail.gap|)
    ensures AfterMember(s, q) || AtBlank(Ctype, s, q)
  {
    if fs.trail != "" {
      assert s[q] == fs.trail[0];
    } else if fs.tail.NoFields? && fs.tail.gap != "" {
      assert s[q] == fs.tail.gap[0];
    }
  }

  // ---------------------------------------------------------------- main results

  ghost predicate ReadableObject(fs: Fields) {
    WellFormedFields(fs) && Readable(fs) && Fits(fs, [])
  }

  /** The text the table gets for a string or primitive. */
  function ScalarText(v: Json): string
    requires v.Prim? || (v.Str? && RawOk(v.raw))
  {
    if v.Prim? then v.text else Unslash(v.raw)
  }

  /** A member with a plain key and a scalar value puts its entry in front. */
  lemma ConsScalar(fs: Fields)
    requires fs.Field? && WellFormedFields(fs) && ReadableObject(fs.tail)
    requires Plain(fs.key) && 0 < |fs.key| < MAX_KEY_LEN && (fs.value.Prim? || (fs.value.Str? && RawOk(fs.value.raw)))
    requires |ScalarText(fs.value)| < MAX_VALUE_LEN
    ensures ReadableObject(fs)
    ensures Entries(Leaves(fs, [])) == [Entry(fs.key, ScalarText(fs.value))] + Entries(Leaves(fs.tail, []))
  {
    PlainIsRaw(fs.key);
    var leaf := Leaf([fs.key], ScalarText(fs.value));
    assert [] + [fs.key] == [fs.key];
    EntriesConcat([leaf], Leaves(fs.tail, []));
    OneEntry(leaf);
  }

  lemma LoneScalar(key: string, v: Json)
    requires Plain(key) && 0 < |key| < MAX_KEY_LEN && WellFormed(v) && (v.Prim? || v.Str?)
    requires |ScalarText(v)| < MAX_VALUE_LEN
    ensures var fs := Field("", key, "", "", v, "", NoFields(""));
            ReadableObject(fs) && Entries(Leaves(fs, [])) == [Entry(key, ScalarText(v))]
  {
    var fs := Field("", key, "", "", v, "", NoFields(""));
    PlainIsRaw(key);
    ConsScalar(fs);
    assert [Entry(key, ScalarText(v))] + [] == [Entry(key, ScalarText(v))];
  }

  /** Parsing the printed text of an object fills the table with exactly the first 64 of its leaves in
      order, whatever whitespace surrounds its tokens and whatever text follows its closing brace. */
  lemma ParsesToLeaves(fs: Fields, gap: string, rest: string)
    requires ReadableObject(fs) && AllBlank(Ctype, gap)
    ensures Parse(gap + Print(Obj(fs)) + rest) == Upto(Entries(Leaves(fs, [])))
    ensures var es := Entries(Leaves(fs, [])); Upto(es) == if |es| <= 64 then es else es[..64]
  {
    hide ParseMembers, ParseObject, PrintFields, Entries, Leaves, Occurs, SkipBlank, Readable, Fits, WellFormedFields;
    var s := gap + "{" + PrintFields(fs) + "}" + rest;
    assert gap + Print(Obj(fs)) + rest == s;
    OpensObject(s, gap, PrintFields(fs), '}', rest);
    ParseOpens(s, |gap|);
    ReadsFields(s, |gap| + 1, fs, [], []);
    var leaves := Entries(Leaves(fs, []));
    assert [] + leaves == leaves;
    ClosesObject(s, |gap| + 1 + |PrintFields(fs)|, Key([]), Upto(leaves));
  }

  lemma ParseOpens(s: string, at: nat)
    requires SkipBlank(Ctype, s, 0) == at && At(s, at, '{')
    ensures Parse(s) == ParseMembers(s, at + 1, Key([]), [])
  {
    hide ParseMembers;
  }

  lemma OpensObject(s: string, gap: string, inner: string, last: char, rest: string)
    requires AllBlank(Ctype, gap) && s == gap + "{" + inner + [last] + rest
    ensures SkipBlank(Ctype, s, 0) == |gap| && At(s, |gap|, '{')
    ensures Occurs(s, |gap| + 1, inner) && At(s, |gap| + 1 + |inner|, last)
  {
    OccursSelf(gap + "{" + inner + [last], rest);
    OccursSplit(s, 0, gap + "{" + inner, [last]);
    OccursSplit(s, 0, gap + "{", inner);
    OccursSplit(s, 0, gap, "{");
    OccursChar(s, |gap|, '{');
    OccursChar(s, |gap| + 1 + |inner|, last);
    SkipBlankOver(Ctype, s, 0, gap);
  }

  /** Members that follow, of any kind the parser can or cannot read, never disturb the leaves before them. */
  lemma LeavesSurviveWhatFollows(fs: Fields, gap: string, rest: string)
    requires ReadableObject(fs) && AllBlank(Ctype, gap)
    ensures Upto(Entries(Leaves(fs, []))) <= Parse(gap + "{" + PrintFields(fs) + "," + rest)
  {
    hide ParseMembers, ParseObject, PrintFields, Entries, Leaves, Occurs, SkipBlank, Readable, Fits, WellFormedFields;
    var s := gap + "{" + PrintFields(fs) + [','] + rest;
    assert "," == [','];
    OpensObject(s, gap, PrintFields(fs), ',', rest);
    ParseOpens(s, |gap|);
    ReadsFields(s, |gap| + 1, fs, [], []);
    var leaves := Entries(Leaves(fs, []));
    assert [] + leaves == leaves;
    TableGrows(s, |gap| + 1 + |PrintFields(fs)|, Key([]), Upto(leaves));
  }

  lemma LeavesSurvive(fs: Fields, rest: string)
    requires ReadableObject(fs)
    ensures Upto(Entries(Leaves(fs, []))) <= Parse("{" + PrintFields(fs) + "," + rest)
  {
    hide Parse, PrintFields, Entries, Leaves, Upto, ReadableObject;
    LeavesSurviveWhatFollows(fs, "", rest);
    assert "" + "{" + PrintFields(fs) + "," + rest == "{" + PrintFields(fs) + "," + rest;
  }

  /** Entries are only ever added. */
  lemma {:induction false} TableGrows(s: string, p: nat, prefix: string, t: seq<Entry>)
    requires p <= |s|
    ensures t <= ParseMembers(s, p, prefix, t)
    decreases |s|, |s| - p, 0
  {
    hide ParseObject, ParseValue, MemberHead, FullKey, ExtractString, CloseAt, SkipBlank, Occurs;
    if !(p == |s| || s[p] == '}' || |t| >= MAX_KEYS) {
      var at := SkipBlank(Ctype, s, p);
      if !At(s, at, '}') {
        if At(s, at, ',') {
          TableGrows(s, at + 1, prefix, t);
        } else {
          var head := MemberHead(s, at);
          if head.Some? { ValueGrows(s, head.value.1, prefix, FullKey(prefix, head.value.0), t); }
        }
      }
    }
  }

  lemma {:induction false} ObjectGrows(s: string, prefix: string, t: seq<Entry>)
    ensures t <= ParseObject(s, prefix, t)
    decreases |s|, |s| + 1
  {
    var p := SkipBlank(Ctype, s, 0);
    if At(s, p, '{') { TableGrows(s, p + 1, prefix, t); }
  }

  lemma {:induction false} ValueGrows(s: string, p: nat, prefix: string, key: string, t: seq<Entry>)
    requires 0 < p <= |s|
    ensures t <= ParseValue(s, p, prefix, key, t)
    decreases |s|, |s| - p, 1
  {
    if At(s, p, '{') {
      var q := CloseAt(s, '{', '}', p + 1, 1);
      var t' := ParseObject(s[p..q], key, t);
      ObjectGrows(s[p..q], key, t);
      TableGrows(s, q, prefix, t');
    } else if At(s, p, '"') {
      var (value, q) := ExtractString(s, p, MAX_VALUE_LEN).value;
      TableGrows(s, q, prefix, t + [Entry(key, value)]);
    } else {
      var q := BareEnd(s, p, MAX_VALUE_LEN - 1);
      TableGrows(s, q, prefix, t + [Entry(key, s[p..q])]);
    }
  }

  /** So lookups that succeed on the leaves give the same answer on the longer text. */
  lemma {:induction false} LookupInPrefix(t: seq<Entry>, u: seq<Entry>, key: string)
    requires t <= u && Lookup(t, key).Some?
    ensures Lookup(u, key) == Lookup(t, key)
  {
    if t[0].key != key {
      assert t[1..] <= u[1..];
      LookupInPrefix(t[1..], u[1..], key);
    }
  }

  // ---------------------------------------------------------------- where the parser gives up

  /** A member that does not begin with a quote ends the parsing: the table holds the leaves before it
      and nothing else. */
  lemma StopsAtNoKey(fs: Fields, gap: string, blank: string, rest: string)
    requires ReadableObject(fs) && AllBlank(Ctype, gap) && AllBlank(Ctype, blank)
    requires rest == "" || (!IsBlank(Ctype, rest[0]) && rest[0] != '"' && rest[0] != ',')
    ensures Parse(gap + "{" + PrintFields(fs) + "," + blank + rest) == Upto(Entries(Leaves(fs, [])))
  {
    var t := Upto(Entries(Leaves(fs, [])));
    var s := gap + "{" + PrintFields(fs) + "," + blank + rest;
    var p := ParsedUpTo(s, fs, gap, blank + rest);
    assert s[p..] == blank + rest;
    NoKeyStops(s, p, blank, rest, t);
    hide *;
  }

  /** So does a key without a colon after it. */
  lemma StopsWithoutColon(fs: Fields, gap: string, blank: string, raw: string, mid: string, rest: string)
    requires ReadableObject(fs) && AllBlank(Ctype, gap) && AllBlank(Ctype, blank) && AllBlank(Ctype, mid)
    requires RawOk(raw) && |Unslash(raw)| < MAX_KEY_LEN
    requires rest == "" || (!IsBlank(Ctype, rest[0]) && rest[0] != ':')
    ensures Parse(gap + "{" + PrintFields(fs) + "," + (blank + Quote(raw) + mid + rest)) == Upto(Entries(Leaves(fs, [])))
  {
    assert Readable(fs);
    hide *;
    var t := Upto(Entries(Leaves(fs, [])));
    var tail := blank + Quote(raw) + mid + rest;
    var s := gap + "{" + PrintFields(fs) + "," + tail;
    var p := ParsedUpTo(s, fs, gap, tail);
    NoColonStops(s, p, blank, raw, mid, rest, t);
  }

  lemma ParsedUpTo(s: string, fs: Fields, gap: string, rest: string) returns (p: nat)
    requires ReadableObject(fs) && AllBlank(Ctype, gap)
    requires s == gap + "{" + PrintFields(fs) + "," + rest
    ensures p <= |s| && s[p..] == rest
    ensures Parse(s) == ParseMembers(s, p, "", Upto(Entries(Leaves(fs, []))))
  {
    hide *;
    assert "," == [','];
    var leaves := RootFacts(fs);
    var q := |gap| + 1 + |PrintFields(fs)|;
    OpensObject(s, gap, PrintFields(fs), ',', rest);
    ParseOpens(s, |gap|);
    CommaIsAfter(s, q);
    ReadsFields(s, |gap| + 1, fs, [], []);
    OverComma(s, q, "", Upto(leaves));
    p := q + 1;
  }

  lemma RootFacts(fs: Fields) returns (leaves: seq<Entry>)
    requires ReadableObject(fs)
    ensures WellFormedFields(fs) && Readable(fs) && Fits(fs, []) && Key([]) == ""
    ensures leaves == Entries(Leaves(fs, [])) && [] + leaves == leaves && MAX_KEYS > 0
  {
    leaves := Entries(Leaves(fs, []));
  }

  lemma CommaIsAfter(s: string, q: nat)
    requires At(s, q, ',')
    ensures AfterMember(s, q) && q + 1 <= |s|
  {
  }

  lemma NoKeyStops(s: string, p: nat, blank: string, rest: string, t: seq<Entry>)
    requires p <= |s| && s[p..] == blank + rest && AllBlank(Ctype, blank)
    requires rest == "" || (!IsBlank(Ctype, rest[0]) && rest[0] != '"' && rest[0] != ',')
    ensures ParseMembers(s, p, "", t) == t
  {
    var at := p + |blank|;
    assert forall i :: 0 <= i < |blank| ==> s[p + i] == s[p..][i];
    assert rest != "" ==> s[at] == s[p..][|blank|] == rest[0];
    SkipBlankOver(Ctype, s, p, blank);
    hide ParseValue, ParseObject, FullKey;
  }

  lemma NoColonStops(s: string, p: nat, blank: string, raw: string, mid: string, rest: string, t: seq<Entry>)
    requires p <= |s| && s[p..] == blank + Quote(raw) + mid + rest && AllBlank(Ctype, blank) && AllBlank(Ctype, mid)
    requires RawOk(raw) && |Unslash(raw)| < MAX_KEY_LEN
    requires rest == "" || (!IsBlank(Ctype, rest[0]) && rest[0] != ':')
    ensures ParseMembers(s, p, "", t) == t
  {
    hide *;
    var at := p + |blank|;
    var after := at + |raw| + 2;
    TailParts(s, p, blank, raw, mid, rest);
    SkipBlankOver(Ctype, s, p, blank);
    ReadsLiteral(s, at, raw, MAX_KEY_LEN);
    SkipBlankOver(Ctype, s, after, mid);
    HeadFails(s, p, at, Unslash(raw), after, after + |mid|, t);
  }

  lemma TailParts(s: string, p: nat, blank: string, raw: string, mid: string, rest: string)
    requires p <= |s| && s[p..] == blank + Quote(raw) + mid + rest
    requires rest == "" || (!IsBlank(Ctype, rest[0]) && rest[0] != ':')
    ensures var at := p + |blank|;
            var after := at + |raw| + 2;
            Occurs(s, p, blank) && At(s, at, '"') && !AtBlank(Ctype, s, at) && Occurs(s, at, Quote(raw)) &&
            Occurs(s, after, mid) && after + |mid| <= |s| && !AtBlank(Ctype, s, after + |mid|) && !At(s, after + |mid|, ':')
  {
    var u := s[p..];
    assert forall i :: 0 <= i < |u| ==> s[p + i] == u[i];
    assert Occurs(u, 0, blank) && Occurs(u, |blank|, Quote(raw)) && Occurs(u, |blank| + |raw| + 2, mid);
    if rest != "" { assert u[|blank| + |raw| + 2 + |mid|] == rest[0]; }
  }

  lemma HeadFails(s: string, p: nat, at: nat, key: string, after: nat, colon: nat, t: seq<Entry>)
    requires p <= |s| && SkipBlank(Ctype, s, p) == at && At(s, at, '"') && after <= |s|
    requires ExtractString(s, at, MAX_KEY_LEN) == Some((key, after))
    requires SkipBlank(Ctype, s, after) == colon && !At(s, colon, ':')
    ensures ParseMembers(s, p, "", t) == t
  {
    hide ParseValue, ParseObject, FullKey, SkipBlank, ExtractString;
  }

  // ---------------------------------------------------------------- keys that cannot be read

  /** From `p` on there is neither a backslash nor the quoted key. */
  ghost predicate Silent(s: string, p: nat, key: string) {
    (forall i :: p <= i < |s| ==> s[i] != '\\') && forall k :: p <= k <= |s| ==> !Occurs(s, k, Quote(key))
  }

  ghost predicate SimpleKey(key: string) { Plain(key) && key != "" && '.' !in key && |key| < 127 }

  /** Text that does not hold a quoted key never makes an entry for it, however badly it is nested. */
  lemma {:induction false} NeverRead(s: string, p: nat, prefix: string, t: seq<Entry>, key: string)
    requires p <= |s| && Silent(s, p, key) && SimpleKey(key) && Lookup(t, key).None?
    ensures Lookup(ParseMembers(s, p, prefix, t), key).None?
    decreases |s|, |s| - p, 0
  {
    hide ParseObject, ParseValue, MemberHead, FullKey, ExtractString, CloseAt, SkipBlank, Occurs;
    if !(p == |s| || s[p] == '}' || |t| >= MAX_KEYS) {
      var at := SkipBlank(Ctype, s, p);
      if !At(s, at, '}') {
        if At(s, at, ',') {
          NeverRead(s, at + 1, prefix, t, key);
        } else {
          var head := MemberHead(s, at);
          if head.Some? {
            KeyDiffers(s, at, prefix, key);
            ValueNeverRead(s, head.value.1, prefix, FullKey(prefix, head.value.0), t, key);
          }
        }
      }
    }
  }

  lemma {:induction false} ValueNeverRead(s: string, p: nat, prefix: string, full: string, t: seq<Entry>, key: string)
    requires 0 < p <= |s| && Silent(s, p, key) && SimpleKey(key) && full != key && Lookup(t, key).None?
    ensures Lookup(ParseValue(s, p, prefix, full, t), key).None?
    decreases |s|, |s| - p, 1
  {
    if At(s, p, '{') {
      var q := CloseAt(s, '{', '}', p + 1, 1);
      SilentPart(s, p, q, key);
      ObjectNeverRead(s[p..q], full, t, key);
      NeverRead(s, q, prefix, ParseObject(s[p..q], full, t), key);
    } else if At(s, p, '"') {
      var (value, q) := ExtractString(s, p, MAX_VALUE_LEN).value;
      LookupSnoc(t, Entry(full, value), key);
      NeverRead(s, q, prefix, t + [Entry(full, value)], key);
    } else {
      var q := BareEnd(s, p, MAX_VALUE_LEN - 1);
      LookupSnoc(t, Entry(full, s[p..q]), key);
      NeverRead(s, q, prefix, t + [Entry(full, s[p..q])], key);
    }
  }

  lemma {:induction false} ObjectNeverRead(s: string, prefix: string, t: seq<Entry>, key: string)
    requires Silent(s, 0, key) && SimpleKey(key) && Lookup(t, key).None?
    ensures Lookup(ParseObject(s, prefix, t), key).None?
    decreases |s|, |s| + 1
  {
    var p := SkipBlank(Ctype, s, 0);
    if At(s, p, '{') { NeverRead(s, p + 1, prefix, t, key); }
  }

  lemma SilentPart(s: string, p: nat, q: nat, key: string)
    requires p <= q <= |s| && Silent(s, p, key)
    ensures Silent(s[p..q], 0, key)
  {
    forall k | 0 <= k <= q - p ensures !Occurs(s[p..q], k, Quote(key)) {
      if Occurs(s[p..q], k, Quote(key)) { assert Occurs(s, p + k, Quote(key)); }
    }
  }

  lemma {:induction false} LookupSnoc(t: seq<Entry>, e: Entry, key: string)
    ensures Lookup(t + [e], key) ==
            if Lookup(t, key).Some? then Lookup(t, key) else if e.key == key then Some(e.value) else None
  {
    if t == [] {
      assert t + [e] == [e];
    } else {
      assert (t + [e])[1..] == t[1..] + [e];
      LookupSnoc(t[1..], e, key);
    }
  }

  /** Without backslashes a key is read as it stands, and must end at a quote to be followed by a colon. */
  lemma KeyDiffers(s: string, at: nat, prefix: string, key: string)
    requires at <= |s| && Silent(s, at, key) && SimpleKey(key) && MemberHead(s, at).Some?
    ensures FullKey(prefix, MemberHead(s, at).value.0) != key
  {
    var k := MemberHead(s, at).value.0;
    BodyVerbatim(s, at + 1, MAX_KEY_LEN - 1);
    var (body, q) := StringBody(s, at + 1, MAX_KEY_LEN - 1);
    if k == key {
      assert q < |s| && s[q] == '"';
      QuoteParts(s, at, key);
      assert false;
    }
    FullKeyOf(prefix, k, key);
  }

  lemma FullKeyOf(prefix: string, k: string, key: string)
    requires SimpleKey(key) && |k| < MAX_KEY_LEN && k != key
    ensures FullKey(prefix, k) != key
  {
    if prefix != "" && |prefix| < 127 {
      assert FullKey(prefix, k)[|prefix|] == '.';
    }
  }

  lemma {:induction false} BodyVerbatim(s: string, p: nat, room: nat)
    requires p <= |s| && forall i :: p <= i < |s| ==> s[i] != '\\'
    ensures var (body, q) := StringBody(s, p, room);
            body == s[p..q] && (|body| == room || q == |s| || s[q] == '"')
    decreases |s| - p
  {
    if !(p == |s| || s[p] == '"' || room == 0) {
      BodyVerbatim(s, p + 1, room - 1);
      var (body, q) := StringBody(s, p + 1, room - 1);
      assert [s[p]] + s[p + 1..q] == s[p..q];
    }
  }
}
