/** The options of a published message, as a receiver reads them out of the payload. */
module PublishOptions {
  import opened CStrings
  import opened StringScan
  import opened JsonText
  import opened JsonTable
  import opened Flatten
  import opened Publish

  function MetadataField(metadata: Option<string>): Fields {
    if metadata.None? then NoFields("") else Field("", "metadata", "", "", Str(metadata.value), "", NoFields(""))
  }

  function OptionFields(options: Options): Fields {
    Field("", "ttl", "", "", Prim(DecInt(options.ttlSeconds)), "",
      Field("", "storeInHistory", "", "", Prim(if options.storeInHistory then "true" else "false"), "",
        MetadataField(options.metadata)))
  }

  /** The payload of a text body with options, as an object. */
  function PayloadFields(name: string, raw: string, options: Options): Fields {
    Field("", "channel", "", "", Str(name), "",
      Field("", "message", "", "", Str(raw), "",
        Field("", "options", "", "", Obj(OptionFields(options)), "", NoFields(""))))
  }

  lemma CompactField(key: string, v: Json, tail: Fields)
    ensures PrintFields(Field("", key, "", "", v, "", tail)) ==
            Quote(key) + ":" + Print(v) + (Separator(tail.Field?) + PrintFields(tail))
  {
    var q, r := Quote(key), Print(v);
    assert "" + q + "" + ":" + "" + r + "" == q + ":" + r;
  }

  lemma PrintsPayload(name: string, raw: string, options: Options)
    requires !IsRaw(raw)
    ensures Payload(name, raw, Some(options)) == Print(Obj(PayloadFields(name, raw, options)))
  {
    hide *;
    var o := Print(Obj(OptionFields(options)));
    PayloadFieldsText(name, raw, options);
    PrintsOptions(options);
    PayloadText(name, raw, options);
    ObjText(PayloadFields(name, raw, options));
    GluePayload(Quote("channel") + ":" + Quote(name), Quote("message") + ":" + Quote(raw), o);
  }

  lemma ObjText(fs: Fields)
    ensures Print(Obj(fs)) == "{" + PrintFields(fs) + "}"
  {
  }

  lemma PayloadFieldsText(name: string, raw: string, options: Options)
    ensures PrintFields(PayloadFields(name, raw, options)) ==
            Quote("channel") + ":" + Quote(name) + ("," + (Quote("message") + ":" + Quote(raw) +
            ("," + (Quote("options") + ":" + Print(Obj(OptionFields(options)))))))
  {
    hide OptionFields, Quote;
    var f3 := Field("", "options", "", "", Obj(OptionFields(options)), "", NoFields(""));
    var f2 := Field("", "message", "", "", Str(raw), "", f3);
    CompactField("channel", Str(name), f2);
    CompactField("message", Str(raw), f3);
    CompactField("options", Obj(OptionFields(options)), NoFields(""));
    var last := Quote("options") + ":" + Print(Obj(OptionFields(options)));
    assert PrintFields(f3) == last + ("" + "") == last;
  }

  lemma PayloadText(name: string, raw: string, options: Options)
    requires !IsRaw(raw)
    ensures Payload(name, raw, Some(options)) ==
            "{" + (Quote("channel") + ":" + Quote(name)) + "," + (Quote("message") + ":") + Quote(raw) +
            OptionsText(Some(options)) + "}"
  {
    hide OptionsText, Quote;
  }

  lemma GluePayload(c: string, m: string, o: string)
    ensures "{" + (c + ("," + (m + ("," + (Quote("options") + ":" + o))))) + "}" ==
            "{" + c + "," + m + (",\"options\":" + o) + "}"
  {
    assert "," + (Quote("options") + ":" + o) == ",\"options\":" + o by {
      assert "," + (Quote("options") + ":") == ",\"options\":";
      assert "," + (Quote("options") + ":" + o) == "," + (Quote("options") + ":") + o;
    }
    hide Quote;
  }

  lemma PrintsOptions(options: Options)
    ensures ",\"options\":" + Print(Obj(OptionFields(options))) == OptionsText(Some(options))
  {
    hide *;
    var n, b := DecInt(options.ttlSeconds), BoolText(options.storeInHistory);
    var end := MetadataText(options.metadata);
    OptionFieldsText(options, end);
    ObjText(OptionFields(options));
    OptionsTextIs(options, end);
    GlueOptions(n, b, end);
  }

  lemma OptionFieldsText(options: Options, end: string)
    requires var f := MetadataField(options.metadata); end == Separator(f.Field?) + PrintFields(f)
    ensures PrintFields(OptionFields(options)) ==
            "\"ttl\":" + DecInt(options.ttlSeconds) +
            (",\"storeInHistory\":" + BoolText(options.storeInHistory) + end)
  {
    hide DecInt, Quote;
    var n, b := DecInt(options.ttlSeconds), BoolText(options.storeInHistory);
    var f3 := MetadataField(options.metadata);
    CompactField("ttl", Prim(n), Field("", "storeInHistory", "", "", Prim(b), "", f3));
    CompactField("storeInHistory", Prim(b), f3);
    OptionLiterals();
    hide MetadataField, PrintFields;
    assert "," + (Quote("storeInHistory") + ":" + b + end) == "," + (Quote("storeInHistory") + ":") + b + end;
  }

  lemma OptionsTextIs(options: Options, end: string)
    requires match options.metadata case None => end == ""
                                    case Some(m) => end == ",\"metadata\":\"" + m + "\""
    ensures OptionsText(Some(options)) ==
            ",\"options\":{\"ttl\":" + DecInt(options.ttlSeconds) + ",\"storeInHistory\":" +
            BoolText(options.storeInHistory) + (end + "}")
  {
    hide DecInt, BoolText;
    var front := ",\"options\":{\"ttl\":" + DecInt(options.ttlSeconds) + ",\"storeInHistory\":" +
                 BoolText(options.storeInHistory);
    if options.metadata.Some? {
      var m := options.metadata.value;
      assert end + "}" == ",\"metadata\":\"" + m + "\"}" by { assert "\"}" == "\"" + "}"; }
      assert front + ",\"metadata\":\"" + m + "\"}" == front + (",\"metadata\":\"" + m + "\"}");
    }
  }

  lemma GlueOptions(n: string, b: string, end: string)
    ensures ",\"options\":" + ("{" + ("\"ttl\":" + n + (",\"storeInHistory\":" + b + end)) + "}") ==
            ",\"options\":{\"ttl\":" + n + ",\"storeInHistory\":" + b + (end + "}")
  {
    assert ",\"options\":" + "{" + "\"ttl\":" == ",\"options\":{\"ttl\":";
  }

  lemma OptionLiterals()
    ensures Quote("ttl") + ":" == "\"ttl\":"
    ensures "," + (Quote("storeInHistory") + ":") == ",\"storeInHistory\":"
    ensures "," + (Quote("metadata") + ":\"") == ",\"metadata\":\""
  {
  }

  lemma MetadataText(metadata: Option<string>) returns (end: string)
    ensures var f := MetadataField(metadata); end == Separator(f.Field?) + PrintFields(f)
    ensures match metadata case None => end == ""
                           case Some(m) => end == ",\"metadata\":\"" + m + "\""
  {
    var f := MetadataField(metadata);
    end := Separator(f.Field?) + PrintFields(f);
    if metadata.Some? {
      CompactField("metadata", Str(metadata.value), NoFields(""));
      OptionLiterals();
      var m := metadata.value;
      assert "," + (Quote("metadata") + ":" + Quote(m) + ("" + "")) == "," + (Quote("metadata") + ":\"") + m + "\"";
    }
  }

  ghost predicate OptionsOk(options: Options) {
    options.metadata.Some? ==>
      var m := options.metadata.value; RawOk(m) && |Unslash(m)| < MAX_VALUE_LEN && Neutral(m, '{', '}')
  }

  // ---------------------------------------------------------------- the leaves of the payload

  lemma ScalarLeaf(fs: Fields, path: seq<string>)
    requires fs.Field? && Plain(fs.key) && fs.key != "" && Readable(fs.tail)
    requires fs.value.Prim? || (fs.value.Str? && RawOk(fs.value.raw))
    ensures Readable(fs) && Unslash(fs.key) == fs.key
    ensures Entries(Leaves(fs, path)) ==
            [Entry(Key(path + [fs.key]), ScalarText(fs.value))] + Entries(Leaves(fs.tail, path))
  {
    PlainIsRaw(fs.key);
    var leaf := Leaf(path + [fs.key], ScalarText(fs.value));
    EntriesConcat([leaf], Leaves(fs.tail, path));
    OneEntry(leaf);
  }

  function OptionEntries(options: Options): seq<Entry>
    requires OptionsOk(options)
  {
    [Entry("options.ttl", DecInt(options.ttlSeconds)),
     Entry("options.storeInHistory", if options.storeInHistory then "true" else "false")] +
    if options.metadata.None? then [] else [Entry("options.metadata", Unslash(options.metadata.value))]
  }

  lemma KeysOfOptions()
    ensures Plain("ttl") && Plain("storeInHistory") && Plain("metadata") && Plain("options")
    ensures Key(["options"] + ["ttl"]) == "options.ttl"
    ensures Key(["options"] + ["storeInHistory"]) == "options.storeInHistory"
    ensures Key(["options"] + ["metadata"]) == "options.metadata"
  {
    DottedPair("ttl");
    DottedPair("storeInHistory");
    DottedPair("metadata");
    assert "options" + "." + "ttl" == "options.ttl" && |"options.ttl"| == 11;
    assert "options" + "." + "storeInHistory" == "options.storeInHistory" && |"options.storeInHistory"| == 22;
    assert "options" + "." + "metadata" == "options.metadata" && |"options.metadata"| == 16;
  }

  lemma DottedPair(key: string)
    ensures Key(["options"] + [key]) == Take("options" + "." + key, 127)
  {
    var path := ["options"] + [key];
    assert path[..1] == ["options"] && path[1] == key && |path| == 2;
    assert Dotted(["options"]) == "options";
    assert Dotted(path) == Dotted(path[..1]) + "." + path[1];
  }

  lemma OptionLeaves(options: Options)
    requires OptionsOk(options)
    ensures Readable(OptionFields(options))
    ensures Entries(Leaves(OptionFields(options), ["options"])) == OptionEntries(options)
  {
    KeysOfOptions();
    hide Plain, Key, RawOk, Unslash, Neutral, DecInt, Leaves, Entries;
    var path := ["options"];
    var f3 := MetadataField(options.metadata);
    var f2 := Field("", "storeInHistory", "", "", Prim(if options.storeInHistory then "true" else "false"), "", f3);
    NothingLeaves(path);
    if options.metadata.Some? { ScalarLeaf(f3, path); }
    ScalarLeaf(f2, path);
    ScalarLeaf(OptionFields(options), path);
  }

  lemma NothingLeaves(path: seq<string>)
    ensures Readable(NoFields("")) && Entries(Leaves(NoFields(""), path)) == []
  {
  }

  lemma FieldIsWellFormed(key: string, v: Json, tail: Fields)
    requires Plain(key) && WellFormed(v) && WellFormedFields(tail)
    ensures WellFormedFields(Field("", key, "", "", v, "", tail))
  {
    PlainIsRaw(key);
  }

  lemma OptionsAreWellFormed(options: Options)
    requires OptionsOk(options)
    ensures WellFormedFields(OptionFields(options))
  {
    KeysOfOptions();
    DigitsArePrim(options.ttlSeconds);
    FlagsArePrim();
    var b := Prim(if options.storeInHistory then "true" else "false");
    var f3 := MetadataField(options.metadata);
    hide PrimOk, Plain, Key, DecInt, RawOk;
    assert WellFormedFields(NoFields(""));
    if options.metadata.Some? { FieldIsWellFormed("metadata", Str(options.metadata.value), NoFields("")); }
    FieldIsWellFormed("storeInHistory", b, f3);
    FieldIsWellFormed("ttl", Prim(DecInt(options.ttlSeconds)), Field("", "storeInHistory", "", "", b, "", f3));
  }

  lemma FlagsArePrim()
    ensures PrimOk("true") && PrimOk("false")
  {
  }

  lemma OptionsBalance(options: Options)
    requires OptionsOk(options)
    ensures Neutral(PrintFields(OptionFields(options)), '{', '}')
  {
    var b := Prim(if options.storeInHistory then "true" else "false");
    var f3 := MetadataField(options.metadata);
    OptionsAreWellFormed(options);
    KeysAreFree();
    assert FieldsNeutral(NoFields(""), '{', '}');
    if options.metadata.Some? { FieldIsNeutral("metadata", Str(options.metadata.value), NoFields("")); }
    hide Neutral, WellFormedFields, FieldsNeutral, Free;
    FieldIsNeutral("storeInHistory", b, f3);
    FieldIsNeutral("ttl", Prim(DecInt(options.ttlSeconds)), Field("", "storeInHistory", "", "", b, "", f3));
    PrintFieldsNeutral(OptionFields(options), '{', '}');
  }

  lemma FieldIsNeutral(key: string, v: Json, tail: Fields)
    requires Free(key, '{', '}') && StringsNeutral(v, '{', '}') && FieldsNeutral(tail, '{', '}')
    ensures FieldsNeutral(Field("", key, "", "", v, "", tail), '{', '}')
  {
    FreeIsNeutral(key, '{', '}');
  }

  lemma KeysAreFree()
    ensures Free("ttl", '{', '}') && Free("storeInHistory", '{', '}') && Free("metadata", '{', '}')
    ensures |"ttl"| < 127 && |"storeInHistory"| < 127 && |"metadata"| < 127
  {
  }

  lemma OptionsFit(options: Options)
    requires OptionsOk(options) && InBounds("", Some(options)) && Readable(OptionFields(options))
    ensures Fits(OptionFields(options), ["options"])
  {
    var b := Prim(if options.storeInHistory then "true" else "false");
    var f3 := MetadataField(options.metadata);
    KeysOfOptions();
    KeysAreFree();
    IntLength(options.ttlSeconds);
    assert Fits(NoFields(""), ["options"]) && |b.text| < MAX_VALUE_LEN;
    hide Plain, Key, RawOk, Unslash, DecInt, Free;
    if options.metadata.Some? { FieldFits("metadata", Str(options.metadata.value), NoFields("")); }
    FieldFits("storeInHistory", b, f3);
    FieldFits("ttl", Prim(DecInt(options.ttlSeconds)), Field("", "storeInHistory", "", "", b, "", f3));
  }

  lemma FieldFits(key: string, v: Json, tail: Fields)
    requires Plain(key) && |key| < 127 && (v.Prim? || v.Str?) && Readable(Field("", key, "", "", v, "", tail))
    requires Fits(tail, ["options"]) && |ScalarText(v)| < MAX_VALUE_LEN
    ensures Fits(Field("", key, "", "", v, "", tail), ["options"])
  {
    PlainIsRaw(key);
  }

  lemma DigitsArePrim(n: int)
    ensures PrimOk(DecInt(n))
  {
    var d := Dec(if n < 0 then -n else n);
    if n < 0 { assert DecInt(n) == "-" + d; }
  }

  /** The entries of a payload: channel, body, options. */
  lemma PayloadLeaves(name: string, raw: string, options: Options)
    requires Plain(name) && InBounds(name, Some(options)) && OptionsOk(options)
    requires RawOk(raw) && |Unslash(raw)| < MAX_VALUE_LEN
    ensures ReadableObject(PayloadFields(name, raw, options))
    ensures Entries(Leaves(PayloadFields(name, raw, options), [])) ==
            [Entry("channel", name)] + ([Entry("message", Unslash(raw))] + OptionEntries(options))
  {
    var f3 := Field("", "options", "", "", Obj(OptionFields(options)), "", NoFields(""));
    var f2 := Field("", "message", "", "", Str(raw), "", f3);
    var f1 := PayloadFields(name, raw, options);
    assert f1 == Field("", "channel", "", "", Str(name), "", f2);
    TopKeys();
    PlainIsRaw(name);
    OptionsMember(options);
    FieldIsWellFormed("message", Str(raw), f3);
    FieldIsWellFormed("channel", Str(name), f2);
    hide Plain, Key, RawOk, Unslash, OptionFields, OptionsOk, OptionEntries, ReadableObject, WellFormedFields, Leaves;
    ConsScalar(f2);
    ConsScalar(f1);
  }

  lemma TopKeys()
    ensures Plain("channel") && Plain("message") && Plain("options")
    ensures 0 < |"channel"| < MAX_KEY_LEN && 0 < |"message"| < MAX_KEY_LEN && 0 < |"options"| < MAX_KEY_LEN
  {
  }

  lemma OptionsMember(options: Options)
    requires OptionsOk(options) && InBounds("", Some(options))
    ensures var f := Field("", "options", "", "", Obj(OptionFields(options)), "", NoFields(""));
            WellFormedFields(f) && ReadableObject(f) && Entries(Leaves(f, [])) == OptionEntries(options)
  {
    TopKeys();
    OptionLeaves(options);
    OptionsAreWellFormed(options);
    OptionsBalance(options);
    OptionsFit(options);
    FieldIsWellFormed("options", Obj(OptionFields(options)), NoFields(""));
    PlainIsRaw("options");
    hide OptionFields, OptionEntries, OptionsOk, Plain, RawOk, Unslash, Neutral, PrintFields;
    ObjectLeaves(OptionFields(options));
  }

  lemma ObjectLeaves(inner: Fields)
    requires Readable(inner) && Fits(inner, ["options"]) && Neutral(PrintFields(inner), '{', '}')
    requires RawOk("options") && Unslash("options") == "options"
    ensures var f := Field("", "options", "", "", Obj(inner), "", NoFields(""));
            Readable(f) && Fits(f, []) && Leaves(f, []) == Leaves(inner, ["options"])
  {
    assert "options" != "" && |"options"| < MAX_KEY_LEN by { assert |"options"| == 7; }
    assert [] + ["options"] == ["options"];
    hide RawOk, Unslash, Neutral, PrintFields;
  }

  /** The receiver's parser finds body and options of a text message, each under its key. */
  lemma OptionsArrive(name: string, raw: string, options: Options)
    requires Plain(name) && InBounds(name, Some(options)) && OptionsOk(options)
    requires !IsRaw(raw) && RawOk(raw) && |Unslash(raw)| < MAX_VALUE_LEN
    ensures var t := Parse(Payload(name, raw, Some(options)));
            Lookup(t, "channel") == Some(name) && Lookup(t, "message") == Some(Unslash(raw)) &&
            Lookup(t, "options.ttl") == Some(DecInt(options.ttlSeconds)) &&
            Lookup(t, "options.storeInHistory") == Some(if options.storeInHistory then "true" else "false") &&
            Lookup(t, "options.metadata") ==
              if options.metadata.None? then None else Some(Unslash(options.metadata.value))
  {
    hide *;
    PayloadLeaves(name, raw, options);
    PrintsPayload(name, raw, options);
    var fs := PayloadFields(name, raw, options);
    NothingIsBlank();
    ParsesToLeaves(fs, "", "");
    assert "" + Print(Obj(fs)) + "" == Print(Obj(fs));
    Finds(name, raw, options);
  }

  lemma NothingIsBlank()
    ensures AllBlank(Ctype, "")
  {
  }

  lemma Finds(name: string, raw: string, options: Options)
    requires OptionsOk(options) && RawOk(raw)
    ensures var t := [Entry("channel", name)] + ([Entry("message", Unslash(raw))] + OptionEntries(options));
            Upto(t) == t &&
            Lookup(t, "channel") == Some(name) && Lookup(t, "message") == Some(Unslash(raw)) &&
            Lookup(t, "options.ttl") == Some(DecInt(options.ttlSeconds)) &&
            Lookup(t, "options.storeInHistory") == Some(if options.storeInHistory then "true" else "false") &&
            Lookup(t, "options.metadata") ==
              if options.metadata.None? then None else Some(Unslash(options.metadata.value))
  {
    NamesDiffer();
    hide RawOk, Unslash, DecInt, Lookup;
    var e3 := Entry("options.ttl", DecInt(options.ttlSeconds));
    var e4 := Entry("options.storeInHistory", if options.storeInHistory then "true" else "false");
    var last := if options.metadata.None? then [] else [Entry("options.metadata", Unslash(options.metadata.value))];
    assert OptionEntries(options) == [e3] + ([e4] + last);
    if options.metadata.Some? { assert last == [last[0]] + []; }
    LookupSteps();
  }

  lemma LookupSteps()
    ensures forall e: Entry, rest: seq<Entry>, key ::
              Lookup([e] + rest, key) == if e.key == key then Some(e.value) else Lookup(rest, key)
    ensures forall key :: Lookup([], key) == None
  {
    forall e: Entry, rest: seq<Entry>, key
      ensures Lookup([e] + rest, key) == if e.key == key then Some(e.value) else Lookup(rest, key)
    {
      assert ([e] + rest)[1..] == rest;
    }
  }

  lemma NamesDiffer()
    ensures "channel" != "message" && "channel" != "options.ttl" && "channel" != "options.storeInHistory"
    ensures "channel" != "options.metadata" && "message" != "options.ttl" && "message" != "options.storeInHistory"
    ensures "message" != "options.metadata" && "options.ttl" != "options.storeInHistory"
    ensures "options.ttl" != "options.metadata" && "options.storeInHistory" != "options.metadata"
  {
    assert "channel"[0] == 'c' && "message"[0] == 'm' && "options.ttl"[0] == 'o';
    assert "options.ttl"[8] == 't' && "options.storeInHistory"[8] == 's' && "options.metadata"[8] == 'm';
    assert "options.storeInHistory"[0] == 'o' && "options.metadata"[0] == 'o';
  }
}
