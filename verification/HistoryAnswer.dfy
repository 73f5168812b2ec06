/** The way of a history answer: from the text of the server's event to the list its waiter is handed. */
module HistoryAnswer {
  import opened CStrings
  import opened StringScan
  import opened JsonText
  import opened JsonTable
  import opened Flatten
  import opened RawValue
  import opened Dispatch
  import opened Publish
  import SplitArray

  // ---------------------------------------------------------------- any answer

  /** The list stands where "messages" is first mentioned, and its scan is not cut short by a closing
      bracket inside a string. Then the items are exactly its elements: even a scan that runs on does no
      harm, since the splitter knows strings and stops at the right place. */
  lemma ListArrives(p: string, i: nat, mid: string, pre: string, es: Elems)
    requires MemberAt(p, "messages", i, mid, pre, Arr(es)) && WellFormedElems(es)
    requires !ValueFate(Arr(es)).CutShort? && |Print(Arr(es))| < MAX_MESSAGE_SIZE
    ensures ItemsOf(p) == SplitArray.Items(SplitArray.ElemTexts(es))
  {
    var text := Print(Arr(es));
    hide Print, ValueFate, WellFormedElems, SplitArray.Split, SplitArray.ElemTexts, ValueEnd;
    var start := i + |"messages"| + |mid| + |pre| + 3;
    BracketedStart(p, "messages", i, mid, pre, Arr(es));
    ValueEnds(p, start, Arr(es));
    var q := ValueEnd(p, start);
    RawValueFrom(p, "messages", start, MAX_MESSAGE_SIZE);
    OccursSlice(p, start, text);
    var arr := Take(p[start..q], MAX_MESSAGE_SIZE - 1);
    assert arr[..|text|] == p[start..start + |text|];
    assert arr == "" + text + arr[|text|..];
    SplitArray.SplitsJsonArray(es, "", arr[|text|..]);
  }

  /** And a well-formed list never hangs the client, whatever its strings hold and however long it is. */
  lemma WellFormedListEnds(p: string, i: nat, mid: string, pre: string, es: Elems)
    requires MemberAt(p, "messages", i, mid, pre, Arr(es)) && WellFormedElems(es)
    ensures ItemsOf(p).Items?
  {
    var start := i + |"messages"| + |mid| + |pre| + 3;
    BracketedStart(p, "messages", i, mid, pre, Arr(es));
    var b := MessagesAre(p, start);
    var rest := SliceOfText(p, start, b, Print(Arr(es)));
    SplitArray.WellFormedPrefixEnds(es, rest, b - start);
    hide *;
  }

  lemma SliceOfText(s: string, p: nat, q: nat, text: string) returns (rest: string)
    requires Occurs(s, p, text) && p <= q <= |s|
    ensures q - p <= |text + rest| && s[p..q] == (text + rest)[..q - p]
  {
    rest := s[p + |text|..];
    OccursSlice(s, p, text);
    assert s[p..] == s[p..p + |text|] + rest;
    assert s[p..q] == s[p..][..q - p];
  }

  /** The members before a list the parser cannot read decide who the answer is for. */
  lemma AnswerIsFor(fs: Fields, gap: string, rest: string, name: string)
    requires ReadableObject(fs) && AllBlank(Ctype, gap)
    requires var t := Upto(Entries(Leaves(fs, [])));
             Lookup(t, "channel") == Some(name) && Lookup(t, "query").Some? && GetBool(t, "query", false)
    ensures var p := gap + "{" + PrintFields(fs) + "," + rest; ChannelOf(p) == Some(name) && IsQuery(p)
  {
    assert Readable(fs);
    hide ReadableObject, Readable, Parse, Upto, Entries, Leaves, PrintFields, Lookup;
    LeavesSurviveWhatFollows(fs, gap, rest);
    var t, u := Upto(Entries(Leaves(fs, []))), Parse(gap + "{" + PrintFields(fs) + "," + rest);
    LookupInPrefix(t, u, "channel");
    LookupInPrefix(t, u, "query");
  }

  // ---------------------------------------------------------------- the answer in its compact form

  /** `{"channel":"name","query":true,"messages"` and whatever follows. */
  function Answer(name: string, tail: string): string {
    "{" + Quote("channel") + ":" + Quote(name) + "," + Quote("query") + ":true," + Quote("messages") + tail
  }

  lemma AnswerParts(name: string, tail: string)
    ensures var s := Answer(name, tail);
            var n := |name|;
            Occurs(s, 0, "{") && Occurs(s, 1, Quote("channel")) && Occurs(s, 10, ":") && Occurs(s, 11, Quote(name)) &&
            Occurs(s, n + 13, ",") && Occurs(s, n + 14, Quote("query")) && Occurs(s, n + 21, ":true,") &&
            Occurs(s, n + 27, Quote("messages")) && Occurs(s, n + 37, tail) && n + 37 <= |s|
  {
  }

  lemma MessagesFirstMention(name: string, tail: string)
    requires Plain(name) && name != "messages"
    ensures FirstMention(Answer(name, tail), "messages", |name| + 27)
  {
    hide Occurs, Answer;
    var s := Answer(name, tail);
    AnswerParts(name, tail);
    KeysOfAnswer();
    OccursNothing(s, 11);
    OccursNothing(s, |name| + 14);
    NoMentionIn(s, 0, "{", "channel", ":", "messages");
    NoMentionIn(s, 11, "", name, ",", "messages");
    NoMentionIn(s, |name| + 14, "", "query", ":true,", "messages");
  }

  lemma KeysOfAnswer()
    ensures Plain("channel") && Plain("query") && Plain("messages") && QuoteFree(":true,") && QuoteFree("{")
    ensures "messages"[0] == 'm' && ":true,"[0] == ':' && |"messages"| == 8 && |"channel"| == 7 && |"query"| == 5
    ensures "channel" != "messages" && "query" != "messages" && "query" != "channel"
  {
    assert "channel"[0] == 'c' && "query"[0] == 'q';
  }

  /** The two members before the list. */
  function Front(name: string): Fields {
    Field("", "channel", "", "", Str(name), "", Field("", "query", "", "", Prim("true"), "", NoFields("")))
  }

  lemma FrontIsReadable(name: string)
    requires Plain(name) && |name| < 128
    ensures ReadableObject(Front(name))
    ensures Entries(Leaves(Front(name), [])) == [Entry("channel", name), Entry("query", "true")]
  {
    PlainIsRaw(name);
    KeysOfAnswer();
    QueryIsReadable();
    hide Plain, Leaves, Entries, Readable, Fits;
    ConsScalar(Front(name));
    assert [Entry("channel", name)] + [Entry("query", "true")] == [Entry("channel", name), Entry("query", "true")];
  }

  lemma QueryIsReadable()
    ensures var fs := Field("", "query", "", "", Prim("true"), "", NoFields(""));
            ReadableObject(fs) && Entries(Leaves(fs, [])) == [Entry("query", "true")]
    ensures RawOk("channel") && RawOk("query")
  {
    hide ReadableObject, Leaves, Entries, RawOk, Unslash;
    KeysOfAnswer();
    PlainIsRaw("channel");
    PlainIsRaw("query");
    LoneScalar("query", Prim("true"));
  }

  lemma FrontPrints(name: string)
    ensures PrintFields(Front(name)) == Quote("channel") + ":" + Quote(name) + "," + (Quote("query") + ":true")
  {
  }

  /** The parser sees the channel and the query flag, whatever the list looks like to it. */
  lemma FrontIsRead(name: string, tail: string)
    requires Plain(name) && |name| < 128
    ensures ChannelOf(Answer(name, tail)) == Some(name) && IsQuery(Answer(name, tail))
  {
    var fs := Front(name);
    FrontIsReadable(name);
    FrontPrints(name);
    AnswerText(name, tail);
    KeysOfAnswer();
    hide Parse, PrintFields, Front, Answer, Leaves, Entries, Quote, ReadableObject;
    var t := [Entry("channel", name), Entry("query", "true")];
    assert t[1..] == [Entry("query", "true")];
    AnswerIsFor(fs, "", Quote("messages") + tail, name);
  }

  lemma AnswerText(name: string, tail: string)
    ensures Answer(name, tail) ==
            "" + "{" + (Quote("channel") + ":" + Quote(name) + "," + (Quote("query") + ":true")) + "," +
            (Quote("messages") + tail)
  {
  }

  /** The waiter is handed exactly the texts of the messages, whatever they contain, as long as the scan
      for the end of the list is not cut short and the list is shorter than the buffer. */
  lemma HistoryArrives(name: string, es: Elems, more: string)
    requires Plain(name) && |name| < 128 && name != "messages"
    requires WellFormedElems(es) && !ValueFate(Arr(es)).CutShort? && |Print(Arr(es))| < MAX_MESSAGE_SIZE
    ensures var p := Answer(name, ":" + Print(Arr(es)) + more);
            ChannelOf(p) == Some(name) && IsQuery(p) && ItemsOf(p) == SplitArray.Items(SplitArray.ElemTexts(es))
  {
    var tail := ":" + Print(Arr(es)) + more;
    FrontIsRead(name, tail);
    ListIsMember(name, es, more);
    hide ChannelOf, IsQuery, ItemsOf, Print, Answer, MemberAt, ValueFate;
    ListArrives(Answer(name, tail), |name| + 27, "", "", es);
  }

  lemma ListIsMember(name: string, es: Elems, more: string)
    requires Plain(name) && |name| < 128 && name != "messages"
    ensures MemberAt(Answer(name, ":" + Print(Arr(es)) + more), "messages", |name| + 27, "", "", Arr(es))
  {
    hide Occurs, Print, Answer, FirstMention;
    var tail := ":" + Print(Arr(es)) + more;
    AnswerParts(name, tail);
    MessagesFirstMention(name, tail);
    KeysOfAnswer();
    OccursSplit(Answer(name, tail), |name| + 37, ":" + Print(Arr(es)), more);
    assert ":" + Print(Arr(es)) == "" + ":" + "" + Print(Arr(es));
  }

  /** An answer that hangs every client that waits for one. */
  lemma HangingAnswer(name: string)
    requires Plain(name) && |name| < 128 && name != "messages"
    ensures var p := Answer(name, ":[}]}");
            ChannelOf(p) == Some(name) && IsQuery(p) && ItemsOf(p) == SplitArray.Spins
  {
    FrontIsRead(name, ":[}]}");
    MessagesFirstMention(name, ":[}]}");
    AnswerParts(name, ":[}]}");
    hide ChannelOf, IsQuery, ItemsOf, Answer, FirstMention, Occurs;
    assert ":[}]}" == ":[}]" + "}";
    OccursSplit(Answer(name, ":[}]}"), |name| + 37, ":[}]", "}");
    StrayBraceHangs(Answer(name, ":[}]}"), |name| + 27);
  }
}
