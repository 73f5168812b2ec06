/** JSON texts (RFC 8259) as trees that keep their whitespace, and how they print. The theorems about
    the scanners quantify over these trees: the printed text is what travels on the wire. */
module JsonText {
  import opened CStrings
  import opened StringScan

  /** `raw` and `key` are literal bodies, escapes included. */
  datatype Json =
    | Prim(text: string)
    | Str(raw: string)
    | Arr(elems: Elems)
    | Obj(fields: Fields)

  datatype Elems =
    | NoElems(gap: string)
    | Elem(lead: string, head: Json, trail: string, tail: Elems)

  datatype Fields =
    | NoFields(gap: string)
    | Field(lead: string, key: string, mid: string, pre: string, value: Json, trail: string, tail: Fields)

  function Print(v: Json): (r: string)
    ensures WellFormed(v) ==> r != ""
  {
    match v
    case Prim(text) => text
    case Str(raw) => Quote(raw)
    case Arr(elems) => "[" + PrintElems(elems) + "]"
    case Obj(fields) => "{" + PrintFields(fields) + "}"
  }

  function PrintElems(es: Elems): string {
    match es
    case NoElems(gap) => gap
    case Elem(lead, head, trail, tail) => lead + Print(head) + trail + Separator(tail.Elem?) + PrintElems(tail)
  }

  function PrintFields(fs: Fields): string {
    match fs
    case NoFields(gap) => gap
    case Field(lead, key, mid, pre, value, trail, tail) =>
      lead + Quote(key) + mid + ":" + pre + Print(value) + trail + Separator(tail.Field?) + PrintFields(tail)
  }

  function Separator(more: bool): string { if more then "," else "" }

  /** Numbers, `true`, `false`, `null`: no punctuation, quotes or blanks. */
  predicate PrimChar(c: char) {
    IsDigit(c) || 'a' <= c <= 'z' || 'A' <= c <= 'Z' || c == '+' || c == '-' || c == '.'
  }

  ghost predicate PrimOk(text: string) {
    text != "" && forall i :: 0 <= i < |text| ==> PrimChar(text[i])
  }

  ghost predicate WellFormed(v: Json) {
    match v
    case Prim(text) => PrimOk(text)
    case Str(raw) => RawOk(raw)
    case Arr(elems) => WellFormedElems(elems)
    case Obj(fields) => WellFormedFields(fields)
  }

  ghost predicate WellFormedElems(es: Elems) {
    match es
    case NoElems(gap) => AllBlank(Json, gap)
    case Elem(lead, head, trail, tail) =>
      AllBlank(Json, lead) && WellFormed(head) && AllBlank(Json, trail) && WellFormedElems(tail)
  }

  ghost predicate WellFormedFields(fs: Fields) {
    match fs
    case NoFields(gap) => AllBlank(Json, gap)
    case Field(lead, key, mid, pre, value, trail, tail) =>
      AllBlank(Json, lead) && RawOk(key) && AllBlank(Json, mid) && AllBlank(Json, pre) && WellFormed(value) &&
      AllBlank(Json, trail) && WellFormedFields(tail)
  }

  /** The first character tells the kind of value. */
  lemma PrintFirst(v: Json)
    requires WellFormed(v)
    ensures !IsBlank(Ctype, Print(v)[0]) && (v.Prim? <==> PrimChar(Print(v)[0]))
    ensures match v case Prim(_) => PrimChar(Print(v)[0]) case Str(_) => Print(v)[0] == '"'
                    case Arr(_) => Print(v)[0] == '[' case Obj(_) => Print(v)[0] == '{'
  {
  }

  // ---------------------------------------------------------------- bracket depth

  /** Depth of one kind of bracket after walking over a text from depth `d`; None if it goes below zero. */
  function Walk(s: string, open: char, close: char, d: nat): Option<nat> {
    if s == "" then Some(d)
    else if s[0] == open then Walk(s[1..], open, close, d + 1)
    else if s[0] == close then (if d == 0 then None else Walk(s[1..], open, close, d - 1))
    else Walk(s[1..], open, close, d)
  }

  /** Balanced, counting only this kind of bracket and looking inside strings like everywhere else. */
  predicate Neutral(s: string, open: char, close: char) {
    Walk(s, open, close, 0) == Some(0)
  }

  lemma {:induction false} WalkConcat(a: string, b: string, open: char, close: char, d: nat)
    ensures var mid := Walk(a, open, close, d);
            Walk(a + b, open, close, d) == if mid.None? then None else Walk(b, open, close, mid.value)
    decreases |a|
  {
    if a == "" {
      assert a + b == b;
    } else {
      assert (a + b)[1..] == a[1..] + b;
      if a[0] == open {
        WalkConcat(a[1..], b, open, close, d + 1);
      } else if a[0] == close {
        if d > 0 { WalkConcat(a[1..], b, open, close, d - 1); }
      } else {
        WalkConcat(a[1..], b, open, close, d);
      }
    }
  }

  lemma {:induction false} WalkLift(s: string, open: char, close: char, d: nat, k: nat)
    requires Walk(s, open, close, d).Some?
    ensures Walk(s, open, close, d + k) == Some(Walk(s, open, close, d).value + k)
    decreases |s|
  {
    if s != "" {
      WalkLift(s[1..], open, close, if s[0] == open then d + 1 else if s[0] == close then d - 1 else d, k);
    }
  }

  lemma NeutralConcat(a: string, b: string, open: char, close: char)
    requires Neutral(a, open, close) && Neutral(b, open, close)
    ensures Neutral(a + b, open, close)
  {
    WalkConcat(a, b, open, close, 0);
  }

  predicate Free(s: string, open: char, close: char) {
    forall i :: 0 <= i < |s| ==> s[i] != open && s[i] != close
  }

  lemma {:induction false} FreeIsNeutral(s: string, open: char, close: char)
    requires Free(s, open, close)
    ensures Neutral(s, open, close)
  {
    if s != "" { FreeIsNeutral(s[1..], open, close); }
  }

  predicate Brackets(open: char, close: char) {
    (open == '{' && close == '}') || (open == '[' && close == ']')
  }

  /** Every string and key of the tree balances this kind of bracket (containing none is the usual case). */
  predicate StringsNeutral(v: Json, open: char, close: char) {
    match v
    case Prim(_) => true
    case Str(raw) => Neutral(raw, open, close)
    case Arr(elems) => ElemsNeutral(elems, open, close)
    case Obj(fields) => FieldsNeutral(fields, open, close)
  }

  predicate ElemsNeutral(es: Elems, open: char, close: char) {
    es.Elem? ==> StringsNeutral(es.head, open, close) && ElemsNeutral(es.tail, open, close)
  }

  predicate FieldsNeutral(fs: Fields, open: char, close: char) {
    fs.Field? ==> Neutral(fs.key, open, close) && StringsNeutral(fs.value, open, close) &&
                  FieldsNeutral(fs.tail, open, close)
  }

  lemma BlankIsNeutral(gap: string, open: char, close: char)
    requires AllBlank(Json, gap) && Brackets(open, close)
    ensures Neutral(gap, open, close)
  {
    FreeIsNeutral(gap, open, close);
  }

  lemma {:induction false} QuoteNeutral(raw: string, open: char, close: char)
    requires Neutral(raw, open, close) && Brackets(open, close)
    ensures Neutral(Quote(raw), open, close)
  {
    FreeIsNeutral("\"", open, close);
    NeutralConcat("\"", raw, open, close);
    NeutralConcat("\"" + raw, "\"", open, close);
  }

  lemma {:induction false} BracketedNeutral(o: char, inner: string, c: char, open: char, close: char)
    requires Neutral(inner, open, close) && Brackets(open, close) && Brackets(o, c)
    ensures Neutral([o] + inner + [c], open, close)
  {
    WalkConcat([o] + inner, [c], open, close, 0);
    WalkConcat([o], inner, open, close, 0);
    assert [o][1..] == "" && [c][1..] == "";
    if o == open { WalkLift(inner, open, close, 0, 1); }
  }

  lemma {:induction false} PrintNeutral(v: Json, open: char, close: char)
    requires WellFormed(v) && StringsNeutral(v, open, close) && Brackets(open, close)
    ensures Neutral(Print(v), open, close)
  {
    match v
    case Prim(text) => FreeIsNeutral(text, open, close);
    case Str(raw) => QuoteNeutral(raw, open, close);
    case Arr(elems) =>
      PrintElemsNeutral(elems, open, close);
      BracketedNeutral('[', PrintElems(elems), ']', open, close);
    case Obj(fields) =>
      PrintFieldsNeutral(fields, open, close);
      BracketedNeutral('{', PrintFields(fields), '}', open, close);
  }

  lemma {:induction false} PrintElemsNeutral(es: Elems, open: char, close: char)
    requires WellFormedElems(es) && ElemsNeutral(es, open, close) && Brackets(open, close)
    ensures Neutral(PrintElems(es), open, close)
  {
    match es
    case NoElems(gap) => BlankIsNeutral(gap, open, close);
    case Elem(lead, head, trail, tail) =>
      PrintNeutral(head, open, close);
      PrintElemsNeutral(tail, open, close);
      BlankIsNeutral(lead, open, close);
      BlankIsNeutral(trail, open, close);
      FreeIsNeutral(Separator(tail.Elem?), open, close);
      NeutralAll5(lead, Print(head), trail, Separator(tail.Elem?), PrintElems(tail), open, close);
  }

  lemma NeutralAll5(a: string, b: string, c: string, d: string, e: string, open: char, close: char)
    requires Neutral(a, open, close) && Neutral(b, open, close) && Neutral(c, open, close)
    requires Neutral(d, open, close) && Neutral(e, open, close)
    ensures Neutral(a + b + c + d + e, open, close)
  {
    NeutralConcat(a, b, open, close);
    NeutralConcat(a + b, c, open, close);
    NeutralConcat(a + b + c, d, open, close);
    NeutralConcat(a + b + c + d, e, open, close);
  }

  lemma {:induction false} PrintFieldsNeutral(fs: Fields, open: char, close: char)
    requires WellFormedFields(fs) && FieldsNeutral(fs, open, close) && Brackets(open, close)
    ensures Neutral(PrintFields(fs), open, close)
  {
    match fs
    case NoFields(gap) => BlankIsNeutral(gap, open, close);
    case Field(lead, key, mid, pre, value, trail, tail) =>
      PrintNeutral(value, open, close);
      PrintFieldsNeutral(tail, open, close);
      QuoteNeutral(key, open, close);
      BlankIsNeutral(lead, open, close);
      BlankIsNeutral(mid, open, close);
      BlankIsNeutral(pre, open, close);
      BlankIsNeutral(trail, open, close);
      FreeIsNeutral(":", open, close);
      FreeIsNeutral(Separator(tail.Field?), open, close);
      NeutralAll5(lead, Quote(key), mid, ":", pre, open, close);
      NeutralAll5(lead + Quote(key) + mid + ":" + pre, Print(value), trail, Separator(tail.Field?),
                  PrintFields(tail), open, close);
  }

  // ---------------------------------------------------------------- the bracket-matching loop

  /** The index after the bracket that brings the depth from `d` to zero (the end of the text if none does). */
  function CloseAt(s: string, open: char, close: char, p: nat, d: nat): (q: nat)
    requires p <= |s|
    ensures p <= q <= |s|
    decreases |s| - p
  {
    if p == |s| || d == 0 then p
    else if s[p] == open then CloseAt(s, open, close, p + 1, d + 1)
    else if s[p] == close then CloseAt(s, open, close, p + 1, d - 1)
    else CloseAt(s, open, close, p + 1, d)
  }

  lemma {:induction false} CloseOver(s: string, open: char, close: char, p: nat, a: string, d: nat)
    requires Occurs(s, p, a) && open != close
    requires Walk(a, open, close, d).Some?
    ensures CloseAt(s, open, close, p, d + 1) ==
            CloseAt(s, open, close, p + |a|, Walk(a, open, close, d).value + 1)
    decreases |a|
  {
    if a != "" {
      assert s[p] == a[0];
      var rest := a[1..];
      assert forall i :: 0 <= i < |rest| ==> rest[i] == a[i + 1];
      var d' := if a[0] == open then d + 1 else if a[0] == close then d - 1 else d;
      CloseOver(s, open, close, p + 1, rest, d');
    }
  }

  /** A text whose depth falls below zero closes the bracket before it on the way. */
  lemma {:induction false} ClosesInside(s: string, open: char, close: char, p: nat, a: string, d: nat)
    requires Occurs(s, p, a) && open != close
    requires Walk(a, open, close, d).None?
    ensures CloseAt(s, open, close, p, d + 1) <= p + |a|
    decreases |a|
  {
    assert s[p] == a[0];
    var rest := a[1..];
    assert forall i :: 0 <= i < |rest| ==> rest[i] == a[i + 1];
    if a[0] != close || d > 0 {
      var d' := if a[0] == open then d + 1 else if a[0] == close then d - 1 else d;
      ClosesInside(s, open, close, p + 1, rest, d');
    }
  }

  /** What becomes of a scan that looks for the end of a value: it stops inside the value, right at its
      end, or not before the end of the whole text or later than the value. */
  datatype Fate = CutShort | Exact | RunsOn

  ghost predicate Stops(fate: Fate, s: string, end: nat, q: nat) {
    match fate
    case CutShort => q < end
    case Exact => q == end
    case RunsOn => q > end || q == end == |s|
  }

  function BracketFate(inner: string, open: char, close: char): Fate {
    match Walk(inner, open, close, 0)
    case None => CutShort
    case Some(depth) => if depth == 0 then Exact else RunsOn
  }

  /** Where the loop stops over any bracketed text, whatever follows: the text inside decides. */
  lemma BracketEnds(s: string, open: char, close: char, p: nat, inner: string)
    requires Brackets(open, close) && Occurs(s, p, [open] + inner + [close])
    ensures At(s, p, open) && p + |inner| + 2 <= |s|
    ensures Stops(BracketFate(inner, open, close), s, p + |inner| + 2, CloseAt(s, open, close, p + 1, 1))
  {
    OccursSplit(s, p, [open] + inner, [close]);
    OccursSplit(s, p, [open], inner);
    OccursChar(s, p, open);
    OccursChar(s, p + 1 + |inner|, close);
    if Walk(inner, open, close, 0).None? {
      ClosesInside(s, open, close, p + 1, inner, 0);
    } else {
      CloseOver(s, open, close, p + 1, inner, 0);
    }
  }

  /** Over a bracketed balanced text, the loop stops right after its own closing bracket, whatever follows. */
  lemma MatchesOwnBracket(s: string, open: char, close: char, p: nat, inner: string)
    requires Brackets(open, close) && Neutral(inner, open, close)
    requires Occurs(s, p, [open] + inner + [close])
    ensures At(s, p, open) && CloseAt(s, open, close, p + 1, 1) == p + |inner| + 2
  {
    BracketEnds(s, open, close, p, inner);
  }

  /** Openings minus closings of one kind: the plain reading of "depth". */
  function Balance(s: string, open: char, close: char): int {
    if s == "" then 0
    else Balance(s[..|s| - 1], open, close) +
         (if s[|s| - 1] == open then 1 else if s[|s| - 1] == close then -1 else 0)
  }

  lemma {:induction false} WalkIsBalance(s: string, open: char, close: char)
    requires open != close && Walk(s, open, close, 0).Some?
    ensures Walk(s, open, close, 0).value == Balance(s, open, close)
  {
    if s != "" {
      var init, last := s[..|s| - 1], s[|s| - 1..];
      assert init + last == s && last[1..] == "";
      WalkConcat(init, last, open, close, 0);
      WalkIsBalance(init, open, close);
    }
  }

  /** Counting one kind of bracket is enough: every proper non-empty prefix of a value whose inside
      balances is open. */
  lemma ProperPrefixIsOpen(v: Json, n: nat)
    requires (v.Arr? || v.Obj?) && OwnFate(v).Exact?
    requires 0 < n < |Print(v)|
    ensures var (o, c) := Kind(v); Balance(Print(v)[..n], o, c) > 0
    ensures var (o, c) := Kind(v); Balance(Print(v), o, c) == 0
  {
    var (o, c) := Kind(v);
    BracketedNeutral(o, Inner(v), c, o, c);
    WalkIsBalance(Print(v), o, c);
    assert Print(v)[..n] == [o] + Inner(v)[..n - 1];
    OpenPrefix(o, c, Inner(v), n - 1);
  }

  lemma OpenPrefix(open: char, close: char, inner: string, k: nat)
    requires Brackets(open, close) && Neutral(inner, open, close) && k <= |inner|
    ensures Balance([open] + inner[..k], open, close) > 0
  {
    var a, b := inner[..k], inner[k..];
    assert a + b == inner;
    WalkConcat(a, b, open, close, 0);
    WalkLift(a, open, close, 0, 1);
    var prefix := [open] + a;
    assert prefix[1..] == a;
    WalkIsBalance(prefix, open, close);
  }

  function Kind(v: Json): (char, char)
    requires v.Arr? || v.Obj?
  {
    if v.Arr? then ('[', ']') else ('{', '}')
  }

  function Inner(v: Json): string
    requires v.Arr? || v.Obj?
  {
    if v.Arr? then PrintElems(v.elems) else PrintFields(v.fields)
  }

  /** For a bracketed value, counting its own kind of bracket decides. Strings are not told apart. */
  function OwnFate(v: Json): Fate
    requires v.Arr? || v.Obj?
  {
    var (o, c) := Kind(v);
    BracketFate(Inner(v), o, c)
  }

  /** It is enough that every string and key of the value balances by itself. */
  lemma BalancedStringsSuffice(v: Json)
    requires WellFormed(v) && (v.Arr? || v.Obj?)
    requires var (o, c) := Kind(v); StringsNeutral(v, o, c)
    ensures OwnFate(v).Exact?
  {
    if v.Arr? { PrintElemsNeutral(v.elems, '[', ']'); } else { PrintFieldsNeutral(v.fields, '{', '}'); }
  }
}
