/** `os_split_json_array`: cutting a top-level JSON array into the raw texts of its elements. */
module SplitArray {
  import opened CStrings
  import opened StringScan
  import opened JsonText

  predicate Opens(c: char) { c == '{' || c == '[' }
  predicate Closes(c: char) { c == '}' || c == ']' }

  /** Where the element loop stops: a comma or a closing bracket at depth 0 outside strings, or the end. */
  function ElementEnd(s: string, p: nat, depth: nat, inStr: bool): (q: nat)
    requires p <= |s|
    ensures p <= q <= |s|
    decreases |s| - p
  {
    if p == |s| then p
    else if inStr then
      if s[p] == '\\' && p + 1 < |s| then ElementEnd(s, p + 2, depth, true)
      else ElementEnd(s, p + 1, depth, s[p] != '"')
    else if s[p] == '"' then ElementEnd(s, p + 1, depth, true)
    else if Opens(s[p]) then ElementEnd(s, p + 1, depth + 1, false)
    else if Closes(s[p]) then (if depth == 0 then p else ElementEnd(s, p + 1, depth - 1, false))
    else if s[p] == ',' && depth == 0 then p
    else ElementEnd(s, p + 1, depth, false)
  }

  /** One turn of the outer loop: it either leaves the loop or goes on from an index. */
  datatype Turn = Leaves(items: seq<string>) | GoesOn(p: nat, items: seq<string>)

  function OuterTurn(s: string, p: nat, items: seq<string>): (t: Turn)
    requires p <= |s|
    ensures t.GoesOn? ==> p <= t.p <= |s|
  {
    if p == |s| then Leaves(items)
    else
      var start := SkipBlank(Json, s, p);
      if start == |s| || s[start] == ']' then Leaves(items)
      else
        var stop := ElementEnd(s, start, 0, false);
        var elem := s[start..TrimEnd(Json, s, start, stop)];
        var items' := WithElement(items, elem);
        if At(s, stop, ',') then GoesOn(stop + 1, items')
        else if At(s, stop, ']') then Leaves(items')
        else GoesOn(stop, items')
  }

  /** Empty elements are dropped. */
  function WithElement(items: seq<string>, elem: string): seq<string> {
    if elem == "" then items else items + [elem]
  }

  datatype Outcome = Items(items: seq<string>) | Spins

  /** The loop from an index on. A turn that makes no progress is repeated forever. */
  function SplitFrom(s: string, p: nat, items: seq<string>): Outcome
    requires p <= |s|
    decreases |s| - p
  {
    match OuterTurn(s, p, items)
    case Leaves(found) => Items(found)
    case GoesOn(q, found) => if q == p then Spins else SplitFrom(s, q, found)
  }

  function Split(arr: string): Outcome {
    var p := SkipBlank(Json, arr, 0);
    if At(arr, p, '[') then SplitFrom(arr, p + 1, []) else Items([])
  }

  /** `n` turns of the loop, unless it leaves earlier. */
  function Turns(s: string, n: nat, p: nat, items: seq<string>): (t: Turn)
    requires p <= |s|
    ensures t.GoesOn? ==> t.p <= |s|
  {
    if n == 0 then GoesOn(p, items)
    else
      var t := OuterTurn(s, p, items);
      if t.Leaves? then t else Turns(s, n - 1, t.p, t.items)
  }

  /** `Spins` is what it says: no number of turns ever leaves the loop. */
  lemma {:induction false} SpinsForever(s: string, p: nat, items: seq<string>, n: nat)
    requires p <= |s| && SplitFrom(s, p, items).Spins?
    ensures Turns(s, n, p, items).GoesOn?
    decreases n
  {
    if n > 0 {
      var t := OuterTurn(s, p, items);
      SpinsForever(s, t.p, t.items, n - 1);
    }
  }

  /** And `Items` is reached after finitely many turns. */
  lemma {:induction false} LeavesEventually(s: string, p: nat, items: seq<string>) returns (n: nat)
    requires p <= |s| && SplitFrom(s, p, items).Items?
    ensures Turns(s, n, p, items) == Leaves(SplitFrom(s, p, items).items)
    decreases |s| - p
  {
    var t := OuterTurn(s, p, items);
    if t.Leaves? {
      n := 1;
    } else {
      var m := LeavesEventually(s, t.p, t.items);
      n := m + 1;
    }
  }

  /** What was found stays at the front of the result. */
  lemma {:induction false} SplitExtends(s: string, p: nat, items: seq<string>)
    requires p <= |s| && SplitFrom(s, p, items).Items?
    ensures items <= SplitFrom(s, p, items).items
    decreases |s| - p
  {
    var t := OuterTurn(s, p, items);
    if t.GoesOn? { SplitExtends(s, t.p, t.items); }
  }

  // ---------------------------------------------------------------- memory

  /** The capacity once `n` elements are stored: 8 for the first, doubled whenever it is used up. */
  function Capacity(n: nat): (c: nat)
    ensures n <= c
  {
    if n == 0 then 0
    else if Capacity(n - 1) == n - 1 then (if n == 1 then 8 else 2 * (n - 1))
    else Capacity(n - 1)
  }

  /** The requests for memory that `n` elements take: a copy each, and the growths. */
  function Requests(n: nat): nat {
    if n == 0 then 0 else Requests(n - 1) + if Capacity(n - 1) == n - 1 then 2 else 1
  }

  ghost predicate Served(grants: nat -> bool, requests: nat) {
    forall k: nat :: k < requests ==> grants(k)
  }

  /** The first request refused is one that the element after the first `n` makes. */
  ghost predicate RefusedAfter(grants: nat -> bool, n: nat) {
    exists k: nat :: Requests(n) <= k < Requests(n + 1) && !grants(k) && Served(grants, k)
  }

  /** An element refused is one that the result would have had. */
  lemma RefusedIsMissing(s: string, p: nat, items: seq<string>)
    requires p <= |s| && SplitFrom(s, p, items).Items? && items < OuterTurn(s, p, items).items
    ensures items < SplitFrom(s, p, items).items
  {
    var t := OuterTurn(s, p, items);
    if t.GoesOn? { SplitExtends(s, t.p, t.items); }
  }

  // ---------------------------------------------------------------- the method

  method ScanElement(s: string, start: nat) returns (p: nat)
    requires start <= |s|
    ensures p == ElementEnd(s, start, 0, false)
  {
    p := start;
    var depth := 0;
    var inStr := false;
    while p < |s|
      invariant start <= p <= |s| && depth >= 0
      invariant ElementEnd(s, p, depth, inStr) == ElementEnd(s, start, 0, false)
    {
      if inStr {
        if s[p] == '\\' && p + 1 < |s| { p := p + 1; }
        else if s[p] == '"' { inStr := false; }
      } else if s[p] == '"' {
        inStr := true;
      } else if s[p] == '{' || s[p] == '[' {
        depth := depth + 1;
      } else if s[p] == '}' || s[p] == ']' {
        if depth == 0 { break; }
        depth := depth - 1;
      } else if s[p] == ',' && depth == 0 {
        break;
      }
      p := p + 1;
    }
  }

  /** `grants(k)` says whether the k-th request for memory succeeds. The whole result comes out
      when every request it takes is served; otherwise the elements before the first refusal do.
      A loop that would never end is reported as `Spins`; C simply does not return. */
  method SplitJsonArray(arr: string, grants: nat -> bool) returns (r: Outcome, starved: bool)
    ensures !starved ==> r == Split(arr) && (r.Items? ==> Served(grants, Requests(|r.items|)))
    ensures starved ==> r.Items? && RefusedAfter(grants, |r.items|)
    ensures starved && Split(arr).Items? ==> r.items < Split(arr).items
  {
    hide OuterTurn, SkipBlank;
    var p := SkipWs(Json, arr, 0);
    if p == |arr| || arr[p] != '[' { return Items([]), false; }
    p := p + 1;
    var items: array<string> := new string[0];
    var count, requests := 0, 0;
    var exit := Stays;
    while p < |arr| && exit.Stays?
      invariant p <= |arr| && fresh(items) && 0 <= count <= items.Length
      invariant !exit.Starved? ==> items.Length == Capacity(count) && requests == Requests(count) && Served(grants, requests)
      invariant exit.Stays? ==> SplitFrom(arr, p, items[..count]) == Split(arr)
      invariant exit.Left? ==> Items(items[..count]) == Split(arr)
      invariant exit.Starved? ==> RefusedAfter(grants, count) &&
                                  (Split(arr).Items? ==> items[..count] < Split(arr).items)
      invariant exit.Stuck? ==> Split(arr).Spins?
      decreases |arr| - p, exit.Stays?
    {
      var from := p;
      ghost var found := items[..count];
      exit, p, items, count, requests := OneTurn(arr, p, items, count, grants, requests);
      if exit.Starved? && Split(arr).Items? { RefusedIsMissing(arr, from, found); }
      if exit.Stays? && p == from { exit := Stuck; }
    }
    if exit.Stuck? { return Spins, false; }
    if exit.Stays? { NothingLeft(arr, items[..count]); }
    return Items(items[..count]), exit.Starved?;
  }

  lemma NothingLeft(s: string, items: seq<string>)
    ensures SplitFrom(s, |s|, items) == Items(items)
  {
  }

  datatype Exit = Stays | Left | Starved | Stuck

  /** The body of the outer loop. */
  method OneTurn(arr: string, from: nat, items: array<string>, count: nat, grants: nat -> bool, requests: nat)
    returns (exit: Exit, p: nat, items': array<string>, count': nat, requests': nat)
    requires from < |arr| && items.Length == Capacity(count)
    requires requests == Requests(count) && Served(grants, requests)
    modifies items
    ensures items' == items || fresh(items')
    ensures from <= p <= |arr| && count' <= items'.Length && !exit.Stuck?
    ensures !exit.Starved? ==> items'.Length == Capacity(count') && requests' == Requests(count') && Served(grants, requests')
    ensures exit.Stays? ==> OuterTurn(arr, from, old(items[..count])) == GoesOn(p, items'[..count'])
    ensures exit.Left? ==> OuterTurn(arr, from, old(items[..count])) == Leaves(items'[..count'])
    ensures exit.Starved? ==> RefusedAfter(grants, count') && items'[..count'] == old(items[..count]) &&
                              old(items[..count]) < OuterTurn(arr, from, old(items[..count])).items
  {
    items', count', requests' := items, count, requests;
    p := SkipWs(Json, arr, from);
    if p == |arr| || arr[p] == ']' { exit := Left; return; }
    var start := p;
    p := ScanElement(arr, start);
    var end := TrimTrailing(Json, arr, start, p);
    if start < end {
      var ok;
      ok, items', requests' := Append(items, count, arr[start..end], grants, requests);
      if !ok { exit := Starved; return; }
      count' := count + 1;
    }
    exit := Stays;
    if p < |arr| && arr[p] == ',' {
      p := p + 1;
    } else if p < |arr| && arr[p] == ']' {
      exit := Left;
    }
  }

  /** Room for one more entry, then a copy of the element: two requests at most. */
  method Append(items: array<string>, count: nat, elem: string, grants: nat -> bool, requests: nat)
    returns (ok: bool, grown: array<string>, requests': nat)
    requires items.Length == Capacity(count) && requests == Requests(count) && Served(grants, requests)
    modifies items
    ensures grown == items || fresh(grown)
    ensures !ok ==> RefusedAfter(grants, count) && count <= grown.Length && grown[..count] == old(items[..count])
    ensures ok ==> grown.Length == Capacity(count + 1) && grown[..count + 1] == old(items[..count]) + [elem]
    ensures ok ==> requests' == Requests(count + 1) && Served(grants, requests')
  {
    grown, requests' := items, requests;
    if count == grown.Length {
      requests' := requests' + 1;
      if !grants(requests' - 1) { return false, grown, requests'; }
      grown := Grown(items, count);
    }
    requests' := requests' + 1;
    if !grants(requests' - 1) { return false, grown, requests'; }
    grown[count] := elem;
    return true, grown, requests';
  }

  /** `realloc` to the next capacity: 8, then doubling. */
  method Grown(items: array<string>, count: nat) returns (grown: array<string>)
    requires count == items.Length
    ensures fresh(grown) && grown.Length > count && grown[..count] == items[..]
    ensures grown.Length == if count == 0 then 8 else 2 * count
  {
    grown := new string[if count == 0 then 8 else 2 * count];
    forall i | 0 <= i < count { grown[i] := items[i]; }
  }

  // ---------------------------------------------------------------- elements

  /** The depth and the in-string flag after walking over a text; None if it holds a comma or a
      closing bracket at depth 0 outside its strings. */
  function Pass(e: string, depth: nat, inStr: bool): Option<(nat, bool)> {
    if e == "" then Some((depth, inStr))
    else if inStr then
      if e[0] == '\\' && |e| > 1 then Pass(e[2..], depth, true) else Pass(e[1..], depth, e[0] != '"')
    else if e[0] == '"' then Pass(e[1..], depth, true)
    else if Opens(e[0]) then Pass(e[1..], depth + 1, false)
    else if Closes(e[0]) then (if depth == 0 then None else Pass(e[1..], depth - 1, false))
    else if e[0] == ',' && depth == 0 then None
    else Pass(e[1..], depth, false)
  }

  /** Non-empty, trimmed, balanced, its strings closed, no comma of its own at the top level. */
  ghost predicate Element(e: string) {
    e != "" && !IsBlank(Json, e[0]) && !IsBlank(Json, e[|e| - 1]) && Pass(e, 0, false) == Some((0, false))
  }

  lemma {:induction false} PassConcat(a: string, b: string, depth: nat, inStr: bool)
    requires var m := Pass(a, depth, inStr); m.Some? && !m.value.1
    ensures Pass(a + b, depth, inStr) == Pass(b, Pass(a, depth, inStr).value.0, false)
    decreases |a|
  {
    if a == "" {
      assert a + b == b;
    } else {
      assert (a + b)[1..] == a[1..] + b;
      if inStr && a[0] == '\\' && |a| > 1 {
        assert (a + b)[2..] == a[2..] + b;
        PassConcat(a[2..], b, depth, true);
      } else if inStr {
        PassConcat(a[1..], b, depth, a[0] != '"');
      } else if a[0] == '"' {
        PassConcat(a[1..], b, depth, true);
      } else {
        PassConcat(a[1..], b, if Opens(a[0]) then depth + 1 else if Closes(a[0]) then depth - 1 else depth, false);
      }
    }
  }

  lemma {:induction false} EndOver(s: string, p: nat, a: string, depth: nat, inStr: bool)
    requires Occurs(s, p, a)
    requires var m := Pass(a, depth, inStr); m.Some? && !m.value.1
    ensures ElementEnd(s, p, depth, inStr) == ElementEnd(s, p + |a|, Pass(a, depth, inStr).value.0, false)
    decreases |a|
  {
    if a != "" {
      assert s[p] == a[0];
      var k := if inStr && a[0] == '\\' && |a| > 1 then 2 else 1;
      var rest := a[k..];
      assert forall i :: 0 <= i < |rest| ==> rest[i] == a[k + i];
      if inStr {
        EndOver(s, p + k, rest, depth, k == 2 || a[0] != '"');
      } else if a[0] == '"' {
        EndOver(s, p + 1, rest, depth, true);
      } else {
        EndOver(s, p + 1, rest, if Opens(a[0]) then depth + 1 else if Closes(a[0]) then depth - 1 else depth, false);
      }
    }
  }

  // ---------------------------------------------------------------- join, then split

  /** A list of elements, each with the whitespace around it. An empty text is nothing between two commas. */
  datatype Pieces = End | Piece(lead: string, text: string, trail: string, tail: Pieces)

  ghost predicate PiecesOk(ps: Pieces) {
    ps.Piece? ==>
      AllBlank(Json, ps.lead) && AllBlank(Json, ps.trail) && PiecesOk(ps.tail) &&
      if ps.text == "" then ps.trail == "" else Element(ps.text)
  }

  function Join(ps: Pieces): string {
    if ps.End? then "" else ps.lead + ps.text + ps.trail + Separator(ps.tail.Piece?) + Join(ps.tail)
  }

  /** The elements, without the empty ones. */
  function Texts(ps: Pieces): seq<string> {
    if ps.End? then [] else (if ps.text == "" then [] else [ps.text]) + Texts(ps.tail)
  }

  /** The list ends at a closing bracket, or with the text. */
  predicate EndsList(s: string, q: nat) { q == |s| || At(s, q, ']') }

  /** Splitting inverts joining, for every list of elements, any whitespace, and any text after the array.
      Empty elements are dropped, and an array that is not closed is split all the same. */
  lemma SplitInvertsJoin(ps: Pieces, gap: string, inner: string, rest: string)
    requires PiecesOk(ps) && AllBlank(Json, gap)
    requires if ps.End? then AllBlank(Json, inner) else inner == Join(ps)
    requires rest == "" || rest[0] == ']'
    ensures Split(gap + "[" + inner + rest) == Items(Texts(ps))
  {
    var s := gap + "[" + inner + rest;
    ArrayParts(gap, inner, rest);
    if ps.End? {
      SkipBlankOver(Json, s, |gap| + 1, inner);
    } else {
      SplitFromJoin(s, |gap| + 1, ps, []);
      assert [] + Texts(ps) == Texts(ps);
    }
  }

  /** A text that is no array has no elements. */
  lemma NoArrayNoItems(gap: string, rest: string)
    requires AllBlank(Json, gap) && (rest == "" || (!IsBlank(Json, rest[0]) && rest[0] != '['))
    ensures Split(gap + rest) == Items([])
  {
    var s := gap + rest;
    assert Occurs(s, 0, gap) && (rest != "" ==> s[|gap|] == rest[0]);
    SkipBlankOver(Json, s, 0, gap);
  }

  lemma ArrayParts(gap: string, inner: string, rest: string)
    requires AllBlank(Json, gap) && (rest == "" || rest[0] == ']')
    ensures var s := gap + "[" + inner + rest;
            SkipBlank(Json, s, 0) == |gap| && At(s, |gap|, '[') &&
            Occurs(s, |gap| + 1, inner) && EndsList(s, |gap| + 1 + |inner|)
  {
    hide SkipBlank;
    var s := gap + "[" + inner + rest;
    assert Occurs(s, 0, gap) && At(s, |gap|, '[');
    if rest != "" { assert s[|gap| + 1 + |inner|] == rest[0]; }
    SkipBlankOver(Json, s, 0, gap);
  }

  lemma {:induction false} SplitFromJoin(s: string, p: nat, ps: Pieces, found: seq<string>)
    requires ps.Piece? && PiecesOk(ps) && Occurs(s, p, Join(ps)) && EndsList(s, p + |Join(ps)|)
    ensures SplitFrom(s, p, found) == Items(found + Texts(ps))
    decreases ps
  {
    hide SplitFrom, OuterTurn, Element, AllBlank, Occurs, EndsList;
    JoinParts(s, p, ps);
    var found' := WithElement(found, ps.text);
    var stop := p + |ps.lead + ps.text + ps.trail|;
    if ps.tail.Piece? {
      TakesPiece(s, p, ps, found);
      SplitFromJoin(s, stop + 1, ps.tail, found');
      GoesOnFrom(s, p, found, stop + 1, found');
    } else {
      TakesLast(s, p, ps, found);
    }
    TextsAfter(found, ps);
  }

  lemma TextsAfter(found: seq<string>, ps: Pieces)
    requires ps.Piece?
    ensures found + Texts(ps) == WithElement(found, ps.text) + Texts(ps.tail)
    ensures ps.tail.End? ==> found + Texts(ps) == WithElement(found, ps.text)
  {
    hide *;
    var first := if ps.text == "" then [] else [ps.text];
    TextsAre(ps, found, first);
    assert found + (first + Texts(ps.tail)) == (found + first) + Texts(ps.tail);
  }

  lemma TextsAre(ps: Pieces, found: seq<string>, first: seq<string>)
    requires ps.Piece? && first == if ps.text == "" then [] else [ps.text]
    ensures Texts(ps) == first + Texts(ps.tail) && WithElement(found, ps.text) == found + first
    ensures ps.tail.End? ==> Texts(ps.tail) == []
  {
  }

  lemma GoesOnFrom(s: string, p: nat, items: seq<string>, q: nat, items': seq<string>)
    requires p < q <= |s| && OuterTurn(s, p, items) == GoesOn(q, items')
    ensures SplitFrom(s, p, items) == SplitFrom(s, q, items')
  {
  }

  lemma LeavesFrom(s: string, p: nat, items: seq<string>, items': seq<string>)
    requires p <= |s| && OuterTurn(s, p, items) == Leaves(items')
    ensures SplitFrom(s, p, items) == Items(items')
  {
  }

  lemma JoinParts(s: string, p: nat, ps: Pieces)
    requires ps.Piece? && Occurs(s, p, Join(ps)) && EndsList(s, p + |Join(ps)|)
    ensures var stop := p + |ps.lead + ps.text + ps.trail|;
            Occurs(s, p, ps.lead + ps.text + ps.trail) &&
            if ps.tail.Piece? then
              At(s, stop, ',') && Occurs(s, stop + 1, Join(ps.tail)) && EndsList(s, stop + 1 + |Join(ps.tail)|)
            else EndsList(s, stop)
  {
    var first, sep := ps.lead + ps.text + ps.trail, Separator(ps.tail.Piece?);
    assert Join(ps) == first + sep + Join(ps.tail) && sep == if ps.tail.Piece? then [','] else [];
    assert ps.tail.End? ==> Join(ps.tail) == "";
    hide *;
    OccursSplit(s, p, first + sep, Join(ps.tail));
    OccursSplit(s, p, first, sep);
    OccursChar(s, p + |first|, ',');
  }

  /** One turn over one piece and the comma after it. */
  lemma TakesPiece(s: string, p: nat, ps: Pieces, found: seq<string>)
    requires ps.Piece? && PiecesOk(ps) && Occurs(s, p, ps.lead + ps.text + ps.trail)
    requires At(s, p + |ps.lead + ps.text + ps.trail|, ',')
    ensures OuterTurn(s, p, found) == GoesOn(p + |ps.lead + ps.text + ps.trail| + 1, WithElement(found, ps.text))
  {
    hide *;
    var start := p + |ps.lead|;
    var stop := start + |ps.text| + |ps.trail|;
    PieceParts(s, p, ps);
    TurnAt(s, p, found, start, start + |ps.text|, stop, ps.text);
  }

  /** One turn over the last piece, two if the text ends there. */
  lemma TakesLast(s: string, p: nat, ps: Pieces, found: seq<string>)
    requires ps.Piece? && PiecesOk(ps) && Occurs(s, p, ps.lead + ps.text + ps.trail)
    requires EndsList(s, p + |ps.lead + ps.text + ps.trail|)
    ensures SplitFrom(s, p, found) == Items(WithElement(found, ps.text))
  {
    hide *;
    var start := p + |ps.lead|;
    var stop := start + |ps.text| + |ps.trail|;
    PieceParts(s, p, ps);
    LastTurn(s, p, found, start, start + |ps.text|, stop, ps.text);
  }

  /** Where the scanners stop on a piece. */
  lemma PieceParts(s: string, p: nat, ps: Pieces)
    requires ps.Piece? && PiecesOk(ps) && Occurs(s, p, ps.lead + ps.text + ps.trail)
    requires var stop := p + |ps.lead + ps.text + ps.trail|; At(s, stop, ',') || EndsList(s, stop)
    ensures var start := p + |ps.lead|;
            var end := start + |ps.text|;
            var stop := end + |ps.trail|;
            |ps.lead + ps.text + ps.trail| == stop - p && stop <= |s| &&
            SkipBlank(Json, s, p) == start && s[start..end] == ps.text &&
            (ps.text == "" ==> end == stop) && (ps.text != "" ==> !At(s, start, ']')) &&
            ElementEnd(s, start, 0, false) == stop && TrimEnd(Json, s, start, stop) == end
  {
    hide *;
    var lead, text, trail := ps.lead, ps.text, ps.trail;
    var start := p + |lead|;
    PieceIs(ps);
    OccursSplit(s, p, lead + text, trail);
    OccursSplit(s, p, lead, text);
    OccursSlice(s, start, text);
    if text != "" {
      SkipsLead(s, p, lead, text);
      EndsAfter(s, start, text, trail);
    } else {
      SkipsNothing(s, p, lead, start);
    }
  }

  lemma PieceIs(ps: Pieces)
    requires ps.Piece? && PiecesOk(ps)
    ensures AllBlank(Json, ps.lead) && AllBlank(Json, ps.trail)
    ensures if ps.text == "" then ps.trail == "" else Element(ps.text)
  {
  }

  lemma SkipsNothing(s: string, p: nat, lead: string, start: nat)
    requires AllBlank(Json, lead) && Occurs(s, p, lead) && start == p + |lead| && (At(s, start, ',') || EndsList(s, start))
    ensures start <= |s| && SkipBlank(Json, s, p) == start
    ensures ElementEnd(s, start, 0, false) == start && TrimEnd(Json, s, start, start) == start
  {
    hide SkipBlank;
    SkipBlankOver(Json, s, p, lead);
  }

  lemma SkipsLead(s: string, p: nat, lead: string, text: string)
    requires AllBlank(Json, lead) && Element(text) && Occurs(s, p, lead) && Occurs(s, p + |lead|, text)
    ensures SkipBlank(Json, s, p) == p + |lead| && !At(s, p + |lead|, ']') && p + |lead| + |text| <= |s|
  {
    assert s[p + |lead|] == text[0];
    SkipBlankOver(Json, s, p, lead);
  }

  lemma EndsAfter(s: string, start: nat, text: string, trail: string)
    requires Element(text) && AllBlank(Json, trail)
    requires Occurs(s, start, text) && Occurs(s, start + |text|, trail)
    requires var stop := start + |text| + |trail|; At(s, stop, ',') || EndsList(s, stop)
    ensures start + |text| + |trail| <= |s|
    ensures ElementEnd(s, start, 0, false) == start + |text| + |trail|
    ensures TrimEnd(Json, s, start, start + |text| + |trail|) == start + |text|
  {
    EndOver(s, start, text, 0, false);
    PassBlank(trail, 0);
    EndOver(s, start + |text|, trail, 0, false);
    assert s[start + |text| - 1] == text[|text| - 1];
    TrimOver(Json, s, start, start + |text|, trail);
  }

  lemma TurnAt(s: string, p: nat, found: seq<string>, start: nat, end: nat, stop: nat, text: string)
    requires p <= start <= end <= stop <= |s| && s[start..end] == text
    requires (text == "" ==> end == stop) && (text != "" ==> !At(s, start, ']'))
    requires SkipBlank(Json, s, p) == start && ElementEnd(s, start, 0, false) == stop
    requires TrimEnd(Json, s, start, stop) == end && At(s, stop, ',')
    ensures OuterTurn(s, p, found) == GoesOn(stop + 1, WithElement(found, text))
  {
  }

  lemma LastTurn(s: string, p: nat, found: seq<string>, start: nat, end: nat, stop: nat, text: string)
    requires p <= start <= end <= stop <= |s| && s[start..end] == text
    requires (text == "" ==> end == stop) && (text != "" ==> !At(s, start, ']'))
    requires SkipBlank(Json, s, p) == start && ElementEnd(s, start, 0, false) == stop
    requires TrimEnd(Json, s, start, stop) == end && EndsList(s, stop)
    ensures SplitFrom(s, p, found) == Items(WithElement(found, text))
  {
    hide SkipBlank, TrimEnd, ElementEnd, WithElement;
    if text == "" {
      assert WithElement(found, text) == found by { NothingAdded(found); }
    } else if stop == |s| {
      assert OuterTurn(s, p, found) == GoesOn(|s|, WithElement(found, text));
      NothingLeft(s, WithElement(found, text));
    }
  }

  lemma NothingAdded(found: seq<string>)
    ensures WithElement(found, "") == found
  {
  }

  lemma {:induction false} PassBlank(gap: string, depth: nat)
    requires AllBlank(Json, gap)
    ensures Pass(gap, depth, false) == Some((depth, false))
  {
    if gap != "" { PassBlank(gap[1..], depth); }
  }

  // ---------------------------------------------------------------- arrays of JSON values

  /** A value keeps the depth it starts at, whatever brackets and commas its strings contain. */
  lemma {:induction false} PassValue(v: Json, depth: nat)
    requires WellFormed(v)
    ensures Pass(Print(v), depth, false) == Some((depth, false))
    decreases v, 1
  {
    match v
    case Prim(text) => PassPrim(text, depth);
    case Str(raw) => PassQuote(raw, depth);
    case Arr(elems) =>
      PassElems(elems, depth + 1);
      PassBracketed('[', PrintElems(elems), ']', depth);
    case Obj(fields) =>
      PassFields(fields, depth + 1);
      PassBracketed('{', PrintFields(fields), '}', depth);
  }

  lemma PassBracketed(o: char, inner: string, c: char, depth: nat)
    requires Opens(o) && Closes(c) && Pass(inner, depth + 1, false) == Some((depth + 1, false))
    ensures Pass([o] + inner + [c], depth, false) == Some((depth, false))
  {
    assert [o][1..] == "" && [c][1..] == "";
    assert Pass([c], depth + 1, false) == Pass("", depth, false);
    assert Pass([o], depth, false) == Pass("", depth + 1, false);
    PassConcat([o], inner, depth, false);
    PassConcat([o] + inner, [c], depth, false);
  }

  lemma {:induction false} PassPrim(text: string, depth: nat)
    requires forall i :: 0 <= i < |text| ==> PrimChar(text[i])
    ensures Pass(text, depth, false) == Some((depth, false))
  {
    if text != "" { PassPrim(text[1..], depth); }
  }

  lemma PassQuote(raw: string, depth: nat)
    requires RawOk(raw)
    ensures Pass(Quote(raw), depth, false) == Some((depth, false))
  {
    assert Quote(raw)[1..] == raw + "\"";
    PassRaw(raw, depth);
  }

  lemma {:induction false} PassRaw(raw: string, depth: nat)
    requires RawOk(raw)
    ensures Pass(raw + "\"", depth, true) == Some((depth, false))
    decreases |raw|
  {
    if raw == "" {
      assert raw + "\"" == "\"" && "\""[1..] == "";
    } else {
      var k := if raw[0] == '\\' then 2 else 1;
      assert (raw + "\"")[k..] == raw[k..] + "\"";
      PassRaw(raw[k..], depth);
    }
  }

  /** Texts that keep a depth, one after the other. */
  lemma PassAll(a: string, b: string, depth: nat)
    requires Pass(a, depth, false) == Some((depth, false)) && Pass(b, depth, false) == Some((depth, false))
    ensures Pass(a + b, depth, false) == Some((depth, false))
  {
    PassConcat(a, b, depth, false);
  }

  lemma PassSeparator(more: bool, depth: nat)
    requires depth > 0
    ensures Pass(Separator(more), depth, false) == Some((depth, false))
    ensures Pass(":", depth, false) == Some((depth, false))
  {
    assert ","[1..] == "" && ":"[1..] == "";
  }

  lemma {:induction false} PassElems(es: Elems, depth: nat)
    requires WellFormedElems(es) && depth > 0
    ensures Pass(PrintElems(es), depth, false) == Some((depth, false))
    decreases es, 0
  {
    match es
    case NoElems(gap) => PassBlank(gap, depth);
    case Elem(lead, head, trail, tail) =>
      PassBlank(lead, depth);
      PassValue(head, depth);
      PassBlank(trail, depth);
      PassSeparator(tail.Elem?, depth);
      PassElems(tail, depth);
      PassAll(lead, Print(head), depth);
      PassAll(lead + Print(head), trail, depth);
      PassAll(lead + Print(head) + trail, Separator(tail.Elem?), depth);
      PassAll(lead + Print(head) + trail + Separator(tail.Elem?), PrintElems(tail), depth);
  }

  lemma {:induction false} PassFields(fs: Fields, depth: nat)
    requires WellFormedFields(fs) && depth > 0
    ensures Pass(PrintFields(fs), depth, false) == Some((depth, false))
    decreases fs, 0
  {
    match fs
    case NoFields(gap) => PassBlank(gap, depth);
    case Field(lead, key, mid, pre, value, trail, tail) =>
      PassBlank(lead, depth);
      PassQuote(key, depth);
      PassBlank(mid, depth);
      PassSeparator(tail.Field?, depth);
      PassBlank(pre, depth);
      PassValue(value, depth);
      PassBlank(trail, depth);
      PassFields(tail, depth);
      PassAll(lead, Quote(key), depth);
      PassAll(lead + Quote(key), mid, depth);
      PassAll(lead + Quote(key) + mid, ":", depth);
      PassAll(lead + Quote(key) + mid + ":", pre, depth);
      PassAll(lead + Quote(key) + mid + ":" + pre, Print(value), depth);
      PassAll(lead + Quote(key) + mid + ":" + pre + Print(value), trail, depth);
      PassAll(lead + Quote(key) + mid + ":" + pre + Print(value) + trail, Separator(tail.Field?), depth);
      PassAll(lead + Quote(key) + mid + ":" + pre + Print(value) + trail + Separator(tail.Field?),
              PrintFields(tail), depth);
  }

  lemma ValueIsElement(v: Json)
    requires WellFormed(v)
    ensures Element(Print(v))
  {
    PassValue(v, 0);
  }

  function PiecesOf(es: Elems): Pieces {
    match es
    case NoElems(_) => End
    case Elem(lead, head, trail, tail) =>
      Piece(lead, Print(head), if tail.NoElems? then trail + tail.gap else trail, PiecesOf(tail))
  }

  /** The raw texts of the elements of an array. */
  function ElemTexts(es: Elems): seq<string> {
    match es
    case NoElems(_) => []
    case Elem(_, head, _, tail) => [Print(head)] + ElemTexts(tail)
  }

  lemma {:induction false} PiecesOfElems(es: Elems)
    requires WellFormedElems(es)
    ensures PiecesOk(PiecesOf(es)) && Texts(PiecesOf(es)) == ElemTexts(es)
    ensures es.Elem? ==> Join(PiecesOf(es)) == PrintElems(es)
  {
    match es
    case NoElems(_) =>
    case Elem(lead, head, trail, tail) =>
      ValueIsElement(head);
      PiecesOfElems(tail);
      if tail.NoElems? {
        assert lead + Print(head) + (trail + tail.gap) + "" + "" == lead + Print(head) + trail + "" + tail.gap;
      }
  }

  /** For every well-formed array, with brackets, quotes and commas of any kind in its strings, the
      splitter returns exactly the texts of its elements. */
  lemma SplitsJsonArray(es: Elems, gap: string, rest: string)
    requires WellFormedElems(es) && AllBlank(Json, gap)
    ensures Split(gap + Print(Arr(es)) + rest) == Items(ElemTexts(es))
  {
    PiecesOfElems(es);
    ArrayText(es, gap, rest);
    hide *;
    SplitInvertsJoin(PiecesOf(es), gap, PrintElems(es), "]" + rest);
  }

  lemma ArrayText(es: Elems, gap: string, rest: string)
    requires WellFormedElems(es)
    ensures gap + Print(Arr(es)) + rest == gap + "[" + PrintElems(es) + ("]" + rest)
    ensures PiecesOf(es).End? <==> es.NoElems?
    ensures es.NoElems? ==> AllBlank(Json, PrintElems(es))
  {
    assert gap + ("[" + PrintElems(es) + "]") + rest == gap + "[" + PrintElems(es) + ("]" + rest);
  }

  // ---------------------------------------------------------------- when the loop ends

  /** Reading on from `p`, where a closing brace comes at depth 0 outside strings before the array is closed. */
  function StrayAt(s: string, p: nat, depth: nat, inStr: bool): (r: Option<nat>)
    requires p <= |s|
    ensures r.Some? ==> p <= r.value < |s| && s[r.value] == '}'
    decreases |s| - p
  {
    if p == |s| then None
    else if inStr then
      if s[p] == '\\' && p + 1 < |s| then StrayAt(s, p + 2, depth, true)
      else StrayAt(s, p + 1, depth, s[p] != '"')
    else if s[p] == '"' then StrayAt(s, p + 1, depth, true)
    else if Opens(s[p]) then StrayAt(s, p + 1, depth + 1, false)
    else if Closes(s[p]) && depth == 0 then (if s[p] == '}' then Some(p) else None)
    else StrayAt(s, p + 1, if Closes(s[p]) then depth - 1 else depth, false)
  }

  predicate StrayBrace(s: string, p: nat, depth: nat, inStr: bool)
    requires p <= |s|
  {
    StrayAt(s, p, depth, inStr).Some?
  }

  lemma {:induction false} StrayAfterElement(s: string, p: nat, depth: nat, inStr: bool)
    requires p <= |s|
    ensures var stop := ElementEnd(s, p, depth, inStr);
            StrayBrace(s, p, depth, inStr) ==
            if At(s, stop, ',') then StrayBrace(s, stop + 1, 0, false) else At(s, stop, '}')
    ensures var stop := ElementEnd(s, p, depth, inStr);
            stop < |s| ==> At(s, stop, ',') || At(s, stop, ']') || At(s, stop, '}')
    decreases |s| - p
  {
    if p == |s| {
    } else if inStr {
      if s[p] == '\\' && p + 1 < |s| { StrayAfterElement(s, p + 2, depth, true); }
      else { StrayAfterElement(s, p + 1, depth, s[p] != '"'); }
    } else if s[p] == '"' {
      StrayAfterElement(s, p + 1, depth, true);
    } else if Opens(s[p]) {
      StrayAfterElement(s, p + 1, depth + 1, false);
    } else if Closes(s[p]) {
      if depth > 0 { StrayAfterElement(s, p + 1, depth - 1, false); }
    } else if s[p] == ',' && depth == 0 {
    } else {
      StrayAfterElement(s, p + 1, depth, false);
    }
  }

  lemma {:induction false} StrayOverBlank(s: string, p: nat)
    requires p <= |s|
    ensures StrayBrace(s, p, 0, false) == StrayBrace(s, SkipBlank(Json, s, p), 0, false)
    decreases |s| - p
  {
    if AtBlank(Json, s, p) { StrayOverBlank(s, p + 1); }
  }

  /** Where a turn goes, and what that says about a stray brace. */
  lemma TurnAndStray(s: string, p: nat, items: seq<string>)
    requires p <= |s|
    ensures match OuterTurn(s, p, items)
            case Leaves(_) => !StrayBrace(s, p, 0, false)
            case GoesOn(q, _) => StrayBrace(s, p, 0, false) == if q == p then true else StrayBrace(s, q, 0, false)
  {
    StrayOverBlank(s, p);
    var start := SkipBlank(Json, s, p);
    if start < |s| && s[start] != ']' {
      StrayAfterElement(s, start, 0, false);
    }
  }

  lemma {:induction false} SpinsIffStrayBrace(s: string, p: nat, items: seq<string>)
    requires p <= |s|
    ensures SplitFrom(s, p, items).Spins? <==> StrayBrace(s, p, 0, false)
    decreases |s| - p
  {
    TurnAndStray(s, p, items);
    match OuterTurn(s, p, items)
    case Leaves(found) => LeavesFrom(s, p, items, found);
    case GoesOn(q, found) =>
      if q > p {
        SpinsIffStrayBrace(s, q, found);
        GoesOnFrom(s, p, items, q, found);
      }
  }

  /** The splitter hangs exactly on the texts that open an array and then, outside strings, close a
      brace that was never opened. */
  lemma HangsExactlyOnStrayBrace(arr: string)
    ensures var p := SkipBlank(Json, arr, 0);
            Split(arr).Spins? <==> At(arr, p, '[') && StrayBrace(arr, p + 1, 0, false)
  {
    var p := SkipBlank(Json, arr, 0);
    if At(arr, p, '[') { SpinsIffStrayBrace(arr, p + 1, []); }
  }

  /** A part of a text has the stray brace exactly when the whole text has it before the end of the part. */
  lemma {:induction false} StrayInPart(t: string, s: string, a: nat, k: nat, depth: nat, inStr: bool)
    requires Occurs(s, a, t) && k <= |t|
    ensures var r := StrayAt(s, a + k, depth, inStr);
            StrayBrace(t, k, depth, inStr) <==> r.Some? && r.value < a + |t|
    decreases |t| - k
  {
    hide Opens, Closes;
    if k < |t| {
      var c := t[k];
      assert s[a + k] == c;
      if inStr && c == '\\' && k + 1 < |t| {
        StrayInPart(t, s, a, k + 2, depth, true);
      } else if inStr || c == '"' {
        StrayInPart(t, s, a, k + 1, depth, !inStr || c != '"');
      } else if Opens(c) {
        StrayInPart(t, s, a, k + 1, depth + 1, false);
      } else if !Closes(c) || depth > 0 {
        StrayInPart(t, s, a, k + 1, if Closes(c) then depth - 1 else depth, false);
      }
    }
  }

  /** Cutting a text short never makes the splitter hang; so it ends on every prefix of a well-formed array. */
  lemma PrefixEnds(arr: string, n: nat)
    requires n <= |arr| && Split(arr).Items?
    ensures Split(arr[..n]).Items?
  {
    if Split(arr[..n]).Spins? { SpinsOn(arr, n); }
    hide *;
  }

  lemma SpinsOn(arr: string, n: nat)
    requires n <= |arr| && Split(arr[..n]).Spins?
    ensures Split(arr).Spins?
  {
    hide *;
    var q := SkipBlank(Json, arr[..n], 0);
    HangsExactlyOnStrayBrace(arr);
    HangsExactlyOnStrayBrace(arr[..n]);
    AtPrefix(arr, n, q, '[');
    SameStart(arr, n);
    StrayInPart(arr[..n], arr, 0, q + 1, 0, false);
    StrayIs(arr, q + 1);
  }

  lemma AtPrefix(arr: string, n: nat, q: nat, c: char)
    requires n <= |arr| && At(arr[..n], q, c)
    ensures q < n && At(arr, q, c) && Occurs(arr, 0, arr[..n])
  {
  }

  lemma StrayIs(s: string, p: nat)
    requires p <= |s| && StrayAt(s, p, 0, false).Some?
    ensures StrayBrace(s, p, 0, false)
  {
  }

  lemma SameStart(arr: string, n: nat)
    requires n <= |arr| && SkipBlank(Json, arr[..n], 0) < n
    ensures SkipBlank(Json, arr, 0) == SkipBlank(Json, arr[..n], 0)
  {
    hide SkipBlank;
    var q := SkipBlank(Json, arr[..n], 0);
    assert forall i :: 0 <= i <= q ==> arr[i] == arr[..n][i];
    SkipBlankOver(Json, arr, 0, arr[..q]);
  }

  lemma WellFormedPrefixEnds(es: Elems, rest: string, n: nat)
    requires WellFormedElems(es) && n <= |Print(Arr(es)) + rest|
    ensures Split((Print(Arr(es)) + rest)[..n]).Items?
  {
    hide Split, Print, WellFormedElems, ElemTexts;
    var s := Print(Arr(es)) + rest;
    assert s == "" + Print(Arr(es)) + rest;
    SplitsJsonArray(es, "", rest);
    PrefixEnds(s, n);
  }
}
