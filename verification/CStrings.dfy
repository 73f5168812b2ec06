/** C strings, as every scanner of the SDK sees them.

    A NUL-terminated string is the sequence of the characters before its terminator; a
    `const char*` cursor into it is an index, and `*p` is true exactly when the index is still
    inside the sequence. */
module CStrings {

  datatype Option<+T> = None | Some(value: T)

  /** The two blank sets of the sources: `os_skip_ws` knows four characters, `isspace` (json_parser.c)
      and `is_space` (manager_discovery.c) know six. */
  datatype Blank = Json | Ctype

  predicate IsBlank(b: Blank, c: char) {
    c == ' ' || c == '\t' || c == '\n' || c == '\r' || (b.Ctype? && (c as int == 11 || c as int == 12))
  }

  /** Spelled out: the two sets as texts. */
  lemma BlanksAre(c: char)
    ensures IsBlank(Json, c) <==> c in " \t\n\r"
    ensures IsBlank(Ctype, c) <==> c in " \t\n\r\U{0B}\U{0C}"
  {
  }

  ghost predicate AllBlank(b: Blank, s: string) {
    forall i :: 0 <= i < |s| ==> IsBlank(b, s[i])
  }

  /** `*p == c` */
  predicate At(s: string, p: nat, c: char) {
    p < |s| && s[p] == c
  }

  predicate AtBlank(b: Blank, s: string, p: nat) {
    p < |s| && IsBlank(b, s[p])
  }

  /** The text `a` stands in `s` at index `p`. */
  predicate Occurs(s: string, p: nat, a: string) {
    p + |a| <= |s| && forall i :: 0 <= i < |a| ==> s[p + i] == a[i]
  }

  lemma OccursSplit(s: string, p: nat, a: string, b: string)
    ensures Occurs(s, p, a + b) <==> Occurs(s, p, a) && Occurs(s, p + |a|, b)
  {
    var ab := a + b;
    if Occurs(s, p, ab) {
      assert forall i :: 0 <= i < |a| ==> a[i] == ab[i];
      assert forall i :: 0 <= i < |b| ==> b[i] == ab[|a| + i];
    }
    if Occurs(s, p, a) && Occurs(s, p + |a|, b) {
      assert forall i :: 0 <= i < |ab| ==> ab[i] == if i < |a| then a[i] else b[i - |a|];
    }
  }

  lemma OccursChar(s: string, p: nat, c: char)
    ensures Occurs(s, p, [c]) <==> At(s, p, c)
  {
    assert [c][0] == c;
  }

  lemma OccursFirst(s: string, p: nat, a: string)
    requires Occurs(s, p, a) && a != ""
    ensures At(s, p, a[0]) && p + |a| <= |s|
  {
    assert s[p + 0] == a[0];
  }

  /** A text occurs at the start of itself followed by anything. */
  lemma OccursSelf(a: string, rest: string)
    ensures Occurs(a + rest, 0, a) && Occurs(a + rest, |a|, rest)
  {
    OccursSplit(a + rest, 0, a, rest);
  }

  lemma OccursSlice(s: string, p: nat, a: string)
    requires Occurs(s, p, a)
    ensures s[p..p + |a|] == a
  {
    assert forall i :: 0 <= i < |a| ==> s[p..p + |a|][i] == a[i];
  }

  function SkipBlank(b: Blank, s: string, p: nat): (q: nat)
    requires p <= |s|
    ensures p <= q <= |s| && !AtBlank(b, s, q)
    ensures forall i :: p <= i < q ==> IsBlank(b, s[i])
    decreases |s| - p
  {
    if AtBlank(b, s, p) then SkipBlank(b, s, p + 1) else p
  }

  lemma SkipBlankOver(b: Blank, s: string, p: nat, gap: string)
    requires AllBlank(b, gap) && Occurs(s, p, gap) && !AtBlank(b, s, p + |gap|)
    ensures SkipBlank(b, s, p) == p + |gap|
  {
    var q := SkipBlank(b, s, p);
    forall i | p <= i < p + |gap| ensures IsBlank(b, s[i]) {
      assert s[i] == gap[i - p];
    }
    assert q >= p + |gap|;
  }

  /** `os_skip_ws` / `skip_ws` as the source runs them. */
  method SkipWs(b: Blank, s: string, p: nat) returns (q: nat)
    requires p <= |s|
    ensures q == SkipBlank(b, s, p)
  {
    q := p;
    while q < |s| && IsBlank(b, s[q])
      invariant p <= q <= |s|
      invariant SkipBlank(b, s, q) == SkipBlank(b, s, p)
    {
      q := q + 1;
    }
  }

  function TrimEnd(b: Blank, s: string, start: nat, end: nat): (r: nat)
    requires start <= end <= |s|
    ensures start <= r <= end && (r == start || !IsBlank(b, s[r - 1]))
    ensures forall i :: r <= i < end ==> IsBlank(b, s[i])
  {
    if end > start && IsBlank(b, s[end - 1]) then TrimEnd(b, s, start, end - 1) else end
  }

  method TrimTrailing(b: Blank, s: string, start: nat, stop: nat) returns (end: nat)
    requires start <= stop <= |s|
    ensures end == TrimEnd(b, s, start, stop)
  {
    end := stop;
    while end > start && IsBlank(b, s[end - 1])
      invariant start <= end <= stop && TrimEnd(b, s, start, end) == TrimEnd(b, s, start, stop)
    {
      end := end - 1;
    }
  }

  lemma TrimOver(b: Blank, s: string, start: nat, end: nat, trail: string)
    requires start < end && Occurs(s, end, trail) && AllBlank(b, trail) && !IsBlank(b, s[end - 1])
    ensures TrimEnd(b, s, start, end + |trail|) == end
  {
    forall i | end <= i < end + |trail| ensures IsBlank(b, s[i]) {
      assert s[i] == trail[i - end];
    }
  }

  /** `strstr` from an index on: where the first occurrence of a needle starts. */
  function StrStr(s: string, needle: string, p: nat := 0): (r: Option<nat>)
    requires p <= |s|
    ensures r.Some? ==> p <= r.value && Occurs(s, r.value, needle)
    ensures forall k :: p <= k <= |s| && (r.Some? ==> k < r.value) ==> !Occurs(s, k, needle)
    decreases |s| - p
  {
    if Occurs(s, p, needle) then Some(p)
    else if p == |s| then None
    else StrStr(s, needle, p + 1)
  }

  lemma StrStrAt(s: string, needle: string, i: nat)
    requires Occurs(s, i, needle)
    requires forall k :: 0 <= k < i ==> !Occurs(s, k, needle)
    ensures StrStr(s, needle) == Some(i)
  {
    assert StrStr(s, needle).Some?;
  }

  /** `strchr` from an index on, for a character other than the terminator. */
  function StrChr(s: string, c: char, p: nat := 0): (r: Option<nat>)
    requires p <= |s|
    ensures r.Some? ==> p <= r.value && At(s, r.value, c)
    ensures forall k :: p <= k < |s| && (r.Some? ==> k < r.value) ==> s[k] != c
    decreases |s| - p
  {
    if p == |s| then None
    else if s[p] == c then Some(p)
    else StrChr(s, c, p + 1)
  }

  /** What `snprintf` with a bound, or a bounded copy, keeps of a text. */
  function Take(s: string, n: nat): (r: string)
    ensures r <= s && |r| == if |s| <= n then |s| else n
  {
    if |s| <= n then s else s[..n]
  }

  /** The C string held by a buffer: everything before its first NUL. */
  function CText(buf: seq<char>): (r: string)
    ensures r <= buf && '\0' !in r
    ensures |r| < |buf| ==> buf[|r|] == '\0'
  {
    if buf == [] || buf[0] == '\0' then "" else [buf[0]] + CText(buf[1..])
  }

  lemma CTextOf(buf: seq<char>, t: string)
    requires |t| < |buf| && buf[..|t|] == t && '\0' !in t && buf[|t|] == '\0'
    ensures CText(buf) == t
  {
    var r := CText(buf);
    assert forall k :: 0 <= k < |t| ==> buf[k] == t[k];
  }

  /** The buffer holds exactly this text, terminated. */
  ghost predicate Holds(buf: array<char>, t: string)
    reads buf
  {
    |t| < buf.Length && buf[..|t|] == t && buf[|t|] == '\0'
  }

  predicate IsDigit(c: char) { '0' <= c <= '9' }

  /** `%d` / `%lld` of a non-negative number. */
  function Dec(n: nat): (r: string)
    ensures r != "" && forall i :: 0 <= i < |r| ==> IsDigit(r[i])
  {
    if n < 10 then [(n + '0' as int) as char] else Dec(n / 10) + [(n % 10 + '0' as int) as char]
  }

  function DecInt(n: int): (r: string)
    ensures r != ""
  {
    if n < 0 then "-" + Dec(-n) else Dec(n)
  }

  /** Leading decimal digits, as `atoll` reads them onto an accumulated value. */
  function ReadDigits(s: string, acc: nat): nat {
    if s == "" || !IsDigit(s[0]) then acc else ReadDigits(s[1..], 10 * acc + (s[0] as int - '0' as int))
  }

  const LLONG_MAX := 0x7FFF_FFFF_FFFF_FFFF

  /** `atoll`: leading blanks, an optional sign, digits; out-of-range results saturate. */
  function Atoll(s: string): (r: int)
    ensures -LLONG_MAX - 1 <= r <= LLONG_MAX
  {
    var p := SkipBlank(Ctype, s, 0);
    var negative := At(s, p, '-');
    var v: int := ReadDigits(if negative || At(s, p, '+') then s[p + 1..] else s[p..], 0);
    if negative then (if v > LLONG_MAX + 1 then -LLONG_MAX - 1 else -v)
    else (if v > LLONG_MAX then LLONG_MAX else v)
  }

  lemma ReadDec(n: nat, post: string)
    requires post == "" || !IsDigit(post[0])
    ensures ReadDigits(Dec(n) + post, 0) == n
  {
    ReadDigitsOver(Dec(n), post, 0);
    DecValue(n);
  }

  /** Printed and read again, a 64-bit number of either sign is itself; beyond that range it saturates. */
  lemma AtollOfInt(n: int, post: string)
    requires post == "" || !IsDigit(post[0])
    ensures Atoll(DecInt(n) + post) ==
            if n > 0x7FFF_FFFF_FFFF_FFFF then 0x7FFF_FFFF_FFFF_FFFF
            else if n < -0x8000_0000_0000_0000 then -0x8000_0000_0000_0000 else n
  {
    hide Dec, ReadDigits, SkipBlank;
    var s := DecInt(n) + post;
    assert s[0..] == s;
    var m := if n < 0 then -n else n;
    ReadDec(m, post);
    assert IsDigit(Dec(m)[0]);
    assert s == (if n < 0 then "-" else "") + (Dec(m) + post);
    assert s[if n < 0 then 1 else 0..] == Dec(m) + post;
    assert !IsBlank(Ctype, s[0]);
    assert SkipBlank(Ctype, s, 0) == 0;
  }

  /** Value of a digit string read onto an accumulator. */
  lemma {:induction false} ReadDigitsOver(ds: string, post: string, acc: nat)
    requires forall i :: 0 <= i < |ds| ==> IsDigit(ds[i])
    requires post == "" || !IsDigit(post[0])
    ensures ReadDigits(ds + post, acc) == ReadDigits(ds, acc)
  {
    if ds == "" {
      assert ds + post == post;
    } else {
      assert (ds + post)[1..] == ds[1..] + post;
      ReadDigitsOver(ds[1..], post, 10 * acc + (ds[0] as int - '0' as int));
    }
  }

  lemma {:induction false} ReadDigitsSnoc(ds: string, d: char, acc: nat)
    requires forall i :: 0 <= i < |ds| ==> IsDigit(ds[i])
    requires IsDigit(d)
    ensures ReadDigits(ds + [d], acc) == 10 * ReadDigits(ds, acc) + (d as int - '0' as int)
  {
    if ds == "" {
      assert ds + [d] == [d];
      assert [d][1..] == "";
      assert ReadDigits([d], acc) == ReadDigits("", 10 * acc + (d as int - '0' as int));
    } else {
      assert (ds + [d])[1..] == ds[1..] + [d];
      ReadDigitsSnoc(ds[1..], d, 10 * acc + (ds[0] as int - '0' as int));
    }
  }

  lemma {:induction false} DecValue(n: nat)
    ensures ReadDigits(Dec(n), 0) == n
  {
    if n < 10 {
      var c := (n + '0' as int) as char;
      assert Dec(n) == [c] && [c][1..] == "";
      assert ReadDigits([c], 0) == ReadDigits("", c as int - '0' as int);
    } else {
      DecValue(n / 10);
      ReadDigitsSnoc(Dec(n / 10), (n % 10 + '0' as int) as char, 0);
    }
  }

  /** Numbers below 10^k take at most k digits. */
  lemma {:induction false} DecLength(n: nat, k: nat)
    requires 1 <= k && n < Pow10(k)
    ensures |Dec(n)| <= k
    decreases k
  {
    if n >= 10 {
      assert k > 1;
      DecLength(n / 10, k - 1);
    }
  }

  function Pow10(k: nat): nat { if k == 0 then 1 else 10 * Pow10(k - 1) }
}
