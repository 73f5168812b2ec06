/** manager_discovery.c: which manager the client contacts, trimmed and checked, whole or not at all. */
module ManagerUrl {
  import opened CStrings

  const MAX_URL_LENGTH := 512
  const DEFAULT_MANAGER_URL := "https://connect.oddsockets.tyga.network"

  datatype Status = Success | InvalidParameter

  function TrimSlashes(s: string, start: nat, end: nat): (r: nat)
    requires start <= end <= |s|
    ensures start <= r <= end && (r == start || s[r - 1] != '/')
    ensures forall i :: r <= i < end ==> s[i] == '/'
  {
    if end > start && s[end - 1] == '/' then TrimSlashes(s, start, end - 1) else end
  }

  /** Without leading blanks, trailing blanks, and then trailing slashes. */
  function Trimmed(s: string): string {
    var start := SkipBlank(Ctype, s, 0);
    s[start..TrimSlashes(s, start, TrimEnd(Ctype, s, start, |s|))]
  }

  /** `copy_normalized_url` into a buffer of `size` bytes; None where it refuses. */
  function Normalized(s: string, size: nat): Option<string> {
    var r := Trimmed(s);
    if r == "" || |r| >= size then None else Some(r)
  }

  method CopyNormalizedUrl(source: Option<string>, destination: array<char>) returns (status: Status)
    modifies destination
    ensures status.Success? <==> source.Some? && Normalized(source.value, destination.Length).Some?
    ensures status.Success? ==> Holds(destination, Normalized(source.value, destination.Length).value)
    ensures !status.Success? ==> destination[..] == old(destination[..])
  {
    hide SkipBlank, TrimEnd;
    if source.None? || destination.Length == 0 { return InvalidParameter; }
    var s := source.value;
    var start := SkipWs(Ctype, s, 0);
    var end := TrimTrailing(Ctype, s, start, |s|);
    ghost var trimmed := end;
    while end > start && s[end - 1] == '/'
      invariant start <= end <= trimmed
      invariant TrimSlashes(s, start, end) == TrimSlashes(s, start, trimmed)
    {
      end := end - 1;
    }
    assert Trimmed(s) == s[start..end];
    if end == start || end - start >= destination.Length { return InvalidParameter; }
    forall i | 0 <= i < end - start { destination[i] := s[start + i]; }
    destination[end - start] := '\0';
    return Success;
  }

  function Lower(c: char): char {
    if 'A' <= c <= 'Z' then (c as int - 'A' as int + 'a' as int) as char else c
  }

  /** The prefix, in any mixture of cases. */
  predicate HasPrefix(value: string, prefix: string) {
    |prefix| <= |value| && forall i :: 0 <= i < |prefix| ==> Lower(value[i]) == prefix[i]
  }

  method HasPrefixCi(value: string, prefix: string) returns (r: bool)
    ensures r == HasPrefix(value, prefix)
  {
    var i := 0;
    while i < |prefix|
      invariant 0 <= i <= |prefix| && i <= |value|
      invariant forall k :: 0 <= k < i ==> Lower(value[k]) == prefix[k]
    {
      if i >= |value| { return false; }
      var c := value[i];
      if 'A' <= c <= 'Z' { c := (c as int - 'A' as int + 'a' as int) as char; }
      if c != prefix[i] { return false; }
      i := i + 1;
    }
    return true;
  }

  /** Absolute, http or https, and naming a host. */
  predicate IsAbsoluteHttp(url: string) {
    var scheme := if HasPrefix(url, "https://") then 8 else if HasPrefix(url, "http://") then 7 else 0;
    scheme > 0 && |url| > scheme && url[scheme] != '/' && url[scheme] != '?' && url[scheme] != '#'
  }

  /** The configured URL, else the environment's, else the default. */
  function Candidate(configured: Option<string>, env: Option<string>): string {
    if configured.Some? && configured.value != "" then configured.value
    else if env.Some? && env.value != "" then env.value
    else DEFAULT_MANAGER_URL
  }

  /** What `oddsockets_discover_manager_url` stores; None where it fails. */
  function Discovered(configured: Option<string>, env: Option<string>, size: nat): Option<string> {
    var r := Normalized(Candidate(configured, env), MAX_URL_LENGTH);
    if r.None? || !IsAbsoluteHttp(r.value) || |r.value| >= size then None else r
  }

  method DiscoverManagerUrl(configured: Option<string>, env: Option<string>, managerUrl: array<char>)
    returns (status: Status)
    modifies managerUrl
    ensures status.Success? <==> Discovered(configured, env, managerUrl.Length).Some?
    // never a partial URL: the whole of it, or the empty string
    ensures status.Success? ==> Holds(managerUrl, Discovered(configured, env, managerUrl.Length).value)
    ensures !status.Success? && managerUrl.Length > 0 ==> Holds(managerUrl, "")
  {
    if managerUrl.Length == 0 { return InvalidParameter; }
    managerUrl[0] := '\0';
    var normalized := ReadNormalized(Candidate(configured, env));
    if normalized.None? { return InvalidParameter; }
    var absolute := AbsoluteHttp(normalized.value);
    if !absolute { return InvalidParameter; }
    if |normalized.value| >= managerUrl.Length { return InvalidParameter; }
    CopyWhole(normalized.value, managerUrl);
    return Success;
  }

  /** Normalising into the bounded scratch buffer. */
  method ReadNormalized(candidate: string) returns (url: Option<string>)
    ensures url == Normalized(candidate, MAX_URL_LENGTH)
  {
    var scratch := new char[MAX_URL_LENGTH];
    var copied := CopyNormalizedUrl(Some(candidate), scratch);
    if !copied.Success? { return None; }
    return Some(scratch[..|Trimmed(candidate)|]);
  }

  method CopyWhole(text: string, out: array<char>)
    requires |text| < out.Length
    modifies out
    ensures Holds(out, text)
  {
    forall i | 0 <= i < |text| { out[i] := text[i]; }
    out[|text|] := '\0';
  }

  method AbsoluteHttp(url: string) returns (r: bool)
    ensures r == IsAbsoluteHttp(url)
  {
    var scheme;
    var https := HasPrefixCi(url, "https://");
    if https {
      scheme := 8;
    } else {
      var http := HasPrefixCi(url, "http://");
      if !http { return false; }
      scheme := 7;
    }
    if |url| <= scheme { return false; }
    return url[scheme] != '/' && url[scheme] != '?' && url[scheme] != '#';
  }

  // ---------------------------------------------------------------- what trimming means

  ghost predicate AllSlashes(s: string) { forall i :: 0 <= i < |s| ==> s[i] == '/' }

  /** `r` is `s` minus leading blanks and minus slashes followed by blanks, as many as there are. */
  ghost predicate TrimsTo(s: string, lead: string, r: string, slashes: string, trail: string) {
    s == lead + r + slashes + trail &&
    AllBlank(Ctype, lead) && AllSlashes(slashes) && AllBlank(Ctype, trail) &&
    (r != "" ==> !IsBlank(Ctype, r[0]) && r[|r| - 1] != '/' && (slashes == "" ==> !IsBlank(Ctype, r[|r| - 1])))
  }

  lemma TrimmedParts(s: string) returns (lead: string, slashes: string, trail: string)
    ensures TrimsTo(s, lead, Trimmed(s), slashes, trail)
  {
    hide SkipBlank, TrimEnd, TrimSlashes;
    var start := SkipBlank(Ctype, s, 0);
    var end := TrimEnd(Ctype, s, start, |s|);
    var stop := TrimSlashes(s, start, end);
    lead, slashes, trail := s[..start], s[stop..end], s[end..];
    assert Trimmed(s) == s[start..stop];
    assert s == s[..start] + s[start..stop] + s[stop..end] + s[end..];
  }

  /** Those conditions leave one result only. */
  lemma TrimmedIsUnique(s: string, lead: string, r: string, slashes: string, trail: string)
    requires TrimsTo(s, lead, r, slashes, trail) && r != ""
    ensures r == Trimmed(s)
  {
    hide SkipBlank, TrimEnd, TrimSlashes;
    PartsStand(s, lead, r, slashes, trail);
    var start, stop, end := |lead|, |lead| + |r|, |lead| + |r| + |slashes|;
    SkipBlankOver(Ctype, s, 0, lead);
    TrimOver(Ctype, s, start, end, trail);
    SlashesOver(s, start, stop, end);
    OccursSlice(s, start, r);
  }

  lemma PartsStand(s: string, lead: string, r: string, slashes: string, trail: string)
    requires TrimsTo(s, lead, r, slashes, trail) && r != ""
    ensures var start, stop, end := |lead|, |lead| + |r|, |lead| + |r| + |slashes|;
            |s| == end + |trail| && Occurs(s, 0, lead) && Occurs(s, start, r) && Occurs(s, end, trail) &&
            !IsBlank(Ctype, s[start]) && s[stop - 1] != '/' && !IsBlank(Ctype, s[end - 1]) &&
            (forall i :: stop <= i < end ==> s[i] == '/')
  {
  }

  lemma SlashesOver(s: string, start: nat, stop: nat, end: nat)
    requires start < stop <= end <= |s| && s[stop - 1] != '/'
    requires forall i :: stop <= i < end ==> s[i] == '/'
    ensures TrimSlashes(s, start, end) == stop
  {
  }

  // ---------------------------------------------------------------- resolving twice

  /** `s` has slashes to strip, and a blank before them. */
  ghost predicate BlankBeforeSlashes(s: string) {
    exists k, m :: 0 < k < m <= |s| && IsBlank(Ctype, s[k - 1]) && AllSlashes(s[k..m]) && AllBlank(Ctype, s[m..])
  }

  /** Trimming again changes nothing exactly when no blank stands before slashes that are stripped. */
  lemma TrimmedAgainIff(s: string)
    requires Trimmed(s) != ""
    ensures Trimmed(Trimmed(s)) == Trimmed(s) <==> !BlankBeforeSlashes(s)
  {
    var lead, slashes, trail := TrimmedParts(s);
    var r := Trimmed(s);
    hide Trimmed;
    TrimsAgainIff(r);
    BlankIsBefore(s, lead, r, slashes, trail);
  }

  lemma TrimsAgainIff(r: string)
    requires r != "" && !IsBlank(Ctype, r[0]) && r[|r| - 1] != '/'
    ensures Trimmed(r) == r <==> !IsBlank(Ctype, r[|r| - 1])
  {
  }

  lemma BlankIsBefore(s: string, lead: string, r: string, slashes: string, trail: string)
    requires TrimsTo(s, lead, r, slashes, trail) && r != ""
    ensures BlankBeforeSlashes(s) <==> IsBlank(Ctype, r[|r| - 1])
  {
    var stop, end := |lead| + |r|, |lead| + |r| + |slashes|;
    PartsStand(s, lead, r, slashes, trail);
    assert s[stop - 1] == r[|r| - 1] && s[stop..end] == slashes && s[end..] == trail;
    hide Occurs, IsBlank;
    if IsBlank(Ctype, s[stop - 1]) {
      assert stop < end;
    }
    if BlankBeforeSlashes(s) {
      var k, m :| 0 < k < m <= |s| && IsBlank(Ctype, s[k - 1]) && AllSlashes(s[k..m]) && AllBlank(Ctype, s[m..]);
      Pointwise(s, k, m);
      Pointwise(s, stop, end);
      SameEnd(s, stop, end, k, m);
    }
  }

  lemma Pointwise(s: string, k: nat, m: nat)
    requires k <= m <= |s| && AllSlashes(s[k..m]) && AllBlank(Ctype, s[m..])
    ensures forall i :: k <= i < m ==> s[i] == '/'
    ensures forall i :: m <= i < |s| ==> IsBlank(Ctype, s[i])
  {
    assert forall i :: k <= i < m ==> s[i] == s[k..m][i - k];
    assert forall i :: m <= i < |s| ==> s[i] == s[m..][i - m];
  }

  /** The slashes before the trailing blanks begin and end at one place only. */
  lemma SameEnd(s: string, stop: nat, end: nat, k: nat, m: nat)
    requires 0 < stop <= end <= |s| && !IsBlank(Ctype, s[end - 1]) && s[stop - 1] != '/'
    requires forall i :: stop <= i < end ==> s[i] == '/'
    requires forall i :: end <= i < |s| ==> IsBlank(Ctype, s[i])
    requires 0 < k < m <= |s| && IsBlank(Ctype, s[k - 1])
    requires forall i :: k <= i < m ==> s[i] == '/'
    requires forall i :: m <= i < |s| ==> IsBlank(Ctype, s[i])
    ensures k == stop && m == end
  {
    assert s[m - 1] == '/';
  }

  /** An accepted URL is accepted again unchanged, whatever the environment says by then, under exactly
      that condition on the text it was first read from. */
  lemma ResolvesAgainIff(configured: Option<string>, env: Option<string>, env': Option<string>, size: nat)
    requires Discovered(configured, env, size).Some?
    ensures var r := Discovered(configured, env, size);
            Discovered(r, env', size) == r <==> !BlankBeforeSlashes(Candidate(configured, env))
  {
    TrimmedAgainIff(Candidate(configured, env));
    hide BlankBeforeSlashes, Trimmed;
  }

  /** `oddsockets_config_init` stores what it resolves, or the empty string. */
  function ConfiguredUrl(env: Option<string>): string {
    var r := Discovered(None, env, MAX_URL_LENGTH);
    if r.None? then "" else r.value
  }

  /** So the manager the configuration shows is the one the worker assignment asks. */
  lemma ShownManagerIsUsed(env: Option<string>, env': Option<string>)
    requires ConfiguredUrl(env) != "" && !BlankBeforeSlashes(Candidate(None, env))
    ensures Discovered(Some(ConfiguredUrl(env)), env', MAX_URL_LENGTH) == Some(ConfiguredUrl(env))
  {
    ResolvesAgainIff(None, env, env', MAX_URL_LENGTH);
  }

  /** A URL that is accepted and, resolved again, refused. */
  lemma BlankBeforeSlash()
    ensures Discovered(Some("http:// /"), None, MAX_URL_LENGTH) == Some("http:// ")
    ensures Discovered(Some("http:// "), None, MAX_URL_LENGTH) == None
  {
    hide Trimmed;
    BlankStays();
    SchemeAlone();
    assert Lower("http:// "[4]) == ':' && "https://"[4] == 's';
    assert HasPrefix("http:// ", "http://") && !HasPrefix("http:// ", "https://");
    assert |"http:"| == 5;
  }

  lemma BlankStays()
    ensures Trimmed("http:// /") == "http:// "
  {
    var r := "http:// ";
    assert "http:// /" == "" + r + "/" + "";
    TrimmedIsUnique("http:// /", "", r, "/", "");
  }

  lemma SchemeAlone()
    ensures Trimmed("http:// ") == "http:"
  {
    assert "http:// " == "" + "http:" + "//" + " ";
    TrimmedIsUnique("http:// ", "", "http:", "//", " ");
  }

  // ---------------------------------------------------------------- which URL, and which URLs

  /** A configured URL wins; then the environment; then the default. Empty counts as not given. */
  lemma CandidateOrder(url: string, env: Option<string>, size: nat)
    requires url != ""
    ensures Discovered(Some(url), env, size) == Discovered(Some(url), None, size)
    ensures Discovered(None, Some(url), size) == Discovered(Some(""), Some(url), size) == Discovered(Some(url), None, size)
    ensures Discovered(None, None, size) == Discovered(Some(""), Some(""), size) ==
            Discovered(Some("https://connect.oddsockets.tyga.network"), None, size)
  {
    assert |"https://connect.oddsockets.tyga.network"| > 0;
  }

  /** `s` begins with this lower-case text, in any mixture of cases. */
  predicate Spells(s: string, lower: string) {
    |lower| <= |s| &&
    forall i :: 0 <= i < |lower| ==>
      s[i] == lower[i] || ('A' <= s[i] <= 'Z' && s[i] as int + ('a' as int - 'A' as int) == lower[i] as int)
  }

  /** A URL is accepted exactly if what is left after trimming is shorter than both buffers, spells http:// or
      https://, and has a character after it that does not begin a path, a query or a fragment. */
  lemma AcceptedIff(url: string, env: Option<string>, size: nat)
    requires url != ""
    ensures var u := Trimmed(url);
            Discovered(Some(url), env, size) ==
            if |u| < 512 && |u| < size && (Names(u, "http://") || Names(u, "https://")) then Some(u) else None
  {
    var u := Trimmed(url);
    SpellsIff(u, "http://");
    SpellsIff(u, "https://");
    if HasPrefix(u, "https://") { assert Lower(u[4]) == "https://"[4] == 's' && "http://"[4] == ':'; }
    hide HasPrefix, Spells, Trimmed;
  }

  predicate Names(u: string, scheme: string) {
    Spells(u, scheme) && |u| > |scheme| && u[|scheme|] !in "/?#"
  }

  lemma SpellsIff(u: string, scheme: string)
    requires forall i :: 0 <= i < |scheme| ==> !('A' <= scheme[i] <= 'Z')
    ensures HasPrefix(u, scheme) <==> Spells(u, scheme)
  {
  }
}
