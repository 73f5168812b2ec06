/** Keyless auth: minting a token at every connect and silently again before it expires. */
module TokenRefresh {
  import opened CStrings
  import Jwt

  const SUCCESS := 0
  const ERROR_INVALID_API_KEY := -2
  const DEFAULT_LEAD_MS := 120000

  /** What the application's provider hands back. */
  datatype Answer = Answer(code: int, token: string, expiresAtMs: int) {
    predicate Refuses() { code != SUCCESS || token == "" }

    /** Its answer does not make the JWT arithmetic overflow. */
    predicate Defined() {
      Refuses() || expiresAtMs > 0 || Jwt.ExpiryOf(token).Some?
    }

    function Mint(): Mint
      requires Defined()
    {
      if Refuses() then Fails
      else Mints(if expiresAtMs > 0 then expiresAtMs else Jwt.ExpiryOf(token).value)
    }
  }

  /** The outcome of one mint: failure, or a token with its expiry (0 when unknown). */
  datatype Mint = Fails | Mints(expiry: int)

  function Lead(configured: int): (lead: int)
    ensures lead > 0
  {
    if configured > 0 then configured else DEFAULT_LEAD_MS
  }

  /** A pump asks for a new token when the expiry is known and the lead window has been reached. */
  predicate Due(expiry: int, lead: int, now: int) {
    expiry > 0 && now >= expiry - lead
  }

  datatype Notice = Silent | Refreshed(expiresAt: int) | RefreshFailed

  class KeylessClient {
    const refreshLeadMs: int
    var currentToken: string
    var tokenExpiresAtMs: int

    constructor (refreshLeadMs: int)
      ensures tokenExpiresAtMs == 0 && currentToken == "" && this.refreshLeadMs == refreshLeadMs
    {
      this.refreshLeadMs := refreshLeadMs;
      currentToken := "";
      tokenExpiresAtMs := 0;
    }

    /** `resolve_token` */
    method ResolveToken(answer: Answer) returns (result: int)
      requires answer.Defined()
      modifies this
      ensures answer.Mint().Fails? ==> result == ERROR_INVALID_API_KEY &&
                                       tokenExpiresAtMs == old(tokenExpiresAtMs) && currentToken == old(currentToken)
      ensures answer.Mint().Mints? ==> result == SUCCESS &&
                                       tokenExpiresAtMs == answer.Mint().expiry && currentToken == answer.token
      // the provider's own expiry comes first, then the token's claim
      ensures result == if answer.code == 0 && answer.token != "" then 0 else ERROR_INVALID_API_KEY
      ensures result == 0 && answer.expiresAtMs > 0 ==> tokenExpiresAtMs == answer.expiresAtMs
      ensures result == 0 && answer.expiresAtMs <= 0 ==> Some(tokenExpiresAtMs) == Jwt.ExpiryOf(answer.token)
    {
      if answer.code != SUCCESS || answer.token == "" { return ERROR_INVALID_API_KEY; }
      var expiresAt := answer.expiresAtMs;
      if expiresAt <= 0 {
        var ms := Jwt.ExpiryFromJwt(answer.token);
        expiresAt := ms.value;
      }
      currentToken := answer.token;
      tokenExpiresAtMs := expiresAt;
      return SUCCESS;
    }

    /** Step 0 of `oddsockets_connect`: a fresh token before every connect, however long the old one lives. */
    method MintForConnect(now: int, answer: Answer) returns (result: int)
      requires answer.Defined()
      modifies this
      ensures tokenExpiresAtMs == Step(old(tokenExpiresAtMs), Lead(refreshLeadMs), Connect(now, answer.Mint(), now))
      ensures result == SUCCESS <==> answer.code == 0 && answer.token != ""
      ensures currentToken == if result == SUCCESS then answer.token else old(currentToken)
    {
      result := ResolveToken(answer);
    }

    /** `maybe_refresh_token`, at the time `now`; `answer` is what the provider says if it is asked. */
    method MaybeRefresh(now: int, answer: Answer) returns (notice: Notice)
      requires answer.Defined()
      modifies this
      ensures tokenExpiresAtMs == AfterPump(old(tokenExpiresAtMs), Lead(refreshLeadMs), now, answer.Mint())
      ensures notice == if !Due(old(tokenExpiresAtMs), Lead(refreshLeadMs), now) then Silent
                        else if answer.Mint().Fails? then RefreshFailed else Refreshed(tokenExpiresAtMs)
      ensures currentToken == if notice.Refreshed? then answer.token else old(currentToken)
      // the provider is asked from `lead` ms before a known expiry on, 120 s if none is configured
      ensures notice.Silent? <==>
              old(tokenExpiresAtMs) <= 0 ||
              now < old(tokenExpiresAtMs) - (if refreshLeadMs > 0 then refreshLeadMs else 120_000)
      ensures notice.RefreshFailed? ==> tokenExpiresAtMs == 0 && (answer.code != 0 || answer.token == "")
      ensures notice.Silent? ==> tokenExpiresAtMs == old(tokenExpiresAtMs)
      ensures notice.Refreshed? ==> notice.expiresAt == tokenExpiresAtMs && answer.code == 0 && answer.token != ""
    {
      if tokenExpiresAtMs <= 0 { return Silent; }
      var lead := if refreshLeadMs > 0 then refreshLeadMs else DEFAULT_LEAD_MS;
      if now < tokenExpiresAtMs - lead { return Silent; }
      var result := ResolveToken(answer);
      if result == SUCCESS {
        return Refreshed(tokenExpiresAtMs);
      }
      tokenExpiresAtMs := 0;
      return RefreshFailed;
    }
  }

  function AfterPump(expiry: int, lead: int, now: int, mint: Mint): int {
    if !Due(expiry, lead, now) then expiry
    else if mint.Fails? then 0
    else mint.expiry
  }

  // ---------------------------------------------------------------- runs

  /** A pump or a connect; it starts at `now`, and a mint it makes is over at `end`. */
  datatype Event = Pump(now: int, mint: Mint, end: int) | Connect(now: int, mint: Mint, end: int)

  function Step(expiry: int, lead: int, e: Event): int {
    match e
    case Pump(now, mint, _) => AfterPump(expiry, lead, now, mint)
    case Connect(_, mint, _) => if mint.Fails? then expiry else mint.expiry
  }

  /** The stored expiry before event `k`. */
  function ExpiryBefore(initial: int, lead: int, run: seq<Event>, k: nat): int
    requires k <= |run|
  {
    if k == 0 then initial else Step(ExpiryBefore(initial, lead, run, k - 1), lead, run[k - 1])
  }

  /** Event `k` is a pump that asks the provider. */
  predicate Attempts(initial: int, lead: int, run: seq<Event>, k: nat)
    requires k < |run|
  {
    run[k].Pump? && Due(ExpiryBefore(initial, lead, run, k), lead, run[k].now)
  }

  /** The clock never goes back. */
  ghost predicate Monotone(run: seq<Event>) {
    (forall k :: 0 <= k < |run| ==> run[k].now <= run[k].end) &&
    (forall k :: 0 < k < |run| ==> run[k - 1].end <= run[k].now)
  }

  /** Whenever the provider mints, the token has an unknown expiry or at least `life` ms to live. */
  ghost predicate LongLived(run: seq<Event>, life: int) {
    forall k :: 0 <= k < |run| && run[k].mint.Mints? ==> run[k].mint.expiry == 0 || run[k].mint.expiry >= run[k].end + life
  }

  lemma {:induction false} NowGrows(run: seq<Event>, i: nat, k: nat)
    requires Monotone(run) && i <= k < |run|
    ensures run[i].now <= run[k].now && (i < k ==> run[i].end <= run[k].now)
    decreases k
  {
    if i < k { NowGrows(run, i, k - 1); }
  }

  /** From an attempt on, the stored expiry is unknown or at least one life away from it. */
  lemma {:induction false} ExpiryAfterAttempt(initial: int, lead: int, run: seq<Event>, life: int, i: nat, k: nat)
    requires Monotone(run) && LongLived(run, life) && i < k <= |run| && Attempts(initial, lead, run, i)
    ensures var x := ExpiryBefore(initial, lead, run, k); x <= 0 || x >= run[i].now + life
    decreases k
  {
    NowGrows(run, i, k - 1);
    if i < k - 1 {
      ExpiryAfterAttempt(initial, lead, run, life, i, k - 1);
    }
  }

  /** Two pump-driven mint attempts are at least life - lead apart, whatever connects happen between them. */
  lemma AttemptsAreApart(initial: int, lead: int, run: seq<Event>, life: int, i: nat, j: nat)
    requires Monotone(run) && LongLived(run, life) && i < j < |run|
    requires Attempts(initial, lead, run, i) && Attempts(initial, lead, run, j)
    ensures run[j].now - run[i].now >= life - lead
  {
    ExpiryAfterAttempt(initial, lead, run, life, i, j);
  }

  /** Number of attempts from `from` on, up to `to`, at times of at most `limit`. */
  function AttemptCount(initial: int, lead: int, run: seq<Event>, from: nat, to: nat): nat
    requires from <= to <= |run|
    decreases |run| - from
  {
    if from == to then 0
    else (if Attempts(initial, lead, run, from) then 1 else 0) + AttemptCount(initial, lead, run, from + 1, to)
  }

  /** Any stretch of the run has at most 1 + T/(life - lead) attempts, T being the time it spans. */
  lemma {:induction false} AttemptsPerWindow(initial: int, lead: int, run: seq<Event>, life: int, from: nat, to: nat)
    requires Monotone(run) && LongLived(run, life) && life > lead && from < to <= |run|
    ensures var n := AttemptCount(initial, lead, run, from, to);
            (n - 1) * (life - lead) <= run[to - 1].now - run[from].now
    ensures AttemptCount(initial, lead, run, from, to) <=
            1 + (run[to - 1].now - run[from].now) / (life - lead)
  {
    NowGrows(run, from, to - 1);
    var first := FirstAttempt(initial, lead, run, from, to);
    if first < to {
      NowGrows(run, from, first);
      CountFromAttempt(initial, lead, run, life, first, to);
    }
    var n: int := AttemptCount(initial, lead, run, from, to);
    hide AttemptCount, ExpiryBefore;
    DivBound(n - 1, life - lead, run[to - 1].now - run[from].now);
  }

  lemma DivBound(n: int, g: int, t: int)
    requires g > 0 && t >= 0 && n * g <= t
    ensures n <= t / g
  {
    var q := t / g;
    assert q * g + g > t;
    SignOf(q + 1 - n, g);
  }

  lemma SignOf(d: int, g: int)
    requires g > 0 && d * g > 0
    ensures d > 0
  {
  }

  lemma {:induction false} FirstAttempt(initial: int, lead: int, run: seq<Event>, from: nat, to: nat) returns (first: nat)
    requires from <= to <= |run|
    ensures from <= first <= to && (first < to ==> Attempts(initial, lead, run, first))
    ensures AttemptCount(initial, lead, run, from, to) == AttemptCount(initial, lead, run, first, to)
    decreases |run| - from
  {
    first := from;
    if from < to && !Attempts(initial, lead, run, from) {
      first := FirstAttempt(initial, lead, run, from + 1, to);
    }
  }

  lemma {:induction false} CountFromAttempt(initial: int, lead: int, run: seq<Event>, life: int, i: nat, to: nat)
    requires Monotone(run) && LongLived(run, life) && life > lead && i < to <= |run|
    requires Attempts(initial, lead, run, i)
    ensures (AttemptCount(initial, lead, run, i, to) - 1) * (life - lead) <= run[to - 1].now - run[i].now
    decreases |run| - i
  {
    hide Attempts, ExpiryBefore, LongLived;
    NowGrows(run, i, to - 1);
    var next := FirstAttempt(initial, lead, run, i + 1, to);
    if next < to {
      AttemptsAreApart(initial, lead, run, life, i, next);
      CountFromAttempt(initial, lead, run, life, next, to);
      OneMore(AttemptCount(initial, lead, run, next, to), life - lead, run[to - 1].now - run[next].now,
              run[next].now - run[i].now);
    }
  }

  lemma OneMore(n: int, g: int, t: int, u: int)
    requires (n - 1) * g <= t && g <= u
    ensures (1 + n - 1) * g <= t + u
  {
    assert n * g == (n - 1) * g + g;
  }

  // ---------------------------------------------------------------- never expired

  /** The provider always succeeds at once with a known expiry, and something happens at least every
      `lead` ms. */
  ghost predicate Attentive(run: seq<Event>, lead: int, life: int) {
    (forall k :: 0 <= k < |run| ==> run[k].mint.Mints? && run[k].mint.expiry >= run[k].now + life && run[k].end == run[k].now) &&
    (forall k :: 0 < k < |run| ==> run[k - 1].now <= run[k].now <= run[k - 1].now + lead)
  }

  /** After each event of a run that starts with a connect, the token outlives the lead. */
  lemma {:induction false} OutlivesLead(initial: int, lead: int, run: seq<Event>, life: int, k: nat)
    requires Attentive(run, lead, life) && life > lead > 0 && run != [] && run[0].Connect? && run[0].now >= 0
    requires 0 < k <= |run|
    ensures ExpiryBefore(initial, lead, run, k) > run[k - 1].now + lead && run[k - 1].now >= 0
    decreases k
  {
    if k > 1 { OutlivesLead(initial, lead, run, life, k - 1); }
  }

  /** So the stored token is live at every event and at every time in between. */
  lemma NeverExpired(initial: int, lead: int, run: seq<Event>, life: int, k: nat, t: int)
    requires Attentive(run, lead, life) && life > lead > 0 && run != [] && run[0].Connect? && run[0].now >= 0
    requires 0 < k < |run| && run[k - 1].now <= t <= run[k].now
    ensures t < ExpiryBefore(initial, lead, run, k)
  {
    OutlivesLead(initial, lead, run, life, k);
  }

  /** The bound on the life is needed: with life <= lead every single pump asks for a new token. */
  lemma {:induction false} ShortLifeMintsEveryPump(initial: int, lead: int, run: seq<Event>, life: int, k: nat)
    requires lead >= life > 0 && 0 < k < |run| && run[0].Connect? && run[0].now >= 0
    requires forall i :: 0 <= i < |run| ==> run[i].mint == Mints(run[i].now + life) && run[i].now == run[i].end
    requires Monotone(run)
    ensures run[k].Pump? ==> Attempts(initial, lead, run, k)
  {
    var x := LatestMint(initial, lead, run, life, k);
    NowGrows(run, 0, x);
    NowGrows(run, x, k);
  }

  lemma {:induction false} LatestMint(initial: int, lead: int, run: seq<Event>, life: int, k: nat) returns (x: nat)
    requires lead >= life > 0 && 0 < k <= |run| && run[0].Connect?
    requires forall i :: 0 <= i < |run| ==> run[i].mint == Mints(run[i].now + life)
    ensures x < k && ExpiryBefore(initial, lead, run, k) == run[x].now + life
    decreases k
  {
    x := k - 1;
    if k > 1 {
      var y := LatestMint(initial, lead, run, life, k - 1);
      if run[k - 1].Pump? && !Due(ExpiryBefore(initial, lead, run, k - 1), lead, run[k - 1].now) { x := y; }
    }
  }

  // ---------------------------------------------------------------- failed refreshes

  /** After a failed refresh no pump asks again before a connect has minted a token. */
  lemma {:induction false} FailureSilences(initial: int, lead: int, run: seq<Event>, i: nat, j: nat) returns (c: nat)
    requires i < j < |run| && Attempts(initial, lead, run, i) && run[i].mint.Fails? && Attempts(initial, lead, run, j)
    ensures i < c < j && run[c].Connect? && run[c].mint.Mints?
  {
    c := SomeConnect(initial, lead, run, i, j);
  }

  lemma {:induction false} SomeConnect(initial: int, lead: int, run: seq<Event>, i: nat, k: nat) returns (c: nat)
    requires i < k <= |run| && Attempts(initial, lead, run, i) && run[i].mint.Fails?
    requires ExpiryBefore(initial, lead, run, k) != 0
    ensures i < c < k && run[c].Connect? && run[c].mint.Mints?
    decreases k
  {
    if run[k - 1].Connect? && run[k - 1].mint.Mints? {
      c := k - 1;
    } else {
      c := SomeConnect(initial, lead, run, i, k - 1);
    }
  }

  // ---------------------------------------------------------------- from the claim to the refresh

  /** A provider that leaves the expiry to the token: the pump asks again exactly from `lead` ms before
      the claimed expiry on. */
  lemma RefreshFollowsClaim(token: string, h: string, p: string, pad: string, rest: string,
                            i: nat, mid: string, pre: string, n: nat, lead: int, now: int)
    requires Jwt.IsToken(token, h, p, pad, rest) && Jwt.Claims(p, i, mid, pre, n) && Jwt.InRange(n) && 0 < n
    ensures var answer := Answer(SUCCESS, token, 0);
            answer.Defined() && answer.Mint() == Mints(1000 * n) &&
            (Due(answer.Mint().expiry, lead, now) <==> now >= 1000 * n - lead)
  {
    Jwt.ExpiryIsClaim(token, h, p, pad, rest, i, mid, pre, n);
    assert token != "";
  }
}
