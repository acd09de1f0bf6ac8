/**
 * The search page (app/search/page.tsx): the state the page keeps, the
 * `searchUser` flow over the profile cache in local storage and the two relay
 * endpoints, the cooldown after a rate-limit refusal and its countdown.
 *
 * The clock, local storage and the network are explicit: `Date.now()` is a
 * parameter (one per reading), local storage is a `LocalStorage` object, and
 * each endpoint's answer is an abstract `Response`.
 */
module Search {
  import opened Wrappers
  import opened GitHub
  import opened Storage
  import Seqs

  /** A cached profile lives for ten minutes. */
  const CacheTtlMillis: int := 10 * 60 * 1000

  const RateLimitMessage: string := "API rate limit exceeded. Please wait before making another request."
  const UserNotFoundMessage: string := "User not found"
  const ReposFailedMessage: string := "Failed to fetch repositories"

  /** Below this many remaining requests the page shows a rate-limit alert. */
  const LowRemaining: int := 10

  /** `rateLimitInfo`: remaining requests and the reset instant in milliseconds. */
  datatype RateLimit = RateLimit(remaining: int, reset: int)

  /**
   * What `fetch` of a relay endpoint yields once its JSON body is parsed:
   * `Ok` when `response.ok`, with the decoded body; `Failed` otherwise, with
   * the status and the body's `error` field. The two rate-limit headers are
   * `None` when absent.
   */
  datatype Response<T> =
    | Ok(remaining: Option<int>, reset: Option<int>, body: T)
    | Failed(status: int, remaining: Option<int>, reset: Option<int>, error: Option<string>)

  /** The page's React state that `searchUser` touches. */
  datatype View = View(
    user: Option<User>,
    repos: seq<Repo>,
    loading: bool,
    error: Option<string>,
    rateLimitInfo: Option<RateLimit>,
    cooldownTime: Option<int>,
    showCharts: bool)

  /** The outcome of one search: the new state, the new storage, the endpoints requested in order. */
  datatype Step = Step(view: View, store: map<string, Stored>, requests: seq<string>)

  function CacheKey(username: string): string
  {
    "github-user-" + username
  }

  function ExpiryKey(username: string): string
  {
    CacheKey(username) + "-expiry"
  }

  function UserPath(username: string): string
  {
    "/api/github/user/" + username
  }

  function ReposPath(username: string): string
  {
    "/api/github/repos/" + username
  }

  /** The characters `String.prototype.trim` removes: white space and line terminators. */
  predicate IsTrimmed(c: char)
  {
    c == '\t' || c == '\n' || c == '\U{B}' || c == '\U{C}' || c == '\r' || c == ' '
    || c == '\U{A0}' || c == '\U{1680}' || ('\U{2000}' <= c <= '\U{200A}')
    || c == '\U{2028}' || c == '\U{2029}' || c == '\U{202F}' || c == '\U{205F}'
    || c == '\U{3000}' || c == '\U{FEFF}'
  }

  /** `!username.trim()`: empty or white space only. */
  predicate IsBlank(s: string)
  {
    forall i :: 0 <= i < |s| ==> IsTrimmed(s[i])
  }

  /** `!!cooldownTime`: set and not 0 (a 403 without a reset header stores 0). */
  predicate Truthy(cooldown: Option<int>)
  {
    cooldown.Some? && cooldown.value != 0
  }

  /** `body.error || fallback`. */
  function ErrorText(error: Option<string>, fallback: string): string
  {
    if error.Some? && error.value != "" then error.value else fallback
  }

  /** `rateLimitInfo` after reading the headers of a response: replaced only when both are present. */
  function RateLimitAfter<T>(info: Option<RateLimit>, r: Response<T>): Option<RateLimit>
  {
    if r.remaining.Some? && r.reset.Some? then Some(RateLimit(r.remaining.value, r.reset.value * 1000)) else info
  }

  /** `Number.parseInt(reset || "0") * 1000`. */
  function ResetMillis(reset: Option<int>): int
  {
    (if reset.Some? then reset.value else 0) * 1000
  }

  // ---------------------------------------------------------------------
  // Cache lookup

  /**
   * The cache test as the page writes it: `cached && cacheExpiry &&
   * Date.now() < Number.parseInt(cacheExpiry)`. Whatever value sits under the
   * cache key is taken as the cached `{user, repos}` object. An expiry that is
   * not a number string parses to NaN and never compares as later.
   */
  function LookupAsWritten(store: map<string, Stored>, username: string, now: int): Option<Stored>
  {
    if CacheKey(username) in store && ExpiryKey(username) in store
       && store[ExpiryKey(username)].MillisText? && now < store[ExpiryKey(username)].ms
    then Some(store[CacheKey(username)])
    else None
  }

  /**
   * The cache test the model uses: the same test, which in addition accepts
   * only a cached profile under the cache key.
   */
  function CachedProfile(store: map<string, Stored>, username: string, now: int): (r: Option<(User, seq<Repo>)>)
    ensures r.Some? <==> LookupAsWritten(store, username, now).Some? && LookupAsWritten(store, username, now).value.ProfileJson?
    ensures r.Some? ==> store[CacheKey(username)] == ProfileJson(r.value.0, r.value.1)
    ensures r.Some? ==>
      ExpiryKey(username) in store && store[ExpiryKey(username)].MillisText? && now < store[ExpiryKey(username)].ms
  {
    match LookupAsWritten(store, username, now)
    case Some(ProfileJson(user, repos)) => Some((user, repos))
    case _ => None
  }

  /**
   * The cache key of a username that ends in "-expiry" is the expiry key of
   * the username without that suffix. Fetch "a-expiry", then "a": the second
   * write-through puts a's expiry timestamp under the cache key of
   * "a-expiry", whose own expiry is still in the future. Searching "a-expiry"
   * again then passes the page's cache test on that timestamp, and the page
   * would take the `user` and `repos` fields of a number (both undefined);
   * the model's test treats it as a miss.
   */
  lemma ExpiryKeyCollision(v: View, user: User, repos: seq<Repo>, t1: int, t2: int, t3: int)
    requires t2 < t1 + CacheTtlMillis && t3 < t1 + CacheTtlMillis
    ensures CacheKey("a-expiry") == ExpiryKey("a")
    ensures var first := Search(v, map[], "a-expiry", t1, t1, Ok(None, None, user), Ok(None, None, repos));
      var second := Search(first.view, first.store, "a", t2, t2, Ok(None, None, user), Ok(None, None, repos));
      && second.requests == [UserPath("a"), ReposPath("a")]
      && LookupAsWritten(second.store, "a-expiry", t3) == Some(MillisText(t2 + CacheTtlMillis))
      && CachedProfile(second.store, "a-expiry", t3) == None
  {
    assert !IsBlank("a-expiry") by { assert !IsTrimmed("a-expiry"[0]); }
    assert !IsBlank("a") by { assert !IsTrimmed("a"[0]); }
    var first := WriteThrough(map[], "a-expiry", user, repos, t1);
    assert CacheKey("a") !in first by {
      assert |CacheKey("a")| != |CacheKey("a-expiry")| && |CacheKey("a")| != |ExpiryKey("a-expiry")|;
    }
    assert ExpiryKey("a-expiry") != CacheKey("a") && ExpiryKey("a-expiry") != ExpiryKey("a") by {
      assert |ExpiryKey("a-expiry")| != |CacheKey("a")| && |ExpiryKey("a-expiry")| != |ExpiryKey("a")|;
    }
  }

  /** The write-through after a successful fetch: the profile, then its expiry ten minutes after `now`. */
  function WriteThrough(store: map<string, Stored>, username: string, user: User, repos: seq<Repo>, now: int)
    : (r: map<string, Stored>)
    ensures CacheKey(username) in r && r[CacheKey(username)] == ProfileJson(user, repos)
    ensures ExpiryKey(username) in r && r[ExpiryKey(username)] == MillisText(now + CacheTtlMillis)
    ensures forall k :: k != CacheKey(username) && k != ExpiryKey(username) ==>
      (k in r <==> k in store) && (k in store ==> r[k] == store[k])
  {
    assert |CacheKey(username)| != |ExpiryKey(username)|;
    store[CacheKey(username) := ProfileJson(user, repos)][ExpiryKey(username) := MillisText(now + CacheTtlMillis)]
  }

  // ---------------------------------------------------------------------
  // One run of `searchUser`

  /**
   * `searchUser` from start to end. `now` is the clock reading of the cache
   * test and `later` the one taken after both responses arrived, when the
   * expiry is written. `userResp` and `reposResp` are what the two endpoints
   * answer if asked; `requests` says which were asked.
   */
  function Search(v: View, store: map<string, Stored>, username: string, now: int, later: int,
                  userResp: Response<User>, reposResp: Response<seq<Repo>>): (s: Step)
    // A blank username changes nothing and asks nothing.
    ensures IsBlank(username) ==> s == Step(v, store, [])
    // Otherwise the run ends with loading off and the charts hidden.
    ensures !IsBlank(username) ==> !s.view.loading && !s.view.showCharts
    // A cache hit shows the cached pair, clears the error, asks nothing and writes nothing.
    ensures !IsBlank(username) && CachedProfile(store, username, now).Some? ==>
      && s.requests == [] && s.store == store
      && s.view.user == Some(CachedProfile(store, username, now).value.0)
      && s.view.repos == CachedProfile(store, username, now).value.1
      && s.view.error == None
      && s.view.rateLimitInfo == v.rateLimitInfo && s.view.cooldownTime == v.cooldownTime
    // On a miss the user endpoint is asked first and the repos endpoint only after the user request succeeded;
    // the rate-limit state is replaced from the user response's headers only, and only when both are present.
    ensures !IsBlank(username) && CachedProfile(store, username, now).None? ==>
      && s.requests == (if userResp.Ok? then [UserPath(username), ReposPath(username)] else [UserPath(username)])
      && s.view.rateLimitInfo ==
           (if userResp.remaining.Some? && userResp.reset.Some?
            then Some(RateLimit(userResp.remaining.value, userResp.reset.value * 1000))
            else v.rateLimitInfo)
    // Any failure leaves storage alone, shows no user and no repositories, and sets an error.
    ensures !IsBlank(username) && CachedProfile(store, username, now).None? && (userResp.Failed? || reposResp.Failed?) ==>
      s.store == store && s.view.user == None && s.view.repos == [] && s.view.error.Some?
    // A 403 on the user request starts a cooldown at the reset instant (0 without the header).
    ensures !IsBlank(username) && CachedProfile(store, username, now).None? && userResp.Failed? && userResp.status == 403 ==>
      s.view.error == Some(RateLimitMessage) && s.view.cooldownTime == Some(ResetMillis(userResp.reset))
    ensures !IsBlank(username) && CachedProfile(store, username, now).None? && userResp.Failed? && userResp.status != 403 ==>
      s.view.error == Some(ErrorText(userResp.error, UserNotFoundMessage)) && s.view.cooldownTime == v.cooldownTime
    ensures !IsBlank(username) && CachedProfile(store, username, now).None? && userResp.Ok? && reposResp.Failed? ==>
      s.view.error == Some(ErrorText(reposResp.error, ReposFailedMessage)) && s.view.cooldownTime == v.cooldownTime
    // Success shows both bodies and writes them through with a ten-minute expiry from `later`.
    ensures !IsBlank(username) && CachedProfile(store, username, now).None? && userResp.Ok? && reposResp.Ok? ==>
      && s.store == WriteThrough(store, username, userResp.body, reposResp.body, later)
      && s.view.user == Some(userResp.body) && s.view.repos == reposResp.body
      && s.view.error == None && s.view.cooldownTime == v.cooldownTime
  {
    if IsBlank(username) then Step(v, store, [])
    else
      var cleared := v.(loading := true, error := None, user := None, repos := [], showCharts := false);
      match CachedProfile(store, username, now)
      case Some((user, repos)) =>
        Step(cleared.(user := Some(user), repos := repos, loading := false), store, [])
      case None => Fetched(cleared, store, username, later, userResp, reposResp)
  }

  /**
   * The `try` block after a cache miss, from the already cleared state: the
   * user request, then the repos request only if the first succeeded, then
   * the write-through.
   */
  function Fetched(cleared: View, store: map<string, Stored>, username: string, later: int,
                   userResp: Response<User>, reposResp: Response<seq<Repo>>): Step
  {
    var limited := cleared.(rateLimitInfo := RateLimitAfter(cleared.rateLimitInfo, userResp));
    match userResp
    case Failed(status, _, reset, error) =>
      if status == 403 then
        Step(limited.(cooldownTime := Some(ResetMillis(reset)), error := Some(RateLimitMessage), loading := false),
             store, [UserPath(username)])
      else
        Step(limited.(error := Some(ErrorText(error, UserNotFoundMessage)), loading := false),
             store, [UserPath(username)])
    case Ok(_, _, user) =>
      match reposResp
      case Failed(_, _, _, error) =>
        Step(limited.(error := Some(ErrorText(error, ReposFailedMessage)), loading := false),
             store, [UserPath(username), ReposPath(username)])
      case Ok(_, _, repos) =>
        Step(limited.(user := Some(user), repos := repos, loading := false),
             WriteThrough(store, username, user, repos, later), [UserPath(username), ReposPath(username)])
  }

  /** A blank search reads neither storage nor the network: its outcome is the same whatever they hold. */
  lemma BlankIgnoresStorageAndNetwork(v: View, username: string, store1: map<string, Stored>, store2: map<string, Stored>,
                                      now: int, later: int, u1: Response<User>, u2: Response<User>,
                                      r1: Response<seq<Repo>>, r2: Response<seq<Repo>>)
    requires IsBlank(username)
    ensures Search(v, store1, username, now, later, u1, r1).view == Search(v, store2, username, now, later, u2, r2).view
    ensures Search(v, store1, username, now, later, u1, r1).requests == []
  {
  }

  /**
   * Within ten minutes of a successful search, searching the same username
   * again is a cache hit: no request, the same user and repositories.
   */
  lemma SearchAgainHitsCache(v: View, store: map<string, Stored>, username: string, now: int, later: int,
                             userResp: Response<User>, reposResp: Response<seq<Repo>>,
                             v2: View, now2: int, later2: int, userResp2: Response<User>, reposResp2: Response<seq<Repo>>)
    requires !IsBlank(username)
    requires CachedProfile(store, username, now).None? && userResp.Ok? && reposResp.Ok?
    requires now2 < later + CacheTtlMillis
    ensures var first := Search(v, store, username, now, later, userResp, reposResp);
      var second := Search(v2, first.store, username, now2, later2, userResp2, reposResp2);
      && second.requests == []
      && second.view.user == first.view.user && second.view.repos == first.view.repos
      && second.store == first.store
  {
    var w := WriteThrough(store, username, userResp.body, reposResp.body, later);
    assert CacheKey(username) != ExpiryKey(username) by {
      assert |ExpiryKey(username)| != |CacheKey(username)|;
    }
    assert CachedProfile(w, username, now2) == Some((userResp.body, reposResp.body));
  }

  /** An entry whose expiry has passed is ignored: the search goes to the network. */
  lemma ExpiredEntryIsRefetched(v: View, store: map<string, Stored>, username: string, now: int, later: int,
                                userResp: Response<User>, reposResp: Response<seq<Repo>>)
    requires !IsBlank(username)
    requires ExpiryKey(username) in store && store[ExpiryKey(username)].MillisText?
    requires store[ExpiryKey(username)].ms <= now
    ensures Search(v, store, username, now, later, userResp, reposResp).requests[0] == UserPath(username)
  {
  }

  // ---------------------------------------------------------------------
  // Submission, alerts and the cooldown countdown

  /** The search button: `disabled={loading || !username.trim() || !!cooldownTime}`. */
  predicate SubmitEnabled(loading: bool, username: string, cooldown: Option<int>)
  {
    !loading && !IsBlank(username) && !Truthy(cooldown)
  }

  /** The username input: `disabled={loading || !!cooldownTime}`. */
  predicate InputEnabled(loading: bool, cooldown: Option<int>)
  {
    !loading && !Truthy(cooldown)
  }

  /** The alert `rateLimitInfo && rateLimitInfo.remaining < 10`. */
  predicate ShowsRateLimitWarning(info: Option<RateLimit>)
  {
    info.Some? && info.value.remaining < LowRemaining
  }

  /**
   * After a search that went to the network, the alert reflects the user
   * response's remaining count when it carried both headers, and is as before
   * otherwise; a cache hit leaves it as it was.
   */
  lemma RateLimitWarningAfterSearch(v: View, store: map<string, Stored>, username: string, now: int, later: int,
                                    userResp: Response<User>, reposResp: Response<seq<Repo>>)
    ensures var s := Search(v, store, username, now, later, userResp, reposResp);
      ShowsRateLimitWarning(s.view.rateLimitInfo) <==>
        if !IsBlank(username) && CachedProfile(store, username, now).None?
           && userResp.remaining.Some? && userResp.reset.Some?
        then userResp.remaining.value < LowRemaining
        else ShowsRateLimitWarning(v.rateLimitInfo)
  {
    var s := Search(v, store, username, now, later, userResp, reposResp);
    if !IsBlank(username) && CachedProfile(store, username, now).None? {
      assert s.view.rateLimitInfo == RateLimitAfter(v.rateLimitInfo, userResp);
    }
  }

  /**
   * After a 403 that carried a non-zero reset header the button and the input
   * are disabled; without the header the cooldown is 0, which disables neither.
   */
  lemma RateLimitRefusalDisablesSubmit(v: View, store: map<string, Stored>, username: string, now: int, later: int,
                                       userResp: Response<User>, reposResp: Response<seq<Repo>>, typed: string)
    requires !IsBlank(username) && CachedProfile(store, username, now).None?
    requires userResp.Failed? && userResp.status == 403
    ensures var s := Search(v, store, username, now, later, userResp, reposResp);
      && (SubmitEnabled(s.view.loading, typed, s.view.cooldownTime) <==>
            !IsBlank(typed) && (userResp.reset.None? || userResp.reset.value == 0))
      && (InputEnabled(s.view.loading, s.view.cooldownTime) <==>
            userResp.reset.None? || userResp.reset.value == 0)
  {
  }

  /** `Math.max(0, Math.ceil((cooldownTime - now) / 1000))`: whole seconds left, rounded up. */
  function RemainingSeconds(cooldown: int, now: int): (r: nat)
    ensures r * 1000 >= cooldown - now
    ensures r > 0 ==> (r - 1) * 1000 < cooldown - now
  {
    if cooldown - now <= 0 then 0 else (cooldown - now + 999) / 1000
  }

  /** `getCooldownDisplay`: `minutes:ss`, or null when no cooldown is set. */
  function CooldownDisplay(cooldown: Option<int>, now: int): (r: Option<string>)
    ensures r.Some? <==> Truthy(cooldown)
  {
    if !Truthy(cooldown) then None
    else
      var remaining := RemainingSeconds(cooldown.value, now);
      Some(Seqs.DecimalText(remaining / 60) + ":" + Seqs.PadTwo(Seqs.DecimalText(remaining % 60)))
  }

  /**
   * The countdown reads back as the remaining seconds: it is two fields
   * around one colon, the second of exactly two digits below 60, and
   * minutes * 60 + seconds is the number of seconds left.
   */
  lemma {:induction false} CooldownDisplayReadsBack(cooldown: Option<int>, now: int)
    requires Truthy(cooldown)
    ensures var parts := Seqs.Split(CooldownDisplay(cooldown, now).value, ':');
      && |parts| == 2 && |parts[1]| == 2
      && (forall i :: 0 <= i < |parts[0]| ==> Seqs.IsDigit(parts[0][i]))
      && (forall i :: 0 <= i < |parts[1]| ==> Seqs.IsDigit(parts[1][i]))
      && |parts[0]| >= 1 && (parts[0][0] == '0' ==> parts[0] == "0")
      && Seqs.ParseDecimal(parts[1]) < 60
      && Seqs.ParseDecimal(parts[0]) * 60 + Seqs.ParseDecimal(parts[1]) == RemainingSeconds(cooldown.value, now)
  {
    var remaining := RemainingSeconds(cooldown.value, now);
    var minutes := Seqs.DecimalText(remaining / 60);
    var seconds := Seqs.PadTwo(Seqs.DecimalText(remaining % 60));
    assert CooldownDisplay(cooldown, now).value == Seqs.Join([minutes, seconds], ':');
    assert forall i :: 0 <= i < |seconds| ==> Seqs.IsDigit(seconds[i]);
    Seqs.SplitJoin([minutes, seconds], ':');
    Seqs.DecimalRoundTrip(remaining / 60);
    Seqs.DecimalRoundTrip(remaining % 60);
    if remaining % 60 < 10 {
      assert seconds == "0" + Seqs.DecimalText(remaining % 60);
      assert seconds[..1] == "0";
    }
  }

  /**
   * The cooldown ticker as written: the effect starts the one-second interval
   * only when the cooldown lies in the future at the moment the effect runs
   * (`effectAt`); a tick at `tickAt` clears a cooldown that has passed.
   */
  function CooldownAfterTickAsWritten(cooldown: Option<int>, effectAt: int, tickAt: int): Option<int>
  {
    if Truthy(cooldown) && cooldown.value > effectAt && cooldown.value <= tickAt then None else cooldown
  }

  /**
   * A cooldown that is already over when it is set (a reset header at or
   * before the client's clock) never starts the interval, so it is never
   * cleared and the search button and the input stay disabled however late it gets.
   */
  lemma PastCooldownIsNeverCleared(cooldown: Option<int>, effectAt: int, tickAt: int, typed: string)
    requires Truthy(cooldown) && cooldown.value <= effectAt
    ensures CooldownAfterTickAsWritten(cooldown, effectAt, tickAt) == cooldown
    ensures !SubmitEnabled(false, typed, CooldownAfterTickAsWritten(cooldown, effectAt, tickAt))
    ensures !InputEnabled(false, CooldownAfterTickAsWritten(cooldown, effectAt, tickAt))
    ensures cooldown.value <= tickAt ==> CooldownAfterTick(cooldown, tickAt) == None
  {
  }

  /** The clearing rule the model uses: a set cooldown is cleared as soon as it is not in the future. */
  function CooldownAfterTick(cooldown: Option<int>, now: int): (r: Option<int>)
    ensures Truthy(r) ==> r == cooldown && cooldown.value > now
    ensures Truthy(cooldown) && cooldown.value > now ==> r == cooldown
  {
    if Truthy(cooldown) && cooldown.value <= now then None else cooldown
  }

  /** Once the clock reaches the cooldown, a tick re-enables the input and the button (for a non-blank username, not loading). */
  lemma TickReenablesSubmit(cooldown: Option<int>, now: int, typed: string)
    requires Truthy(cooldown) && cooldown.value <= now && !IsBlank(typed)
    ensures SubmitEnabled(false, typed, CooldownAfterTick(cooldown, now))
    ensures InputEnabled(false, CooldownAfterTick(cooldown, now))
  {
  }

  // ---------------------------------------------------------------------
  // The page object

  class SearchPage {
    var username: string
    var user: Option<User>
    var repos: seq<Repo>
    var loading: bool
    var error: Option<string>
    var rateLimitInfo: Option<RateLimit>
    var cooldownTime: Option<int>
    var showCharts: bool
    const storage: LocalStorage

    function State(): View
      reads this
    {
      View(user, repos, loading, error, rateLimitInfo, cooldownTime, showCharts)
    }

    /** The page as first rendered: every `useState` at its initial value. */
    constructor (storage: LocalStorage)
      ensures this.storage == storage && username == ""
      ensures State() == View(None, [], false, None, None, None, false)
    {
      this.storage := storage;
      username := "";
      user := None;
      repos := [];
      loading := false;
      error := None;
      rateLimitInfo := None;
      cooldownTime := None;
      showCharts := false;
    }

    /** The input's `onChange`. */
    method SetUsername(text: string)
      modifies this`username
      ensures username == text
    {
      username := text;
    }

    /** `searchUser`, one state update at a time. */
    method SearchUser(now: int, later: int, userResp: Response<User>, reposResp: Response<seq<Repo>>)
      returns (requests: seq<string>)
      modifies this, storage
      ensures username == old(username)
      ensures var s := Search(old(State()), old(storage.items), username, now, later, userResp, reposResp);
        State() == s.view && storage.items == s.store && requests == s.requests
    {
      ghost var v0, store0 := State(), storage.items;
      ghost var s := Search(v0, store0, username, now, later, userResp, reposResp);
      requests := [];
      if IsBlank(username) {
        return;
      }
      loading := true;
      error := None;
      user := None;
      repos := [];
      showCharts := false;
      ghost var cleared := State();

      var cached := storage.GetItem(CacheKey(username));
      var cacheExpiry := storage.GetItem(ExpiryKey(username));
      if cached.Some? && cached.value.ProfileJson? && cacheExpiry.Some? && cacheExpiry.value.MillisText?
         && now < cacheExpiry.value.ms
      {
        assert CachedProfile(store0, username, now) == Some((cached.value.user, cached.value.repos));
        user := Some(cached.value.user);
        repos := cached.value.repos;
        loading := false;
        assert s == Step(cleared.(user := Some(cached.value.user), repos := cached.value.repos, loading := false), store0, []);
        return;
      }

      assert CachedProfile(store0, username, now).None?;
      assert s == Fetched(cleared, store0, username, later, userResp, reposResp);
      requests := FetchProfile(later, userResp, reposResp);
    }

    /** The network part of `searchUser`, after a cache miss. */
    method FetchProfile(later: int, userResp: Response<User>, reposResp: Response<seq<Repo>>)
      returns (requests: seq<string>)
      modifies this, storage
      ensures username == old(username)
      ensures var s := Fetched(old(State()), old(storage.items), username, later, userResp, reposResp);
        State() == s.view && storage.items == s.store && requests == s.requests
    {
      requests := [UserPath(username)];
      if userResp.remaining.Some? && userResp.reset.Some? {
        rateLimitInfo := Some(RateLimit(userResp.remaining.value, userResp.reset.value * 1000));
      }
      if userResp.Failed? {
        if userResp.status == 403 {
          cooldownTime := Some(ResetMillis(userResp.reset));
          error := Some(RateLimitMessage);
        } else {
          error := Some(ErrorText(userResp.error, UserNotFoundMessage));
        }
        loading := false;
        return;
      }

      requests := requests + [ReposPath(username)];
      if reposResp.Failed? {
        error := Some(ErrorText(reposResp.error, ReposFailedMessage));
        loading := false;
        return;
      }

      user := Some(userResp.body);
      repos := reposResp.body;
      storage.SetItem(CacheKey(username), ProfileJson(userResp.body, reposResp.body));
      storage.SetItem(ExpiryKey(username), MillisText(later + CacheTtlMillis));
      loading := false;
    }

    /** One tick of the cooldown interval at clock reading `now`. */
    method CooldownTick(now: int)
      modifies this`cooldownTime
      ensures cooldownTime == CooldownAfterTick(old(cooldownTime), now)
    {
      if Truthy(cooldownTime) && cooldownTime.value <= now {
        cooldownTime := None;
      }
    }
  }
}
