/** The MCP transport's session table and fixed-window rate limiter. */
module Transport {
  import opened Prelude

  type Time = int            // nanoseconds

  const MINUTE: Time := 60_000_000_000
  const MAX_ID_LENGTH := 128

  datatype Rate = Rate(window: Time, count: nat)
  datatype Session = Session(credential: string, lastUsed: Time)

  // ------------------------------------------------------------ specification

  function Fresh(rates: map<string, Rate>, now: Time): map<string, Rate> {
    map id | id in rates && now - rates[id].window < MINUTE :: rates[id]
  }

  function Entry(rates: map<string, Rate>, credential: string, now: Time): Rate {
    if credential in rates && now - rates[credential].window < MINUTE then rates[credential] else Rate(now, 0)
  }

  /** One request: expired windows are forgotten; a denied request stores nothing. */
  function Admit(rates: map<string, Rate>, credential: string, now: Time, limit: nat): (map<string, Rate>, bool) {
    var e := Entry(rates, credential, now);
    if e.count >= limit then (Fresh(rates, now), false)
    else (Fresh(rates, now)[credential := Rate(e.window, e.count + 1)], true)
  }

  function Unexpired(sessions: map<string, Session>, now: Time, ttl: Time): map<string, Session> {
    map id | id in sessions && now - sessions[id].lastUsed < ttl :: sessions[id]
  }

  type Sessions = map<string, Session>

  function Opened(sessions: Sessions, id: string, credential: string, now: Time, capacity: nat, ttl: Time): (Sessions, bool) {
    var live := Unexpired(sessions, now, ttl);
    if |live| < capacity then (live[id := Session(credential, now)], true) else (live, false)
  }

  function Used(sessions: Sessions, id: string, credential: string, now: Time, ttl: Time): (Sessions, bool) {
    var live := Unexpired(sessions, now, ttl);
    if id in live && live[id].credential == credential then (live[id := Session(credential, now)], true) else (live, false)
  }

  function Closed(sessions: Sessions, id: string, credential: string): (Sessions, bool) {
    if id in sessions && sessions[id].credential == credential then (sessions - {id}, true) else (sessions, false)
  }

  // ------------------------------------------------------------ the transport

  class Server {
    const requestsPerMinute: nat
    const maxSessions: nat
    const sessionTTL: Time
    var sessions: map<string, Session>
    var rates: map<string, Rate>

    ghost predicate Valid()
      reads this
    {
      requestsPerMinute >= 1 && maxSessions >= 1 && sessionTTL >= MINUTE && |sessions| <= maxSessions
    }

    constructor (requestsPerMinute: nat, maxSessions: nat, sessionTTL: Time)
      requires requestsPerMinute >= 1 && maxSessions >= 1 && sessionTTL >= MINUTE
      ensures Valid() && sessions == map[] && rates == map[]
      ensures this.requestsPerMinute == requestsPerMinute && this.maxSessions == maxSessions && this.sessionTTL == sessionTTL
    {
      this.requestsPerMinute, this.maxSessions, this.sessionTTL := requestsPerMinute, maxSessions, sessionTTL;
      sessions, rates := map[], map[];
    }

    method AllowRequest(credential: string, now: Time) returns (ok: bool)
      requires Valid()
      modifies this`rates
      ensures Valid()
      ensures (rates, ok) == Admit(old(rates), credential, now, requestsPerMinute)
    {
      var todo := rates.Keys;
      while todo != {}
        invariant todo <= old(rates.Keys)
        invariant rates == map id | id in old(rates) && (id in todo || now - old(rates)[id].window < MINUTE) :: old(rates)[id]
        decreases |todo|
      {
        var id :| id in todo;
        if id in rates && now - rates[id].window >= MINUTE {
          rates := rates - {id};
        }
        todo := todo - {id};
      }
      assert rates == Fresh(old(rates), now);
      var entry := if credential in rates then rates[credential] else Rate(now, 0);
      if entry.count >= requestsPerMinute {
        return false;
      }
      rates := rates[credential := entry.(count := entry.count + 1)];
      ok := true;
    }

    method ExpireSessions(now: Time)
      modifies this`sessions
      ensures sessions == Unexpired(old(sessions), now, sessionTTL)
      ensures |sessions| <= |old(sessions)|
    {
      var todo := sessions.Keys;
      while todo != {}
        invariant todo <= old(sessions.Keys)
        invariant sessions == map id | id in old(sessions) && (id in todo || now - old(sessions)[id].lastUsed < sessionTTL) :: old(sessions)[id]
        decreases |todo|
      {
        var id :| id in todo;
        if id in sessions && now - sessions[id].lastUsed >= sessionTTL {
          sessions := sessions - {id};
        }
        todo := todo - {id};
      }
      SubsetSize(sessions.Keys, old(sessions).Keys);
    }

    /** id is the fresh random identifier drawn before the table is locked. */
    method NewSession(id: string, credential: string, now: Time) returns (created: bool)
      requires Valid()
      modifies this`sessions
      ensures Valid()
      ensures (sessions, created) == Opened(old(sessions), id, credential, now, maxSessions, sessionTTL)
    {
      ExpireSessions(now);
      if |sessions| >= maxSessions {
        return false;
      }
      ghost var live := sessions;
      sessions := sessions[id := Session(credential, now)];
      assert sessions.Keys == live.Keys + {id};
      created := true;
    }

    /** headers: the values of the session header of the request. */
    method ValidSession(headers: seq<string>, credential: string, now: Time) returns (ok: bool)
      requires Valid()
      modifies this`sessions
      ensures Valid()
      ensures |headers| != 1 || |headers[0]| > MAX_ID_LENGTH ==> !ok && sessions == old(sessions)
      ensures |headers| == 1 && |headers[0]| <= MAX_ID_LENGTH ==>
                (sessions, ok) == Used(old(sessions), headers[0], credential, now, sessionTTL)
    {
      if |headers| != 1 || |headers[0]| > MAX_ID_LENGTH {
        return false;
      }
      ExpireSessions(now);
      if headers[0] !in sessions || sessions[headers[0]].credential != credential {
        return false;
      }
      ghost var live := sessions;
      sessions := sessions[headers[0] := sessions[headers[0]].(lastUsed := now)];
      assert sessions.Keys == live.Keys;
      ok := true;
    }

    method DeleteSession(headers: seq<string>, credential: string) returns (found: bool)
      requires Valid()
      modifies this`sessions
      ensures Valid()
      ensures |headers| != 1 ==> !found && sessions == old(sessions)
      ensures |headers| == 1 ==> (sessions, found) == Closed(old(sessions), headers[0], credential)
    {
      if |headers| != 1 {
        return false;
      }
      found := headers[0] in sessions && sessions[headers[0]].credential == credential;
      if found {
        sessions := sessions - {headers[0]};
        SubsetSize(sessions.Keys, old(sessions).Keys);
      }
    }
  }

  // ----------------------------------------------------- rate limit over a trace

  datatype Request = Request(credential: string, at: Time)

  /** The clock never runs backwards. */
  ghost predicate InOrder(trace: seq<Request>) {
    forall i, j :: 0 <= i < j < |trace| ==> trace[i].at <= trace[j].at
  }

  function RatesAfter(trace: seq<Request>, limit: nat): map<string, Rate> {
    if trace == [] then map[]
    else
      var last := trace[|trace| - 1];
      Admit(RatesAfter(trace[..|trace| - 1], limit), last.credential, last.at, limit).0
  }

  /** An admitted request and the start of the window it was counted in. */
  datatype Grant = Grant(at: Time, window: Time)

  /** The requests of one credential that were let through, in order. */
  function Grants(trace: seq<Request>, limit: nat, credential: string): seq<Grant> {
    if trace == [] then []
    else
      var before, last := trace[..|trace| - 1], trace[|trace| - 1];
      var rates := RatesAfter(before, limit);
      if last.credential == credential && Admit(rates, credential, last.at, limit).1
      then Grants(before, limit, credential) + [Grant(last.at, Entry(rates, credential, last.at).window)]
      else Grants(before, limit, credential)
  }

  function InWindow(log: seq<Grant>, w: Time): nat {
    if log == [] then 0 else InWindow(log[..|log| - 1], w) + if log[|log| - 1].window == w then 1 else 0
  }

  function Within(log: seq<Grant>, lo: Time, hi: Time): nat {
    if log == [] then 0 else Within(log[..|log| - 1], lo, hi) + if lo <= log[|log| - 1].at < hi then 1 else 0
  }

  /** Windows are ordered and at least a minute apart, and each grant falls in its window. */
  ghost predicate Spaced(log: seq<Grant>) {
    && (forall i :: 0 <= i < |log| ==> log[i].window <= log[i].at < log[i].window + MINUTE)
    && (forall i, j :: 0 <= i < j < |log| ==> log[i].window == log[j].window || log[j].window - log[i].window >= MINUTE)
  }

  lemma {:induction false} NoneYet(log: seq<Grant>, w: Time)
    requires forall i :: 0 <= i < |log| ==> log[i].window != w
    ensures InWindow(log, w) == 0
  {
    if log != [] {
      NoneYet(log[..|log| - 1], w);
    }
  }

  /** What the stored counter of a credential knows about its grants so far. */
  ghost predicate Accounted(log: seq<Grant>, rates: map<string, Rate>, credential: string, now: Time) {
    && (forall i :: 0 <= i < |log| ==> log[i].at <= now)
    && (credential in rates ==> log != [] && rates[credential] == Rate(log[|log| - 1].window, InWindow(log, log[|log| - 1].window)))
    && (credential !in rates && log != [] ==> now - log[|log| - 1].window >= MINUTE)
  }

  lemma AppendGrant(log: seq<Grant>, g: Grant)
    ensures forall w {:trigger InWindow(log + [g], w)} :: InWindow(log + [g], w) == InWindow(log, w) + if g.window == w then 1 else 0
  {
    assert (log + [g])[..|log|] == log;
  }

  /** A grant in a new window, or in the window of the last one. */
  lemma SpacedAppend(log: seq<Grant>, g: Grant)
    requires Spaced(log) && g.window <= g.at < g.window + MINUTE
    requires log != [] ==> g.window == log[|log| - 1].window || g.window - log[|log| - 1].window >= MINUTE
    ensures Spaced(log + [g])
    ensures log != [] && g.window != log[|log| - 1].window ==> forall i :: 0 <= i < |log| ==> log[i].window != g.window
  {
    forall i | 0 <= i < |log| ensures log[i].window == g.window || g.window - log[i].window >= MINUTE {
      assert i < |log| - 1 ==> log[i].window == log[|log| - 1].window || log[|log| - 1].window - log[i].window >= MINUTE;
    }
  }

  /** Granting one more request. */
  lemma GrantStep(log: seq<Grant>, rates: map<string, Rate>, credential: string, before: Time, now: Time, limit: nat)
    requires Spaced(log) && (forall w :: InWindow(log, w) <= limit)
    requires Accounted(log, rates, credential, before) && before <= now && Admit(rates, credential, now, limit).1
    ensures var log' := log + [Grant(now, Entry(rates, credential, now).window)];
      && Spaced(log') && (forall w :: InWindow(log', w) <= limit)
      && Accounted(log', Admit(rates, credential, now, limit).0, credential, now)
  {
    var g := Grant(now, Entry(rates, credential, now).window);
    var log' := log + [g];
    assert InWindow(log, g.window) == Entry(rates, credential, now).count && Spaced(log') by {
      if log != [] {
        assert g.at < g.window + MINUTE && log[|log| - 1].window <= log[|log| - 1].at <= now;
      }
      SpacedAppend(log, g);
      if !(credential in rates && now - rates[credential].window < MINUTE) {
        NoneYet(log, g.window);
      }
    }
    AppendGrant(log, g);
    hide Spaced, InWindow;
    assert forall i :: 0 <= i < |log'| ==> log'[i].at <= now;
    assert forall w :: InWindow(log', w) <= limit;
  }

  /** A request that is denied, or that belongs to someone else. */
  lemma OtherStep(log: seq<Grant>, rates: map<string, Rate>, credential: string, before: Time, other: string, now: Time, limit: nat)
    requires Accounted(log, rates, credential, before) && before <= now
    requires other != credential || !Admit(rates, credential, now, limit).1
    ensures Accounted(log, Admit(rates, other, now, limit).0, credential, now)
  {}

  lemma {:induction false} GrantsAccounted(trace: seq<Request>, limit: nat, credential: string)
    requires InOrder(trace)
    ensures Spaced(Grants(trace, limit, credential))
    ensures Accounted(Grants(trace, limit, credential), RatesAfter(trace, limit), credential, if trace == [] then 0 else trace[|trace| - 1].at)
    ensures forall w :: InWindow(Grants(trace, limit, credential), w) <= limit
  {
    if trace != [] {
      var before, last := trace[..|trace| - 1], trace[|trace| - 1];
      GrantsAccounted(before, limit, credential);
      var rates, log := RatesAfter(before, limit), Grants(before, limit, credential);
      var previous := if before == [] then last.at else before[|before| - 1].at;
      assert Accounted(log, rates, credential, previous);
      hide Spaced, Accounted, InWindow, Admit;
      if last.credential == credential && Admit(rates, credential, last.at, limit).1 {
        GrantStep(log, rates, credential, previous, last.at, limit);
      } else {
        OtherStep(log, rates, credential, previous, last.credential, last.at, limit);
      }
    }
  }

  /** Over any trace: windows of a credential start at least a minute apart, every admitted request lies in its
      window, and no window admits more than the limit. */
  lemma WindowsBound(trace: seq<Request>, limit: nat, credential: string, w: Time)
    requires InOrder(trace)
    ensures Spaced(Grants(trace, limit, credential)) && InWindow(Grants(trace, limit, credential), w) <= limit
  {
    GrantsAccounted(trace, limit, credential);
  }

  lemma {:induction false} SomeInWindow(log: seq<Grant>, w: Time)
    requires InWindow(log, w) > 0
    ensures exists i :: 0 <= i < |log| && log[i].window == w
  {
    if log[|log| - 1].window != w {
      SomeInWindow(log[..|log| - 1], w);
      var i :| 0 <= i < |log| - 1 && log[..|log| - 1][i].window == w;
      assert log[i].window == w;
    }
  }

  lemma LastWindow(log: seq<Grant>, i: nat)
    requires Spaced(log) && i < |log|
    ensures log[|log| - 1].window == log[i].window || log[|log| - 1].window - log[i].window >= MINUTE
  {}

  /** Window w is still running and the limit is used up in it. */
  ghost predicate Full(log: seq<Grant>, w: Time, now: Time, limit: nat) {
    w <= now < w + MINUTE && InWindow(log, w) >= limit
  }

  lemma DeniedByFull(log: seq<Grant>, rates: map<string, Rate>, credential: string, before: Time, now: Time, limit: nat)
    requires Spaced(log) && Accounted(log, rates, credential, before) && before <= now && limit >= 1
    requires !Admit(rates, credential, now, limit).1
    ensures exists w :: Full(log, w, now, limit)
  {
    var v := rates[credential].window;
    assert log != [] && v == log[|log| - 1].window && v <= log[|log| - 1].at <= now;
    hide InWindow, Spaced;
    assert Full(log, v, now, limit);
  }

  lemma FullDenies(log: seq<Grant>, rates: map<string, Rate>, credential: string, before: Time, now: Time, limit: nat, w: Time)
    requires Spaced(log) && Accounted(log, rates, credential, before) && before <= now && limit >= 1 && Full(log, w, now, limit)
    ensures !Admit(rates, credential, now, limit).1
  {
    SomeInWindow(log, w);
    var i :| 0 <= i < |log| && log[i].window == w;
    LastWindow(log, i);
    assert log[|log| - 1].window <= log[|log| - 1].at <= now;
    hide InWindow, Spaced;
  }

  /** A request is denied exactly when the limit is used up in a window that is still running: over any trace, no request
      below the limit is turned away. */
  lemma DeniedIff(trace: seq<Request>, last: Request, limit: nat)
    requires InOrder(trace + [last]) && limit >= 1
    ensures !Admit(RatesAfter(trace, limit), last.credential, last.at, limit).1 <==>
      exists w :: Full(Grants(trace, limit, last.credential), w, last.at, limit)
  {
    hide Admit, Full, Spaced, Accounted, RatesAfter, Grants;
    var all := trace + [last];
    assert forall i :: 0 <= i < |trace| ==> all[i] == trace[i];
    var before := if trace == [] then 0 else trace[|trace| - 1].at;
    GrantsAccounted(trace, limit, last.credential);
    var log, rates := Grants(trace, limit, last.credential), RatesAfter(trace, limit);
    var earlier := if trace == [] then last.at else before;
    if trace == [] {
      NothingAccounted(last.credential, limit, last.at);
    } else {
      assert all[|trace| - 1].at <= all[|trace|].at;
    }
    if !Admit(rates, last.credential, last.at, limit).1 {
      DeniedByFull(log, rates, last.credential, earlier, last.at, limit);
    }
    if w :| Full(log, w, last.at, limit) {
      FullDenies(log, rates, last.credential, earlier, last.at, limit, w);
    }
  }

  lemma NothingAccounted(credential: string, limit: nat, now: Time)
    ensures Accounted(Grants([], limit, credential), RatesAfter([], limit), credential, now)
  {}

  ghost predicate OnlyWindows(log: seq<Grant>, lo: Time, hi: Time, v: Time, w: Time) {
    forall i :: 0 <= i < |log| && lo <= log[i].at < hi ==> log[i].window == v || log[i].window == w
  }

  lemma {:induction false} TwoWindows(log: seq<Grant>, lo: Time, hi: Time, v: Time, w: Time)
    requires OnlyWindows(log, lo, hi, v, w)
    ensures Within(log, lo, hi) <= InWindow(log, v) + InWindow(log, w)
  {
    if log != [] {
      TwoWindows(log[..|log| - 1], lo, hi, v, w);
    }
  }

  predicate During(g: Grant, lo: Time) {
    lo <= g.at < lo + MINUTE
  }

  /** A minute meets at most two windows: three would be spread over two minutes. */
  lemma MinuteMeetsTwo(log: seq<Grant>, lo: Time) returns (v: Time, w: Time)
    requires Spaced(log)
    ensures v != w && OnlyWindows(log, lo, lo + MINUTE, v, w)
  {
    v, w := lo, lo + 1;
    if i :| 0 <= i < |log| && During(log[i], lo) {
      v, w := log[i].window, log[i].window + 1;
      if k :| 0 <= k < |log| && During(log[k], lo) && log[k].window != v {
        w := log[k].window;
        forall m | 0 <= m < |log| && During(log[m], lo) ensures log[m].window == v || log[m].window == w {
          Apart(log, i, k);
          Apart(log, i, m);
          Apart(log, k, m);
        }
      }
    }
  }

  lemma Apart(log: seq<Grant>, i: int, k: int)
    requires Spaced(log) && 0 <= i < |log| && 0 <= k < |log|
    ensures log[i].window == log[k].window || log[i].window - log[k].window >= MINUTE || log[k].window - log[i].window >= MINUTE
  {}

  /** No minute, wherever it starts, admits more than twice the limit for one credential. */
  lemma AnyMinuteBound(trace: seq<Request>, limit: nat, credential: string, lo: Time)
    requires InOrder(trace)
    ensures Within(Grants(trace, limit, credential), lo, lo + MINUTE) <= 2 * limit
  {
    GrantsAccounted(trace, limit, credential);
    var log := Grants(trace, limit, credential);
    var v, w := MinuteMeetsTwo(log, lo);
    TwoWindows(log, lo, lo + MINUTE, v, w);
  }

  // ------------------------------------------------------- sessions over a trace

  datatype Call = Open(id: string, credential: string, at: Time) | Use(id: string, credential: string, at: Time) | Close(id: string, credential: string)

  function Served(sessions: Sessions, c: Call, capacity: nat, ttl: Time): (Sessions, bool) {
    match c
    case Open(id, credential, at) => Opened(sessions, id, credential, at, capacity, ttl)
    case Use(id, credential, at) => Used(sessions, id, credential, at, ttl)
    case Close(id, credential) => Closed(sessions, id, credential)
  }

  function SessionsAfter(calls: seq<Call>, capacity: nat, ttl: Time): Sessions {
    if calls == [] then map[] else Served(SessionsAfter(calls[..|calls| - 1], capacity, ttl), calls[|calls| - 1], capacity, ttl).0
  }

  /** Whether call k of the trace was granted. */
  function Granted(calls: seq<Call>, k: nat, capacity: nat, ttl: Time): bool
    requires k < |calls|
  {
    Served(SessionsAfter(calls[..k], capacity, ttl), calls[k], capacity, ttl).1
  }

  /** Session s was opened at call i by its own credential, last used at call k, and not closed or reopened in between or since. */
  ghost predicate Justified(calls: seq<Call>, capacity: nat, ttl: Time, id: string, s: Session, i: nat, k: nat) {
    && i <= k < |calls|
    && calls[i].Open? && calls[i].id == id && calls[i].credential == s.credential && Granted(calls, i, capacity, ttl)
    && !calls[k].Close? && calls[k].id == id && calls[k].credential == s.credential && calls[k].at == s.lastUsed && Granted(calls, k, capacity, ttl)
    && forall m :: i < m < |calls| && calls[m].id == id && !calls[m].Use? ==> !Granted(calls, m, capacity, ttl)
  }

  lemma JustifiedStays(calls: seq<Call>, c: Call, capacity: nat, ttl: Time, id: string, s: Session, i: nat, k: nat)
    requires Justified(calls, capacity, ttl, id, s, i, k)
    requires c.id == id && !c.Use? ==> !Granted(calls + [c], |calls|, capacity, ttl)
    ensures Justified(calls + [c], capacity, ttl, id, s, i, k)
  {
    var calls' := calls + [c];
    assert forall m :: 0 <= m < |calls| ==> calls'[..m] == calls[..m] && calls'[m] == calls[m];
    assert forall m :: 0 <= m < |calls| ==> Granted(calls', m, capacity, ttl) == Granted(calls, m, capacity, ttl);
  }

  lemma {:induction false} SessionsJustified(calls: seq<Call>, capacity: nat, ttl: Time, id: string) returns (i: nat, k: nat)
    requires id in SessionsAfter(calls, capacity, ttl)
    ensures Justified(calls, capacity, ttl, id, SessionsAfter(calls, capacity, ttl)[id], i, k)
    decreases |calls|
  {
    var n := |calls| - 1;
    assert calls != [];
    var before, c := calls[..n], calls[n];
    assert calls == before + [c];
    var earlier, later := SessionsAfter(before, capacity, ttl), SessionsAfter(calls, capacity, ttl);
    var granted := Granted(calls, n, capacity, ttl);
    if granted && c.id == id && c.Open? {
      i, k := n, n;
    } else {
      assert id in earlier && earlier[id].credential == later[id].credential;
      i, k := SessionsJustified(before, capacity, ttl, id);
      JustifiedStays(before, c, capacity, ttl, id, earlier[id], i, k);
      if granted && c.id == id && c.Use? {
        k := n;
      }
    }
  }

  /** A session check that passes names a session that the same credential opened and has neither closed nor seen
      reopened, and that it used less than the time-to-live ago. */
  lemma ValidSessionMeaning(calls: seq<Call>, n: nat, capacity: nat, ttl: Time) returns (i: nat, k: nat)
    requires n < |calls| && calls[n].Use? && Granted(calls, n, capacity, ttl)
    ensures i <= k < n && !calls[k].Close? && Justified(calls[..n], capacity, ttl, calls[n].id, Session(calls[n].credential, calls[k].at), i, k)
    ensures calls[n].at - calls[k].at < ttl
  {
    i, k := SessionsJustified(calls[..n], capacity, ttl, calls[n].id);
  }

  /** A session opens exactly while fewer than the capacity are in use, that is, were used within the time-to-live. */
  lemma OpensIff(calls: seq<Call>, n: nat, capacity: nat, ttl: Time)
    requires n < |calls| && calls[n].Open?
    ensures var before := SessionsAfter(calls[..n], capacity, ttl);
      Granted(calls, n, capacity, ttl) <==> |set id | id in before && calls[n].at - before[id].lastUsed < ttl| < capacity
  {
    var before := SessionsAfter(calls[..n], capacity, ttl);
    var live := Unexpired(before, calls[n].at, ttl);
    assert live.Keys == set id | id in before && calls[n].at - before[id].lastUsed < ttl;
    assert |live| == |live.Keys|;
  }

  /** The clock does not run backwards: from one call on the times lie between two bounds. */
  ghost predicate Timely(calls: seq<Call>, start: nat, lo: Time, hi: Time) {
    forall m :: start <= m < |calls| && !calls[m].Close? ==> lo <= calls[m].at <= hi
  }

  /** Nobody closed or reopened id from call k on. */
  ghost predicate Untouched(calls: seq<Call>, k: nat, capacity: nat, ttl: Time, id: string) {
    forall m :: k < m < |calls| && calls[m].id == id && !calls[m].Use? ==> !Granted(calls, m, capacity, ttl)
  }

  lemma GrantedEarlier(calls: seq<Call>, n: nat, m: nat, capacity: nat, ttl: Time)
    requires m < n <= |calls|
    ensures Granted(calls[..n], m, capacity, ttl) == Granted(calls, m, capacity, ttl) && calls[..n][m] == calls[m]
  {
    assert calls[..n][..m] == calls[..m];
  }

  lemma GrantedNow(calls: seq<Call>, capacity: nat, ttl: Time)
    requires calls != [] && !calls[|calls| - 1].Close? && Granted(calls, |calls| - 1, capacity, ttl)
    ensures var s, c := SessionsAfter(calls, capacity, ttl), calls[|calls| - 1]; c.id in s && s[c.id] == Session(c.credential, c.at)
  {}

  /** One more call leaves a session alone unless it closes or reopens it, or comes too late. */
  lemma StaysOne(s: Sessions, c: Call, capacity: nat, ttl: Time, id: string, now: Time)
    requires id in s && now - s[id].lastUsed < ttl && (!c.Close? ==> c.at <= now)
    requires c.id == id && !c.Use? ==> !Served(s, c, capacity, ttl).1
    ensures var s' := Served(s, c, capacity, ttl).0; id in s' && s'[id].credential == s[id].credential && (s'[id].lastUsed == s[id].lastUsed || (c.Use? && s'[id].lastUsed == c.at))
  {}

  lemma {:induction false} SessionStays(calls: seq<Call>, k: nat, capacity: nat, ttl: Time, now: Time)
    requires k < |calls| && !calls[k].Close? && Granted(calls, k, capacity, ttl)
    requires Untouched(calls, k, capacity, ttl, calls[k].id) && Timely(calls, k, calls[k].at, now) && now - calls[k].at < ttl
    ensures var s := SessionsAfter(calls, capacity, ttl); var id := calls[k].id;
      id in s && s[id].credential == calls[k].credential && now - s[id].lastUsed < ttl
    decreases |calls|
  {
    hide SessionsAfter, Granted, Served;
    var n := |calls| - 1;
    if k == n {
      GrantedNow(calls, capacity, ttl);
    } else {
      var before, c := calls[..n], calls[n];
      GrantedEarlier(calls, n, k, capacity, ttl);
      forall m | k < m < n ensures Granted(before, m, capacity, ttl) == Granted(calls, m, capacity, ttl) && before[m] == calls[m] {
        GrantedEarlier(calls, n, m, capacity, ttl);
      }
      SessionStays(before, k, capacity, ttl, now);
      OneServed(calls, capacity, ttl);
      StaysOne(SessionsAfter(before, capacity, ttl), c, capacity, ttl, calls[k].id, now);
    }
  }

  lemma OneServed(calls: seq<Call>, capacity: nat, ttl: Time)
    requires calls != []
    ensures var n := |calls| - 1; var r := Served(SessionsAfter(calls[..n], capacity, ttl), calls[n], capacity, ttl);
      SessionsAfter(calls, capacity, ttl) == r.0 && Granted(calls, n, capacity, ttl) == r.1
  {}

  /** A session stays usable: its credential passes the check whenever it opened or used it less than the time-to-live ago
      and nobody has closed or reopened it since. */
  lemma ValidSessionLives(calls: seq<Call>, n: nat, k: nat, capacity: nat, ttl: Time)
    requires k < n < |calls| && calls[n].Use? && !calls[k].Close? && calls[k].id == calls[n].id && calls[k].credential == calls[n].credential
    requires Granted(calls, k, capacity, ttl) && calls[n].at - calls[k].at < ttl
    requires Untouched(calls[..n], k, capacity, ttl, calls[n].id) && Timely(calls[..n], k, calls[k].at, calls[n].at)
    ensures Granted(calls, n, capacity, ttl)
  {
    assert calls[..n][..k] == calls[..k];
    SessionStays(calls[..n], k, capacity, ttl, calls[n].at);
  }

  /** The table never holds more than its capacity. */
  lemma {:induction false} SessionsBounded(calls: seq<Call>, capacity: nat, ttl: Time)
    ensures |SessionsAfter(calls, capacity, ttl)| <= capacity
  {
    if calls != [] {
      var before, c := calls[..|calls| - 1], calls[|calls| - 1];
      SessionsBounded(before, capacity, ttl);
      var s, s' := SessionsAfter(before, capacity, ttl), SessionsAfter(calls, capacity, ttl);
      if c.Open? && Served(s, c, capacity, ttl).1 {
        assert s'.Keys == Unexpired(s, c.at, ttl).Keys + {c.id};
      } else {
        assert s'.Keys <= s.Keys;
        SubsetSize(s'.Keys, s.Keys);
      }
    }
  }
}
