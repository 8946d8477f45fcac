/** Sessions, the session store and its rate-limited expiry sweep. */
module Sessions {
  import opened Brokers
  import opened JsonValues
  import opened Options

  const SESSION_TOKEN_SIZE := 20

  datatype PersistenceType = Timeout | SingleRequest

  datatype StorageType = LongTermStorage | CurrentBmcSession | CurrentServiceSession

  // What a stored record holds

  /** The values of a session's fields. */
  datatype SessionView = SessionView(
    uniqueId: string, sessionToken: string, username: string, csrfToken: string, clientId: string, clientIp: string,
    lastUpdated: int, persistence: PersistenceType, cookieAuth: bool, isConfigureSelfOnly: bool,
    storageType: StorageType)

  const NEW_SESSION := SessionView("", "", "", "", "", "", 0, Timeout, false, false, CurrentServiceSession)

  /** The string stored under `key`; a value of another type counts as missing. */
  function Text(fields: map<string, Json>, key: string): string {
    if key in fields && fields[key].JStr? then fields[key].text else ""
  }

  predicate HasMandatoryFields(v: SessionView) {
    v.uniqueId != "" && v.username != "" && v.sessionToken != "" && v.csrfToken != ""
  }

  /** The session a record describes. Only an object has the keys looked for. */
  function SessionFromJson(j: Json, now: int): Option<SessionView> {
    if !j.JObj? then None
    else
      var v := NEW_SESSION.(
        uniqueId := Text(j.fields, "unique_id"), sessionToken := Text(j.fields, "session_token"),
        username := Text(j.fields, "username"), csrfToken := Text(j.fields, "csrf_token"),
        clientIp := Text(j.fields, "client_ip"), lastUpdated := now);
      if HasMandatoryFields(v) then Some(v) else None
  }

  ghost predicate HasText(fields: map<string, Json>, key: string, text: string) {
    key in fields && fields[key] == JStr(text)
  }

  ghost predicate HasSomeText(fields: map<string, Json>, key: string) {
    exists text :: HasText(fields, key, text) && text != ""
  }

  /** A record restores a session exactly if it is an object with four non-empty strings. */
  lemma SessionInWords(j: Json, now: int)
    ensures SessionFromJson(j, now).Some? <==>
      && j.JObj? && HasSomeText(j.fields, "unique_id") && HasSomeText(j.fields, "session_token")
      && HasSomeText(j.fields, "username") && HasSomeText(j.fields, "csrf_token")
    ensures SessionFromJson(j, now).Some? ==>
      var v := SessionFromJson(j, now).value;
      && HasText(j.fields, "unique_id", v.uniqueId) && HasText(j.fields, "session_token", v.sessionToken)
      && HasText(j.fields, "username", v.username) && HasText(j.fields, "csrf_token", v.csrfToken)
      && (HasText(j.fields, "client_ip", v.clientIp)
          || (v.clientIp == "" && forall text :: !HasText(j.fields, "client_ip", text)))
      && v.clientId == "" && v.lastUpdated == now && v.persistence == Timeout
      && !v.cookieAuth && !v.isConfigureSelfOnly && v.storageType == CurrentServiceSession
  {
    if j.JObj? {
      TextInWords(j.fields, "unique_id");
      TextInWords(j.fields, "session_token");
      TextInWords(j.fields, "username");
      TextInWords(j.fields, "csrf_token");
      TextInWords(j.fields, "client_ip");
    }
  }

  lemma TextInWords(fields: map<string, Json>, key: string)
    ensures HasSomeText(fields, key) <==> Text(fields, key) != ""
    ensures HasText(fields, key, Text(fields, key)) || (Text(fields, key) == "" && forall t :: !HasText(fields, key, t))
  {
    if Text(fields, key) != "" {
      assert HasText(fields, key, Text(fields, key));
    }
  }

  class UserSession {
    var uniqueId: string
    var sessionToken: string
    var username: string
    var csrfToken: string
    var clientId: string
    var clientIp: string
    var lastUpdated: int
    var persistence: PersistenceType
    var cookieAuth: bool
    var isConfigureSelfOnly: bool
    var storageType: StorageType

    ghost function View(): SessionView
      reads this
    {
      SessionView(uniqueId, sessionToken, username, csrfToken, clientId, clientIp, lastUpdated, persistence,
                  cookieAuth, isConfigureSelfOnly, storageType)
    }

    constructor ()
      ensures View() == NEW_SESSION
    {
      uniqueId, sessionToken, username, csrfToken, clientId, clientIp := "", "", "", "", "", "";
      lastUpdated, persistence, cookieAuth, isConfigureSelfOnly := 0, Timeout, false, false;
      storageType := CurrentServiceSession;
    }

    /** One element of a record: a string under a known key fills a field. */
    method ReadElement(key: string, value: Json)
      modifies this
      ensures View() == old(View()).(
        uniqueId := if key == "unique_id" && value.JStr? then value.text else old(uniqueId),
        sessionToken := if key == "session_token" && value.JStr? then value.text else old(sessionToken),
        csrfToken := if key == "csrf_token" && value.JStr? then value.text else old(csrfToken),
        username := if key == "username" && value.JStr? then value.text else old(username),
        clientIp := if key == "client_ip" && value.JStr? then value.text else old(clientIp))
    {
      if !value.JStr? {
      } else if key == "unique_id" {
        uniqueId := value.text;
      } else if key == "session_token" {
        sessionToken := value.text;
      } else if key == "csrf_token" {
        csrfToken := value.text;
      } else if key == "username" {
        username := value.text;
      } else if key == "client_ip" {
        clientIp := value.text;
      }
    }

    /** The elements may come in any order. */
    method ReadElements(fields: map<string, Json>)
      requires View() == NEW_SESSION
      modifies this
      ensures View() == NEW_SESSION.(
        uniqueId := Text(fields, "unique_id"), sessionToken := Text(fields, "session_token"),
        username := Text(fields, "username"), csrfToken := Text(fields, "csrf_token"),
        clientIp := Text(fields, "client_ip"))
    {
      var rest := fields.Keys;
      while rest != {}
        invariant rest <= fields.Keys
        invariant View() == NEW_SESSION.(
          uniqueId := Text(fields - rest, "unique_id"), sessionToken := Text(fields - rest, "session_token"),
          username := Text(fields - rest, "username"), csrfToken := Text(fields - rest, "csrf_token"),
          clientIp := Text(fields - rest, "client_ip"))
      {
        var key :| key in rest;
        ReadElement(key, fields[key]);
        TextStep(fields, rest, key, "unique_id");
        TextStep(fields, rest, key, "session_token");
        TextStep(fields, rest, key, "username");
        TextStep(fields, rest, key, "csrf_token");
        TextStep(fields, rest, key, "client_ip");
        rest := rest - {key};
      }
      assert fields - {} == fields;
    }

    static method FromJson(j: Json, now: int) returns (session: UserSession?)
      ensures (session == null) == SessionFromJson(j, now).None?
      ensures session != null ==> fresh(session) && SessionFromJson(j, now) == Some(session.View())
    {
      session := new UserSession();
      if j.JObj? {
        session.ReadElements(j.fields);
      }
      if session.uniqueId == "" || session.username == "" || session.sessionToken == "" || session.csrfToken == "" {
        return null;
      }
      session.lastUpdated := now;
      session.persistence := Timeout;
    }
  }

  lemma TextStep(fields: map<string, Json>, rest: set<string>, key: string, name: string)
    requires key in rest && rest <= fields.Keys
    ensures Text(fields - (rest - {key}), name)
         == if key == name && fields[key].JStr? then fields[key].text else Text(fields - rest, name)
  {
  }

  // Which authentication methods are enabled

  datatype AuthFlags = AuthFlags(xtoken: bool, cookie: bool, sessionToken: bool, basic: bool, tls: bool)

  const DEFAULT_AUTH_FLAGS := AuthFlags(true, true, true, true, false)

  /** The flag stored under `key`; without one of boolean type the present value stays. */
  function Flag(fields: map<string, Json>, key: string, present: bool): bool {
    if key in fields && fields[key].JBool? then fields[key].flag else present
  }

  /** The flags after one element. */
  function WithFlag(flags: AuthFlags, key: string, value: Json): AuthFlags {
    AuthFlags(
      if key == "XToken" && value.JBool? then value.flag else flags.xtoken,
      if key == "Cookie" && value.JBool? then value.flag else flags.cookie,
      if key == "SessionToken" && value.JBool? then value.flag else flags.sessionToken,
      if key == "BasicAuth" && value.JBool? then value.flag else flags.basic,
      if key == "TLS" && value.JBool? then value.flag else flags.tls)
  }

  function FlagsFromJson(present: AuthFlags, j: Json): AuthFlags {
    if !j.JObj? then present
    else AuthFlags(
           Flag(j.fields, "XToken", present.xtoken), Flag(j.fields, "Cookie", present.cookie),
           Flag(j.fields, "SessionToken", present.sessionToken), Flag(j.fields, "BasicAuth", present.basic),
           Flag(j.fields, "TLS", present.tls))
  }

  ghost predicate SetsFlag(j: Json, key: string, flag: bool) {
    j.JObj? && key in j.fields && j.fields[key] == JBool(flag)
  }

  ghost predicate IsSet(j: Json, key: string, before: bool, after: bool) {
    SetsFlag(j, key, after) || (after == before && !SetsFlag(j, key, true) && !SetsFlag(j, key, false))
  }

  /** A boolean under a flag's key sets it; otherwise it stays. */
  lemma FlagsInWords(present: AuthFlags, j: Json)
    ensures var flags := FlagsFromJson(present, j);
      && IsSet(j, "XToken", present.xtoken, flags.xtoken) && IsSet(j, "Cookie", present.cookie, flags.cookie)
      && IsSet(j, "SessionToken", present.sessionToken, flags.sessionToken)
      && IsSet(j, "BasicAuth", present.basic, flags.basic) && IsSet(j, "TLS", present.tls, flags.tls)
  {
  }

  class AuthConfigMethods {
    var xtoken: bool
    var cookie: bool
    var sessionToken: bool
    var basic: bool
    var tls: bool

    function Flags(): AuthFlags
      reads this
    {
      AuthFlags(xtoken, cookie, sessionToken, basic, tls)
    }

    constructor ()
      ensures Flags() == DEFAULT_AUTH_FLAGS
    {
      xtoken, cookie, sessionToken, basic, tls := true, true, true, true, false;
    }

    method ReadElement(key: string, value: Json)
      modifies this
      ensures Flags() == WithFlag(old(Flags()), key, value)
    {
      if !value.JBool? {
      } else if key == "XToken" {
        xtoken := value.flag;
      } else if key == "Cookie" {
        cookie := value.flag;
      } else if key == "SessionToken" {
        sessionToken := value.flag;
      } else if key == "BasicAuth" {
        basic := value.flag;
      } else if key == "TLS" {
        tls := value.flag;
      }
    }

    /** The elements may come in any order. */
    method FromJson(j: Json)
      modifies this
      ensures Flags() == FlagsFromJson(old(Flags()), j)
    {
      if j.JObj? {
        ghost var present := Flags();
        var rest := j.fields.Keys;
        while rest != {}
          invariant rest <= j.fields.Keys
          invariant Flags() == FlagsFromJson(present, JObj(j.fields - rest))
        {
          var key :| key in rest;
          ReadElement(key, j.fields[key]);
          FlagsStep(j.fields, rest, key, present);
          rest := rest - {key};
        }
        assert j.fields - {} == j.fields;
      }
    }
  }

  lemma FlagsStep(fields: map<string, Json>, rest: set<string>, key: string, present: AuthFlags)
    requires key in rest && rest <= fields.Keys
    ensures FlagsFromJson(present, JObj(fields - (rest - {key})))
         == WithFlag(FlagsFromJson(present, JObj(fields - rest)), key, fields[key])
  {
    FlagStep(fields, rest, key, "XToken", present.xtoken);
    FlagStep(fields, rest, key, "Cookie", present.cookie);
    FlagStep(fields, rest, key, "SessionToken", present.sessionToken);
    FlagStep(fields, rest, key, "BasicAuth", present.basic);
    FlagStep(fields, rest, key, "TLS", present.tls);
  }

  lemma FlagStep(fields: map<string, Json>, rest: set<string>, key: string, name: string, present: bool)
    requires key in rest && rest <= fields.Keys
    ensures Flag(fields - (rest - {key}), name, present)
         == if key == name && fields[key].JBool? then fields[key].flag else Flag(fields - rest, name, present)
  {
  }

  // Timing

  /** What the timing of the store depends on: the idle timers, the last sweep and the timeout. */
  datatype Timers = Timers(sessions: map<string, int>, lastSweep: int, timeout: int)

  /** The idle timers below the timeout. */
  function Live(sessions: map<string, int>, timeout: int, now: int): map<string, int> {
    map token | token in sessions && now - sessions[token] < timeout * SECOND :: sessions[token]
  }

  /** A sweep happens only if the last one is more than a second ago; it drops what has been idle for the timeout. */
  function Sweep(s: Timers, now: int): Timers {
    if now - s.lastSweep > SECOND then Timers(Live(s.sessions, s.timeout, now), now, s.timeout) else s
  }

  /** Whether a login with this token finds a session. */
  predicate LoginSucceeds(s: Timers, token: string, now: int) {
    |token| == SESSION_TOKEN_SIZE && token in Sweep(s, now).sessions
  }

  /** A login sweeps at `now` and, if it finds the session, resets its timer at `touched`. */
  function Login(s: Timers, token: string, now: int, touched: int): Timers {
    var swept := Sweep(s, now);
    if LoginSucceeds(s, token, now) then swept.(sessions := swept.sessions[token := touched]) else swept
  }

  /** `authTokens.emplace`: a token that is already known keeps its session. */
  function Load(s: Timers, token: string, now: int): Timers {
    s.(sessions := Emplace(s.sessions, token, now))
  }

  ghost function IdleTimers(tokens: map<string, UserSession>): map<string, int>
    reads tokens.Values
  {
    map token | token in tokens :: tokens[token].lastUpdated
  }

  /** The sessions left when those outside `rest` have been examined. */
  ghost function Survivors(before: map<string, UserSession>, rest: set<string>, now: int, timeout: int)
    : map<string, UserSession>
    reads before.Values
  {
    map token | token in before && (token in rest || now - before[token].lastUpdated < timeout * SECOND) ::
      before[token]
  }

  lemma SurvivorsStep(before: map<string, UserSession>, rest: set<string>, token: string, now: int, timeout: int)
    requires rest <= before.Keys && token in rest
    ensures token in Survivors(before, rest, now, timeout)
    ensures Survivors(before, rest - {token}, now, timeout)
         == if now - before[token].lastUpdated >= timeout * SECOND
            then Survivors(before, rest, now, timeout) - {token} else Survivors(before, rest, now, timeout)
  {
  }

  lemma SurvivorsAreLive(before: map<string, UserSession>, now: int, timeout: int)
    ensures IdleTimers(Survivors(before, {}, now, timeout)) == Live(IdleTimers(before), timeout, now)
  {
  }

  ghost predicate Distinct(tokens: map<string, UserSession>) {
    forall t, u | t in tokens && u in tokens && t != u :: tokens[t] != tokens[u]
  }

  lemma TouchedTimer(tokens: map<string, UserSession>, token: string, timers: map<string, int>)
    requires Distinct(tokens) && token in tokens && timers.Keys == tokens.Keys
    requires forall t | t in tokens && tokens[t] != tokens[token] :: tokens[t].lastUpdated == timers[t]
    ensures IdleTimers(tokens) == timers[token := tokens[token].lastUpdated]
  {
  }

  class SessionStore {
    var authTokens: map<string, UserSession>
    var lastTimeoutUpdate: int
    var timeoutInSeconds: int
    const authMethodsConfig: AuthConfigMethods

    /** Every token has a session object of its own. */
    ghost predicate Valid()
      reads this
    {
      Distinct(authTokens)
    }

    ghost function Abstract(): Timers
      reads this, authTokens.Values
    {
      Timers(IdleTimers(authTokens), lastTimeoutUpdate, timeoutInSeconds)
    }

    constructor ()
      ensures Valid() && authTokens == map[]
      ensures Abstract() == Timers(map[], 0, 3600)
      ensures fresh(authMethodsConfig) && authMethodsConfig.Flags() == DEFAULT_AUTH_FLAGS
    {
      authTokens, lastTimeoutUpdate, timeoutInSeconds := map[], 0, 3600;
      authMethodsConfig := new AuthConfigMethods();
    }

    /** The erasing loop of the sweep. */
    method EraseIdle(timeNow: int)
      modifies this`authTokens
      ensures authTokens == old(Survivors(authTokens, {}, timeNow, timeoutInSeconds))
    {
      ghost var before := authTokens;
      var rest := authTokens.Keys;
      while rest != {}
        invariant rest <= before.Keys
        invariant authTokens == Survivors(before, rest, timeNow, timeoutInSeconds)
      {
        var token :| token in rest;
        SurvivorsStep(before, rest, token, timeNow, timeoutInSeconds);
        if timeNow - authTokens[token].lastUpdated >= timeoutInSeconds * SECOND {
          authTokens := authTokens - {token};
        }
        rest := rest - {token};
      }
    }

    method ApplySessionTimeouts(timeNow: int)
      requires Valid()
      modifies this`authTokens, this`lastTimeoutUpdate
      ensures Valid() && Abstract() == Sweep(old(Abstract()), timeNow)
      ensures forall token | token in authTokens ::
        token in old(authTokens) && authTokens[token] == old(authTokens[token])
    {
      if timeNow - lastTimeoutUpdate > SECOND {
        lastTimeoutUpdate := timeNow;
        SurvivorsAreLive(authTokens, timeNow, timeoutInSeconds);
        EraseIdle(timeNow);
      }
    }

    method LoginSessionByToken(token: string, timeNow: int, touched: int) returns (session: UserSession?)
      requires Valid()
      modifies this`authTokens, this`lastTimeoutUpdate, (set s | s in authTokens.Values)`lastUpdated
      ensures Valid() && Abstract() == Login(old(Abstract()), token, timeNow, touched)
      ensures session != null <==> LoginSucceeds(old(Abstract()), token, timeNow)
      ensures session != null ==> token in old(authTokens) && session == old(authTokens[token])
      ensures session != null ==> session.lastUpdated == touched
      ensures forall s | s in old(authTokens.Values) && s != session :: unchanged(s)
    {
      ApplySessionTimeouts(timeNow);
      if |token| != SESSION_TOKEN_SIZE {
        return null;
      }
      if token !in authTokens {
        return null;
      }
      session := authTokens[token];
      ghost var timers := IdleTimers(authTokens);
      session.lastUpdated := touched;
      TouchedTimer(authTokens, token, timers);
    }

    method UpdateSessionTimeout(newTimeoutInSeconds: int)
      modifies this`timeoutInSeconds
      ensures Abstract() == old(Abstract()).(timeout := newTimeoutInSeconds)
    {
      timeoutInSeconds := newTimeoutInSeconds;
    }

    /** `authTokens.emplace` of a session under its own token. */
    method EmplaceSession(session: UserSession)
      requires Valid() && session !in authTokens.Values
      modifies this`authTokens
      ensures Valid() && authTokens == Emplace(old(authTokens), session.sessionToken, session)
      ensures Abstract() == Load(old(Abstract()), session.sessionToken, session.lastUpdated)
    {
      if session.sessionToken !in authTokens {
        authTokens := authTokens[session.sessionToken := session];
      }
    }
  }
}
