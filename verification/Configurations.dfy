/** The stored configuration: what is written for the sessions and flags, and how it is merged back. */
module Configurations {
  import opened JsonValues
  import opened Options
  import opened Orders
  import opened Sessions

  // Reading

  /** What `for (elem : value)` visits. */
  function Elements(j: Json): seq<Json> {
    match j
    case JNull => []
    case JArr(items) => items
    case JObj(fields) =>
      var keys := SortedStrings(fields.Keys);
      seq(|keys|, i requires 0 <= i < |keys| => assert keys[i] in keys; fields[keys[i]])
    case _ => [j]
  }

  /** The session a record restores under a storage type. */
  function Restored(elem: Json, storageType: StorageType, now: int): Option<SessionView> {
    match SessionFromJson(elem, now)
    case None => None
    case Some(v) => Some(v.(storageType := storageType))
  }

  function Merge(tokens: map<string, SessionView>, elem: Json, storageType: StorageType, now: int)
    : map<string, SessionView>
  {
    match Restored(elem, storageType, now)
    case None => tokens
    case Some(v) => Emplace(tokens, v.sessionToken, v)
  }

  /** The token map after all records; `clock(i)` is the reading taken for record `i`. */
  function Merged(tokens: map<string, SessionView>, elems: seq<Json>, storageType: StorageType, clock: nat -> int)
    : map<string, SessionView>
  {
    if elems == [] then tokens
    else
      var n := |elems| - 1;
      Merge(Merged(tokens, elems[..n], storageType, clock), elems[n], storageType, clock(n))
  }

  lemma MergedStep(tokens: map<string, SessionView>, elems: seq<Json>, storageType: StorageType, clock: nat -> int,
                   i: nat)
    requires i < |elems|
    ensures Merged(tokens, elems[..i + 1], storageType, clock)
         == Merge(Merged(tokens, elems[..i], storageType, clock), elems[i], storageType, clock(i))
  {
    assert elems[..i + 1][..i] == elems[..i];
  }

  const TWO63 := 0x8000_0000_0000_0000
  const TWO64 := 0x1_0000_0000_0000_0000

  predicate IsSigned64(n: int) { -TWO63 <= n < TWO63 }

  function Signed(n: int): int {
    if n >= TWO63 then n - TWO64 else n
  }

  function At(fields: map<string, Json>, key: string): Option<Json> {
    if key in fields then Some(fields[key]) else None
  }

  function UuidRead(value: Option<Json>, present: string): string {
    if value.Some? && value.value.JStr? then value.value.text else present
  }

  function AuthRead(value: Option<Json>, present: AuthFlags): AuthFlags {
    if value.Some? then FlagsFromJson(present, value.value) else present
  }

  /**
   Reading a signed integer also takes an unsigned one, as the same 64 bits; an integer outside both ranges is
   a floating-point number to the JSON library.
   */
  function TimeoutRead(value: Option<Json>, present: int): int {
    if value.Some? && value.value.JInt? && -TWO63 <= value.value.n < TWO64 then Signed(value.value.n) else present
  }

  function SessionsRead(value: Option<Json>, present: map<string, SessionView>, storageType: StorageType,
                        clock: nat -> int): map<string, SessionView> {
    if value.Some? then Merged(present, Elements(value.value), storageType, clock) else present
  }

  /** What a configuration file bears on. */
  datatype Config = Config(systemUuid: string, auth: AuthFlags, timeout: int, sessions: map<string, SessionView>)

  function ItemRead(c: Config, key: string, value: Json, storageType: StorageType, clock: nat -> int): Config {
    if key == "system_uuid" then c.(systemUuid := UuidRead(Some(value), c.systemUuid))
    else if key == "auth_config" then c.(auth := AuthRead(Some(value), c.auth))
    else if key == "sessions" then c.(sessions := SessionsRead(Some(value), c.sessions, storageType, clock))
    else if key == "timeout" then c.(timeout := TimeoutRead(Some(value), c.timeout))
    else c
  }

  /** The configuration after reading a file; `None` stands for a missing file or one that does not parse. */
  function ReadBack(c: Config, data: Option<Json>, storageType: StorageType, clock: nat -> int): Config {
    if data.None? || !data.value.JObj? then c
    else
      var fields := data.value.fields;
      Config(
        UuidRead(At(fields, "system_uuid"), c.systemUuid), AuthRead(At(fields, "auth_config"), c.auth),
        TimeoutRead(At(fields, "timeout"), c.timeout),
        SessionsRead(At(fields, "sessions"), c.sessions, storageType, clock))
  }

  /** Elements of an object come by ascending key: each stands at the number of keys before its own. */
  lemma ElementsInOrder(fields: map<string, Json>, key: string)
    requires key in fields
    ensures |Elements(JObj(fields))| == |fields|
    ensures |Earlier(fields.Keys, key)| < |Elements(JObj(fields))|
    ensures Elements(JObj(fields))[|Earlier(fields.Keys, key)|] == fields[key]
  {
    var keys := SortedStrings(fields.Keys);
    assert |fields| == |fields.Keys| && key in keys;
    var i :| 0 <= i < |keys| && keys[i] == key;
    SortedAtRank(fields.Keys, i);
  }

  /** The object has a string, a 64-bit integer or anything at all under the key. */
  ghost predicate GivesText(data: Option<Json>, key: string, text: string) {
    data.Some? && data.value.JObj? && key in data.value.fields && data.value.fields[key] == JStr(text)
  }

  ghost predicate GivesInt(data: Option<Json>, key: string, n: int) {
    && data.Some? && data.value.JObj? && key in data.value.fields && data.value.fields[key] == JInt(n)
    && -0x8000_0000_0000_0000 <= n <= 0xFFFF_FFFF_FFFF_FFFF
  }

  ghost predicate Gives(data: Option<Json>, key: string, value: Json) {
    data.Some? && data.value.JObj? && key in data.value.fields && data.value.fields[key] == value
  }

  /**
   What each of the four keys of a file does, and that nothing else matters. An unsigned timeout becomes the signed
   number with the same 64 bits.
   */
  lemma ReadInWords(c: Config, data: Option<Json>, storageType: StorageType, clock: nat -> int)
    ensures var r := ReadBack(c, data, storageType, clock);
      && (forall text | GivesText(data, "system_uuid", text) :: r.systemUuid == text)
      && ((forall text :: !GivesText(data, "system_uuid", text)) ==> r.systemUuid == c.systemUuid)
      && (forall n | GivesInt(data, "timeout", n) ::
            (r.timeout - n) % 0x1_0000_0000_0000_0000 == 0
            && -0x8000_0000_0000_0000 <= r.timeout <= 0x7FFF_FFFF_FFFF_FFFF)
      && ((forall n :: !GivesInt(data, "timeout", n)) ==> r.timeout == c.timeout)
      && (forall value | Gives(data, "auth_config", value) :: r.auth == FlagsFromJson(c.auth, value))
      && ((forall value :: !Gives(data, "auth_config", value)) ==> r.auth == c.auth)
      && (forall value | Gives(data, "sessions", value) ::
            r.sessions == Merged(c.sessions, Elements(value), storageType, clock))
      && ((forall value :: !Gives(data, "sessions", value)) ==> r.sessions == c.sessions)
  {
    if data.Some? && data.value.JObj? {
      var fields := data.value.fields;
      if "system_uuid" in fields && fields["system_uuid"].JStr? {
        assert GivesText(data, "system_uuid", fields["system_uuid"].text);
      }
      if "timeout" in fields && fields["timeout"].JInt? {
        var n := fields["timeout"].n;
        if -TWO63 <= n < TWO64 {
          SignedIsCongruent(n);
          assert GivesInt(data, "timeout", n);
        }
      }
      assert "auth_config" in fields ==> Gives(data, "auth_config", fields["auth_config"]);
      assert "sessions" in fields ==> Gives(data, "sessions", fields["sessions"]);
    }
  }

  lemma SignedIsCongruent(n: int)
    requires -TWO63 <= n < TWO64
    ensures (Signed(n) - n) % TWO64 == 0 && IsSigned64(Signed(n))
  {
  }

  lemma AtStep(fields: map<string, Json>, rest: set<string>, key: string, name: string)
    requires key in rest && rest <= fields.Keys
    ensures At(fields - (rest - {key}), name) == if key == name then Some(fields[key]) else At(fields - rest, name)
    ensures key == name ==> At(fields - rest, name) == None
  {
  }

  lemma ItemStep(c: Config, fields: map<string, Json>, rest: set<string>, key: string, storageType: StorageType,
                 clock: nat -> int)
    requires key in rest && rest <= fields.Keys
    ensures ItemRead(ReadBack(c, Some(JObj(fields - rest)), storageType, clock), key, fields[key], storageType, clock)
         == ReadBack(c, Some(JObj(fields - (rest - {key}))), storageType, clock)
  {
    AtStep(fields, rest, key, "system_uuid");
    AtStep(fields, rest, key, "auth_config");
    AtStep(fields, rest, key, "timeout");
    AtStep(fields, rest, key, "sessions");
  }

  // What merging means

  function TokenOf(elem: Json): Option<string> {
    match SessionFromJson(elem, 0)
    case None => None
    case Some(v) => Some(v.sessionToken)
  }

  lemma RestoredToken(elem: Json, storageType: StorageType, now: int)
    ensures Restored(elem, storageType, now).Some? == TokenOf(elem).Some?
    ensures TokenOf(elem).Some? ==> Restored(elem, storageType, now).value.sessionToken == TokenOf(elem).value
  {
  }

  /** Record `i` is the first well-formed one for its token. */
  ghost predicate IsFirstRecord(elems: seq<Json>, i: nat, token: string) {
    && i < |elems| && TokenOf(elems[i]) == Some(token)
    && forall j | 0 <= j < i :: TokenOf(elems[j]) != Some(token)
  }

  /** Merging keeps every session of the store, idle timers included. */
  lemma {:induction false} MergeIsMonotone(tokens: map<string, SessionView>, elems: seq<Json>,
                                           storageType: StorageType, clock: nat -> int, token: string)
    requires token in tokens
    ensures token in Merged(tokens, elems, storageType, clock)
    ensures Merged(tokens, elems, storageType, clock)[token] == tokens[token]
  {
    if elems != [] {
      MergeIsMonotone(tokens, elems[..|elems| - 1], storageType, clock, token);
    }
  }

  /** It adds, for every unknown token, what the first well-formed record restores; later ones are ignored. */
  lemma {:induction false} FirstRecordWins(tokens: map<string, SessionView>, elems: seq<Json>,
                                           storageType: StorageType, clock: nat -> int, i: nat, token: string)
    requires token !in tokens && IsFirstRecord(elems, i, token)
    ensures token in Merged(tokens, elems, storageType, clock)
    ensures Some(Merged(tokens, elems, storageType, clock)[token]) == Restored(elems[i], storageType, clock(i))
  {
    var n := |elems| - 1;
    if i < n {
      assert elems[..n][i] == elems[i];
      FirstRecordWins(tokens, elems[..n], storageType, clock, i, token);
    } else {
      NoRecordNoToken(tokens, elems[..n], storageType, clock, token);
      RestoredToken(elems[n], storageType, clock(n));
    }
  }

  lemma {:induction false} NoRecordNoToken(tokens: map<string, SessionView>, elems: seq<Json>,
                                           storageType: StorageType, clock: nat -> int, token: string)
    requires token !in tokens && forall j | 0 <= j < |elems| :: TokenOf(elems[j]) != Some(token)
    ensures token !in Merged(tokens, elems, storageType, clock)
  {
    if elems != [] {
      var n := |elems| - 1;
      assert TokenOf(elems[n]) != Some(token);
      NoRecordNoToken(tokens, elems[..n], storageType, clock, token);
      RestoredToken(elems[n], storageType, clock(n));
    }
  }

  ghost predicate KeysAreTokens(tokens: map<string, SessionView>) {
    forall t | t in tokens :: tokens[t].sessionToken == t
  }

  /** Merging keeps the invariant of the token map. */
  lemma {:induction false} MergeKeepsKeys(tokens: map<string, SessionView>, elems: seq<Json>,
                                          storageType: StorageType, clock: nat -> int)
    requires KeysAreTokens(tokens)
    ensures KeysAreTokens(Merged(tokens, elems, storageType, clock))
  {
    if elems != [] {
      MergeKeepsKeys(tokens, elems[..|elems| - 1], storageType, clock);
    }
  }

  lemma {:induction false} EveryRecordKnown(tokens: map<string, SessionView>, elems: seq<Json>,
                                            storageType: StorageType, clock: nat -> int, i: nat)
    requires i < |elems| && TokenOf(elems[i]).Some?
    ensures TokenOf(elems[i]).value in Merged(tokens, elems, storageType, clock)
  {
    var n := |elems| - 1;
    if i < n {
      EveryRecordKnown(tokens, elems[..n], storageType, clock, i);
    } else {
      RestoredToken(elems[n], storageType, clock(n));
    }
  }

  lemma {:induction false} NothingNew(tokens: map<string, SessionView>, elems: seq<Json>,
                                      storageType: StorageType, clock: nat -> int)
    requires forall i | 0 <= i < |elems| && TokenOf(elems[i]).Some? :: TokenOf(elems[i]).value in tokens
    ensures Merged(tokens, elems, storageType, clock) == tokens
  {
    if elems != [] {
      var n := |elems| - 1;
      assert forall i | 0 <= i < n :: elems[..n][i] == elems[i];
      NothingNew(tokens, elems[..n], storageType, clock);
      RestoredToken(elems[n], storageType, clock(n));
    }
  }

  /** A second merge changes nothing, whatever the clock shows then. */
  lemma MergeIsIdempotent(tokens: map<string, SessionView>, elems: seq<Json>, storageType: StorageType,
                          clock: nat -> int, later: nat -> int)
    ensures var once := Merged(tokens, elems, storageType, clock); Merged(once, elems, storageType, later) == once
  {
    var once := Merged(tokens, elems, storageType, clock);
    forall i | 0 <= i < |elems| && TokenOf(elems[i]).Some?
      ensures TokenOf(elems[i]).value in once
    {
      EveryRecordKnown(tokens, elems, storageType, clock, i);
    }
    NothingNew(once, elems, storageType, later);
  }

  /** Reading the same file again leaves the whole configuration as it is. */
  lemma ReloadIsIdempotent(c: Config, data: Option<Json>, storageType: StorageType, clock: nat -> int,
                           later: nat -> int)
    ensures var once := ReadBack(c, data, storageType, clock); ReadBack(once, data, storageType, later) == once
  {
    if data.Some? && data.value.JObj? && "sessions" in data.value.fields {
      MergeIsIdempotent(c.sessions, Elements(data.value.fields["sessions"]), storageType, clock, later);
    }
  }

  // Writing

  predicate Persisted(v: SessionView, storageType: StorageType) {
    v.persistence != SingleRequest && v.storageType == storageType
  }

  function Record(v: SessionView): Json {
    JObj(map["unique_id" := JStr(v.uniqueId), "session_token" := JStr(v.sessionToken), "username" := JStr(v.username),
             "csrf_token" := JStr(v.csrfToken), "client_ip" := JStr(v.clientIp)])
  }

  /** `order` lists the tokens of the sessions to persist, each once: the order in which a hash map is iterated. */
  ghost predicate Lists(order: seq<string>, tokens: map<string, SessionView>, storageType: StorageType) {
    && (forall i, j | 0 <= i < j < |order| :: order[i] != order[j])
    && (forall t :: t in order <==> t in tokens && Persisted(tokens[t], storageType))
  }

  function Records(order: seq<string>, tokens: map<string, SessionView>): seq<Json>
    requires forall t | t in order :: t in tokens
  {
    seq(|order|, i requires 0 <= i < |order| => assert order[i] in order; Record(tokens[order[i]]))
  }

  function AuthRecord(flags: AuthFlags): Json {
    JObj(map["XToken" := JBool(flags.xtoken), "Cookie" := JBool(flags.cookie),
             "SessionToken" := JBool(flags.sessionToken), "BasicAuth" := JBool(flags.basic), "TLS" := JBool(flags.tls)])
  }

  /** What the handlers of a storage type fill in. */
  function Document(c: Config, order: seq<string>, storageType: StorageType): map<string, Json>
    requires forall t | t in order :: t in c.sessions
  {
    match storageType
    case LongTermStorage =>
      map["revision" := JInt(1), "auth_config" := AuthRecord(c.auth), "system_uuid" := JStr(c.systemUuid),
          "timeout" := JInt(c.timeout), "sessions" := JArr(Records(order, c.sessions))]
    case CurrentBmcSession => map["revision" := JInt(1), "sessions" := JArr(Records(order, c.sessions))]
    case CurrentServiceSession => map[]
  }

  // Round trip

  /** What of a session survives: its idle timer is reset and its client id and flags are not stored. */
  function Kept(v: SessionView, storageType: StorageType, now: int): SessionView {
    NEW_SESSION.(uniqueId := v.uniqueId, sessionToken := v.sessionToken, username := v.username,
                 csrfToken := v.csrfToken, clientIp := v.clientIp, lastUpdated := now, storageType := storageType)
  }

  lemma RecordRestores(v: SessionView, storageType: StorageType, now: int)
    ensures Restored(Record(v), storageType, now)
         == if HasMandatoryFields(v) then Some(Kept(v, storageType, now)) else None
  {
  }

  ghost predicate RestoredFrom(back: map<string, SessionView>, tokens: map<string, SessionView>, order: seq<string>,
                               storageType: StorageType, clock: nat -> int) {
    && (forall t :: t in back <==> t in order && t in tokens && HasMandatoryFields(tokens[t]))
    && (forall t | t in back :: exists i :: 0 <= i < |order| && back[t] == Kept(tokens[t], storageType, clock(i)))
  }

  lemma RestoreStep(back: map<string, SessionView>, tokens: map<string, SessionView>, order: seq<string>,
                    token: string, storageType: StorageType, clock: nat -> int)
    requires RestoredFrom(back, tokens, order, storageType, clock)
    requires token in tokens && tokens[token].sessionToken == token
    ensures RestoredFrom(Merge(back, Record(tokens[token]), storageType, clock(|order|)), tokens, order + [token],
                         storageType, clock)
  {
    RecordRestores(tokens[token], storageType, clock(|order|));
    var after := Merge(back, Record(tokens[token]), storageType, clock(|order|));
    forall t | t in after
      ensures exists i :: 0 <= i < |order + [token]| && after[t] == Kept(tokens[t], storageType, clock(i))
    {
      if t in back {
        var i :| 0 <= i < |order| && back[t] == Kept(tokens[t], storageType, clock(i));
      }
    }
    assert forall t :: t in order + [token] <==> t in order || t == token;
  }

  lemma OneMoreRecord(tokens: map<string, SessionView>, front: seq<string>, token: string, storageType: StorageType,
                      clock: nat -> int)
    requires token in tokens && forall t | t in front :: t in tokens
    ensures Merged(map[], Records(front + [token], tokens), storageType, clock)
         == Merge(Merged(map[], Records(front, tokens), storageType, clock), Record(tokens[token]), storageType,
                  clock(|front|))
  {
    assert Records(front + [token], tokens) == Records(front, tokens) + [Record(tokens[token])];
    assert (Records(front, tokens) + [Record(tokens[token])])[..|front|] == Records(front, tokens);
  }

  lemma {:induction false} RecordsRestore(tokens: map<string, SessionView>, order: seq<string>,
                                          storageType: StorageType, clock: nat -> int)
    requires KeysAreTokens(tokens) && forall t | t in order :: t in tokens
    ensures RestoredFrom(Merged(map[], Records(order, tokens), storageType, clock), tokens, order, storageType, clock)
  {
    if order != [] {
      var n := |order| - 1;
      var front, token := order[..n], order[n];
      RecordsRestore(tokens, front, storageType, clock);
      RestoreStep(Merged(map[], Records(front, tokens), storageType, clock), tokens, front, token, storageType, clock);
      OneMoreRecord(tokens, front, token, storageType, clock);
      assert order == front + [token];
    }
  }

  /** A session that is written and comes back: it outlasts a request and none of its four main fields is empty. */
  ghost predicate ComesBack(v: SessionView, storageType: StorageType) {
    && v.persistence == Timeout && v.storageType == storageType
    && v.uniqueId != "" && v.sessionToken != "" && v.username != "" && v.csrfToken != ""
  }

  /** What it is then: its strings are kept, its timer starts at one of the readings, everything else is as new. */
  ghost predicate IsCopy(back: SessionView, v: SessionView, count: nat, clock: nat -> int) {
    && back.uniqueId == v.uniqueId && back.sessionToken == v.sessionToken && back.username == v.username
    && back.csrfToken == v.csrfToken && back.clientIp == v.clientIp && back.clientId == ""
    && back.persistence == Timeout && back.storageType == v.storageType
    && !back.cookieAuth && !back.isConfigureSelfOnly
    && exists i :: 0 <= i < count && back.lastUpdated == clock(i)
  }

  /** The timeout-persistent sessions of the type whose four mandatory fields are filled, and no others. */
  ghost predicate RestoresExactly(back: map<string, SessionView>, tokens: map<string, SessionView>, count: nat,
                                  storageType: StorageType, clock: nat -> int) {
    && (forall t :: t in back <==> t in tokens && ComesBack(tokens[t], storageType))
    && (forall t | t in back :: IsCopy(back[t], tokens[t], count, clock))
  }

  /** Written sessions come back, in whatever order the store was iterated. */
  lemma SessionsRoundTrip(tokens: map<string, SessionView>, order: seq<string>, storageType: StorageType,
                          clock: nat -> int)
    requires KeysAreTokens(tokens) && Lists(order, tokens, storageType)
    ensures RestoresExactly(Merged(map[], Records(order, tokens), storageType, clock), tokens, |order|, storageType,
                            clock)
  {
    RecordsRestore(tokens, order, storageType, clock);
    var back := Merged(map[], Records(order, tokens), storageType, clock);
    forall t | t in back
      ensures IsCopy(back[t], tokens[t], |order|, clock)
    {
      var i :| 0 <= i < |order| && back[t] == Kept(tokens[t], storageType, clock(i));
      KeptIsCopy(tokens[t], storageType, |order|, clock, i);
    }
  }

  lemma KeptIsCopy(v: SessionView, storageType: StorageType, count: nat, clock: nat -> int, i: nat)
    requires v.storageType == storageType && i < count
    ensures IsCopy(Kept(v, storageType, clock(i)), v, count, clock)
  {
  }

  /** The flags come back whatever they were before. */
  lemma AuthRoundTrip(flags: AuthFlags, present: AuthFlags)
    ensures FlagsFromJson(present, AuthRecord(flags)) == flags
  {
  }

  /** The whole document of the long-term storage, read into a store without sessions. */
  lemma LongTermRoundTrip(c: Config, order: seq<string>, initial: Config, clock: nat -> int)
    requires KeysAreTokens(c.sessions) && Lists(order, c.sessions, LongTermStorage)
    requires IsSigned64(c.timeout) && initial.sessions == map[]
    ensures var back := ReadBack(initial, Some(JObj(Document(c, order, LongTermStorage))), LongTermStorage, clock);
      && back.(sessions := map[]) == c.(sessions := map[])
      && RestoresExactly(back.sessions, c.sessions, |order|, LongTermStorage, clock)
  {
    SessionsRoundTrip(c.sessions, order, LongTermStorage, clock);
    LongTermParts(c, order, initial, clock);
  }

  lemma LongTermParts(c: Config, order: seq<string>, initial: Config, clock: nat -> int)
    requires Lists(order, c.sessions, LongTermStorage) && IsSigned64(c.timeout)
    ensures var back := ReadBack(initial, Some(JObj(Document(c, order, LongTermStorage))), LongTermStorage, clock);
      && back.(sessions := map[]) == c.(sessions := map[])
      && back.sessions == Merged(initial.sessions, Records(order, c.sessions), LongTermStorage, clock)
  {
    AuthRoundTrip(c.auth, initial.auth);
  }

  lemma SessionsAlone(initial: Config, records: seq<Json>, clock: nat -> int)
    ensures ReadBack(initial, Some(JObj(map["revision" := JInt(1), "sessions" := JArr(records)])), CurrentBmcSession,
                     clock)
         == initial.(sessions := Merged(initial.sessions, records, CurrentBmcSession, clock))
  {
    var fields := map["revision" := JInt(1), "sessions" := JArr(records)];
    assert At(fields, "system_uuid") == None && At(fields, "auth_config") == None && At(fields, "timeout") == None;
    assert At(fields, "sessions") == Some(JArr(records));
  }

  /** The document of the current BMC session holds the sessions alone. */
  lemma CurrentBmcRoundTrip(c: Config, order: seq<string>, initial: Config, clock: nat -> int)
    requires KeysAreTokens(c.sessions) && Lists(order, c.sessions, CurrentBmcSession) && initial.sessions == map[]
    ensures var back := ReadBack(initial, Some(JObj(Document(c, order, CurrentBmcSession))), CurrentBmcSession, clock);
      && back.(sessions := map[]) == initial
      && RestoresExactly(back.sessions, c.sessions, |order|, CurrentBmcSession, clock)
  {
    SessionsRoundTrip(c.sessions, order, CurrentBmcSession, clock);
    SessionsAlone(initial, Records(order, c.sessions), clock);
  }

  // The file

  /** A JSON object filled in place. */
  class JsonObject {
    var fields: map<string, Json>

    constructor ()
      ensures fields == map[]
    {
      fields := map[];
    }
  }

  ghost function Views(tokens: map<string, UserSession>): map<string, SessionView>
    reads tokens.Values
  {
    map token | token in tokens :: tokens[token].View()
  }

  lemma ViewsEmplace(tokens: map<string, UserSession>, token: string, session: UserSession)
    ensures Views(Emplace(tokens, token, session)) == Emplace(Views(tokens), token, session.View())
  {
  }

  lemma KnownTokenStays(tokens: map<string, UserSession>, token: string, session: UserSession)
    requires token in tokens
    ensures Emplace(tokens, token, session) == tokens
  {
  }

  /** `order` lists the sessions to persist among those outside `rest`. */
  ghost predicate ListsOutside(order: seq<string>, rest: set<string>, tokens: map<string, SessionView>,
                               storageType: StorageType) {
    && (forall i, j | 0 <= i < j < |order| :: order[i] != order[j])
    && (forall t :: t in order <==> t in tokens && t !in rest && Persisted(tokens[t], storageType))
  }

  lemma ListsStep(order: seq<string>, rest: set<string>, token: string, tokens: map<string, SessionView>,
                  storageType: StorageType)
    requires ListsOutside(order, rest, tokens, storageType) && token in rest && token in tokens
    ensures Persisted(tokens[token], storageType)
        ==> ListsOutside(order + [token], rest - {token}, tokens, storageType)
            && Records(order + [token], tokens) == Records(order, tokens) + [Record(tokens[token])]
    ensures !Persisted(tokens[token], storageType) ==> ListsOutside(order, rest - {token}, tokens, storageType)
  {
    if Persisted(tokens[token], storageType) {
      assert forall t :: t in order + [token] <==> t in order || t == token;
    }
  }

  class ConfigFile {
    const store: SessionStore
    var systemUuid: string
    var jsonRevision: int

    ghost function Current(): Config
      reads this, store, store.authMethodsConfig, store.authTokens.Values
    {
      Config(systemUuid, store.authMethodsConfig.Flags(), store.timeoutInSeconds, Views(store.authTokens))
    }

    constructor (inStore: SessionStore)
      ensures store == inStore && systemUuid == "" && jsonRevision == 1
    {
      store, systemUuid, jsonRevision := inStore, "", 1;
    }

    static method RestoreSession(elem: Json, storageType: StorageType, now: int) returns (session: UserSession?)
      ensures (session == null) == Restored(elem, storageType, now).None?
      ensures session != null ==> fresh(session) && Restored(elem, storageType, now) == Some(session.View())
    {
      session := UserSession.FromJson(elem, now);
      if session != null {
        session.storageType := storageType;
      }
    }

    /** One record. A new session is a new object, emplaced under its own token. */
    method ReadSession(elem: Json, storageType: StorageType, now: int)
      requires store.Valid()
      modifies store`authTokens
      ensures store.Valid()
      ensures Views(store.authTokens) == Merge(old(Views(store.authTokens)), elem, storageType, now)
      ensures forall t | t in old(store.authTokens) ::
        t in store.authTokens && store.authTokens[t] == old(store.authTokens)[t]
    {
      var newSession := RestoreSession(elem, storageType, now);
      if newSession == null {
        return;
      }
      ghost var before, token := store.authTokens, newSession.sessionToken;
      store.EmplaceSession(newSession);
      if token in before {
        KnownTokenStays(before, token, newSession);
      }
      assert store.authTokens == Emplace(before, token, newSession);
      ViewsEmplace(before, token, newSession);
    }

    /** The records of the `sessions` value. The objects already in the store stay and are not touched. */
    method ReadSessions(value: Json, storageType: StorageType, clock: nat -> int)
      requires store.Valid()
      modifies store`authTokens
      ensures store.Valid()
      ensures Views(store.authTokens) == Merged(old(Views(store.authTokens)), Elements(value), storageType, clock)
      ensures forall t | t in old(store.authTokens) ::
        t in store.authTokens && store.authTokens[t] == old(store.authTokens)[t]
    {
      var elems := Elements(value);
      ghost var before := store.authTokens;
      for i := 0 to |elems|
        invariant store.Valid()
        invariant forall t | t in before :: t in store.authTokens && store.authTokens[t] == before[t]
        invariant Views(store.authTokens) == Merged(old(Views(store.authTokens)), elems[..i], storageType, clock)
      {
        MergedStep(old(Views(store.authTokens)), elems, storageType, clock, i);
        ReadSession(elems[i], storageType, clock(i));
      }
      assert elems[..|elems|] == elems;
    }

    method ReadItem(key: string, value: Json, storageType: StorageType, clock: nat -> int)
      requires store.Valid()
      modifies this`systemUuid, store`authTokens, store`timeoutInSeconds, store.authMethodsConfig
      ensures store.Valid()
      ensures Current() == ItemRead(old(Current()), key, value, storageType, clock)
      ensures forall t | t in old(store.authTokens) ::
        t in store.authTokens && store.authTokens[t] == old(store.authTokens)[t]
    {
      if key == "system_uuid" {
        if value.JStr? {
          systemUuid := value.text;
        }
        assert Views(store.authTokens) == old(Views(store.authTokens));
      } else if key == "auth_config" {
        store.authMethodsConfig.FromJson(value);
        assert Views(store.authTokens) == old(Views(store.authTokens));
      } else if key == "sessions" {
        ReadSessions(value, storageType, clock);
      } else if key == "timeout" {
        if value.JInt? && -TWO63 <= value.n < TWO64 {
          store.UpdateSessionTimeout(Signed(value.n));
        }
        assert Views(store.authTokens) == old(Views(store.authTokens));
      }
    }

    /** `readData`; a result of `false` stands for the exception about the missing system UUID. */
    method ReadData(data: Option<Json>, storageType: StorageType, clock: nat -> int) returns (ok: bool)
      requires store.Valid()
      modifies this`systemUuid, store`authTokens, store`timeoutInSeconds, store.authMethodsConfig
      ensures store.Valid()
      ensures Current() == ReadBack(old(Current()), data, storageType, clock)
      ensures ok <==> systemUuid != ""
      ensures forall t | t in old(store.authTokens) ::
        t in store.authTokens && store.authTokens[t] == old(store.authTokens)[t]
    {
      if data.Some? && data.value.JObj? {
        var fields := data.value.fields;
        var rest := fields.Keys;
        while rest != {}
          invariant rest <= fields.Keys && store.Valid()
          invariant Current() == ReadBack(old(Current()), Some(JObj(fields - rest)), storageType, clock)
          invariant forall t | t in old(store.authTokens) ::
            t in store.authTokens && store.authTokens[t] == old(store.authTokens)[t]
        {
          var key :| key in rest;
          ItemStep(old(Current()), fields, rest, key, storageType, clock);
          ReadItem(key, fields[key], storageType, clock);
          rest := rest - {key};
        }
        assert fields - {} == fields;
      }
      ok := systemUuid != "";
    }

    method PopulateRevision(config: JsonObject)
      modifies config
      ensures config.fields == old(config.fields)["revision" := JInt(jsonRevision)]
    {
      config.fields := config.fields["revision" := JInt(jsonRevision)];
    }

    method PopulateSystemUUID(config: JsonObject)
      modifies config
      ensures config.fields == old(config.fields)["system_uuid" := JStr(systemUuid)]
    {
      config.fields := config.fields["system_uuid" := JStr(systemUuid)];
    }

    method PopulateAuthConfig(config: JsonObject)
      modifies config
      ensures config.fields == old(config.fields)["auth_config" := AuthRecord(store.authMethodsConfig.Flags())]
    {
      var authMethods := store.authMethodsConfig;
      config.fields := config.fields["auth_config" :=
        JObj(map["XToken" := JBool(authMethods.xtoken), "Cookie" := JBool(authMethods.cookie),
                 "SessionToken" := JBool(authMethods.sessionToken), "BasicAuth" := JBool(authMethods.basic),
                 "TLS" := JBool(authMethods.tls)])];
    }

    method PopulateTimeout(config: JsonObject)
      modifies config
      ensures config.fields == old(config.fields)["timeout" := JInt(store.timeoutInSeconds)]
    {
      config.fields := config.fields["timeout" := JInt(store.timeoutInSeconds)];
    }

    /** The records to store, in the order in which the hash map is iterated. */
    method SessionRecords(storageType: StorageType) returns (sessions: seq<Json>, ghost order: seq<string>)
      ensures Lists(order, Views(store.authTokens), storageType)
      ensures sessions == Records(order, Views(store.authTokens))
    {
      sessions, order := [], [];
      var rest := store.authTokens.Keys;
      ghost var views := Views(store.authTokens);
      while rest != {}
        invariant rest <= views.Keys
        invariant ListsOutside(order, rest, views, storageType) && sessions == Records(order, views)
      {
        var token :| token in rest;
        ListsStep(order, rest, token, views, storageType);
        var p := store.authTokens[token];
        if p.persistence != SingleRequest && p.storageType == storageType {
          var record := JObj(
            map["unique_id" := JStr(p.uniqueId), "session_token" := JStr(p.sessionToken),
                "username" := JStr(p.username), "csrf_token" := JStr(p.csrfToken), "client_ip" := JStr(p.clientIp)]);
          assert record == Record(views[token]);
          sessions := sessions + [record];
          order := order + [token];
        }
        rest := rest - {token};
      }
    }

    method PopulateSessions(config: JsonObject, storageType: StorageType) returns (ghost order: seq<string>)
      modifies config
      ensures Lists(order, Views(store.authTokens), storageType)
      ensures config.fields == old(config.fields)["sessions" := JArr(Records(order, Views(store.authTokens)))]
    {
      var sessions;
      sessions, order := SessionRecords(storageType);
      config.fields := config.fields["sessions" := JArr(sessions)];
    }

    /** The handlers registered for a storage type, one after the other. */
    method Populate(config: JsonObject, storageType: StorageType) returns (ghost order: seq<string>)
      requires config.fields == map[] && jsonRevision == 1
      modifies config
      ensures storageType != CurrentServiceSession ==> Lists(order, Current().sessions, storageType)
      ensures forall t | t in order :: t in Current().sessions
      ensures config.fields == Document(Current(), order, storageType)
    {
      order := [];
      match storageType {
        case LongTermStorage =>
          PopulateRevision(config);
          PopulateAuthConfig(config);
          PopulateSystemUUID(config);
          PopulateTimeout(config);
          order := PopulateSessions(config, LongTermStorage);
        case CurrentBmcSession =>
          PopulateRevision(config);
          order := PopulateSessions(config, CurrentBmcSession);
        case CurrentServiceSession =>
      }
    }
  }
}
