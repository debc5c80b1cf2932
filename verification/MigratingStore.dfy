/**
 The two-store migration (accounts/token_store.py): Postgres rows first, then
 the entries an earlier release left in the cache. A lookup that finds only a
 cache entry copies it into Postgres.
 */
module MigratingStore {
  import opened Common
  import opened TokenStore
  import R = RefreshRequest

  /** `jwt:rt:{jti}`: a user id while live, a dict once rotated. */
  datatype Entry =
    | LiveEntry(user: UserId)
    | RotatedEntry(user: UserId, tokens: Option<Pair>, rotatedAt: Option<Time>)

  /** The cache: entries by jti, and each user's list of jtis. */
  datatype Legacy = Legacy(entries: map<Jti, Entry>, lists: map<UserId, seq<Jti>>)

  function LegacyLookup(legacy: Legacy, jti: Jti): Option<TokenRecord> {
    if jti !in legacy.entries then None
    else match legacy.entries[jti]
         case LiveEntry(user) => Some(TokenRecord(user, false, None, None, None))
         case RotatedEntry(user, tokens, rotatedAt) => Some(TokenRecord(user, true, tokens, rotatedAt, None))
  }

  function LegacyRevoked(legacy: Legacy, jti: Jti): Legacy {
    legacy.(entries := legacy.entries - {jti})
  }

  function ListOf(legacy: Legacy, user: UserId): seq<Jti> {
    if user in legacy.lists then legacy.lists[user] else []
  }

  function LegacyAllRevoked(legacy: Legacy, user: UserId): Legacy {
    Legacy(legacy.entries - (set j | j in ListOf(legacy, user)), legacy.lists - {user})
  }

  /** Revoking all of a user's entries empties the user's list with them, and
      leaves every other list, and every entry not on it. */
  lemma LegacyListEmptied(legacy: Legacy, user: UserId)
    ensures var after := LegacyAllRevoked(legacy, user);
            && ListOf(after, user) == []
            && (forall other :: other != user ==> ListOf(after, other) == ListOf(legacy, other))
            && (forall j :: j in after.entries <==> j in legacy.entries && j !in ListOf(legacy, user))
            && (forall j <- after.entries :: after.entries[j] == legacy.entries[j])
  {
  }

  /** What a lookup reports. */
  function View(rows: Rows, legacy: Legacy, jti: Jti, now: Time): Option<TokenRecord> {
    var found := Lookup(rows, jti, now);
    if found.Some? then found else LegacyLookup(legacy, jti)
  }

  /** `_adopt`: a rotation record without a time gets the time 0. */
  function Adopted(rows: Rows, jti: Jti, found: TokenRecord, now: Time): Rows {
    if found.rotated then Marked(rows, jti, found.user, found.tokens, found.rotatedAt.GetOr(0), now)
    else Recorded(rows, jti, found.user, jti, now)
  }

  function AfterLookup(rows: Rows, legacy: Legacy, jti: Jti, now: Time): Rows {
    if Lookup(rows, jti, now).Some? || LegacyLookup(legacy, jti).None? then rows
    else Adopted(rows, jti, LegacyLookup(legacy, jti).value, now)
  }

  /** accounts/token_store.py, LegacyCacheTokenStore. */
  class LegacyCacheTokenStore {
    var cache: Legacy

    constructor (cache: Legacy)
      ensures this.cache == cache
    {
      this.cache := cache;
    }

    method Get(jti: Jti) returns (found: Option<TokenRecord>)
      ensures found == LegacyLookup(cache, jti)
    {
      if jti !in cache.entries {
        return None;
      }
      match cache.entries[jti] {
        case RotatedEntry(user, tokens, rotatedAt) => found := Some(TokenRecord(user, true, tokens, rotatedAt, None));
        case LiveEntry(user) => found := Some(TokenRecord(user, false, None, None, None));
      }
    }

    method Revoke(jti: Jti)
      modifies this
      ensures cache == LegacyRevoked(old(cache), jti)
    {
      cache := cache.(entries := cache.entries - {jti});
    }

    method RevokeAll(user: UserId)
      modifies this
      ensures cache == LegacyAllRevoked(old(cache), user)
    {
      var jtis := ListOf(cache, user);
      for i := 0 to |jtis|
        invariant cache == old(cache).(entries := old(cache).entries - (set j | j in jtis[..i]))
      {
        cache := cache.(entries := cache.entries - {jtis[i]});
      }
      assert jtis[..|jtis|] == jtis;
      cache := cache.(lists := cache.lists - {user});
    }
  }

  /** accounts/token_store.py, MigratingTokenStore. `up` says whether the cache
      answers a best-effort revocation. */
  class MigratingTokenStore {
    const primary: PostgresTokenStore
    const legacy: LegacyCacheTokenStore

    constructor (primary: PostgresTokenStore, legacy: LegacyCacheTokenStore)
      ensures this.primary == primary && this.legacy == legacy
    {
      this.primary := primary;
      this.legacy := legacy;
    }

    /** `ok` is false when the copy hits the key of an expired row. */
    method Get(jti: Jti, now: Time) returns (ok: bool, found: Option<TokenRecord>)
      modifies primary
      ensures jti !in old(primary.rows) || old(primary.rows)[jti].expires > now ==> ok
      ensures ok ==> found == View(old(primary.rows), legacy.cache, jti, now)
      ensures ok ==> primary.rows == AfterLookup(old(primary.rows), legacy.cache, jti, now)
      ensures !ok ==> primary.rows == old(primary.rows)
    {
      ok := true;
      found := primary.Get(jti, now);
      if found.None? {
        found := legacy.Get(jti);
        if found.Some? {
          ok := Adopt(jti, found.value, now);
        }
      }
    }

    method Adopt(jti: Jti, found: TokenRecord, now: Time) returns (ok: bool)
      modifies primary
      ensures ok == (found.rotated || jti !in old(primary.rows))
      ensures primary.rows == if ok then Adopted(old(primary.rows), jti, found, now) else old(primary.rows)
    {
      ok := true;
      if found.rotated {
        primary.MarkRotated(jti, found.user, found.tokens, found.rotatedAt.GetOr(0), now);
      } else {
        ok := primary.Record(jti, found.user, jti, now);
      }
    }

    method Revoke(jti: Jti, up: bool)
      modifies primary, legacy
      ensures primary.rows == Revoked(old(primary.rows), jti)
      ensures legacy.cache == if up then LegacyRevoked(old(legacy.cache), jti) else old(legacy.cache)
    {
      primary.Revoke(jti);
      if up {
        legacy.Revoke(jti);
      }
    }

    /** Only Postgres rows carry a family. */
    method RevokeFamily(family: Jti, user: UserId)
      modifies primary
      ensures primary.rows == FamilyRevoked(old(primary.rows), family, user)
    {
      primary.RevokeFamily(family, user);
    }

    method Purge(now: Time)
      modifies primary
      ensures primary.rows == Purged(old(primary.rows), now)
    {
      primary.Purge(now);
    }

    method RevokeAll(user: UserId, up: bool)
      modifies primary, legacy
      ensures primary.rows == AllRevoked(old(primary.rows), user)
      ensures legacy.cache == if up then LegacyAllRevoked(old(legacy.cache), user) else old(legacy.cache)
    {
      primary.RevokeAll(user);
      if up {
        legacy.RevokeAll(user);
      }
    }
  }

  // ----- One map behind two stores -----

  /** A live token, and the chain it belongs to. */
  datatype Live = Live(user: UserId, family: Jti)

  /** A record with its family defaulted, as every caller reads it. */
  function Settled(jti: Jti, found: Option<TokenRecord>): Option<TokenRecord> {
    if found.None? then None else Some(found.value.(family := Some(found.value.family.GetOr(jti))))
  }

  /** Adoption changes what no lookup reports, up to that default, but for one
      case: a rotation record that carried no time. */
  lemma AdoptionKeepsView(rows: Rows, legacy: Legacy, jti: Jti, now: Time, other: Jti)
    requires jti !in rows || rows[jti].expires > now
    ensures var rows' := AfterLookup(rows, legacy, jti, now);
            var untimed := other == jti && Lookup(rows, jti, now).None? && jti in legacy.entries
                           && legacy.entries[jti].RotatedEntry? && legacy.entries[jti].rotatedAt.None?;
            Settled(other, View(rows', legacy, other, now)) == Settled(other, View(rows, legacy, other, now)) <==> !untimed
  {
  }

  /** The pair get_grace_tokens hands back, if the record is the user's. */
  function HandedBack(found: Option<TokenRecord>, now: Time): Option<Pair> {
    if found.Some? && found.value.rotated then R.HonouredPair(found, now) else None
  }

  predicate ReportedLive(rows: Rows, legacy: Legacy, jti: Jti, now: Time) {
    View(rows, legacy, jti, now).Some? && !View(rows, legacy, jti, now).value.rotated
  }

  /** A revoked token is live again exactly when the cache call failed and the
      cache still holds it: the row that hid the entry is the one deleted. The
      source's comment says such an entry is out of reach; it is not. */
  lemma RevokeTakesEffect(rows: Rows, legacy: Legacy, jti: Jti, now: Time, up: bool)
    requires jti !in rows || rows[jti].expires > now
    ensures var legacy' := if up then LegacyRevoked(legacy, jti) else legacy;
            ReportedLive(Revoked(rows, jti), legacy', jti, now) <==>
              !up && jti in legacy.entries && legacy.entries[jti].LiveEntry? && (jti in rows ==> rows[jti].Live())
    ensures var legacy' := if up then LegacyRevoked(legacy, jti) else legacy;
            forall other :: other != jti ==>
              View(Revoked(rows, jti), legacy', other, now) == View(rows, legacy, other, now)
  {
  }

  /** Likewise for every token of a user, and exactly: what survives is in the
      cache only, and either the cache call failed or the user's list missed it. */
  lemma RevokeAllTakesEffect(rows: Rows, legacy: Legacy, user: UserId, now: Time, up: bool, jti: Jti)
    requires jti in rows ==> rows[jti].expires > now
    ensures var legacy' := if up then LegacyAllRevoked(legacy, user) else legacy;
            var rows' := AllRevoked(rows, user);
            (ReportedLive(rows', legacy', jti, now) && View(rows', legacy', jti, now).value.user == user) <==>
              && jti in legacy.entries && legacy.entries[jti] == LiveEntry(user)
              && (jti in rows ==> rows[jti].Live() && rows[jti].user == user)
              && (!up || jti !in ListOf(legacy, user))
  {
  }

  // ----- The whole migration refines one map of live tokens -----

  datatype Operation =
    | Find(jti: Jti)
    | Issue(jti: Jti, user: UserId, family: Jti)
    | Rotate(jti: Jti, user: UserId, tokens: Pair)
    | RevokeOne(jti: Jti)
    | RevokeUser(user: UserId)
    | RevokeChain(family: Jti, user: UserId)
    | PurgeRows

  datatype Timed = Timed(at: Time, op: Operation)

  datatype Stores = Stores(rows: Rows, legacy: Legacy)

  function Step(s: Stores, t: Timed): Stores {
    match t.op
    case Find(jti) => s.(rows := AfterLookup(s.rows, s.legacy, jti, t.at))
    case Issue(jti, user, family) => s.(rows := Recorded(s.rows, jti, user, family, t.at))
    case Rotate(jti, user, tokens) => s.(rows := Marked(s.rows, jti, user, Some(tokens), t.at, t.at))
    case RevokeOne(jti) => Stores(Revoked(s.rows, jti), LegacyRevoked(s.legacy, jti))
    case RevokeUser(user) => Stores(AllRevoked(s.rows, user), LegacyAllRevoked(s.legacy, user))
    case RevokeChain(family, user) => s.(rows := FamilyRevoked(s.rows, family, user))
    case PurgeRows => s.(rows := Purged(s.rows, t.at))
  }

  function SimpleStep(live: map<Jti, Live>, op: Operation): map<Jti, Live> {
    match op
    case Find(_) => live
    case Issue(jti, user, family) => live[jti := Live(user, family)]
    case Rotate(jti, _, _) => live - {jti}
    case RevokeOne(jti) => live - {jti}
    case RevokeUser(user) => map j | j in live && live[j].user != user :: live[j]
    case RevokeChain(family, user) => map j | j in live && live[j] != Live(user, family) :: live[j]
    case PurgeRows => live
  }

  function Steps(s: Stores, ops: seq<Timed>): Stores
    decreases |ops|
  {
    if ops == [] then s else Steps(Step(s, ops[0]), ops[1..])
  }

  function SimpleSteps(live: map<Jti, Live>, ops: seq<Timed>): map<Jti, Live>
    decreases |ops|
  {
    if ops == [] then live else SimpleSteps(SimpleStep(live, ops[0].op), ops[1..])
  }

  /** The live tokens both stores hold between them. */
  function LiveTokens(s: Stores): map<Jti, Live> {
    map j | j in s.rows.Keys + s.legacy.entries.Keys && LiveIn(s, j).Some? :: LiveIn(s, j).value
  }

  function LiveIn(s: Stores, jti: Jti): Option<Live> {
    if jti in s.rows then
      if s.rows[jti].Live() then Some(Live(s.rows[jti].user, ChainOf(jti, s.rows[jti]))) else None
    else if jti in s.legacy.entries && s.legacy.entries[jti].LiveEntry? then
      Some(Live(s.legacy.entries[jti].user, jti))
    else None
  }

  /** Every live cache entry is on its owner's list and on nobody else's, and a
      row copied from one belongs to the entry's owner. */
  predicate ListsComplete(s: Stores) {
    && (forall j <- s.legacy.entries :: s.legacy.entries[j].LiveEntry? ==>
          j in ListOf(s.legacy, s.legacy.entries[j].user))
    && (forall user <- s.legacy.lists, j <- s.legacy.lists[user] :: j in s.legacy.entries ==> s.legacy.entries[j].user == user)
    && (forall j <- s.legacy.entries :: j in s.rows ==> s.rows[j].user == s.legacy.entries[j].user)
  }

  /** No live token of the chain is in the cache still. A chain is revoked when
      a rotated token comes back, and the tokens after it were all issued to
      Postgres. */
  predicate ChainLeftCache(s: Stores, family: Jti, user: UserId) {
    forall j <- s.legacy.entries :: s.legacy.entries[j].LiveEntry? ==> LiveIn(s, j) != Some(Live(user, family))
  }

  /** In the run's time no row expires; new jtis are new, a token is rotated by
      its owner after a lookup has seen it, and a chain is revoked once it has
      left the cache. */
  predicate Sensible(s: Stores, ops: seq<Timed>, horizon: Time)
    decreases |ops|
  {
    ops != [] ==>
      && ops[0].at <= horizon < ops[0].at + LIFETIME
      && (ops[0].op.Issue? ==> ops[0].op.jti !in s.rows && ops[0].op.jti !in s.legacy.entries)
      && (ops[0].op.Rotate? ==> ops[0].op.jti in s.rows && s.rows[ops[0].op.jti].user == ops[0].op.user)
      && (ops[0].op.RevokeChain? ==> ChainLeftCache(s, ops[0].op.family, ops[0].op.user))
      && Sensible(Step(s, ops[0]), ops[1..], horizon)
  }

  predicate Unexpired(s: Stores, horizon: Time) {
    forall j <- s.rows :: s.rows[j].expires > horizon
  }

  lemma StepKeepsRows(s: Stores, t: Timed, horizon: Time)
    requires Unexpired(s, horizon) && Sensible(s, [t], horizon)
    ensures Unexpired(Step(s, t), horizon)
  {
  }

  lemma StepKeepsOwners(s: Stores, t: Timed, horizon: Time, j: Jti)
    requires ListsComplete(s) && Unexpired(s, horizon) && Sensible(s, [t], horizon)
    requires j in Step(s, t).legacy.entries && j in Step(s, t).rows
    ensures Step(s, t).rows[j].user == Step(s, t).legacy.entries[j].user
  {
  }

  lemma StepKeepsLists(s: Stores, t: Timed, horizon: Time)
    requires ListsComplete(s) && Unexpired(s, horizon) && Sensible(s, [t], horizon)
    ensures ListsComplete(Step(s, t)) && Unexpired(Step(s, t), horizon)
  {
    StepKeepsRows(s, t, horizon);
    forall j <- Step(s, t).legacy.entries | j in Step(s, t).rows
      ensures Step(s, t).rows[j].user == Step(s, t).legacy.entries[j].user
    {
      StepKeepsOwners(s, t, horizon, j);
    }
  }

  /** One token's part of the step. */
  lemma StepRefinesAt(s: Stores, t: Timed, horizon: Time, j: Jti)
    requires ListsComplete(s) && Unexpired(s, horizon) && Sensible(s, [t], horizon)
    ensures var before, after := LiveIn(s, j), LiveIn(Step(s, t), j);
            match t.op
            case Find(_) => after == before
            case Issue(jti, user, family) => after == if j == jti then Some(Live(user, family)) else before
            case Rotate(jti, _, _) => after == if j == jti then None else before
            case RevokeOne(jti) => after == if j == jti then None else before
            case RevokeUser(user) => after == if before.Some? && before.value.user == user then None else before
            case RevokeChain(family, user) => after == if before == Some(Live(user, family)) then None else before
            case PurgeRows => after == before
  {
  }

  lemma LiveTokensAt(s: Stores, j: Jti)
    ensures j in LiveTokens(s) <==> LiveIn(s, j).Some?
    ensures j in LiveTokens(s) ==> LiveTokens(s)[j] == LiveIn(s, j).value
  {
  }

  lemma StepRefines(s: Stores, t: Timed, horizon: Time)
    requires ListsComplete(s) && Unexpired(s, horizon) && Sensible(s, [t], horizon)
    ensures LiveTokens(Step(s, t)) == SimpleStep(LiveTokens(s), t.op)
  {
    var after, simple := LiveTokens(Step(s, t)), SimpleStep(LiveTokens(s), t.op);
    forall j ensures (j in after <==> j in simple) && (j in after ==> after[j] == simple[j]) {
      StepRefinesAt(s, t, horizon, j);
      LiveTokensAt(s, j);
      LiveTokensAt(Step(s, t), j);
    }
  }

  /** Over any run within one token lifetime, with the cache answering, the live
      tokens of the two stores are those of one simple map: a lookup leaves it
      alone, and a revocation removes from it whatever the token's home. */
  lemma {:induction false} MigrationRefinesOneMap(s: Stores, ops: seq<Timed>, horizon: Time)
    requires ListsComplete(s) && Unexpired(s, horizon) && Sensible(s, ops, horizon)
    ensures LiveTokens(Steps(s, ops)) == SimpleSteps(LiveTokens(s), ops)
    decreases |ops|
  {
    if ops != [] {
      assert Sensible(s, [ops[0]], horizon);
      StepKeepsLists(s, ops[0], horizon);
      StepRefines(s, ops[0], horizon);
      MigrationRefinesOneMap(Step(s, ops[0]), ops[1..], horizon);
    }
  }

  /** Exactly when revoking a chain takes its live tokens with it: a row of it
      that still has a live cache entry is adopted again, and a live entry not
      yet adopted is not touched at all. */
  lemma RevokeChainRefines(s: Stores, family: Jti, user: UserId, at: Time)
    requires ListsComplete(s)
    ensures var t := Timed(at, RevokeChain(family, user));
            LiveTokens(Step(s, t)) == SimpleStep(LiveTokens(s), t.op) <==> ChainLeftCache(s, family, user)
  {
    var t := Timed(at, RevokeChain(family, user));
    var after, simple := LiveTokens(Step(s, t)), SimpleStep(LiveTokens(s), t.op);
    forall j ensures LiveIn(Step(s, t), j) ==
        if LiveIn(s, j) == Some(Live(user, family)) && !(j in s.legacy.entries && s.legacy.entries[j].LiveEntry?)
        then None else if LiveIn(s, j) == Some(Live(user, family)) then Some(Live(user, j)) else LiveIn(s, j)
    {
    }
    if ChainLeftCache(s, family, user) {
      forall j ensures (j in after <==> j in simple) && (j in after ==> after[j] == simple[j]) {
        LiveTokensAt(s, j);
        LiveTokensAt(Step(s, t), j);
      }
    } else {
      var j :| j in s.legacy.entries && s.legacy.entries[j].LiveEntry? && LiveIn(s, j) == Some(Live(user, family));
      LiveTokensAt(s, j);
      LiveTokensAt(Step(s, t), j);
      assert j in after && j !in simple;
    }
  }

  // ----- Rotation records without a time -----

  /** The record of `jti` can hand `pair` back no more: if it still holds it, it
      was given the time 0. */
  predicate Spent(s: Stores, jti: Jti, pair: Pair) {
    && jti in s.rows && s.rows[jti].rotatedAt.Some?
    && (s.rows[jti].tokens == Some(pair) ==> s.rows[jti].rotatedAt == Some(0))
  }

  /** No later rotation of the token is into that same pair. */
  predicate PairUsedOnce(ops: seq<Timed>, jti: Jti, pair: Pair) {
    forall t <- ops :: t.op.Rotate? && t.op.jti == jti ==> t.op.tokens != pair
  }

  lemma {:induction false} StaysSpent(s: Stores, ops: seq<Timed>, horizon: Time, jti: Jti, pair: Pair)
    requires ListsComplete(s) && Unexpired(s, horizon) && Sensible(s, ops, horizon)
    requires Spent(s, jti, pair) && PairUsedOnce(ops, jti, pair)
    ensures Spent(Steps(s, ops), jti, pair) && Unexpired(Steps(s, ops), horizon)
    decreases |ops|
  {
    if ops != [] {
      assert Sensible(s, [ops[0]], horizon) && ops[0] in ops;
      StepKeepsLists(s, ops[0], horizon);
      StaysSpent(Step(s, ops[0]), ops[1..], horizon, jti, pair);
    }
  }

  /** The pair of a rotation record without a time is handed back by the lookup
      that adopts it, and by no lookup after any run of operations since. */
  lemma UntimedHonouredOnce(s: Stores, jti: Jti, user: UserId, pair: Pair, now: Time,
                            ops: seq<Timed>, horizon: Time, later: Time)
    requires jti !in s.rows && jti in s.legacy.entries && s.legacy.entries[jti] == RotatedEntry(user, Some(pair), None)
    requires ListsComplete(s) && Unexpired(s, horizon) && Sensible(s, [Timed(now, Find(jti))] + ops, horizon)
    requires PairUsedOnce(ops, jti, pair) && GRACE < later <= horizon
    ensures HandedBack(View(s.rows, s.legacy, jti, now), now) == Some(pair)
    ensures var end := Steps(s, [Timed(now, Find(jti))] + ops);
            HandedBack(View(end.rows, end.legacy, jti, later), later) != Some(pair)
  {
    var find := Timed(now, Find(jti));
    assert ([find] + ops)[1..] == ops && Sensible(s, [find], horizon);
    StepKeepsLists(s, find, horizon);
    StaysSpent(Step(s, find), ops, horizon, jti, pair);
  }
}
