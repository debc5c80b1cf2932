/**
 The refresh-token whitelist (accounts/token_store.py).

 A table of `RefreshTokenRecord` rows is a map from jti to row. Jtis and users
 are numbers here, and a token pair is named by the jti of its refresh token.
 Times are microseconds since the epoch.
 */
module TokenStore {
  import opened Common

  type Jti = nat
  type UserId = nat
  type Time = int

  const GRACE: Time := 60_000_000
  const LIFETIME: Time := 14 * 24 * 60 * 60 * 1_000_000

  datatype Pair = Pair(refresh: Jti)

  datatype Row = Row(user: UserId, family: Option<Jti>, expires: Time,
                     rotatedAt: Option<Time>, tokens: Option<Pair>)
  {
    predicate Live() {
      rotatedAt.None?
    }
  }

  type Rows = map<Jti, Row>

  /** What a lookup reports about one jti. */
  datatype TokenRecord = TokenRecord(user: UserId, rotated: bool, tokens: Option<Pair>,
                                     rotatedAt: Option<Time>, family: Option<Jti>)

  /** The chain a row belongs to: a row without a family heads its own chain. */
  function ChainOf(jti: Jti, row: Row): Jti {
    row.family.GetOr(jti)
  }

  function Lookup(rows: Rows, jti: Jti, now: Time): Option<TokenRecord> {
    if jti !in rows || rows[jti].expires <= now then None
    else
      var row := rows[jti];
      if row.Live() then Some(TokenRecord(row.user, false, None, None, Some(ChainOf(jti, row))))
      else Some(TokenRecord(row.user, true, row.tokens, row.rotatedAt, Some(ChainOf(jti, row))))
  }

  function Recorded(rows: Rows, jti: Jti, user: UserId, family: Jti, now: Time): Rows {
    rows[jti := Row(user, Some(family), now + LIFETIME, None, None)]
  }

  /** `update_or_create`: the defaults leave `family` out, so an existing row
      keeps its own and a row created here has none. */
  function Marked(rows: Rows, jti: Jti, user: UserId, tokens: Option<Pair>, rotatedAt: Time, now: Time): Rows {
    var family := if jti in rows then rows[jti].family else None;
    rows[jti := Row(user, family, now + LIFETIME, Some(rotatedAt), tokens)]
  }

  function Revoked(rows: Rows, jti: Jti): Rows {
    if jti in rows && rows[jti].Live() then rows - {jti} else rows
  }

  function AllRevoked(rows: Rows, user: UserId): Rows {
    map j | j in rows && !(rows[j].user == user && rows[j].Live()) :: rows[j]
  }

  predicate InFamily(jti: Jti, row: Row, family: Jti) {
    row.family == Some(family) || (jti == family && row.family.None?)
  }

  function FamilyRevoked(rows: Rows, family: Jti, user: UserId): Rows {
    map j | j in rows && !(InFamily(j, rows[j], family) && rows[j].user == user && rows[j].Live()) :: rows[j]
  }

  /** The row as purge leaves it. */
  function Blanked(row: Row, now: Time): Row {
    if row.rotatedAt.Some? && row.rotatedAt.value <= now - GRACE then row.(tokens := None) else row
  }

  function Purged(rows: Rows, now: Time): Rows {
    map j | j in rows && rows[j].expires > now :: Blanked(rows[j], now)
  }

  /** What a purge is for: the expired rows are gone and no others, no pair is
      left that its grace window has run out on, and nothing else has changed. */
  predicate Cleaned(before: Rows, after: Rows, now: Time) {
    && (forall j <- after :: j in before && after[j].expires > now)
    && (forall j <- before :: before[j].expires > now ==>
          && j in after
          && after[j].user == before[j].user && after[j].family == before[j].family
          && after[j].expires == before[j].expires && after[j].rotatedAt == before[j].rotatedAt
          && after[j].tokens == if before[j].rotatedAt.Some? && now - before[j].rotatedAt.value >= 60_000_000
                                then None else before[j].tokens)
  }

  lemma PurgeCleans(rows: Rows, now: Time)
    ensures Cleaned(rows, Purged(rows, now), now)
  {
  }

  /** accounts/token_store.py, PostgresTokenStore. */
  class PostgresTokenStore {
    var rows: Rows

    constructor ()
      ensures rows == map[]
    {
      rows := map[];
    }

    /** False when the primary key is taken: the insert fails and changes nothing. */
    method Record(jti: Jti, user: UserId, family: Jti, now: Time) returns (ok: bool)
      modifies this
      ensures ok == (jti !in old(rows))
      ensures rows == if ok then Recorded(old(rows), jti, user, family, now) else old(rows)
    {
      ok := jti !in rows;
      if ok {
        rows := rows[jti := Row(user, Some(family), now + LIFETIME, None, None)];
      }
    }

    method Get(jti: Jti, now: Time) returns (found: Option<TokenRecord>)
      ensures found == Lookup(rows, jti, now)
    {
      if jti !in rows || rows[jti].expires <= now {
        return None;
      }
      var row := rows[jti];
      var family := if row.family.Some? then row.family.value else jti;
      if row.rotatedAt.None? {
        return Some(TokenRecord(row.user, false, None, None, Some(family)));
      }
      return Some(TokenRecord(row.user, true, row.tokens, row.rotatedAt, Some(family)));
    }

    method MarkRotated(jti: Jti, user: UserId, tokens: Option<Pair>, rotatedAt: Time, now: Time)
      modifies this
      ensures rows == Marked(old(rows), jti, user, tokens, rotatedAt, now)
    {
      if jti in rows {
        rows := rows[jti := rows[jti].(user := user, rotatedAt := Some(rotatedAt), tokens := tokens,
                                       expires := now + LIFETIME)];
      } else {
        rows := rows[jti := Row(user, None, now + LIFETIME, Some(rotatedAt), tokens)];
      }
    }

    method Revoke(jti: Jti)
      modifies this
      ensures rows == Revoked(old(rows), jti)
    {
      if jti in rows && rows[jti].rotatedAt.None? {
        rows := rows - {jti};
      }
    }

    method RevokeAll(user: UserId)
      modifies this
      ensures rows == AllRevoked(old(rows), user)
    {
      var doomed := set j | j in rows && rows[j].user == user && rows[j].rotatedAt.None?;
      rows := rows - doomed;
    }

    method RevokeFamily(family: Jti, user: UserId)
      modifies this
      ensures rows == FamilyRevoked(old(rows), family, user)
    {
      var doomed := set j | j in rows && rows[j].user == user && rows[j].rotatedAt.None?
                            && (rows[j].family == Some(family) || (j == family && rows[j].family.None?));
      rows := rows - doomed;
    }

    /** Two statements, as in the source: delete the expired rows, then blank
        the pairs that are past the grace window. */
    method Purge(now: Time)
      modifies this
      ensures rows == Purged(old(rows), now)
      ensures Cleaned(old(rows), rows, now)
    {
      rows := map j | j in rows && rows[j].expires > now :: rows[j];
      rows := map j | j in rows :: Blanked(rows[j], now);
    }
  }
}
