/**
 The cleanup job's purge (PostgresTokenStore.purge, accounts/token_store.py) and
 the store it leaves: whether a lookup can tell it from the one before.
 */
module PurgeInvisible {
  import opened Common
  import opened TokenStore
  import opened RefreshRequest

  /** `b` is `a` less some expired rows and some pairs past the grace window. */
  ghost predicate Alike(a: Rows, b: Rows, now: Time) {
    && (forall j <- b :: j in a && (b[j] == a[j] || PairDropped(a[j], b[j], now)))
    && (forall j <- a :: j in b || a[j].expires <= now)
  }

  predicate PairDropped(row: Row, dropped: Row, now: Time) {
    dropped == row.(tokens := None) && row.rotatedAt.Some? && now - row.rotatedAt.value > GRACE
  }

  /** A record purge blanks while a refresh would still honour it. */
  predicate OnTheBoundary(row: Row, now: Time) {
    row.expires > now && row.tokens.Some? && row.rotatedAt == Some(now - GRACE)
  }

  /** Purge leaves a store no refresh can tell from the one before it, exactly
      when no record is `GRACE` old to the microsecond. */
  lemma PurgeAlike(rows: Rows, now: Time)
    ensures Alike(rows, Purged(rows, now), now) <==> forall j <- rows :: !OnTheBoundary(rows[j], now)
  {
  }

  /** And on that boundary the same request is answered differently. */
  lemma PurgeAtTheBoundary(rows: Rows, jti: Jti, now: Time, up: StoreCall -> bool, newJti: Jti)
    requires jti in rows && OnTheBoundary(rows[jti], now) && up(GraceLookup) && up(RotatedLookup)
    ensures var r := Request(jti, rows[jti].user);
            && Refresh(rows, now, r, up, newJti, Active).1 == Tokens(rows[jti].tokens.value)
            && Refresh(Purged(rows, now), now, r, up, newJti, Active).1 == Refused
  {
    var r := Request(jti, rows[jti].user);
    var purged := Purged(rows, now);
    FromGrace(rows, now, r, up, newJti, Active);
    FromGrace(purged, now, r, up, newJti, Active);
    assert RotationRecord(purged, r, now).Some?;
    ReplayRefused(purged, now, r, up);
  }

  lemma ReplayRefused(rows: Rows, now: Time, r: Request, up: StoreCall -> bool)
    ensures Finish(rows, now, r, AtReplay, up, 0, Active).1 == Refused
  {
  }

  lemma AlikeLookup(a: Rows, b: Rows, now: Time, jti: Jti)
    requires Alike(a, b, now)
    ensures Lookup(a, jti, now) == Lookup(b, jti, now)
         || (&& Lookup(a, jti, now).Some? && Lookup(b, jti, now).Some?
             && Lookup(b, jti, now).value == Lookup(a, jti, now).value.(tokens := None)
             && Lookup(a, jti, now).value.rotatedAt.Some?
             && now - Lookup(a, jti, now).value.rotatedAt.value > GRACE)
  {
  }

  lemma AlikeLater(a: Rows, b: Rows, now: Time, later: Time)
    requires Alike(a, b, now) && now <= later
    ensures Alike(a, b, later)
  {
  }

  lemma PurgedAlike(a: Rows, b: Rows, now: Time)
    requires Alike(a, b, now)
    ensures Alike(Purged(a, now), Purged(b, now), now)
  {
  }

  /** A moment after a purge no record is on the boundary any more. */
  lemma PurgedAlikeLater(rows: Rows, now: Time, later: Time)
    requires now < later
    ensures Alike(rows, Purged(rows, now), later)
  {
  }
}
