/**
 One refresh (or sign-out) request: accounts/services.py and the order of the
 store calls in RefreshTokenView.post and LogoutView.post (accounts/views/auth.py).

 `Advance` is one store call of a request, with or without an answer from the
 store; `Finish` is the rest of a request nothing interferes with. The class at
 the end is the request as the source writes it, proved equal to `Finish`.
 */
module RefreshRequest {
  import opened Common
  import opened TokenStore

  /** What the presented token claims. */
  datatype Request = Request(jti: Jti, user: UserId)

  datatype Account = Missing | Inactive | Active

  datatype Answer = Tokens(pair: Pair) | Refused | Disabled | Unavailable | SignedOut

  /** The store calls of a request; no request makes the same one twice. */
  datatype StoreCall =
    | GraceLookup | RotatedLookup | ReplayLookup | FamilyRevocation
    | WhitelistLookup | OwnerRevocation | VerifyLookup | Revocation
    | FamilyLookup | Record | MarkRotated

  /** Where a request stands: the call it makes next. */
  datatype Stage =
    | AtGrace
    | AtRotated
    | AtReplay
    | AtRevokeFamily(family: Jti)
    | AtWhitelist
    | AtRevokeOwner(owner: UserId, reply: Answer)
    | AtVerify(reply: Answer)
    | AtRevoke(reply: Answer)
    | AtFamily
    | AtRecord(chain: Option<Jti>)
    | AtMark(issued: Jti)
    | Done(answer: Answer)

  function CallAt(stage: Stage): StoreCall
    requires !stage.Done?
  {
    match stage
    case AtGrace => GraceLookup
    case AtRotated => RotatedLookup
    case AtReplay => ReplayLookup
    case AtRevokeFamily(_) => FamilyRevocation
    case AtWhitelist => WhitelistLookup
    case AtRevokeOwner(_, _) => OwnerRevocation
    case AtVerify(_) => VerifyLookup
    case AtRevoke(_) => Revocation
    case AtFamily => FamilyLookup
    case AtRecord(_) => Record
    case AtMark(_) => MarkRotated
  }

  function Rank(stage: Stage): nat {
    match stage
    case AtGrace => 7
    case AtRotated => 6
    case AtWhitelist => 5
    case AtFamily => 4
    case AtRecord(_) => 3
    case AtReplay => 2
    case AtVerify(_) => 2
    case AtMark(_) => 1
    case AtRevokeFamily(_) => 1
    case AtRevokeOwner(_, _) => 1
    case AtRevoke(_) => 1
    case Done(_) => 0
  }

  /** `_rotation_record`: the rotation record of this jti, if it is this user's. */
  function RotationRecord(rows: Rows, r: Request, now: Time): Option<TokenRecord> {
    var found := Lookup(rows, r.jti, now);
    if found.Some? && found.value.rotated && found.value.user == r.user then found else None
  }

  /** The pair `get_grace_tokens` hands back, given the record it found. */
  function HonouredPair(found: Option<TokenRecord>, now: Time): Option<Pair> {
    if found.None? then None
    else if found.value.rotatedAt.None? then found.value.tokens
    else if now - found.value.rotatedAt.value > GRACE then None
    else found.value.tokens
  }

  /** One store call. `up` says whether the store answers; a call it does not
      answer has no effect. `newJti` is the jti the request would issue. */
  function Advance(rows: Rows, now: Time, r: Request, stage: Stage, up: bool, newJti: Jti, account: Account)
    : (Rows, Stage)
  {
    match stage
    case AtGrace =>
      if !up then (rows, Done(Unavailable)) else
      var pair := HonouredPair(RotationRecord(rows, r, now), now);
      (rows, if pair.Some? then Done(Tokens(pair.value)) else AtRotated)
    case AtRotated =>
      if !up then (rows, Done(Unavailable))
      else (rows, if RotationRecord(rows, r, now).Some? then AtReplay else AtWhitelist)
    case AtReplay =>
      var found := Lookup(rows, r.jti, now);
      (rows, if !up || found.None? || found.value.user != r.user then Done(Refused)
             else AtRevokeFamily(found.value.family.GetOr(r.jti)))
    case AtRevokeFamily(family) =>
      (if up then FamilyRevoked(rows, family, r.user) else rows, Done(Refused))
    case AtWhitelist =>
      if !up then (rows, Done(Unavailable)) else
      var found := Lookup(rows, r.jti, now);
      (rows, if found.None? then Done(Refused)
             else if found.value.user != r.user then AtRevokeOwner(found.value.user, Refused)
             else if found.value.rotated || account.Missing? then Done(Refused)
             else if account.Inactive? then AtVerify(Disabled)
             else AtFamily)
    case AtRevokeOwner(owner, reply) =>
      (if up then AllRevoked(rows, owner) else rows, Done(reply))
    case AtVerify(reply) =>
      var found := Lookup(rows, r.jti, now);
      (rows, if !up || found.None? then Done(reply)
             else if found.value.user != r.user then AtRevokeOwner(found.value.user, reply)
             else if found.value.rotated then Done(reply)
             else AtRevoke(reply))
    case AtRevoke(reply) =>
      (if up then Revoked(rows, r.jti) else rows, Done(reply))
    case AtFamily =>
      if !up then (rows, Done(Unavailable)) else
      var found := Lookup(rows, r.jti, now);
      (rows, AtRecord(if found.None? then None else Some(found.value.family.GetOr(r.jti))))
    case AtRecord(chain) =>
      if !up || newJti in rows then (rows, Done(Unavailable))
      else (Recorded(rows, newJti, r.user, chain.GetOr(newJti), now), AtMark(newJti))
    case AtMark(issued) =>
      if !up then (rows, Done(Unavailable))
      else (Marked(rows, r.jti, r.user, Some(Pair(issued)), now, now), Done(Tokens(Pair(issued))))
    case Done(_) => (rows, stage)
  }

  /** The rest of a request that no other request interferes with. */
  function Finish(rows: Rows, now: Time, r: Request, stage: Stage, up: StoreCall -> bool, newJti: Jti, account: Account)
    : (Rows, Answer)
    decreases Rank(stage)
  {
    if stage.Done? then (rows, stage.answer)
    else
      var (rows', stage') := Advance(rows, now, r, stage, up(CallAt(stage)), newJti, account);
      Finish(rows', now, r, stage', up, newJti, account)
  }

  /** A whole refresh request. */
  function Refresh(rows: Rows, now: Time, r: Request, up: StoreCall -> bool, newJti: Jti, account: Account)
    : (Rows, Answer)
  {
    Finish(rows, now, r, AtGrace, up, newJti, account)
  }

  /** A whole sign-out of one device. */
  function SignOut(rows: Rows, now: Time, r: Request, up: StoreCall -> bool): (Rows, Answer) {
    Finish(rows, now, r, AtVerify(SignedOut), up, 0, Active)
  }

  lemma LastCall(rows: Rows, now: Time, r: Request, stage: Stage, up: StoreCall -> bool, newJti: Jti, account: Account)
    requires Rank(stage) == 1
    ensures var (rows', stage') := Advance(rows, now, r, stage, up(CallAt(stage)), newJti, account);
            stage'.Done? && Finish(rows, now, r, stage, up, newJti, account) == (rows', stage'.answer)
  {
  }

  /** `newJti` and the account matter to no stage of a revocation. */
  lemma RevocationStages(rows: Rows, now: Time, r: Request, stage: Stage, up: StoreCall -> bool, newJti: Jti, account: Account)
    requires || stage.AtReplay? || stage.AtVerify? || stage.AtRevokeFamily?
             || stage.AtRevoke? || stage.AtRevokeOwner? || stage.Done?
    ensures Finish(rows, now, r, stage, up, newJti, account) == Finish(rows, now, r, stage, up, 0, Active)
    decreases Rank(stage)
  {
    if !stage.Done? {
      var (rows', stage') := Advance(rows, now, r, stage, up(CallAt(stage)), newJti, account);
      RevocationStages(rows', now, r, stage', up, newJti, account);
    }
  }

  /** A refresh up to the whitelist check: a pair handed back, a replay, or neither. */
  lemma FromGrace(rows: Rows, now: Time, r: Request, up: StoreCall -> bool, newJti: Jti, account: Account)
    ensures var pair := HonouredPair(RotationRecord(rows, r, now), now);
            Refresh(rows, now, r, up, newJti, account) ==
              if !up(GraceLookup) then (rows, Unavailable)
              else if pair.Some? then (rows, Tokens(pair.value))
              else if !up(RotatedLookup) then (rows, Unavailable)
              else if RotationRecord(rows, r, now).Some? then Finish(rows, now, r, AtReplay, up, 0, Active)
              else Finish(rows, now, r, AtWhitelist, up, newJti, account)
  {
    var pair := HonouredPair(RotationRecord(rows, r, now), now);
    if up(GraceLookup) && pair.None? {
      assert Advance(rows, now, r, AtGrace, true, newJti, account) == (rows, AtRotated);
      RevocationStages(rows, now, r, AtReplay, up, newJti, account);
    }
  }

  lemma FromWhitelist(rows: Rows, now: Time, r: Request, up: StoreCall -> bool, newJti: Jti, account: Account)
    ensures var found := Lookup(rows, r.jti, now);
            Finish(rows, now, r, AtWhitelist, up, newJti, account) ==
              if !up(WhitelistLookup) then (rows, Unavailable)
              else if found.None? then (rows, Refused)
              else if found.value.user != r.user then
                (if up(OwnerRevocation) then AllRevoked(rows, found.value.user) else rows, Refused)
              else if found.value.rotated || account.Missing? then (rows, Refused)
              else if account.Inactive? then Finish(rows, now, r, AtVerify(Disabled), up, 0, Active)
              else Finish(rows, now, r, AtFamily, up, newJti, account)
  {
  }

  /** The rotation itself: the last three calls. */
  lemma FromFamily(rows: Rows, now: Time, r: Request, up: StoreCall -> bool, newJti: Jti, account: Account)
    ensures var found := Lookup(rows, r.jti, now);
            var chain := if found.None? then newJti else found.value.family.GetOr(r.jti);
            var recorded := Recorded(rows, newJti, r.user, chain, now);
            Finish(rows, now, r, AtFamily, up, newJti, account) ==
              if !up(FamilyLookup) || !up(Record) || newJti in rows then (rows, Unavailable)
              else if !up(MarkRotated) then (recorded, Unavailable)
              else (Marked(recorded, r.jti, r.user, Some(Pair(newJti)), now, now), Tokens(Pair(newJti)))
  {
    if up(FamilyLookup) {
      var found := Lookup(rows, r.jti, now);
      var chain := if found.None? then None else Some(found.value.family.GetOr(r.jti));
      assert Advance(rows, now, r, AtFamily, true, newJti, account) == (rows, AtRecord(chain));
      if up(Record) && newJti !in rows {
        var recorded := Recorded(rows, newJti, r.user, chain.GetOr(newJti), now);
        assert Finish(rows, now, r, AtRecord(chain), up, newJti, account)
            == Finish(recorded, now, r, AtMark(newJti), up, newJti, account);
        LastCall(recorded, now, r, AtMark(newJti), up, newJti, account);
      }
    }
  }

  // ----- A live token: what a refresh can do to it -----

  predicate LiveFor(rows: Rows, r: Request, now: Time) {
    r.jti in rows && rows[r.jti].user == r.user && rows[r.jti].Live() && rows[r.jti].expires > now
  }

  /** The calls a rotation depends on. */
  predicate RotationCallsAnswered(up: StoreCall -> bool) {
    && up(GraceLookup) && up(RotatedLookup) && up(WhitelistLookup)
    && up(FamilyLookup) && up(Record) && up(MarkRotated)
  }

  /** A refresh of a live token either rotates it, exactly when the store
      answers all six calls it makes, or fails with 503 and leaves the token as
      it was. */
  lemma RefreshOfLiveToken(rows: Rows, now: Time, r: Request, up: StoreCall -> bool, newJti: Jti)
    requires LiveFor(rows, r, now) && newJti !in rows
    ensures var (rows', answer) := Refresh(rows, now, r, up, newJti, Active);
            if RotationCallsAnswered(up) then
              && answer == Tokens(Pair(newJti))
              && rows' == rows[newJti := Row(r.user, Some(ChainOf(r.jti, rows[r.jti])), now + LIFETIME, None, None)]
                              [r.jti := Row(r.user, rows[r.jti].family, now + LIFETIME, Some(now), Some(Pair(newJti)))]
            else
              && answer == Unavailable
              && r.jti in rows' && rows'[r.jti] == rows[r.jti]
              && rows'.Keys <= rows.Keys + {newJti}
              && (forall j :: j in rows ==> j in rows' && rows'[j] == rows[j])
  {
    FromGrace(rows, now, r, up, newJti, Active);
    FromWhitelist(rows, now, r, up, newJti, Active);
    FromFamily(rows, now, r, up, newJti, Active);
  }

  /** A refresh the store let down can be retried with the same token: once
      every call is answered, before the token expires, it is rotated. */
  lemma RetrySucceeds(rows: Rows, now: Time, r: Request, up: StoreCall -> bool, newJti: Jti,
                      later: Time, upLater: StoreCall -> bool, laterJti: Jti)
    requires LiveFor(rows, r, now) && newJti !in rows
    requires Refresh(rows, now, r, up, newJti, Active).1 == Unavailable
    requires later < rows[r.jti].expires
    requires RotationCallsAnswered(upLater) && laterJti !in rows && laterJti != newJti
    ensures var after := Refresh(rows, now, r, up, newJti, Active).0;
            Refresh(after, later, r, upLater, laterJti, Active).1 == Tokens(Pair(laterJti))
  {
    RefreshOfLiveToken(rows, now, r, up, newJti);
    var after := Refresh(rows, now, r, up, newJti, Active).0;
    RefreshOfLiveToken(after, later, r, upLater, laterJti);
  }

  // ----- Sign-out -----

  /** `after` is `before` less the live rows of one user. */
  predicate SignedOutEverywhere(before: Rows, after: Rows, user: UserId) {
    && (forall j <- after :: j in before && after[j] == before[j] && !(before[j].user == user && before[j].rotatedAt.None?))
    && (forall j <- before :: !(before[j].user == user && before[j].rotatedAt.None?) ==> j in after)
  }

  lemma RevokedRow(rows: Rows, jti: Jti)
    ensures jti in rows && rows[jti].rotatedAt.None? ==> Revoked(rows, jti) == rows - {jti}
  {
  }

  /** The revoking half of a request, from its verifying lookup on. */
  lemma FromVerify(rows: Rows, now: Time, r: Request, up: StoreCall -> bool, reply: Answer)
    ensures var (rows', answer) := Finish(rows, now, r, AtVerify(reply), up, 0, Active);
            && answer == reply
            && if !up(VerifyLookup) || r.jti !in rows || rows[r.jti].expires <= now then rows' == rows
               else if rows[r.jti].user != r.user then
                 if up(OwnerRevocation) then SignedOutEverywhere(rows, rows', rows[r.jti].user) else rows' == rows
               else rows' == if rows[r.jti].rotatedAt.None? && up(Revocation) then rows - {r.jti} else rows
  {
    var (_, stage) := Advance(rows, now, r, AtVerify(reply), up(VerifyLookup), 0, Active);
    if !stage.Done? {
      LastCall(rows, now, r, stage, up, 0, Active);
      RevokedRow(rows, r.jti);
    }
  }

  predicate NothingToRevoke(rows: Rows, now: Time, r: Request) {
    || r.jti !in rows
    || rows[r.jti].expires <= now
    || (rows[r.jti].user == r.user && rows[r.jti].rotatedAt.Some?)
  }

  /** Signing a device out always answers the same. It takes away exactly the
      presented token when that is live, and its own; a token of somebody else's
      ends all of that user's sign-ins; in every other case, and when a call it
      makes goes unanswered, nothing changes. */
  lemma SignOutRevokes(rows: Rows, now: Time, r: Request, up: StoreCall -> bool)
    ensures var (rows', answer) := SignOut(rows, now, r, up);
            && answer == SignedOut
            && (LiveFor(rows, r, now) ==>
                  rows' == if up(VerifyLookup) && up(Revocation) then rows - {r.jti} else rows)
            && (r.jti in rows && rows[r.jti].expires > now && rows[r.jti].user != r.user ==>
                  if up(VerifyLookup) && up(OwnerRevocation) then SignedOutEverywhere(rows, rows', rows[r.jti].user)
                  else rows' == rows)
            && (NothingToRevoke(rows, now, r) ==> rows' == rows)
  {
    FromVerify(rows, now, r, up, SignedOut);
  }

  /** A refresh of a live token by a disabled account, once the store has let it
      get that far, is refused as such and takes the token away; for an account
      that is gone it is refused and takes nothing. */
  lemma RefreshOfDisabledAccount(rows: Rows, now: Time, r: Request, up: StoreCall -> bool, newJti: Jti)
    requires LiveFor(rows, r, now) && up(GraceLookup) && up(RotatedLookup) && up(WhitelistLookup)
    ensures Refresh(rows, now, r, up, newJti, Inactive) ==
              (if up(VerifyLookup) && up(Revocation) then rows - {r.jti} else rows, Disabled)
    ensures Refresh(rows, now, r, up, newJti, Missing) == (rows, Refused)
  {
    FromGrace(rows, now, r, up, newJti, Inactive);
    FromWhitelist(rows, now, r, up, newJti, Inactive);
    FromVerify(rows, now, r, up, Disabled);
    FromGrace(rows, now, r, up, newJti, Missing);
    FromWhitelist(rows, now, r, up, newJti, Missing);
  }

  /** accounts/services.py and RefreshTokenView.post, over one Postgres store.
      `up` says which of the request's store calls are answered. */
  class RefreshTokenView {
    const store: PostgresTokenStore

    constructor (store: PostgresTokenStore)
      ensures this.store == store
    {
      this.store := store;
    }

    method RotationRecordOf(r: Request, now: Time) returns (found: Option<TokenRecord>)
      ensures found == RotationRecord(store.rows, r, now)
    {
      found := store.Get(r.jti, now);
      if found.Some? && !(found.value.rotated && found.value.user == r.user) {
        found := None;
      }
    }

    /** revoke_token_family */
    method RevokeTokenFamily(r: Request, now: Time, up: StoreCall -> bool)
      modifies store
      ensures (store.rows, Refused) == Finish(old(store.rows), now, r, AtReplay, up, 0, Active)
    {
      if up(ReplayLookup) {
        var found := store.Get(r.jti, now);
        if found.Some? && found.value.user == r.user && up(FamilyRevocation) {
          store.RevokeFamily(found.value.family.GetOr(r.jti), r.user);
        }
      }
    }

    /** verify_and_revoke_refresh_token */
    method VerifyAndRevoke(r: Request, now: Time, up: StoreCall -> bool, ghost reply: Answer)
      modifies store
      ensures (store.rows, reply) == Finish(old(store.rows), now, r, AtVerify(reply), up, 0, Active)
    {
      if up(VerifyLookup) {
        var found := store.Get(r.jti, now);
        if found.Some? {
          if found.value.user != r.user {
            LastCall(store.rows, now, r, AtRevokeOwner(found.value.user, reply), up, 0, Active);
            if up(OwnerRevocation) {
              store.RevokeAll(found.value.user);
            }
          } else if !found.value.rotated {
            LastCall(store.rows, now, r, AtRevoke(reply), up, 0, Active);
            if up(Revocation) {
              store.Revoke(r.jti);
            }
          }
        }
      }
    }

    /** LogoutView.post for one device. */
    method Logout(r: Request, now: Time, up: StoreCall -> bool) returns (answer: Answer)
      modifies store
      ensures (store.rows, answer) == SignOut(old(store.rows), now, r, up)
      ensures answer == SignedOut
      ensures LiveFor(old(store.rows), r, now) && up(VerifyLookup) && up(Revocation) ==>
                store.rows == old(store.rows) - {r.jti}
    {
      SignOutRevokes(store.rows, now, r, up);
      VerifyAndRevoke(r, now, up, SignedOut);
      return SignedOut;
    }

    /** RefreshTokenView.post. */
    method Post(r: Request, now: Time, up: StoreCall -> bool, newJti: Jti, account: Account) returns (answer: Answer)
      modifies store
      ensures (store.rows, answer) == Refresh(old(store.rows), now, r, up, newJti, account)
    {
      ghost var rows := store.rows;
      FromGrace(rows, now, r, up, newJti, account);
      FromWhitelist(rows, now, r, up, newJti, account);
      FromFamily(rows, now, r, up, newJti, account);
      // get_grace_tokens
      if !up(GraceLookup) {
        return Unavailable;
      }
      var rotation := RotationRecordOf(r, now);
      if rotation.Some? && (rotation.value.rotatedAt.None? || now - rotation.value.rotatedAt.value <= GRACE)
         && rotation.value.tokens.Some? {
        return Tokens(rotation.value.tokens.value);
      }
      // was_rotated
      if !up(RotatedLookup) {
        return Unavailable;
      }
      rotation := RotationRecordOf(r, now);
      if rotation.Some? {
        RevokeTokenFamily(r, now, up);
        return Refused;
      }
      // refresh_token_is_whitelisted
      if !up(WhitelistLookup) {
        return Unavailable;
      }
      var found := store.Get(r.jti, now);
      if found.None? {
        return Refused;
      }
      if found.value.user != r.user {
        if up(OwnerRevocation) {
          store.RevokeAll(found.value.user);
        }
        return Refused;
      }
      if found.value.rotated || account.Missing? {
        return Refused;
      }
      if account.Inactive? {
        VerifyAndRevoke(r, now, up, Disabled);
        return Disabled;
      }
      // token_family
      if !up(FamilyLookup) {
        return Unavailable;
      }
      found := store.Get(r.jti, now);
      var family := if found.None? then None else Some(found.value.family.GetOr(r.jti));
      // issue_tokens
      if !up(Record) {
        return Unavailable;
      }
      var recorded := store.Record(newJti, r.user, family.GetOr(newJti), now);
      if !recorded {
        return Unavailable;
      }
      // store_grace_tokens
      if !up(MarkRotated) {
        return Unavailable;
      }
      store.MarkRotated(r.jti, r.user, Some(Pair(newJti)), now, now);
      return Tokens(Pair(newJti));
    }
  }
}
