/** Refresh-token rotation with reuse detection: the stored table, one statement at a time. */
module RefreshTokens {
  import opened Options

  datatype Row = Row(user: string, family: string, revoked: bool, used: bool)

  type Table = map<string, Row>  // by jti

  datatype Claims = Claims(jti: string, user: string, family: string)

  datatype Outcome = Success(user: string, token: Claims) | Reuse | NotFound | Failure

  // Which of a call's statements succeed: the lookup, the family revocation, the update, drawing an id, signing, the
  // insert.
  datatype Db = Db(lookup: bool, revokeFamily: bool, update: bool, id: bool, sign: bool, insert: bool)

  predicate IsLive(r: Row) { !r.revoked && !r.used }

  // ---------------------------------------------------------------- the statements

  // The statement of revokeFamily: every row of the family is marked revoked.
  function RevokeFamily(t: Table, family: string): Table {
    map jti | jti in t :: if t[jti].family == family then t[jti].(revoked := true) else t[jti]
  }

  // The statement that retires the presented token: its row is marked revoked and used.
  function MarkUsed(t: Table, jti: string): Table {
    if jti in t then t[jti := t[jti].(revoked := true, used := true)] else t
  }

  // ---------------------------------------------------------------- the operations

  function Issued(t: Table, user: string, jti: string, family: string, db: Db): Table {
    if db.id && db.sign && db.insert && jti !in t then t[jti := Row(user, family, false, false)] else t
  }

  function Rotated(t: Table, claims: Option<Claims>, newJti: string, db: Db): (Table, Outcome) {
    if claims.None? then (t, Failure)
    else
      var c := claims.value;
      if c.jti == "" || c.user == "" then (t, NotFound)
      else if !db.lookup then (t, Failure)
      else if c.jti !in t then
        (if c.family != "" && db.revokeFamily then RevokeFamily(t, c.family) else t, NotFound)
      else
        var row := t[c.jti];
        if row.revoked || row.used then (if db.revokeFamily then RevokeFamily(t, row.family) else t, Reuse)
        else if !db.update then (t, Failure)
        else
          var t' := MarkUsed(t, c.jti);
          if !db.id || !db.sign || !db.insert || newJti in t' then (t', Failure)
          else
            (t'[newJti := Row(row.user, row.family, false, false)],
             Success(row.user, Claims(newJti, row.user, row.family)))
  }

  // ---------------------------------------------------------------- runs

  datatype Event =
    | Issue(user: string, jti: string, family: string, db: Db)
    | Rotate(claims: Option<Claims>, newJti: string, db: Db)

  function Step(t: Table, e: Event): Table {
    match e
    case Issue(user, jti, family, db) => Issued(t, user, jti, family, db)
    case Rotate(claims, newJti, db) => Rotated(t, claims, newJti, db).0
  }

  function After(es: seq<Event>, n: nat): Table
    requires n <= |es|
  {
    if n == 0 then map[] else Step(After(es, n - 1), es[n - 1])
  }

  function OutcomeAt(es: seq<Event>, k: nat): Outcome
    requires k < |es| && es[k].Rotate?
  {
    Rotated(After(es, k), es[k].claims, es[k].newJti, es[k].db).1
  }

  predicate InUse(t: Table, family: string) { exists jti :: jti in t && t[jti].family == family }

  // A new family's id is not taken.
  ghost predicate FreshFamilies(es: seq<Event>) {
    forall k :: 0 <= k < |es| ==> FreshAt(es, k)
  }

  predicate FreshAt(es: seq<Event>, k: nat)
    requires k < |es|
  {
    es[k].Issue? ==> !InUse(After(es, k), es[k].family)
  }

  // ---------------------------------------------------------------- one live token per family

  // Two tokens of one family have one user, and are not both live.
  predicate Compatible(t: Table, j: string, k: string)
    requires j in t && k in t
  {
    t[j].family == t[k].family ==> t[j].user == t[k].user && (IsLive(t[j]) && IsLive(t[k]) ==> j == k)
  }

  ghost predicate OneLive(t: Table) { forall j, k :: j in t && k in t ==> Compatible(t, j, k) }

  lemma IssueKeeps(t: Table, user: string, jti: string, family: string, db: Db)
    requires OneLive(t) && !InUse(t, family)
    ensures OneLive(Issued(t, user, jti, family, db))
  {
    var t' := Issued(t, user, jti, family, db);
    forall j, k | j in t' && k in t'
      ensures Compatible(t', j, k)
    {
      if j in t && k in t {
        assert Compatible(t, j, k);
      }
    }
  }

  lemma RevokeKeeps(t: Table, family: string)
    requires OneLive(t)
    ensures OneLive(RevokeFamily(t, family))
  {
    var t' := RevokeFamily(t, family);
    forall j, k | j in t' && k in t'
      ensures Compatible(t', j, k)
    {
      assert Compatible(t, j, k);
    }
  }

  // The new token takes the place of the live one it is issued for.
  lemma HandOverKeeps(t: Table, jti: string, newJti: string)
    requires OneLive(t) && jti in t && IsLive(t[jti]) && newJti !in t
    ensures OneLive(MarkUsed(t, jti)[newJti := Row(t[jti].user, t[jti].family, false, false)])
  {
    var t' := MarkUsed(t, jti)[newJti := Row(t[jti].user, t[jti].family, false, false)];
    forall j, k | j in t' && k in t'
      ensures Compatible(t', j, k)
    {
      var oldJ, oldK := if j == newJti then jti else j, if k == newJti then jti else k;
      assert Compatible(t, oldJ, oldK) && Compatible(t, jti, oldK) && Compatible(t, oldJ, jti);
    }
  }

  lemma RotateKeeps(t: Table, claims: Option<Claims>, newJti: string, db: Db)
    requires OneLive(t)
    ensures OneLive(Rotated(t, claims, newJti, db).0)
  {
    if claims.Some? {
      var c := claims.value;
      RevokeKeeps(t, c.family);
      if c.jti in t {
        RevokeKeeps(t, t[c.jti].family);
        MarkKeeps(t, c.jti);
        if IsLive(t[c.jti]) && newJti !in t {
          HandOverKeeps(t, c.jti, newJti);
        }
      }
    }
  }

  lemma MarkKeeps(t: Table, jti: string)
    requires OneLive(t) && jti in t
    ensures OneLive(MarkUsed(t, jti))
  {
    forall j, k | j in t && k in t
      ensures Compatible(MarkUsed(t, jti), j, k)
    {
      assert Compatible(t, j, k);
    }
  }

  // In every state of a run, whatever statements fail, each family has at most one live token, and one user.
  lemma {:induction false} FamiliesKept(es: seq<Event>, n: nat)
    requires n <= |es| && FreshFamilies(es)
    ensures OneLive(After(es, n))
  {
    if n > 0 {
      FamiliesKept(es, n - 1);
      assert FreshAt(es, n - 1);
      match es[n - 1]
      case Issue(user, jti, family, db) => IssueKeeps(After(es, n - 1), user, jti, family, db);
      case Rotate(claims, newJti, db) => RotateKeeps(After(es, n - 1), claims, newJti, db);
    }
  }

  // Rows are never dropped, and never come back to life or change hands.
  predicate Later(r: Row, r': Row) {
    r'.user == r.user && r'.family == r.family && (r.revoked ==> r'.revoked) && (r.used ==> r'.used)
  }

  lemma StepAges(t: Table, e: Event, jti: string)
    requires jti in t
    ensures jti in Step(t, e) && Later(t[jti], Step(t, e)[jti])
  {
  }

  lemma {:induction false} RowsOnlyAge(es: seq<Event>, m: nat, n: nat, jti: string)
    requires m <= n <= |es| && jti in After(es, m)
    ensures jti in After(es, n) && Later(After(es, m)[jti], After(es, n)[jti])
  {
    if m < n {
      RowsOnlyAge(es, m, n - 1, jti);
      StepAges(After(es, n - 1), es[n - 1], jti);
    }
  }

  predicate Rotates(es: seq<Event>, k: nat, jti: string)
    requires k < |es|
  {
    && es[k].Rotate? && es[k].claims.Some? && es[k].claims.value.jti == jti
    && OutcomeAt(es, k).Success?
  }

  // Each token rotates successfully at most once.
  lemma RotatesOnce(es: seq<Event>, i: nat, k: nat, jti: string)
    requires i < |es| && k < |es| && Rotates(es, i, jti) && Rotates(es, k, jti)
    ensures i == k
  {
    if i < k {
      RowsOnlyAge(es, i + 1, k, jti);
    } else if k < i {
      RowsOnlyAge(es, k + 1, i, jti);
    }
  }

  // A successful rotation leaves the new token as the only live one of its family.
  lemma RotationHandsOver(es: seq<Event>, k: nat, jti: string)
    requires k < |es| && FreshFamilies(es) && Rotates(es, k, jti)
    ensures var t, token := After(es, k + 1), OutcomeAt(es, k).token;
            && token.jti in t && IsLive(t[token.jti])
            && jti in t && !IsLive(t[jti])
            && t[token.jti].family == t[jti].family && t[token.jti].user == t[jti].user
            && forall j :: j in t && t[j].family == t[jti].family && IsLive(t[j]) ==> j == token.jti
  {
    FamiliesKept(es, k + 1);
    var t, token := After(es, k + 1), OutcomeAt(es, k).token;
    forall j | j in t && t[j].family == t[jti].family && IsLive(t[j])
      ensures j == token.jti
    {
      assert Compatible(t, j, token.jti);
    }
  }

  ghost predicate Dead(t: Table, family: string) {
    InUse(t, family) && forall j :: j in t && t[j].family == family ==> !IsLive(t[j])
  }

  lemma StepKeepsDead(t: Table, e: Event, family: string)
    requires Dead(t, family) && (e.Issue? ==> !InUse(t, e.family))
    ensures Dead(Step(t, e), family)
  {
    var jti :| jti in t && t[jti].family == family;
    assert jti in Step(t, e) && Step(t, e)[jti].family == family;
  }

  lemma {:induction false} DeadStaysDead(es: seq<Event>, m: nat, n: nat, family: string)
    requires m <= n <= |es| && FreshFamilies(es) && Dead(After(es, m), family)
    ensures Dead(After(es, n), family)
  {
    if m < n {
      DeadStaysDead(es, m, n - 1, family);
      assert FreshAt(es, n - 1);
      StepKeepsDead(After(es, n - 1), es[n - 1], family);
    }
  }

  // After a reuse is seen (and the revocation goes through), the family has no live token in any later state.
  lemma ReuseKillsFamily(es: seq<Event>, k: nat, n: nat)
    requires k < n <= |es| && FreshFamilies(es)
    requires es[k].Rotate? && OutcomeAt(es, k) == Reuse && es[k].db.revokeFamily
    ensures es[k].claims.value.jti in After(es, k)
    ensures Dead(After(es, n), After(es, k)[es[k].claims.value.jti].family)
  {
    RevocationKills(After(es, k), es[k].claims.value.jti);
    DeadStaysDead(es, k + 1, n, After(es, k)[es[k].claims.value.jti].family);
  }

  lemma RevocationKills(t: Table, jti: string)
    requires jti in t
    ensures Dead(RevokeFamily(t, t[jti].family), t[jti].family)
  {
    var t' := RevokeFamily(t, t[jti].family);
    assert jti in t' && t'[jti].family == t[jti].family;
  }

  // Presenting a token that has been rotated, however long ago, is a reuse.
  lemma SecondUseIsReuse(es: seq<Event>, i: nat, k: nat, jti: string)
    requires i < k < |es| && Rotates(es, i, jti)
    requires es[k].Rotate? && es[k].claims.Some? && es[k].claims.value.jti == jti
    requires es[k].claims.value.user != "" && es[k].db.lookup
    ensures OutcomeAt(es, k) == Reuse
  {
    RowsOnlyAge(es, i + 1, k, jti);
  }

  // ---------------------------------------------------------------- who can rotate

  // A rotation succeeds exactly for a live token, when every statement works and the new id is not taken; it then names
  // the row's user and hands out the new token of the same family.
  lemma RotatesExactly(es: seq<Event>, k: nat)
    requires k < |es| && es[k].Rotate?
    ensures var t, e, outcome := After(es, k), es[k], OutcomeAt(es, k);
            && (outcome.Success? <==>
                && e.claims.Some? && e.claims.value.jti != "" && e.claims.value.user != ""
                && e.db.lookup && e.db.update && e.db.id && e.db.sign && e.db.insert
                && e.claims.value.jti in t && e.newJti !in t
                && !t[e.claims.value.jti].revoked && !t[e.claims.value.jti].used)
            && (outcome.Success? ==>
                var row := t[e.claims.value.jti];
                outcome == Success(row.user, Claims(e.newJti, row.user, row.family)))
  {
  }

  // The token presented to call j is of this family, by what it says or by what is stored.
  predicate Presents(es: seq<Event>, j: nat, family: string)
    requires j < |es|
  {
    && es[j].Rotate? && es[j].claims.Some?
    && var c := es[j].claims.value;
       c.family == family || (c.jti in After(es, j) && After(es, j)[c.jti].family == family)
  }

  // As long as no token of its family is presented, a row stays as it is.
  lemma {:induction false} RowUntouched(es: seq<Event>, m: nat, n: nat, jti: string)
    requires m <= n <= |es| && jti in After(es, m)
    requires forall j :: m <= j < n ==> !Presents(es, j, After(es, m)[jti].family)
    ensures jti in After(es, n) && After(es, n)[jti] == After(es, m)[jti]
  {
    if m < n {
      RowUntouched(es, m, n - 1, jti);
      assert !Presents(es, n - 1, After(es, m)[jti].family);
    }
  }

  // Call k presents this token, and nothing stands in its way.
  predicate Offered(es: seq<Event>, k: nat, jti: string)
    requires k < |es|
  {
    && es[k].Rotate? && es[k].claims.Some?
    && es[k].claims.value.jti == jti != "" && es[k].claims.value.user != ""
    && es[k].db == Db(true, es[k].db.revokeFamily, true, true, true, true)
    && es[k].newJti !in After(es, k)
  }

  // An issued token can be rotated, however much later, if no token of its family has been presented in between.
  lemma IssuedCanRotate(es: seq<Event>, i: nat, k: nat)
    requires i < k < |es|
    requires es[i].Issue? && es[i].db.id && es[i].db.sign && es[i].db.insert && es[i].jti !in After(es, i)
    requires forall j :: i < j < k ==> !Presents(es, j, es[i].family)
    requires Offered(es, k, es[i].jti)
    ensures var e, token := es[i], es[k].newJti;
            OutcomeAt(es, k) == Success(e.user, Claims(token, e.user, e.family))
  {
    assert After(es, i + 1)[es[i].jti] == Row(es[i].user, es[i].family, false, false);
    RowUntouched(es, i + 1, k, es[i].jti);
    RotatesExactly(es, k);
  }

  // So can the token a rotation hands out, for the same user and in the same family.
  lemma RotatedCanRotate(es: seq<Event>, i: nat, k: nat)
    requires i < k < |es| && es[i].Rotate? && OutcomeAt(es, i).Success?
    requires forall j :: i < j < k ==> !Presents(es, j, OutcomeAt(es, i).token.family)
    requires Offered(es, k, OutcomeAt(es, i).token.jti)
    ensures var token := OutcomeAt(es, i).token;
            && es[i].claims.value.jti in After(es, i)
            && token.user == After(es, i)[es[i].claims.value.jti].user
            && token.family == After(es, i)[es[i].claims.value.jti].family
            && OutcomeAt(es, k) == Success(token.user, Claims(es[k].newJti, token.user, token.family))
  {
    var token := OutcomeAt(es, i).token;
    assert After(es, i + 1)[token.jti] == Row(token.user, token.family, false, false);
    RowUntouched(es, i + 1, k, token.jti);
    RotatesExactly(es, k);
  }

  // A token that is not in the store is not found; if it names a family, that whole family is revoked and nothing else
  // changes, and from then on the family is dead.
  lemma UnknownRevokesFamily(es: seq<Event>, k: nat, n: nat)
    requires k < n <= |es| && es[k].Rotate? && es[k].claims.Some? && es[k].db.lookup
    requires es[k].claims.value.jti != "" && es[k].claims.value.user != ""
    requires es[k].claims.value.jti !in After(es, k)
    ensures OutcomeAt(es, k) == NotFound
    ensures var t, t', family := After(es, k), After(es, k + 1), es[k].claims.value.family;
            if family == "" || !es[k].db.revokeFamily then t' == t
            else
              && t'.Keys == t.Keys
              && (forall j :: j in t && t[j].family == family ==> t'[j] == t[j].(revoked := true))
              && (forall j :: j in t && t[j].family != family ==> t'[j] == t[j])
              && (FreshFamilies(es) && InUse(t, family) ==> Dead(After(es, n), family))
  {
    var t, family := After(es, k), es[k].claims.value.family;
    if family != "" && es[k].db.revokeFamily && FreshFamilies(es) && InUse(t, family) {
      var jti :| jti in t && t[jti].family == family;
      RevocationKills(t, jti);
      DeadStaysDead(es, k + 1, n, family);
    }
  }

  // ---------------------------------------------------------------- one revocation, row by row

  // The same rows, except that those of the family are marked revoked.
  ghost predicate OnlyRevokes(t: Table, t': Table, family: string) {
    && t'.Keys == t.Keys
    && forall j :: j in t ==> t'[j] == t[j].(revoked := t[j].revoked || t[j].family == family)
  }

  lemma OnlyOneWay(t: Table, t': Table, family: string)
    requires OnlyRevokes(t, t', family)
    ensures t' == RevokeFamily(t, family)
  {
  }

  // ---------------------------------------------------------------- the store

  class RefreshTokenStore {
    var tokens: Table

    constructor ()
      ensures tokens == map[]
    {
      tokens := map[];
    }

    method IssueToken(user: string, jti: string, family: string, db: Db) returns (token: Option<Claims>)
      modifies this
      ensures tokens == Issued(old(tokens), user, jti, family, db)
      ensures token ==
              if db.id && db.sign && db.insert && jti !in old(tokens) then Some(Claims(jti, user, family)) else None
    {
      if !db.id || !db.sign {
        return None;
      }
      if !db.insert || jti in tokens {
        return None;
      }
      tokens := tokens[jti := Row(user, family, false, false)];
      token := Some(Claims(jti, user, family));
    }

    // revokeFamily; an error is ignored. When the statement works the family is dead; in any case no row is lost, none
    // changes but for its flag, and those of other families do not change.
    method Revoke(family: string, ok: bool)
      modifies this
      ensures ok && InUse(old(tokens), family) ==> Dead(tokens, family)
      ensures if ok then OnlyRevokes(old(tokens), tokens, family) else tokens == old(tokens)
    {
      if ok && InUse(tokens, family) {
        ghost var jti :| jti in tokens && tokens[jti].family == family;
        RevocationKills(tokens, jti);
      }
      if ok {
        tokens := RevokeFamily(tokens, family);
      }
    }

    method RotateToken(claims: Option<Claims>, newJti: string, db: Db) returns (outcome: Outcome)
      modifies this
      ensures (tokens, outcome) == Rotated(old(tokens), claims, newJti, db)
    {
      if claims.None? {
        return Failure;
      }
      var c := claims.value;
      if c.jti == "" || c.user == "" {
        return NotFound;
      }
      if !db.lookup {
        return Failure;
      }
      if c.jti !in tokens {
        if c.family != "" {
          Revoke(c.family, db.revokeFamily);
          if db.revokeFamily {
            OnlyOneWay(old(tokens), tokens, c.family);
          }
        }
        return NotFound;
      }
      var row := tokens[c.jti];
      if row.revoked || row.used {
        Revoke(row.family, db.revokeFamily);
        if db.revokeFamily {
          OnlyOneWay(old(tokens), tokens, row.family);
        }
        return Reuse;
      }
      if !db.update {
        return Failure;
      }
      tokens := tokens[c.jti := row.(revoked := true, used := true)];
      if !db.id || !db.sign || !db.insert || newJti in tokens {
        return Failure;
      }
      tokens := tokens[newJti := Row(row.user, row.family, false, false)];
      outcome := Success(row.user, Claims(newJti, row.user, row.family));
    }
  }
}
