/** The refresh_tokens table under login, registration, rotation and logout, each a transaction run by
    itself. A row's id is its position; the token hash is a parameter, and a collision of hashes aborts
    the insertion as the table's unique constraint does. */
module RefreshTokens {
  import opened Options

  const TTL: int := 30 * 24 * 3600 * 1_000_000_000

  datatype Row = Row(
    organizationId: string,
    userId: string,
    tokenHash: string,
    expiresAt: int,
    revokedAt: Option<int>,
    rotatedFrom: Option<nat>)

  type Table = seq<Row>

  type Hash = string -> string

  /** `ok` is false when some other statement of the transaction fails and it is rolled back. */
  datatype Event =
    | Issue(user: string, org: string, minted: string, now: int, ok: bool)       // login, registration
    | Refresh(token: string, org: string, minted: string, now: int, ok: bool)
    | Logout(token: string, org: string, now: int, ok: bool)

  datatype Reply = Granted(user: string, org: string) | Refused

  function Insert(rows: Table, org: string, user: string, h: string, now: int, from: Option<nat>): Option<Table> {
    if exists i :: 0 <= i < |rows| && rows[i].tokenHash == h then None
    else Some(rows + [Row(org, user, h, now + TTL, None, from)])
  }

  /** The row of the SELECT in the refresh handler. */
  function Redeemable(rows: Table, h: string, org: string, now: int): Option<nat> {
    if rows == [] then None
    else
      var n := |rows| - 1;
      var r := rows[n];
      if r.tokenHash == h && r.organizationId == org && r.revokedAt == None && r.expiresAt > now then Some(n)
      else Redeemable(rows[..n], h, org, now)
  }

  lemma {:induction false} RedeemableRow(rows: Table, h: string, org: string, now: int)
    ensures match Redeemable(rows, h, org, now)
            case Some(i) => i < |rows| && rows[i].tokenHash == h && rows[i].organizationId == org
                            && rows[i].revokedAt == None && rows[i].expiresAt > now
            case None => forall i :: 0 <= i < |rows| && rows[i].tokenHash == h && rows[i].organizationId == org
                                     ==> rows[i].revokedAt != None || rows[i].expiresAt <= now
  {
    if rows != [] {
      RedeemableRow(rows[..|rows| - 1], h, org, now);
    }
  }

  function Revoke(rows: Table, i: nat, now: int): (r: Table)
    requires i < |rows|
    ensures |r| == |rows|
  {
    rows[i := rows[i].(revokedAt := Some(now))]
  }

  /** The UPDATE of the logout handler: every row of the token, revoked before or not. */
  function RevokeAll(rows: Table, h: string, org: string, now: int): (r: Table)
    ensures |r| == |rows|
  {
    seq(|rows|, i requires 0 <= i < |rows| =>
      if rows[i].tokenHash == h && rows[i].organizationId == org then rows[i].(revokedAt := Some(now)) else rows[i])
  }

  function Step(rows: Table, hash: Hash, e: Event): (Table, Reply) {
    match e
    case Issue(user, org, minted, now, ok) =>
      (match Insert(rows, org, user, hash(minted), now, None)
       case Some(t) => if ok then (t, Granted(user, org)) else (rows, Refused)
       case None => (rows, Refused))
    case Refresh(token, org, minted, now, ok) =>
      if token == "" || org == "" then (rows, Refused)
      else
        RedeemableRow(rows, hash(token), org, now);
        (match Redeemable(rows, hash(token), org, now)
         case None => (rows, Refused)
         case Some(i) =>
           match Insert(Revoke(rows, i, now), org, rows[i].userId, hash(minted), now, Some(i))
           case Some(t) => if ok then (t, Granted(rows[i].userId, org)) else (rows, Refused)
           case None => (rows, Refused))
    case Logout(token, org, now, ok) =>
      if token == "" || org == "" || !ok then (rows, Refused)
      else (RevokeAll(rows, hash(token), org, now), Refused)
  }

  function After(run: seq<Event>, hash: Hash): Table {
    if run == [] then [] else Step(After(run[..|run| - 1], hash), hash, run[|run| - 1]).0
  }

  function ReplyAt(run: seq<Event>, hash: Hash, i: nat): Reply
    requires i < |run|
  {
    Step(After(run[..i], hash), hash, run[i]).1
  }

  // ---- What one transaction does ----

  /** No row has this hash, whatever its organization, and whether revoked or expired. */
  predicate Unused(rows: Table, h: string) {
    forall i :: 0 <= i < |rows| ==> rows[i].tokenHash != h
  }

  /** A login or registration is granted exactly if its transaction succeeds and its hash is new, and then adds
      one live row, good for thirty days, at the head of a new chain. */
  lemma IssueStep(rows: Table, hash: Hash, user: string, org: string, minted: string, now: int, ok: bool)
    ensures Step(rows, hash, Issue(user, org, minted, now, ok))
            == if ok && Unused(rows, hash(minted))
               then (rows + [Row(org, user, hash(minted), now + 2_592_000_000_000_000, None, None)], Granted(user, org))
               else (rows, Refused)
  {
  }

  /** Row p is live and unexpired, with this hash, in this organization. */
  predicate RedeemableAt(rows: Table, p: nat, h: string, org: string, now: int) {
    && p < |rows| && rows[p].tokenHash == h && rows[p].organizationId == org
    && rows[p].revokedAt == None && rows[p].expiresAt > now
  }

  /** The table with row p revoked and its successor added, good for thirty days. */
  function Rotated(rows: Table, p: nat, org: string, h: string, now: int): Table
    requires p < |rows|
  {
    rows[p := rows[p].(revokedAt := Some(now))]
    + [Row(org, rows[p].userId, h, now + 2_592_000_000_000_000, None, Some(p))]
  }

  /** A rotation is granted exactly if its transaction succeeds, it names a redeemable row and its hash is new;
      then it revokes that row and adds the successor, which points back to it. */
  lemma RefreshStep(rows: Table, hash: Hash, token: string, org: string, minted: string, now: int, ok: bool)
    returns (p: nat)
    ensures var (after, reply) := Step(rows, hash, Refresh(token, org, minted, now, ok));
            if token != "" && org != "" && ok && Unused(rows, hash(minted))
               && exists i :: 0 <= i < |rows| && RedeemableAt(rows, i, hash(token), org, now)
            then
              && RedeemableAt(rows, p, hash(token), org, now)
              && reply == Granted(rows[p].userId, org) && after == Rotated(rows, p, org, hash(minted), now)
            else after == rows && reply == Refused
  {
    RedeemableRow(rows, hash(token), org, now);
    var found := Redeemable(rows, hash(token), org, now);
    p := if found.Some? then found.value else 0;
    if found.Some? {
      assert RedeemableAt(rows, p, hash(token), org, now);
      var revoked := Revoke(rows, p, now);
      assert forall i :: 0 <= i < |rows| ==> revoked[i].tokenHash == rows[i].tokenHash;
    }
  }

  /** A logout stamps every row of the token in the organization, and no other. */
  lemma LogoutStep(rows: Table, hash: Hash, token: string, org: string, now: int, ok: bool)
    ensures var after := Step(rows, hash, Logout(token, org, now, ok)).0;
            && |after| == |rows|
            && forall i :: 0 <= i < |rows| ==>
                             after[i] == if token != "" && org != "" && ok
                                            && rows[i].tokenHash == hash(token) && rows[i].organizationId == org
                                         then rows[i].(revokedAt := Some(now)) else rows[i]
  {
  }

  // ---- What every transaction keeps ----

  ghost predicate UniqueHashes(rows: Table) {
    forall i, j :: 0 <= i < j < |rows| ==> rows[i].tokenHash != rows[j].tokenHash
  }

  /** Rotation points backwards, to a revoked token of the same user and organization, which no other
      token was rotated from. */
  ghost predicate Linked(rows: Table) {
    && (forall i :: 0 <= i < |rows| && rows[i].rotatedFrom.Some? ==>
                      var p := rows[i].rotatedFrom.value;
                      && p < i && rows[p].revokedAt != None
                      && rows[p].userId == rows[i].userId && rows[p].organizationId == rows[i].organizationId)
    && (forall i, j :: 0 <= i < j < |rows| && rows[i].rotatedFrom.Some? ==> rows[i].rotatedFrom != rows[j].rotatedFrom)
  }

  /** The login or registration at the head of a token's chain. */
  function Root(rows: Table, i: nat): (r: nat)
    requires Linked(rows) && i < |rows|
    ensures r <= i
    decreases i
  {
    if rows[i].rotatedFrom == None then i else Root(rows, rows[i].rotatedFrom.value)
  }

  /** Of two tokens in one chain the older one is revoked. */
  ghost predicate OneLivePerChain(rows: Table)
    requires Linked(rows)
  {
    forall i: nat, j: nat :: i < j < |rows| && Root(rows, i) == Root(rows, j) ==> rows[i].revokedAt != None
  }

  ghost predicate Good(rows: Table) {
    UniqueHashes(rows) && Linked(rows) && OneLivePerChain(rows)
  }

  /** Rows are only ever added, and only their revocation changes, from unset to set. */
  ghost predicate Grows(before: Table, after: Table) {
    && |before| <= |after|
    && forall i :: 0 <= i < |before| ==>
                     && after[i] == before[i].(revokedAt := after[i].revokedAt)
                     && (before[i].revokedAt != None ==> after[i].revokedAt != None)
  }

  lemma StepGrows(rows: Table, hash: Hash, e: Event)
    ensures Grows(rows, Step(rows, hash, e).0)
  {
  }

  lemma {:induction false} RootKept(a: Table, b: Table, i: nat)
    requires Linked(a) && Linked(b) && Grows(a, b) && i < |a|
    ensures Root(b, i) == Root(a, i)
    decreases i
  {
    if a[i].rotatedFrom != None {
      RootKept(a, b, a[i].rotatedFrom.value);
    }
  }

  /** Revoking rows keeps everything. */
  lemma RevocationGood(a: Table, b: Table)
    requires Good(a) && Grows(a, b) && |a| == |b|
    ensures Good(b)
  {
    assert Linked(b);
    forall i: nat, j: nat | i < j < |b| && Root(b, i) == Root(b, j) ensures b[i].revokedAt != None {
      RootKept(a, b, i);
      RootKept(a, b, j);
    }
  }

  /** So does adding a token at the end of a chain whose last token has just been revoked, or a new chain. */
  lemma InsertGood(a: Table, row: Row)
    requires Good(a) && (forall i :: 0 <= i < |a| ==> a[i].tokenHash != row.tokenHash)
    requires row.rotatedFrom.Some? ==>
               var p := row.rotatedFrom.value;
               && p < |a| && a[p].revokedAt != None
               && a[p].userId == row.userId && a[p].organizationId == row.organizationId
               && (forall i: nat :: i < |a| && Root(a, i) == Root(a, p) ==> a[i].revokedAt != None)
               && (forall i :: 0 <= i < |a| ==> a[i].rotatedFrom != Some(p))
    ensures Good(a + [row])
  {
    var b := a + [row];
    assert Linked(b);
    forall i: nat, j: nat | i < j < |b| && Root(b, i) == Root(b, j) ensures b[i].revokedAt != None {
      RootKept(a, b, i);
      if j < |a| {
        RootKept(a, b, j);
      } else if row.rotatedFrom.Some? {
        RootKept(a, b, row.rotatedFrom.value);
      }
    }
  }

  /** The token being rotated is the only live one of its chain. */
  lemma LastOfChain(a: Table, p: nat, now: int)
    requires Good(a) && p < |a| && a[p].revokedAt == None
    ensures var b := Revoke(a, p, now);
            && Good(b)
            && (forall i: nat :: i < |b| && Root(b, i) == Root(b, p) ==> b[i].revokedAt != None)
            && (forall i :: 0 <= i < |b| ==> b[i].rotatedFrom != Some(p))
  {
    var b := Revoke(a, p, now);
    RevocationGood(a, b);
    assert forall i: nat :: p < i < |a| ==> Root(a, i) != Root(a, p);
    forall i: nat | i < |b| && Root(b, i) == Root(b, p) ensures b[i].revokedAt != None {
      RootKept(a, b, i);
      RootKept(a, b, p);
    }
  }

  lemma IssueGood(rows: Table, org: string, user: string, h: string, now: int)
    requires Good(rows) && Insert(rows, org, user, h, now, None).Some?
    ensures Good(Insert(rows, org, user, h, now, None).value)
  {
    InsertGood(rows, Row(org, user, h, now + TTL, None, None));
  }

  lemma RotateGood(rows: Table, i: nat, h: string, now: int)
    requires Good(rows) && i < |rows| && rows[i].revokedAt == None
    requires Insert(Revoke(rows, i, now), rows[i].organizationId, rows[i].userId, h, now, Some(i)).Some?
    ensures Good(Insert(Revoke(rows, i, now), rows[i].organizationId, rows[i].userId, h, now, Some(i)).value)
  {
    LastOfChain(rows, i, now);
    InsertGood(Revoke(rows, i, now), Row(rows[i].organizationId, rows[i].userId, h, now + TTL, None, Some(i)));
  }

  lemma StepGood(rows: Table, hash: Hash, e: Event)
    requires Good(rows)
    ensures Good(Step(rows, hash, e).0)
  {
    match e {
      case Issue(user, org, minted, now, ok) =>
        if Insert(rows, org, user, hash(minted), now, None).Some? {
          IssueGood(rows, org, user, hash(minted), now);
        }
      case Refresh(token, org, minted, now, ok) =>
        RedeemableRow(rows, hash(token), org, now);
        var found := Redeemable(rows, hash(token), org, now);
        if found.Some? {
          var revoked := Revoke(rows, found.value, now);
          if Insert(revoked, org, rows[found.value].userId, hash(minted), now, found).Some? {
            RotateGood(rows, found.value, hash(minted), now);
          }
        }
      case Logout(token, org, now, ok) =>
        RevocationGood(rows, RevokeAll(rows, hash(token), org, now));
    }
  }

  /** In every run: chains are acyclic, of one user and organization, with at most one child per token,
      every token that has a child revoked, and at most one live token per chain. */
  lemma {:induction false} RunGood(run: seq<Event>, hash: Hash)
    ensures Good(After(run, hash))
  {
    if run != [] {
      RunGood(run[..|run| - 1], hash);
      StepGood(After(run[..|run| - 1], hash), hash, run[|run| - 1]);
    }
  }

  lemma {:induction false} ChainOwner(rows: Table, i: nat)
    requires Linked(rows) && i < |rows|
    ensures rows[Root(rows, i)].userId == rows[i].userId && rows[Root(rows, i)].organizationId == rows[i].organizationId
    ensures rows[Root(rows, i)].rotatedFrom == None
    decreases i
  {
    if rows[i].rotatedFrom != None {
      ChainOwner(rows, rows[i].rotatedFrom.value);
    }
  }

  /** Tokens of one chain belong to one user of one organization, and at most one of them is live. */
  lemma OneLiveTokenPerSession(run: seq<Event>, hash: Hash, i: nat, j: nat)
    requires i < |After(run, hash)| && j < |After(run, hash)|
    ensures var rows := After(run, hash);
            Linked(rows) && (Root(rows, i) == Root(rows, j) ==>
                               && rows[i].userId == rows[j].userId && rows[i].organizationId == rows[j].organizationId
                               && (rows[i].revokedAt == None && rows[j].revokedAt == None ==> i == j))
  {
    RunGood(run, hash);
    ChainOwner(After(run, hash), i);
    ChainOwner(After(run, hash), j);
  }

  /** Rows and revocations are never undone by any later part of a run. */
  lemma {:induction false} RunGrows(run: seq<Event>, hash: Hash, k: nat)
    requires k <= |run|
    ensures Grows(After(run[..k], hash), After(run, hash))
  {
    if k == |run| {
      assert run[..k] == run;
    } else {
      var n := |run| - 1;
      assert run[..n][..k] == run[..k];
      RunGrows(run[..n], hash, k);
      StepGrows(After(run[..n], hash), hash, run[n]);
    }
  }

  lemma RevokedIsNotRedeemable(rows: Table, h: string, org: string, now: int, r: nat)
    requires UniqueHashes(rows) && r < |rows| && rows[r].tokenHash == h && rows[r].revokedAt != None
    ensures Redeemable(rows, h, org, now) == None
  {
    RedeemableRow(rows, h, org, now);
  }

  lemma RevokedIsRefused(run: seq<Event>, hash: Hash, k: nat, r: nat, j: nat)
    requires k <= j < |run| && run[j].Refresh? && r < |After(run[..k], hash)|
    requires After(run[..k], hash)[r].tokenHash == hash(run[j].token) && After(run[..k], hash)[r].revokedAt != None
    ensures ReplyAt(run, hash, j) == Refused
  {
    assert run[..j][..k] == run[..k];
    RunGrows(run[..j], hash, k);
    RunGood(run[..j], hash);
    RevokedIsNotRedeemable(After(run[..j], hash), hash(run[j].token), run[j].org, run[j].now, r);
  }

  /** A refresh token is good for one rotation: once redeemed, it is refused for ever. */
  lemma RedeemedOnce(run: seq<Event>, hash: Hash, i: nat, j: nat)
    requires i < j < |run| && run[i].Refresh? && run[j].Refresh? && run[j].token == run[i].token
    requires ReplyAt(run, hash, i).Granted?
    ensures ReplyAt(run, hash, j) == Refused
  {
    var rows, h := After(run[..i], hash), hash(run[i].token);
    RedeemableRow(rows, h, run[i].org, run[i].now);
    assert run[..i + 1][..i] == run[..i];
    RevokedIsRefused(run, hash, i + 1, Redeemable(rows, h, run[i].org, run[i].now).value, j);
  }

  /** A token that existed in the organization it was logged out of is refused for ever. */
  lemma LoggedOutIsRefused(run: seq<Event>, hash: Hash, i: nat, r: nat, j: nat)
    requires i < j < |run| && run[i].Logout? && run[i].ok && run[i].token != "" && run[i].org != ""
    requires r < |After(run[..i], hash)| && After(run[..i], hash)[r].tokenHash == hash(run[i].token)
    requires After(run[..i], hash)[r].organizationId == run[i].org
    requires run[j].Refresh? && run[j].token == run[i].token
    ensures ReplyAt(run, hash, j) == Refused
  {
    assert run[..i + 1][..i] == run[..i];
    RevokedIsRefused(run, hash, i + 1, r, j);
  }

  /** Every row was minted by a granted login, registration or rotation, which fixed its owner and expiry. */
  lemma {:induction false} RowHasSource(run: seq<Event>, hash: Hash, r: nat) returns (k: nat)
    requires r < |After(run, hash)|
    ensures k < |run| && !run[k].Logout? && |After(run[..k], hash)| == r
    ensures var row := After(run, hash)[r];
            && row.tokenHash == hash(run[k].minted) && row.expiresAt == run[k].now + 2_592_000_000_000_000
            && ReplyAt(run, hash, k) == Granted(row.userId, row.organizationId)
  {
    var n := |run| - 1;
    var rows := After(run[..n], hash);
    if r < |rows| {
      k := RowHasSource(run[..n], hash, r);
      assert run[..n][..k] == run[..k];
      StepGrows(rows, hash, run[n]);
    } else {
      k := n;
      if run[n].Refresh? {
        RedeemableRow(rows, hash(run[n].token), run[n].org, run[n].now);
      }
    }
  }

  /** A rotation is granted only for a token minted less than thirty days before, to the user and the
      organization it was minted for. */
  lemma RedeemedWasMinted(run: seq<Event>, hash: Hash, i: nat) returns (k: nat)
    requires i < |run| && run[i].Refresh? && ReplyAt(run, hash, i).Granted?
    ensures k < i && !run[k].Logout? && hash(run[k].minted) == hash(run[i].token)
    ensures run[i].now < run[k].now + 2_592_000_000_000_000
    ensures ReplyAt(run, hash, i) == ReplyAt(run, hash, k)
  {
    var rows, h := After(run[..i], hash), hash(run[i].token);
    RedeemableRow(rows, h, run[i].org, run[i].now);
    k := RowHasSource(run[..i], hash, Redeemable(rows, h, run[i].org, run[i].now).value);
    assert run[..i][..k] == run[..k];
  }

  // ---- Which tokens are good, read off the history ----

  /** The transaction ends the life of the organization's token with hash h. */
  ghost predicate Ends(run: seq<Event>, hash: Hash, m: nat, h: string, org: string)
    requires m < |run|
  {
    match run[m]
    case Refresh(token, o, _, _, _) => hash(token) == h && o == org && ReplyAt(run, hash, m).Granted?
    case Logout(token, o, _, ok) => hash(token) == h && o == org && token != "" && o != "" && ok
    case Issue(_, _, _, _, _) => false
  }

  /** Transaction k minted that hash in that organization. */
  ghost predicate Mints(run: seq<Event>, hash: Hash, k: nat, h: string, org: string)
    requires k < |run|
  {
    !run[k].Logout? && hash(run[k].minted) == h && ReplyAt(run, hash, k).Granted? && ReplyAt(run, hash, k).org == org
  }

  ghost predicate Unended(run: seq<Event>, hash: Hash, k: nat, h: string, org: string) {
    forall m :: k < m < |run| ==> !Ends(run, hash, m, h, org)
  }

  /** What one transaction does to the revocation of a row that is there. */
  lemma RowStep(rows: Table, hash: Hash, e: Event, r: nat)
    requires UniqueHashes(rows) && r < |rows|
    ensures var (after, reply) := Step(rows, hash, e);
            |after| >= |rows|
            && (after[r].revokedAt == None <==>
                  rows[r].revokedAt == None
                  && !match e
                      case Refresh(token, o, _, _, _) =>
                        hash(token) == rows[r].tokenHash && o == rows[r].organizationId && reply.Granted?
                      case Logout(token, o, _, ok) =>
                        hash(token) == rows[r].tokenHash && o == rows[r].organizationId && token != "" && o != "" && ok
                      case Issue(_, _, _, _, _) => false)
  {
    if e.Refresh? {
      RedeemableRow(rows, hash(e.token), e.org, e.now);
    }
  }

  lemma EndsPrefix(run: seq<Event>, hash: Hash, n: nat, m: nat, h: string, org: string)
    requires m < n <= |run|
    ensures Ends(run[..n], hash, m, h, org) == Ends(run, hash, m, h, org)
  {
    assert run[..n][..m] == run[..m];
  }

  lemma UnendedStep(run: seq<Event>, hash: Hash, k: nat, h: string, org: string)
    requires k + 1 < |run|
    ensures var n := |run| - 1;
            Unended(run, hash, k, h, org) <==> Unended(run[..n], hash, k, h, org) && !Ends(run, hash, n, h, org)
  {
    var n := |run| - 1;
    forall m | k < m < n ensures Ends(run[..n], hash, m, h, org) == Ends(run, hash, m, h, org) {
      EndsPrefix(run, hash, n, m, h, org);
    }
  }

  /** The row that a granted transaction mints. */
  lemma MintedRow(run: seq<Event>, hash: Hash, k: nat, h: string, org: string)
    requires k < |run| && Mints(run, hash, k, h, org)
    ensures var r := |After(run[..k], hash)|;
            && |After(run[..k + 1], hash)| == r + 1
            && After(run[..k + 1], hash)[r].tokenHash == h && After(run[..k + 1], hash)[r].organizationId == org
            && After(run[..k + 1], hash)[r].expiresAt == run[k].now + 2_592_000_000_000_000
            && After(run[..k + 1], hash)[r].revokedAt == None
  {
    assert run[..k + 1][..k] == run[..k];
    if run[k].Refresh? {
      RedeemableRow(After(run[..k], hash), hash(run[k].token), run[k].org, run[k].now);
    }
  }

  /** Row r has this hash, organization and expiry, and is live or not. */
  ghost predicate RowIs(rows: Table, r: nat, h: string, org: string, expiry: int, live: bool) {
    && r < |rows| && rows[r].tokenHash == h && rows[r].organizationId == org && rows[r].expiresAt == expiry
    && (rows[r].revokedAt == None <==> live)
  }

  lemma RowNext(run: seq<Event>, hash: Hash, r: nat, h: string, org: string, expiry: int, live: bool)
    requires run != [] && UniqueHashes(After(run[..|run| - 1], hash))
    requires RowIs(After(run[..|run| - 1], hash), r, h, org, expiry, live)
    ensures RowIs(After(run, hash), r, h, org, expiry, live && !Ends(run, hash, |run| - 1, h, org))
  {
    var n := |run| - 1;
    RowStep(After(run[..n], hash), hash, run[n], r);
    StepGrows(After(run[..n], hash), hash, run[n]);
  }

  lemma MintedRowIs(run: seq<Event>, hash: Hash, h: string, org: string)
    requires run != [] && Mints(run, hash, |run| - 1, h, org)
    ensures RowIs(After(run, hash), |After(run[..|run| - 1], hash)|, h, org,
                  run[|run| - 1].now + 2_592_000_000_000_000, true)
  {
    MintedRow(run, hash, |run| - 1, h, org);
    assert run[..|run|] == run;
  }

  lemma MintsPrefix(run: seq<Event>, hash: Hash, n: nat, k: nat, h: string, org: string)
    requires k < n <= |run| && Mints(run, hash, k, h, org)
    ensures Mints(run[..n], hash, k, h, org) && run[..n][..k] == run[..k]
  {
    assert run[..n][..k] == run[..k];
  }

  /** A row is live exactly if no transaction since it was minted has ended it. */
  lemma {:induction false} LiveIfUnended(run: seq<Event>, hash: Hash, k: nat, h: string, org: string)
    requires k < |run| && Mints(run, hash, k, h, org)
    ensures RowIs(After(run, hash), |After(run[..k], hash)|, h, org,
                  run[k].now + 2_592_000_000_000_000, Unended(run, hash, k, h, org))
  {
    var n := |run| - 1;
    if k == n {
      MintedRowIs(run, hash, h, org);
    } else {
      var r, init := |After(run[..k], hash)|, run[..n];
      MintsPrefix(run, hash, n, k, h, org);
      LiveIfUnended(init, hash, k, h, org);
      RunGood(init, hash);
      RowNext(run, hash, r, h, org, run[k].now + 2_592_000_000_000_000, Unended(init, hash, k, h, org));
      UnendedStep(run, hash, k, h, org);
    }
  }

  /** Some earlier granted transaction minted the token less than thirty days ago, and nothing ended it since. */
  ghost predicate GoodToken(run: seq<Event>, hash: Hash, h: string, org: string, now: int) {
    exists k :: 0 <= k < |run| && Mints(run, hash, k, h, org)
                && now < run[k].now + 2_592_000_000_000_000 && Unended(run, hash, k, h, org)
  }

  /** In every run the SELECT finds a row if and only if the token is good by its history. */
  lemma RedeemableIffGood(run: seq<Event>, hash: Hash, h: string, org: string, now: int)
    ensures Redeemable(After(run, hash), h, org, now).Some? <==> GoodToken(run, hash, h, org, now)
  {
    var rows := After(run, hash);
    RedeemableRow(rows, h, org, now);
    var found := Redeemable(rows, h, org, now);
    if found.Some? {
      var k := RowHasSource(run, hash, found.value);
      LiveIfUnended(run, hash, k, h, org);
    }
    if k :| 0 <= k < |run| && Mints(run, hash, k, h, org)
            && now < run[k].now + 2_592_000_000_000_000 && Unended(run, hash, k, h, org) {
      LiveIfUnended(run, hash, k, h, org);
    }
  }

  /** So a rotation is granted exactly for a good token, unless the new token's hash is taken or the
      transaction fails. */
  lemma RotationIsGrantedIff(run: seq<Event>, hash: Hash, j: nat)
    requires j < |run| && run[j].Refresh?
    ensures var e, rows := run[j], After(run[..j], hash);
            ReplyAt(run, hash, j).Granted?
            <==> && e.token != "" && e.org != "" && e.ok && GoodToken(run[..j], hash, hash(e.token), e.org, e.now)
                 && !Minted(run[..j], hash, hash(e.minted))
  {
    var e, rows := run[j], After(run[..j], hash);
    RedeemableIffGood(run[..j], hash, hash(e.token), e.org, e.now);
    UsedIffMinted(run[..j], hash, hash(e.minted));
    RedeemableRow(rows, hash(e.token), e.org, e.now);
    var p := RefreshStep(rows, hash, e.token, e.org, e.minted, e.now, e.ok);
  }

  /** Some granted transaction of the run minted that hash. */
  ghost predicate Minted(run: seq<Event>, hash: Hash, h: string) {
    exists k, org :: 0 <= k < |run| && Mints(run, hash, k, h, org)
  }

  lemma UsedIffMinted(run: seq<Event>, hash: Hash, h: string)
    ensures Unused(After(run, hash), h) <==> !Minted(run, hash, h)
  {
    var rows := After(run, hash);
    if i :| 0 <= i < |rows| && rows[i].tokenHash == h {
      var k := RowHasSource(run, hash, i);
      assert Mints(run, hash, k, h, rows[i].organizationId);
    }
    if k, org :| 0 <= k < |run| && Mints(run, hash, k, h, org) {
      LiveIfUnended(run, hash, k, h, org);
    }
  }

  /** In every run a login or registration is granted, to its own user and organization, if and only if its
      transaction succeeds and no granted transaction before it minted the same hash. */
  lemma IssueIsGrantedIff(run: seq<Event>, hash: Hash, j: nat)
    requires j < |run| && run[j].Issue?
    ensures var e := run[j];
            ReplyAt(run, hash, j) == Granted(e.user, e.org) <==> e.ok && !Minted(run[..j], hash, hash(e.minted))
  {
    var e := run[j];
    IssueStep(After(run[..j], hash), hash, e.user, e.org, e.minted, e.now, e.ok);
    UsedIffMinted(run[..j], hash, hash(e.minted));
  }

  /** The row just minted can be redeemed in its organization at any time before it expires. */
  lemma NewRowIsRedeemable(rows: Table, row: Row, t: int)
    requires Unused(rows, row.tokenHash) && row.revokedAt == None
    ensures Redeemable(rows + [row], row.tokenHash, row.organizationId, t).Some? <==> t < row.expiresAt
  {
    var all := rows + [row];
    RedeemableRow(all, row.tokenHash, row.organizationId, t);
    assert all[|rows|] == row && forall i :: 0 <= i < |rows| ==> all[i] == rows[i];
  }

  /** The token is good in the organization at all times before this one, and at no other. */
  ghost predicate GoodUntil(rows: Table, h: string, org: string, expiry: int) {
    forall t :: Redeemable(rows, h, org, t).Some? <==> t < expiry
  }

  lemma NewRowIsGood(rows: Table, row: Row)
    requires Unused(rows, row.tokenHash) && row.revokedAt == None
    ensures GoodUntil(rows + [row], row.tokenHash, row.organizationId, row.expiresAt)
  {
    forall t ensures Redeemable(rows + [row], row.tokenHash, row.organizationId, t).Some? <==> t < row.expiresAt {
      NewRowIsRedeemable(rows, row, t);
    }
  }

  // ---- Conservation ----

  function Live(rows: Table): nat {
    if rows == [] then 0 else Live(rows[..|rows| - 1]) + (if rows[|rows| - 1].revokedAt == None then 1 else 0)
  }

  lemma {:induction false} LiveRevoke(rows: Table, i: nat, now: int)
    requires i < |rows|
    ensures Live(Revoke(rows, i, now)) == Live(rows) - (if rows[i].revokedAt == None then 1 else 0)
  {
    var n := |rows| - 1;
    if i == n {
      assert Revoke(rows, i, now)[..n] == rows[..n];
    } else {
      assert Revoke(rows, i, now)[..n] == Revoke(rows[..n], i, now);
      LiveRevoke(rows[..n], i, now);
    }
  }

  /** The token being logged out is live in that organization, expired or not. */
  ghost predicate HitsLive(rows: Table, h: string, org: string) {
    exists i :: 0 <= i < |rows| && LiveAt(rows, i, h, org)
  }

  predicate LiveAt(rows: Table, i: nat, h: string, org: string)
    requires i < |rows|
  {
    rows[i].tokenHash == h && rows[i].organizationId == org && rows[i].revokedAt == None
  }

  /** The hash is unique, so it is hit in one place. */
  lemma HitsStep(rows: Table, h: string, org: string)
    requires UniqueHashes(rows) && rows != []
    ensures var n := |rows| - 1;
            && (HitsLive(rows, h, org) <==> HitsLive(rows[..n], h, org) || LiveAt(rows, n, h, org))
            && !(HitsLive(rows[..n], h, org) && LiveAt(rows, n, h, org))
  {
    var n := |rows| - 1;
    if i :| 0 <= i < |rows| && LiveAt(rows, i, h, org) {
      assert i < n ==> LiveAt(rows[..n], i, h, org);
    }
    if i :| 0 <= i < n && LiveAt(rows[..n], i, h, org) {
      assert LiveAt(rows, i, h, org);
    }
  }

  lemma {:induction false} LiveRevokeAll(rows: Table, h: string, org: string, now: int)
    requires UniqueHashes(rows)
    ensures Live(RevokeAll(rows, h, org, now)) == Live(rows) - (if HitsLive(rows, h, org) then 1 else 0)
  {
    if rows != [] {
      var n := |rows| - 1;
      assert RevokeAll(rows, h, org, now)[..n] == RevokeAll(rows[..n], h, org, now);
      LiveRevokeAll(rows[..n], h, org, now);
      HitsStep(rows, h, org);
    }
  }

  /** Logins and registrations that were granted, and logouts that hit a live token. */
  ghost function Opened(run: seq<Event>, hash: Hash): nat {
    if run == [] then 0
    else
      var n := |run| - 1;
      Opened(run[..n], hash) + (if run[n].Issue? && ReplyAt(run, hash, n).Granted? then 1 else 0)
  }

  ghost function Closed(run: seq<Event>, hash: Hash): nat {
    if run == [] then 0
    else
      var n := |run| - 1;
      var e := run[n];
      Closed(run[..n], hash)
      + (if e.Logout? && e.token != "" && e.org != "" && e.ok
            && HitsLive(After(run[..n], hash), hash(e.token), e.org) then 1 else 0)
  }

  /** Rotation neither creates nor destroys live tokens: they are the sessions opened minus those closed. */
  lemma {:induction false} LiveTokensAreConserved(run: seq<Event>, hash: Hash)
    ensures Live(After(run, hash)) + Closed(run, hash) == Opened(run, hash)
  {
    if run != [] {
      var n := |run| - 1;
      var rows, e := After(run[..n], hash), run[n];
      LiveTokensAreConserved(run[..n], hash);
      RunGood(run[..n], hash);
      LiveStep(rows, hash, e);
    }
  }

  lemma LiveStep(rows: Table, hash: Hash, e: Event)
    requires UniqueHashes(rows)
    ensures Live(Step(rows, hash, e).0)
            == Live(rows) + (if e.Issue? && Step(rows, hash, e).1.Granted? then 1 else 0)
               - (if e.Logout? && e.token != "" && e.org != "" && e.ok
                     && HitsLive(rows, hash(e.token), e.org) then 1 else 0)
  {
    match e {
      case Issue(user, org, minted, now, ok) =>
        assert (rows + [Row(org, user, hash(minted), now + TTL, None, None)])[..|rows|] == rows;
      case Refresh(token, org, minted, now, ok) =>
        RedeemableRow(rows, hash(token), org, now);
        var found := Redeemable(rows, hash(token), org, now);
        if found.Some? {
          var revoked := Revoke(rows, found.value, now);
          LiveRevoke(rows, found.value, now);
          var row := Row(org, rows[found.value].userId, hash(minted), now + TTL, None, found);
          assert (revoked + [row])[..|revoked|] == revoked;
        }
      case Logout(token, org, now, ok) =>
        LiveRevokeAll(rows, hash(token), org, now);
    }
  }

  // ---- The handlers ----

  lemma Extend(run: seq<Event>, hash: Hash, e: Event)
    ensures After(run + [e], hash) == Step(After(run, hash), hash, e).0
    ensures ReplyAt(run + [e], hash, |run|) == Step(After(run, hash), hash, e).1
  {
    assert (run + [e])[..|run|] == run;
  }

  lemma ReplyPrefix(run: seq<Event>, hash: Hash, e: Event, i: nat)
    requires i < |run|
    ensures ReplyAt(run + [e], hash, i) == ReplyAt(run, hash, i)
  {
    assert (run + [e])[..i] == run[..i];
  }

  /** What a login or registration makes of the run. */
  lemma IssueExtends(run: seq<Event>, hash: Hash, e: Event, row: Row)
    requires e.Issue? && row == Row(e.org, e.user, hash(e.minted), e.now + 2_592_000_000_000_000, None, None)
    ensures var rows := After(run, hash);
            (After(run + [e], hash), ReplyAt(run + [e], hash, |run|))
            == if e.ok && Unused(rows, row.tokenHash) then (rows + [row], Granted(e.user, e.org)) else (rows, Refused)
  {
    Extend(run, hash, e);
    IssueStep(After(run, hash), hash, e.user, e.org, e.minted, e.now, e.ok);
  }

  lemma OneMoreLive(rows: Table, row: Row)
    requires row.revokedAt == None
    ensures Live(rows + [row]) == Live(rows) + 1
  {
    assert (rows + [row])[..|rows|] == rows;
  }

  /** Some earlier rotation was granted for the token. */
  ghost predicate Redeemed(run: seq<Event>, hash: Hash, token: string) {
    exists i :: 0 <= i < |run| && run[i].Refresh? && run[i].token == token && ReplyAt(run, hash, i).Granted?
  }

  lemma RedeemedIsRefused(run: seq<Event>, hash: Hash, e: Event)
    requires e.Refresh? && Redeemed(run, hash, e.token)
    ensures ReplyAt(run + [e], hash, |run|) == Refused
  {
    var i :| 0 <= i < |run| && run[i].Refresh? && run[i].token == e.token && ReplyAt(run, hash, i).Granted?;
    ReplyPrefix(run, hash, e, i);
    RedeemedOnce(run + [e], hash, i, |run|);
  }

  class AuthHandler {
    var refreshTokens: Table
    const hashToken: Hash
    ghost var run: seq<Event>   // every transaction so far

    /** The table is what the transactions so far make of it. */
    ghost predicate Valid()
      reads this
    {
      refreshTokens == After(run, hashToken)
    }

    constructor (hashToken: Hash)
      ensures Valid() && run == [] && this.hashToken == hashToken
    {
      this.hashToken := hashToken;
      refreshTokens, run := [], [];
    }

    /** The INSERT of storeRefreshToken; false when the unique constraint refuses it. */
    method StoreRefreshToken(user: string, org: string, minted: string, now: int, rotatedFrom: Option<nat>)
      returns (ok: bool)
      modifies this`refreshTokens
      ensures ok <==> Unused(old(refreshTokens), hashToken(minted))
      ensures refreshTokens
              == if ok
                 then old(refreshTokens)
                      + [Row(org, user, hashToken(minted), now + 2_592_000_000_000_000, None, rotatedFrom)]
                 else old(refreshTokens)
    {
      var h := hashToken(minted);
      if exists i :: 0 <= i < |refreshTokens| && refreshTokens[i].tokenHash == h {
        return false;
      }
      refreshTokens := refreshTokens + [Row(org, user, h, now + TTL, None, rotatedFrom)];
      return true;
    }

    /** A login or registration: one more live token, or nothing. */
    method IssueRefreshToken(user: string, org: string, minted: string, now: int, commitOk: bool) returns (r: Reply)
      requires Valid()
      modifies this
      ensures Valid() && run == old(run) + [Issue(user, org, minted, now, commitOk)]
      ensures r == ReplyAt(run, hashToken, |old(run)|)
      ensures r == Granted(user, org) <==> commitOk && Unused(old(refreshTokens), hashToken(minted))
      ensures Live(refreshTokens) == Live(old(refreshTokens)) + if r.Granted? then 1 else 0
      ensures r.Granted? ==>
                && r == Granted(user, org)
                && refreshTokens
                   == old(refreshTokens)
                      + [Row(org, user, hashToken(minted), now + 2_592_000_000_000_000, None, None)]
                && GoodUntil(refreshTokens, hashToken(minted), org, now + 2_592_000_000_000_000)
      ensures r == Refused ==> refreshTokens == old(refreshTokens)
    {
      ghost var e := Issue(user, org, minted, now, commitOk);
      ghost var row := Row(org, user, hashToken(minted), now + 2_592_000_000_000_000, None, None);
      IssueExtends(run, hashToken, e, row);
      OneMoreLive(refreshTokens, row);
      if Unused(refreshTokens, row.tokenHash) {
        NewRowIsGood(refreshTokens, row);
      }
      run := run + [e];
      var snapshot := refreshTokens;
      var ok := StoreRefreshToken(user, org, minted, now, None);
      if !ok || !commitOk {
        refreshTokens := snapshot;   // rollback
        return Refused;
      }
      return Granted(user, org);
    }

    /** A rotation keeps the number of live tokens, and is refused once the token has been redeemed. */
    method RefreshHandler(token: string, org: string, minted: string, now: int, commitOk: bool) returns (r: Reply)
      requires Valid()
      modifies this
      ensures Valid() && run == old(run) + [Refresh(token, org, minted, now, commitOk)]
      ensures r == ReplyAt(run, hashToken, |old(run)|)
      ensures old(Redeemed(run, hashToken, token)) ==> r == Refused
      ensures r.Granted? ==> Redeemed(run, hashToken, token)
      ensures r.Granted?
              <==> && token != "" && org != "" && commitOk && Unused(old(refreshTokens), hashToken(minted))
                   && exists p :: 0 <= p < |old(refreshTokens)|
                                  && RedeemableAt(old(refreshTokens), p, hashToken(token), org, now)
      ensures r.Granted? ==>
                exists p :: 0 <= p < |old(refreshTokens)|
                            && RedeemableAt(old(refreshTokens), p, hashToken(token), org, now)
                            && r == Granted(old(refreshTokens)[p].userId, org)
                            && refreshTokens == Rotated(old(refreshTokens), p, org, hashToken(minted), now)
      ensures Live(refreshTokens) == Live(old(refreshTokens))
      ensures r == Refused ==> refreshTokens == old(refreshTokens)
    {
      ghost var e := Refresh(token, org, minted, now, commitOk);
      ghost var p := RefreshStep(refreshTokens, hashToken, token, org, minted, now, commitOk);
      Extend(run, hashToken, e);
      RunGood(run, hashToken);
      LiveStep(refreshTokens, hashToken, e);
      if Redeemed(run, hashToken, token) {
        RedeemedIsRefused(run, hashToken, e);
      }
      run := run + [e];
      assert run[|run| - 1] == e;
      if token == "" || org == "" {
        return Refused;
      }
      var snapshot := refreshTokens;
      var found := Redeemable(refreshTokens, hashToken(token), org, now);
      RedeemableRow(refreshTokens, hashToken(token), org, now);
      if found == None {
        return Refused;
      }
      var user := refreshTokens[found.value].userId;
      refreshTokens := Revoke(refreshTokens, found.value, now);
      var ok := StoreRefreshToken(user, org, minted, now, found);
      if !ok || !commitOk {
        refreshTokens := snapshot;   // rollback
        return Refused;
      }
      return Granted(user, org);
    }

    /** After a committed logout nothing live is left of the token in that organization. */
    method LogoutHandler(token: string, org: string, now: int, commitOk: bool)
      requires Valid()
      modifies this
      ensures Valid() && run == old(run) + [Logout(token, org, now, commitOk)]
      ensures token != "" && org != "" && commitOk ==> !HitsLive(refreshTokens, hashToken(token), org)
      ensures |refreshTokens| == |old(refreshTokens)|
      ensures var before := old(refreshTokens);
              forall i :: 0 <= i < |before| ==>
                            refreshTokens[i]
                            == if token != "" && org != "" && commitOk
                                  && before[i].tokenHash == hashToken(token) && before[i].organizationId == org
                               then before[i].(revokedAt := Some(now)) else before[i]
    {
      Extend(run, hashToken, Logout(token, org, now, commitOk));
      run := run + [Logout(token, org, now, commitOk)];
      if token == "" || org == "" || !commitOk {
        return;
      }
      refreshTokens := RevokeAll(refreshTokens, hashToken(token), org, now);
    }
  }
}
