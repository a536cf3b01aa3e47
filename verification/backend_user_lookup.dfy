/**
 * `getSimulatedBackendUser`: which backend user, if any, the logged-in
 * frontend user may act as. The `be_users` table is a sequence of records in
 * the order the database returns them; the query keeps root-level records
 * (pid 0), adds one equality condition, and takes the first row.
 */
module BackendUserLookup {
  import opened Basics
  import opened PhpValues

  /** One `be_users` row, reduced to the columns the query reads. */
  datatype BackendUser = BackendUser(uid: int, pid: int, feUserName: string)

  /** Frontend-user field holding the explicitly mapped backend user id. */
  const SimulateField: string := "tx_simulatebe_beuser"
  /** Frontend-user field holding the login name. */
  const UserNameField: string := "username"

  /** The one condition the query adds besides pid 0. */
  datatype Criterion =
    | ByUid(uid: int)                           // uid = <explicit id>
    | ByFrontendUserName(name: Option<string>)  // tx_simulatebe_feuserusername = <username>; None is SQL NULL

  /** `(int)$user['tx_simulatebe_beuser']`; a missing field is null, which casts to 0. */
  function SimulatedUid(frontendUser: map<string, string>): int {
    if SimulateField in frontendUser then IntCast(frontendUser[SimulateField]) else 0
  }

  /** A positive explicit id selects by uid; anything else falls back to the username. */
  function CriterionFor(frontendUser: map<string, string>): (c: Criterion)
    ensures c.ByUid? <==> SimulatedUid(frontendUser) > 0
    ensures c.ByUid? ==> c.uid == SimulatedUid(frontendUser)
    ensures c.ByFrontendUserName? ==>
      (c.name.Some? <==> UserNameField in frontendUser)
      && (c.name.Some? ==> c.name.value == frontendUser[UserNameField])
  {
    var n := SimulatedUid(frontendUser);
    if n > 0 then ByUid(n)
    else if UserNameField in frontendUser then ByFrontendUserName(Some(frontendUser[UserNameField]))
    else ByFrontendUserName(None)
  }

  /** The WHERE clause: root level, and the added condition (`= NULL` holds for no row). */
  predicate Selects(c: Criterion, user: BackendUser) {
    && user.pid == 0
    && match c
       case ByUid(uid) => user.uid == uid
       case ByFrontendUserName(name) => name.Some? && user.feUserName == name.value
  }

  /** Position of the first row the query selects. */
  function FirstSelected(users: seq<BackendUser>, c: Criterion): (r: Option<nat>)
    ensures r.Some? ==> r.value < |users| && Selects(c, users[r.value])
    ensures r.Some? ==> forall j :: 0 <= j < r.value ==> !Selects(c, users[j])
    ensures r.None? <==> forall j :: 0 <= j < |users| ==> !Selects(c, users[j])
  {
    if |users| == 0 then None
    else if Selects(c, users[0]) then Some(0)
    else match FirstSelected(users[1..], c)
      case None => None
      case Some(i) => Some(i + 1)
  }

  /** `getSimulatedBackendUser()`: the first selected row, or null. */
  function FindBackendUser(users: seq<BackendUser>, frontendUser: map<string, string>): (r: Option<BackendUser>)
    ensures r.Some? ==> r.value in users && r.value.pid == 0
    ensures r.Some? ==> Selects(CriterionFor(frontendUser), r.value)
    ensures r.None? <==> forall u :: u in users ==> !Selects(CriterionFor(frontendUser), u)
  {
    match FirstSelected(users, CriterionFor(frontendUser))
    case None => None
    case Some(i) => Some(users[i])
  }

  /** Keeps the root-level rows, in order. */
  function RootLevel(users: seq<BackendUser>): (r: seq<BackendUser>)
    ensures forall u :: u in r <==> u in users && u.pid == 0
  {
    if |users| == 0 then []
    else (if users[0].pid == 0 then [users[0]] else []) + RootLevel(users[1..])
  }

  /** The first selected row itself, found by walking the rows. */
  function FirstRow(users: seq<BackendUser>, c: Criterion): Option<BackendUser> {
    if |users| == 0 then None
    else if Selects(c, users[0]) then Some(users[0])
    else FirstRow(users[1..], c)
  }

  lemma {:induction false} FirstRowIsFirstSelected(users: seq<BackendUser>, c: Criterion)
    ensures FirstRow(users, c) == match FirstSelected(users, c) case None => None case Some(i) => Some(users[i])
  {
    if |users| > 0 && !Selects(c, users[0]) {
      FirstRowIsFirstSelected(users[1..], c);
    }
  }

  lemma {:induction false} FirstRowRootLevel(users: seq<BackendUser>, c: Criterion)
    ensures FirstRow(users, c) == FirstRow(RootLevel(users), c)
  {
    if |users| > 0 {
      FirstRowRootLevel(users[1..], c);
      if users[0].pid == 0 {
        var roots := [users[0]] + RootLevel(users[1..]);
        assert RootLevel(users) == roots && roots[0] == users[0];
        assert roots[1..] == RootLevel(users[1..]);
      } else {
        assert RootLevel(users) == RootLevel(users[1..]);
      }
    }
  }

  /** Rows outside the root level never influence the result. */
  lemma OnlyRootLevelCounts(users: seq<BackendUser>, frontendUser: map<string, string>)
    ensures FindBackendUser(users, frontendUser) == FindBackendUser(RootLevel(users), frontendUser)
  {
    var c := CriterionFor(frontendUser);
    FirstRowIsFirstSelected(users, c);
    FirstRowIsFirstSelected(RootLevel(users), c);
    FirstRowRootLevel(users, c);
  }

  /** A positive explicit id wins: the username plays no part, and the row found has that uid. */
  lemma ExplicitIdWins(users: seq<BackendUser>, frontendUser: map<string, string>, name: string)
    requires SimulatedUid(frontendUser) > 0
    ensures FindBackendUser(users, frontendUser) == FindBackendUser(users, frontendUser[UserNameField := name])
    ensures FindBackendUser(users, frontendUser).Some? ==> FindBackendUser(users, frontendUser).value.uid == SimulatedUid(frontendUser)
  {
    assert SimulatedUid(frontendUser[UserNameField := name]) == SimulatedUid(frontendUser);
  }

  /** Without a positive explicit id, the row is the first root-level one mapped to the username. */
  lemma UserNameFallback(users: seq<BackendUser>, frontendUser: map<string, string>)
    requires SimulatedUid(frontendUser) <= 0
    ensures var r := FindBackendUser(users, frontendUser);
      && (UserNameField !in frontendUser ==> r.None?)
      && (r.Some? ==> r.value.feUserName == frontendUser[UserNameField])
      && (r.None? <==> forall u :: u in users && u.pid == 0 ==> UserNameField !in frontendUser || u.feUserName != frontendUser[UserNameField])
  {
  }

  /** A frontend user whose field holds the decimal id `n` is mapped to the first root row with uid `n`. */
  lemma DecimalIdSelectsUid(users: seq<BackendUser>, frontendUser: map<string, string>, n: nat)
    requires 0 < n <= IntMax
    requires SimulateField in frontendUser && frontendUser[SimulateField] == Decimal(n)
    ensures var r := FindBackendUser(users, frontendUser);
      && r == FirstRow(users, ByUid(n))
      && (r.Some? ==> r.value.uid == n && r.value.pid == 0)
      && (r.None? <==> forall u :: u in users ==> u.pid != 0 || u.uid != n)
  {
    IntCastOfDecimal(n, "");
    assert Decimal(n) + "" == Decimal(n);
    assert CriterionFor(frontendUser) == ByUid(n);
    FirstRowIsFirstSelected(users, ByUid(n));
  }

  /** A zero or negative explicit id means "no explicit id": the username decides. */
  lemma NonPositiveIdFallsBack(frontendUser: map<string, string>, n: nat)
    requires n <= IntMax
    requires SimulateField in frontendUser && frontendUser[SimulateField] == "-" + Decimal(n)
    ensures CriterionFor(frontendUser).ByFrontendUserName?
  {
    IntCastOfNegativeDecimal(n);
  }
}
