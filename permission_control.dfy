/** The permission-resolution engine of porper/controllers/permission_controller.py:
    who is an administrator, how a record's condition filters it out of a
    result, which branch of the scoped `find` applies, and the gate in front
    of `create` and `delete`. Token resolution is a given map from access
    token to user id; the membership store is a given sequence of rows. */
module PermissionControl {
  import opened Records
  import opened UserGroups
  import opened PermissionModel

  /** The reserved group whose members are global administrators. */
  const ADMIN_GROUP_ID := "ffffffff-ffff-ffff-ffff-ffffffffffff"

  /** `token_controller.find(access_token)[0]['user_id']`: an unknown token
      leaves no first row, so the lookup fails. */
  function Resolve(tokens: map<string, string>, token: string): (r: Result<string>)
    ensures r.Ok? <==> token in tokens
    ensures r.Ok? ==> r.value == tokens[token]
    ensures r.Err? ==> r.error == Unauthenticated
  {
    if token in tokens then Ok(tokens[token]) else Err(Unauthenticated)
  }

  // ---------------------------------------------------------------------
  // Privilege queries

  /** `is_admin`: the user has a membership row in the administrator group,
      whatever that row's own admin flag says. */
  function IsAdmin(ms: seq<Membership>, user: string): bool {
    |RowsFor(ms, user, ADMIN_GROUP_ID)| > 0
  }

  /** A user is a global administrator iff some membership row links them to
      the administrator group. */
  lemma IsAdminIffMember(ms: seq<Membership>, user: string)
    ensures IsAdmin(ms, user) <==> exists m :: m in ms && LinksTo(m, user, ADMIN_GROUP_ID)
  {
    var rows := RowsFor(ms, user, ADMIN_GROUP_ID);
    if |rows| > 0 {
      RowsForExactly(ms, user, ADMIN_GROUP_ID, rows[0]);
    }
    if m :| m in ms && LinksTo(m, user, ADMIN_GROUP_ID) {
      RowsForExactly(ms, user, ADMIN_GROUP_ID, m);
    }
  }

  /** `is_group_admin`: the first row for (user, group) carries the admin
      flag. Later rows for the same pair are never looked at. */
  function IsGroupAdmin(ms: seq<Membership>, user: string, group: string): bool {
    var rows := RowsFor(ms, user, group);
    |rows| > 0 && rows[0].isAdmin
  }

  /** Group administration is decided by the first membership row for the
      pair, and by nothing else. */
  lemma IsGroupAdminIffFirstRow(ms: seq<Membership>, user: string, group: string)
    ensures IsGroupAdmin(ms, user, group) <==> exists i :: FirstLinkAt(ms, user, group, i) && ms[i].isAdmin
  {
    var rows := RowsFor(ms, user, group);
    if rows != [] {
      FirstRowIsFirstLink(ms, user, group);
      var i :| FirstLinkAt(ms, user, group, i) && ms[i] == rows[0];
      forall k | FirstLinkAt(ms, user, group, k) ensures k == i {
      }
    } else {
      forall i | 0 <= i < |ms| ensures !LinksTo(ms[i], user, group) {
        RowsForExactly(ms, user, group, ms[i]);
      }
    }
  }

  /** A user whose first row for a group is not an admin row is no admin of
      that group, even when a later row for the same pair is one. */
  lemma OnlyFirstRowConsulted()
    ensures var ms := [Membership("u", "g", false), Membership("u", "g", true)];
            !IsGroupAdmin(ms, "u", "g") && ms[1].isAdmin && LinksTo(ms[1], "u", "g")
  {
    var ms := [Membership("u", "g", false), Membership("u", "g", true)];
    assert RowsFor(ms, "u", "g") == [ms[0], ms[1]] by {
      assert ms[1..] == [ms[1]];
      assert ms[1..][1..] == [];
    }
  }

  /** `is_permitted_by_group`: an empty group denies; a truthy flag demands
      group administration; a flag equal to 0 grants without looking at the
      memberships at all; any other falsy flag denies. */
  function IsPermittedByGroup(ms: seq<Membership>, user: string, group: Option<string>, flag: AdminFlag): (r: bool)
    ensures !IsTruthy(group) ==> !r
    ensures IsTruthy(group) && flag == TruthyFlag ==> (r <==> IsGroupAdmin(ms, user, group.value))
    ensures IsTruthy(group) && flag == ZeroFlag ==> r
    ensures flag == OtherFalsyFlag ==> !r
  {
    if !IsTruthy(group) then false
    else if flag == TruthyFlag && IsGroupAdmin(ms, user, group.value) then true
    else if flag == ZeroFlag then true
    else false
  }

  /** A zero flag lets through a user who has no row in the group at all. */
  lemma ZeroFlagIgnoresMembership(ms: seq<Membership>, user: string, group: string)
    requires group != "" && RowsFor(ms, user, group) == []
    ensures IsPermittedByGroup(ms, user, Some(group), ZeroFlag)
    ensures !IsPermittedByGroup(ms, user, Some(group), TruthyFlag)
  {
  }

  // ---------------------------------------------------------------------
  // Condition filtering

  /** A record whose `condition` is present and non-empty. */
  predicate HasCondition(row: Record) {
    row.condition.Some?
  }

  function Unconditioned(rows: seq<Record>): (r: seq<Record>)
    ensures |r| <= |rows|
  {
    if rows == [] then []
    else (if HasCondition(rows[0]) then [] else [rows[0]]) + Unconditioned(rows[1..])
  }

  function Conditioned(rows: seq<Record>): (r: seq<Record>)
    ensures |r| <= |rows|
  {
    if rows == [] then []
    else (if HasCondition(rows[0]) then [rows[0]] else []) + Conditioned(rows[1..])
  }

  /** The two parts hold exactly the unconditioned and the conditioned records. */
  lemma {:induction false} PartitionExactly(rows: seq<Record>, x: Record)
    ensures x in Unconditioned(rows) <==> x in rows && !HasCondition(x)
    ensures x in Conditioned(rows) <==> x in rows && HasCondition(x)
  {
    if rows != [] {
      PartitionExactly(rows[1..], x);
      assert rows == [rows[0]] + rows[1..];
    }
  }

  lemma ConditionedAt(rows: seq<Record>, i: int)
    requires 0 <= i < |Conditioned(rows)|
    ensures HasCondition(Conditioned(rows)[i])
  {
    PartitionExactly(rows, Conditioned(rows)[i]);
  }

  /** Whether a conditioned record survives filtering for `user`: always
      without a user; with one, only when its condition has an "is_admin"
      key and the user is permitted by the record's group under that flag. */
  predicate Passes(ms: seq<Membership>, row: Record, user: Option<string>) {
    !IsTruthy(user) ||
    (row.condition.Some? && row.condition.value.isAdmin.Some? &&
     IsPermittedByGroup(ms, user.value, row.groupId, row.condition.value.isAdmin.value))
  }

  /** The conditioned records that pass, in their original order. */
  function Kept(ms: seq<Membership>, cs: seq<Record>, user: Option<string>): (r: seq<Record>)
    ensures |r| <= |cs|
  {
    if cs == [] then []
    else
      var last := cs[|cs| - 1];
      Kept(ms, cs[..|cs| - 1], user) + (if Passes(ms, last, user) then [last] else [])
  }

  /** `filter_conditions`: the input itself when no record has a condition;
      otherwise the unconditioned records followed by the conditioned ones
      that pass, each group in its original order. */
  function Filtered(ms: seq<Membership>, rows: seq<Record>, user: Option<string>): seq<Record> {
    if Conditioned(rows) == [] then rows
    else Unconditioned(rows) + Kept(ms, Conditioned(rows), user)
  }

  lemma {:induction false} KeptKeeps(ms: seq<Membership>, cs: seq<Record>, user: Option<string>, x: Record)
    requires x in cs && Passes(ms, x, user)
    ensures x in Kept(ms, cs, user)
  {
    var last := cs[|cs| - 1];
    if x != last {
      assert x in cs[..|cs| - 1] by {
        var k :| 0 <= k < |cs| && cs[k] == x;
        assert cs[..|cs| - 1][k] == x;
      }
      KeptKeeps(ms, cs[..|cs| - 1], user, x);
    }
  }

  lemma {:induction false} KeptOnlyPassing(ms: seq<Membership>, cs: seq<Record>, user: Option<string>, x: Record)
    requires x in Kept(ms, cs, user)
    ensures x in cs && Passes(ms, x, user)
  {
    var init := cs[..|cs| - 1];
    var last := cs[|cs| - 1];
    assert cs == init + [last];
    if x in Kept(ms, init, user) {
      KeptOnlyPassing(ms, init, user, x);
    }
  }

  /** One more record considered: a passing record extends `Kept` ... */
  lemma KeptGrows(ms: seq<Membership>, cs: seq<Record>, i: int, user: Option<string>)
    requires 0 <= i < |cs| && Passes(ms, cs[i], user)
    ensures Kept(ms, cs[..i + 1], user) == Kept(ms, cs[..i], user) + [cs[i]]
  {
    assert cs[..i + 1][..i] == cs[..i];
  }

  /** ... and a failing one leaves it as it was. */
  lemma KeptSame(ms: seq<Membership>, cs: seq<Record>, i: int, user: Option<string>)
    requires 0 <= i < |cs| && !Passes(ms, cs[i], user)
    ensures Kept(ms, cs[..i + 1], user) == Kept(ms, cs[..i], user)
  {
    assert cs[..i + 1][..i] == cs[..i];
  }

  lemma {:induction false} KeptWithoutUser(ms: seq<Membership>, cs: seq<Record>, user: Option<string>)
    requires !IsTruthy(user)
    ensures Kept(ms, cs, user) == cs
  {
    if cs != [] {
      KeptWithoutUser(ms, cs[..|cs| - 1], user);
      assert cs[..|cs| - 1] + [cs[|cs| - 1]] == cs;
    }
  }

  /** The first record goes to exactly one of the two parts. */
  lemma PartitionStep(rows: seq<Record>)
    requires rows != []
    ensures multiset(Unconditioned(rows)) + multiset(Conditioned(rows)) ==
            multiset{rows[0]} + multiset(Unconditioned(rows[1..])) + multiset(Conditioned(rows[1..]))
  {
    if HasCondition(rows[0]) {
      assert Conditioned(rows) == [rows[0]] + Conditioned(rows[1..]);
    } else {
      assert Unconditioned(rows) == [rows[0]] + Unconditioned(rows[1..]);
    }
  }

  /** Filtering splits the records into two parts that together hold each
      record exactly as often as the input does. */
  lemma {:induction false} PartitionIsPermutation(rows: seq<Record>)
    ensures multiset(Unconditioned(rows)) + multiset(Conditioned(rows)) == multiset(rows)
  {
    if rows != [] {
      PartitionIsPermutation(rows[1..]);
      PartitionStep(rows);
      assert rows == [rows[0]] + rows[1..];
    }
  }

  /** A record is in the filtered result iff it is in the input and is
      either unconditioned or passes its condition. */
  lemma FilteredExactly(ms: seq<Membership>, rows: seq<Record>, user: Option<string>, x: Record)
    ensures x in Filtered(ms, rows, user) <==> x in rows && (!HasCondition(x) || Passes(ms, x, user))
  {
    PartitionExactly(rows, x);
    if Conditioned(rows) != [] {
      if x in Kept(ms, Conditioned(rows), user) {
        KeptOnlyPassing(ms, Conditioned(rows), user, x);
      }
      if x in rows && HasCondition(x) && Passes(ms, x, user) {
        KeptKeeps(ms, Conditioned(rows), user, x);
      }
    }
  }

  /** Records without a condition all land in the unconditioned part. */
  lemma {:induction false} NoConditionsPartition(rows: seq<Record>)
    requires forall i :: 0 <= i < |rows| ==> !HasCondition(rows[i])
    ensures Unconditioned(rows) == rows && Conditioned(rows) == []
  {
    if rows != [] {
      assert !HasCondition(rows[0]);
      NoConditionsPartition(rows[1..]);
      assert rows == [rows[0]] + rows[1..];
    }
  }

  /** Without conditioned records the result is the input, and the general
      path (unconditioned records, then none) would give the same list. */
  lemma FilteredWithoutConditions(ms: seq<Membership>, rows: seq<Record>, user: Option<string>)
    requires forall i :: 0 <= i < |rows| ==> !HasCondition(rows[i])
    ensures Filtered(ms, rows, user) == rows
    ensures Unconditioned(rows) + Kept(ms, Conditioned(rows), user) == rows
  {
    NoConditionsPartition(rows);
    assert Unconditioned(rows) + [] == rows;
  }

  /** Filtering never adds records: the result is no longer than the input. */
  lemma FilteredNoLonger(ms: seq<Membership>, rows: seq<Record>, user: Option<string>)
    ensures |Filtered(ms, rows, user)| <= |rows|
  {
    PartitionIsPermutation(rows);
    assert |multiset(Unconditioned(rows))| + |multiset(Conditioned(rows))| == |multiset(rows)|;
  }

  /** With no acting user every record is kept: the result is a
      reordering of the input. */
  lemma FilteredWithoutUserKeepsAll(ms: seq<Membership>, rows: seq<Record>, user: Option<string>)
    requires !IsTruthy(user)
    ensures multiset(Filtered(ms, rows, user)) == multiset(rows)
  {
    PartitionIsPermutation(rows);
    KeptWithoutUser(ms, Conditioned(rows), user);
    if Conditioned(rows) == [] {
    }
  }

  /** With an acting user, a conditioned record whose condition has no
      "is_admin" key is dropped. */
  lemma FilteredDropsConditionWithoutFlag(ms: seq<Membership>, rows: seq<Record>, user: Option<string>, x: Record)
    requires IsTruthy(user) && x.condition == Some(Condition(None))
    ensures x !in Filtered(ms, rows, user)
  {
    FilteredExactly(ms, rows, user, x);
  }

  // ---------------------------------------------------------------------
  // The scoped find

  /** The branches of `find`, tried in this order. */
  datatype Branch =
    | OwnPermissions        // neither a user id nor a group id is asked for
    | GlobalAdminView       // the caller is a global administrator
    | GroupAdminView        // a group id is asked for and the caller administers it
    | SameUserView          // the asked-for user is the caller
    | MemberAdminView       // the caller administers one of the asked-for user's groups
    | Denied                // "not permitted"

  /** The caller administers one of the groups the target user belongs to. */
  ghost predicate AdministersGroupOf(ms: seq<Membership>, caller: string, target: string) {
    exists m :: m in GroupsOf(ms, target) && IsGroupAdmin(ms, caller, m.groupId)
  }

  /** The first-match decision list of `find`. */
  ghost function Decide(ms: seq<Membership>, caller: string, p: Record): Branch {
    if !IsTruthy(p.userId) && !IsTruthy(p.groupId) then OwnPermissions
    else if IsAdmin(ms, caller) then GlobalAdminView
    else if IsTruthy(p.groupId) then
      (if IsGroupAdmin(ms, caller, p.groupId.value) then GroupAdminView else Denied)
    else if caller == p.userId.value then SameUserView
    else if AdministersGroupOf(ms, caller, p.userId.value) then MemberAdminView
    else Denied
  }

  /** The user id each branch filters conditions with: the caller for its
      own records, none for a group query, the asked-for user otherwise. */
  function FilterUser(b: Branch, caller: string, p: Record): Option<string> {
    match b
    case OwnPermissions => Some(caller)
    case GroupAdminView => None
    case _ => p.userId
  }

  /** What `find` returns or raises. */
  ghost function FindResult(ms: seq<Membership>, tokens: map<string, string>, scan: seq<Record>,
                            token: string, p: Record): Result<seq<Record>> {
    match Resolve(tokens, token)
    case Err(e) => Err(e)
    case Ok(caller) =>
      var b := Decide(ms, caller, p);
      if b == Denied then Err(Forbidden)
      else Ok(Filtered(ms, Select(scan, p), FilterUser(b, caller, p)))
  }

  /** The parameters after `find` has run: a self query writes the caller's
      id into them. */
  function SentParams(tokens: map<string, string>, token: string, p: Record): Record {
    if token in tokens && !IsTruthy(p.userId) && !IsTruthy(p.groupId)
    then p.(userId := Some(tokens[token])) else p
  }

  /** Every record `find` returns is a stored record that passes the query's
      filter. */
  lemma FindReturnsStoredMatches(ms: seq<Membership>, tokens: map<string, string>, scan: seq<Record>,
                                 token: string, p: Record, x: Record)
    requires FindResult(ms, tokens, scan, token, p).Ok?
    requires x in FindResult(ms, tokens, scan, token, p).value
    ensures x in scan && Matches(p, x)
  {
    var caller := tokens[token];
    var b := Decide(ms, caller, p);
    FilteredExactly(ms, Select(scan, p), FilterUser(b, caller, p), x);
    SelectExactly(scan, p, x);
  }

  /** A caller asking for their own records by user id is never refused. */
  lemma SameUserSucceeds(ms: seq<Membership>, tokens: map<string, string>, scan: seq<Record>,
                         token: string, p: Record)
    requires token in tokens && IsTruthy(p.userId) && !IsTruthy(p.groupId) && p.userId.value == tokens[token]
    ensures FindResult(ms, tokens, scan, token, p).Ok?
  {
  }

  /** A caller who administers a group the asked-for user belongs to is
      never refused. */
  lemma MemberAdminSucceeds(ms: seq<Membership>, tokens: map<string, string>, scan: seq<Record>,
                            token: string, p: Record, m: Membership)
    requires token in tokens && IsTruthy(p.userId) && !IsTruthy(p.groupId)
    requires m in ms && m.userId == p.userId.value && IsGroupAdmin(ms, tokens[token], m.groupId)
    ensures FindResult(ms, tokens, scan, token, p).Ok?
  {
    GroupsOfExactly(ms, p.userId.value, m);
  }

  /** `find` succeeds only on a privilege: a self query, global
      administration, administration of the asked-for group, being the
      asked-for user, or administering one of that user's groups. */
  lemma FindNeedsPrivilege(ms: seq<Membership>, tokens: map<string, string>, scan: seq<Record>,
                           token: string, p: Record)
    requires FindResult(ms, tokens, scan, token, p).Ok?
    ensures token in tokens
    ensures var caller := tokens[token];
            (!IsTruthy(p.userId) && !IsTruthy(p.groupId)) ||
            IsAdmin(ms, caller) ||
            (IsTruthy(p.groupId) && IsGroupAdmin(ms, caller, p.groupId.value)) ||
            (IsTruthy(p.userId) && !IsTruthy(p.groupId) && caller == p.userId.value) ||
            (IsTruthy(p.userId) && !IsTruthy(p.groupId) &&
             exists m :: m in ms && m.userId == p.userId.value && IsGroupAdmin(ms, caller, m.groupId))
  {
    var caller := tokens[token];
    if Decide(ms, caller, p) == MemberAdminView {
      var m :| m in GroupsOf(ms, p.userId.value) && IsGroupAdmin(ms, caller, m.groupId);
      GroupsOfExactly(ms, p.userId.value, m);
    }
  }

  /** A caller who is no global administrator, asking for another user who
      belongs to no group, is always refused. */
  lemma FindRefusesMemberlessTarget(ms: seq<Membership>, tokens: map<string, string>, scan: seq<Record>,
                                    token: string, p: Record)
    requires token in tokens && !IsAdmin(ms, tokens[token])
    requires IsTruthy(p.userId) && !IsTruthy(p.groupId) && p.userId.value != tokens[token]
    requires forall m :: m in ms ==> m.userId != p.userId.value
    ensures FindResult(ms, tokens, scan, token, p) == Err(Forbidden)
  {
    GroupsOfNone(ms, p.userId.value);
  }

  /** A self query (neither user id nor group id truthy) by a known caller
      is never refused: it returns the matching records filtered with the
      caller as the acting user. */
  lemma SelfQuerySucceeds(ms: seq<Membership>, tokens: map<string, string>, scan: seq<Record>,
                          token: string, p: Record)
    requires token in tokens && !IsTruthy(p.userId) && !IsTruthy(p.groupId)
    ensures FindResult(ms, tokens, scan, token, p) == Ok(Filtered(ms, Select(scan, p), Some(tokens[token])))
  {
  }

  /** A global administrator may query anyone and anything. */
  lemma FindAdminNeverRefused(ms: seq<Membership>, tokens: map<string, string>, scan: seq<Record>,
                              token: string, p: Record)
    requires token in tokens && IsAdmin(ms, tokens[token])
    ensures FindResult(ms, tokens, scan, token, p).Ok?
  {
  }

  /** An administrator of group G (and no global administrator) asking for
      G's records gets every matching record: conditions are filtered with
      no acting user, so none is dropped, not even one the administrator
      would fail. */
  lemma FindGroupAdminSeesAll(ms: seq<Membership>, tokens: map<string, string>, scan: seq<Record>,
                              token: string, p: Record)
    requires token in tokens && !IsAdmin(ms, tokens[token]) && IsTruthy(p.groupId)
    requires IsGroupAdmin(ms, tokens[token], p.groupId.value)
    ensures FindResult(ms, tokens, scan, token, p).Ok?
    ensures multiset(FindResult(ms, tokens, scan, token, p).value) == multiset(Select(scan, p))
  {
    var caller := tokens[token];
    assert Resolve(tokens, token) == Ok(caller);
    assert Decide(ms, caller, p) == GroupAdminView;
    assert FilterUser(GroupAdminView, caller, p) == None;
    assert FindResult(ms, tokens, scan, token, p) == Ok(Filtered(ms, Select(scan, p), None));
    FilteredWithoutUserKeepsAll(ms, Select(scan, p), None);
  }

  /** The `all` flag set by `is_permitted` does not change what `find` does. */
  lemma FindIgnoresAll(ms: seq<Membership>, tokens: map<string, string>, scan: seq<Record>,
                       token: string, p: Record, all: bool)
    ensures FindResult(ms, tokens, scan, token, p.(all := all)) == FindResult(ms, tokens, scan, token, p)
  {
    var q := p.(all := all);
    SelectIgnoresSubject(scan, p, p.userId, p.groupId, all);
    assert p.(userId := p.userId, groupId := p.groupId, all := all) == q;
    if token in tokens {
      var caller := tokens[token];
      assert q.userId == p.userId && q.groupId == p.groupId;
      assert Decide(ms, caller, q) == Decide(ms, caller, p);
      var b := Decide(ms, caller, p);
      assert FilterUser(b, caller, q) == FilterUser(b, caller, p);
    }
  }

  // ---------------------------------------------------------------------
  // is_permitted and are_permitted

  /** What `is_permitted` returns: whether `find` with `all` set returns
      any record, or the error it raises. */
  ghost function PermittedResult(ms: seq<Membership>, tokens: map<string, string>, scan: seq<Record>,
                                 token: string, p: Record): Result<bool> {
    match FindResult(ms, tokens, scan, token, p.(all := true))
    case Err(e) => Err(e)
    case Ok(rows) => Ok(rows != [])
  }

  /** `is_permitted` holds iff `find` on the same parameters returns a
      non-empty list; it fails iff `find` raises, with the same error. */
  lemma PermittedIffFindNonEmpty(ms: seq<Membership>, tokens: map<string, string>, scan: seq<Record>,
                                 token: string, p: Record)
    ensures PermittedResult(ms, tokens, scan, token, p) == Ok(true) <==>
              FindResult(ms, tokens, scan, token, p).Ok? && FindResult(ms, tokens, scan, token, p).value != []
    ensures PermittedResult(ms, tokens, scan, token, p).Err? <==> FindResult(ms, tokens, scan, token, p).Err?
    ensures PermittedResult(ms, tokens, scan, token, p).Err? ==>
              PermittedResult(ms, tokens, scan, token, p).error == FindResult(ms, tokens, scan, token, p).error
  {
    FindIgnoresAll(ms, tokens, scan, token, p, true);
  }

  /** What `are_permitted` returns: the first error or refusal in list
      order, else true. */
  ghost function AllPermitted(ms: seq<Membership>, tokens: map<string, string>, scan: seq<Record>,
                              token: string, ps: seq<Record>): Result<bool>
    decreases |ps|
  {
    if ps == [] then Ok(true)
    else match PermittedResult(ms, tokens, scan, token, ps[0])
      case Err(e) => Err(e)
      case Ok(ok) => if ok then AllPermitted(ms, tokens, scan, token, ps[1..]) else Ok(false)
  }

  /** `are_permitted` holds iff every element is permitted. */
  lemma {:induction false} AllPermittedIffEach(ms: seq<Membership>, tokens: map<string, string>, scan: seq<Record>,
                                               token: string, ps: seq<Record>)
    ensures AllPermitted(ms, tokens, scan, token, ps) == Ok(true) <==>
              forall i :: 0 <= i < |ps| ==> PermittedResult(ms, tokens, scan, token, ps[i]) == Ok(true)
  {
    if ps != [] {
      AllPermittedIffEach(ms, tokens, scan, token, ps[1..]);
      if forall i :: 0 <= i < |ps| ==> PermittedResult(ms, tokens, scan, token, ps[i]) == Ok(true) {
        forall i | 0 <= i < |ps[1..]| ensures PermittedResult(ms, tokens, scan, token, ps[1..][i]) == Ok(true) {
          assert ps[1..][i] == ps[i + 1];
        }
      }
      if AllPermitted(ms, tokens, scan, token, ps) == Ok(true) {
        forall i | 0 <= i < |ps| ensures PermittedResult(ms, tokens, scan, token, ps[i]) == Ok(true) {
          if i > 0 { assert ps[i] == ps[1..][i - 1]; }
        }
      }
    }
  }

  // ---------------------------------------------------------------------
  // The create/delete gate

  /** The acting user of `create` and `delete`: the given user id when
      truthy, else the one the access token resolves to. */
  function CallerOf(tokens: map<string, string>, token: string, userId: Option<string>): (r: Result<string>)
    ensures IsTruthy(userId) ==> r == Ok(userId.value)
    ensures !IsTruthy(userId) ==> (r.Ok? <==> token in tokens)
  {
    if IsTruthy(userId) then Ok(userId.value) else Resolve(tokens, token)
  }

  /** `has_allowed_permission`, as evidently intended: some stored record
      grants "create" on the parameters' resource and value. The caller's
      id plays no part. */
  function HasAllowed(rows: seq<Record>, p: Record): bool {
    Select(rows, p.(action := Some("create"))) != []
  }

  /** A stored record that grants "create" on the resource and value of `p`. */
  predicate CreateGrantFor(p: Record, x: Record) {
    x.action == Some("create") &&
    (IsTruthy(p.resource) ==> x.resource == p.resource) &&
    (IsTruthy(p.value) ==> x.value == p.value || x.value == Some(ALL))
  }

  /** The gate lets a non-administrator through iff some stored record
      grants "create" on the same resource and value. */
  lemma HasAllowedIffCreateGrant(rows: seq<Record>, p: Record)
    ensures HasAllowed(rows, p) <==> exists i :: 0 <= i < |rows| && CreateGrantFor(p, rows[i])
  {
    var q := p.(action := Some("create"));
    if HasAllowed(rows, p) {
      var x := Select(rows, q)[0];
      SelectOnlyMatches(rows, q, x);
      var i :| 0 <= i < |rows| && rows[i] == x;
      assert CreateGrantFor(p, rows[i]);
    }
    if i :| 0 <= i < |rows| && CreateGrantFor(p, rows[i]) {
      SelectKeeps(rows, q, rows[i]);
    }
  }

  /** The requested action does not matter: a create grant allows every
      action on that resource and value. */
  lemma HasAllowedIgnoresAction(rows: seq<Record>, p: Record, action: Option<string>)
    ensures HasAllowed(rows, p.(action := action)) == HasAllowed(rows, p)
  {
    assert p.(action := action).(action := Some("create")) == p.(action := Some("create"));
  }

  /** The gate of `create` and `delete`: the acting user, when the user is a
      global administrator or a create grant exists. */
  function Authorize(ms: seq<Membership>, tokens: map<string, string>, rows: seq<Record>,
                     token: string, p: Record, userId: Option<string>): Result<string> {
    match CallerOf(tokens, token, userId)
    case Err(e) => Err(e)
    case Ok(caller) => if IsAdmin(ms, caller) || HasAllowed(rows, p) then Ok(caller) else Err(Forbidden)
  }

  /** A global administrator passes the gate whatever the parameters. */
  lemma AdminPassesGate(ms: seq<Membership>, tokens: map<string, string>, rows: seq<Record>,
                        token: string, p: Record, userId: Option<string>)
    requires CallerOf(tokens, token, userId).Ok? && IsAdmin(ms, CallerOf(tokens, token, userId).value)
    ensures Authorize(ms, tokens, rows, token, p, userId).Ok?
  {
  }

  /** Anyone else passes iff a create grant on the resource and value exists,
      and is otherwise refused as not permitted. */
  lemma GateForNonAdmins(ms: seq<Membership>, tokens: map<string, string>, rows: seq<Record>,
                         token: string, p: Record, userId: Option<string>)
    requires CallerOf(tokens, token, userId).Ok? && !IsAdmin(ms, CallerOf(tokens, token, userId).value)
    ensures Authorize(ms, tokens, rows, token, p, userId).Ok? <==>
              exists i :: 0 <= i < |rows| && CreateGrantFor(p, rows[i])
    ensures Authorize(ms, tokens, rows, token, p, userId).Err? ==>
              Authorize(ms, tokens, rows, token, p, userId).error == Forbidden
  {
    HasAllowedIffCreateGrant(rows, p);
  }

  /** A create grant on doc/42 lets its holder delete doc/42, and nothing
      lets them delete doc/99. */
  lemma CreateGrantAllowsDelete()
    ensures var grant := EmptyParams.(id := Some("u-U3-doc-create-42"), userId := Some("U3"),
                                      resource := Some("doc"), action := Some("create"), value := Some("42"));
            var tokens := map["t3" := "U3"];
            Authorize([], tokens, [grant], "t3",
                      EmptyParams.(resource := Some("doc"), action := Some("delete"), value := Some("42")), None) == Ok("U3") &&
            Authorize([], tokens, [grant], "t3",
                      EmptyParams.(resource := Some("doc"), value := Some("99")), None) == Err(Forbidden)
  {
    var grant := EmptyParams.(id := Some("u-U3-doc-create-42"), userId := Some("U3"),
                              resource := Some("doc"), action := Some("create"), value := Some("42"));
    var ask99 := EmptyParams.(resource := Some("doc"), value := Some("99"));
    HasAllowedIffCreateGrant([grant], ask99);
    var ask42 := EmptyParams.(resource := Some("doc"), action := Some("delete"), value := Some("42"));
    HasAllowedIffCreateGrant([grant], ask42);
    assert CreateGrantFor(ask42, [grant][0]);
  }

  // ---------------------------------------------------------------------
  // Findings: the source as written

  /** Line 65 as written compares the list `find` returns with 0. The file
      is Python 2 (it uses print statements), where every list orders above
      every number, so the comparison is true whatever was found. */
  function HasAllowedPermissionAsWritten(rows: seq<Record>, p: Record): (r: bool)
    ensures r
  {
    true
  }

  /** The create/delete gate with line 65 as written. */
  function AuthorizeAsWritten(ms: seq<Membership>, tokens: map<string, string>, rows: seq<Record>,
                              token: string, p: Record, userId: Option<string>): Result<string> {
    match CallerOf(tokens, token, userId)
    case Err(e) => Err(e)
    case Ok(caller) =>
      if IsAdmin(ms, caller) || HasAllowedPermissionAsWritten(rows, p) then Ok(caller) else Err(Forbidden)
  }

  /** As written the gate refuses nobody: every caller who resolves passes,
      whatever the memberships, the table and the parameters. */
  lemma AuthorizeAsWrittenOnlyNeedsCaller(ms: seq<Membership>, tokens: map<string, string>, rows: seq<Record>,
                                          token: string, p: Record, userId: Option<string>)
    ensures AuthorizeAsWritten(ms, tokens, rows, token, p, userId) == CallerOf(tokens, token, userId)
  {
  }

  /** With no memberships and an empty table, the gate as written lets a
      caller through, where the corrected gate refuses them. */
  lemma AsWrittenGateNeverRefuses()
    ensures AuthorizeAsWritten([], map["t" := "U"], [], "t", EmptyParams, None) == Ok("U")
    ensures Authorize([], map["t" := "U"], [], "t", EmptyParams, None) == Err(Forbidden)
  {
    assert !IsAdmin([], "U");
  }

  /** The corrected `is_permitted` returns true for a caller U1 when the
      table holds one matching record, even one that belongs to another
      user U2 (the self query ignores the subject), where the code as
      written raises. */
  lemma PermittedByAnyMatchingRecord()
    ensures var grant := EmptyParams.(id := Some("u-U2-doc-read-42"), userId := Some("U2"),
                                      resource := Some("doc"), action := Some("read"), value := Some("42"));
            PermittedResult([], map["t1" := "U1"], [grant], "t1", EmptyParams.(resource := Some("doc"))) == Ok(true)
  {
    var grant := EmptyParams.(id := Some("u-U2-doc-read-42"), userId := Some("U2"),
                              resource := Some("doc"), action := Some("read"), value := Some("42"));
    var p := EmptyParams.(resource := Some("doc"), all := true);
    SelectKeeps([grant], p, grant);
    assert Select([grant], p) == [grant];
    FilteredWithoutConditions([], [grant], Some("U1"));
  }

  // ---------------------------------------------------------------------
  // The controller

  class PermissionController {
    /** The permission table. */
    const permission: Permission
    /** The membership rows, in the membership store's scan order. */
    const userGroups: seq<Membership>
    /** Access token to user id. */
    const tokens: map<string, string>

    constructor (permission: Permission, userGroups: seq<Membership>, tokens: map<string, string>)
      ensures this.permission == permission && this.userGroups == userGroups && this.tokens == tokens
    {
      this.permission := permission;
      this.userGroups := userGroups;
      this.tokens := tokens;
    }

    /** `filter_conditions`: keeps the unconditioned records, then appends
        each conditioned record that passes. */
    method FilterConditions(rows: seq<Record>, user: Option<string>) returns (filtered: seq<Record>)
      ensures filtered == Filtered(userGroups, rows, user)
    {
      var permissions := Conditioned(rows);
      if |permissions| == 0 {
        return rows;
      }
      var unconditioned := Unconditioned(rows);
      filtered := unconditioned;
      ghost var kept: seq<Record> := [];
      var i := 0;
      while i < |permissions|
        invariant 0 <= i <= |permissions|
        invariant kept == Kept(userGroups, permissions[..i], user)
        invariant filtered == unconditioned + kept
      {
        var permission := permissions[i];
        ConditionedAt(rows, i);
        var flag := permission.condition.value.isAdmin;
        if !IsTruthy(user) {
          KeptGrows(userGroups, permissions, i, user);
          filtered, kept := filtered + [permission], kept + [permission];
        } else if flag.Some? && IsPermittedByGroup(userGroups, user.value, permission.groupId, flag.value) {
          KeptGrows(userGroups, permissions, i, user);
          filtered, kept := filtered + [permission], kept + [permission];
        } else {
          KeptSame(userGroups, permissions, i, user);
        }
        i := i + 1;
      }
      assert permissions[..i] == permissions;
    }

    /** The loop of `find` over the target's groups: whether the caller
        administers any of them. */
    method AdministersAny(caller: string, groups: seq<Membership>) returns (found: bool)
      ensures found <==> exists m :: m in groups && IsGroupAdmin(userGroups, caller, m.groupId)
    {
      var i := 0;
      while i < |groups|
        invariant 0 <= i <= |groups|
        invariant forall j :: 0 <= j < i ==> !IsGroupAdmin(userGroups, caller, groups[j].groupId)
      {
        if IsGroupAdmin(userGroups, caller, groups[i].groupId) {
          return true;
        }
        i := i + 1;
      }
      return false;
    }

    /** The decision list of `find`: which branch applies, tried in the
        source's order, with the loop over the target's groups. */
    method Scope(caller: string, params: Record) returns (b: Branch)
      ensures b == Decide(userGroups, caller, params)
    {
      if !IsTruthy(params.userId) && !IsTruthy(params.groupId) {
        return OwnPermissions;
      }
      if IsAdmin(userGroups, caller) {
        return GlobalAdminView;
      }
      if IsTruthy(params.groupId) {
        if IsGroupAdmin(userGroups, caller, params.groupId.value) {
          return GroupAdminView;
        }
        return Denied;
      }
      // here the user id is truthy: the branches above covered every other case
      if caller == params.userId.value {
        return SameUserView;
      }
      var groups := GroupsOf(userGroups, params.userId.value);
      if |groups| == 0 {
        return Denied;
      }
      var found := AdministersAny(caller, groups);
      if found {
        return MemberAdminView;
      }
      return Denied;
    }

    /** `find`: the records the caller may see, or the refusal. Every
        accepting branch fetches with the parameters and filters the
        conditions for the branch's user. Also returns the parameters as
        `find` leaves them: a self query writes the caller's id into them. */
    method Find(accessToken: string, params: Record) returns (r: Result<seq<Record>>, sent: Record)
      requires permission.Valid()
      ensures r == FindResult(userGroups, tokens, permission.Scan(), accessToken, params)
      ensures sent == SentParams(tokens, accessToken, params)
    {
      sent := params;
      var resolved := Resolve(tokens, accessToken);
      if resolved.Err? {
        return Err(resolved.error), sent;
      }
      var caller := resolved.value;
      var b := Scope(caller, params);
      if b == Denied {
        return Err(Forbidden), sent;
      }
      if b == OwnPermissions {
        sent := params.(userId := Some(caller));
      }
      var rows := permission.Find(sent);
      SelectIgnoresSubject(permission.Scan(), params, sent.userId, params.groupId, params.all);
      assert params.(userId := sent.userId, groupId := params.groupId, all := params.all) == sent;
      var filtered := FilterConditions(rows, FilterUser(b, caller, params));
      r := Ok(filtered);
    }

    /** `find_one` is not supported. */
    method FindOne(accessToken: string, params: Record) returns (r: Result<seq<Record>>)
      ensures r == Err(Unsupported)
    {
      r := Err(Unsupported);
    }

    /** `is_permitted`, calling the scoped `find` (see the findings for the
        code as written). Returns the parameters with `all` set. */
    method IsPermitted(accessToken: string, params: Record) returns (r: Result<bool>, sent: Record)
      requires permission.Valid()
      ensures r == PermittedResult(userGroups, tokens, permission.Scan(), accessToken, params)
      ensures sent == SentParams(tokens, accessToken, params.(all := true))
    {
      var rows;
      rows, sent := Find(accessToken, params.(all := true));
      if rows.Err? {
        return Err(rows.error), sent;
      }
      r := Ok(|rows.value| != 0);
    }

    /** `is_permitted` as written: it sets `all` and then calls `find_all`,
        which the class does not define, so it always raises. */
    method IsPermittedAsWritten(accessToken: string, params: Record) returns (r: Result<bool>, sent: Record)
      ensures sent == params.(all := true)
      ensures r == Err(MissingAttribute("find_all"))
    {
      sent := params.(all := true);
      r := Err(MissingAttribute("find_all"));
    }

    /** `are_permitted`: stops at the first element that is not permitted. */
    method ArePermitted(accessToken: string, paramsList: seq<Record>) returns (r: Result<bool>)
      requires permission.Valid()
      ensures r == AllPermitted(userGroups, tokens, permission.Scan(), accessToken, paramsList)
    {
      var i := 0;
      while i < |paramsList|
        invariant 0 <= i <= |paramsList|
        invariant AllPermitted(userGroups, tokens, permission.Scan(), accessToken, paramsList) ==
                  AllPermitted(userGroups, tokens, permission.Scan(), accessToken, paramsList[i..])
      {
        assert paramsList[i..][1..] == paramsList[i + 1..];
        var ok, _ := IsPermitted(accessToken, paramsList[i]);
        if ok.Err? {
          return Err(ok.error);
        }
        if !ok.value {
          return Ok(false);
        }
        i := i + 1;
      }
      r := Ok(true);
    }

    /** `has_allowed_permission`, as evidently intended (see the findings):
        works on a copy of the parameters, so the caller's are unchanged. */
    method HasAllowedPermission(userId: string, params: Record) returns (allowed: bool)
      requires permission.Valid()
      ensures allowed == HasAllowed(permission.Scan(), params)
    {
      var forAllowed := params.(action := Some("create"));
      var rows := permission.Find(forAllowed);
      allowed := |rows| > 0;
    }

    /** `create`: the gate, then the table's `create`. */
    method Create(accessToken: string, params: Record, userId: Option<string>) returns (r: Result<bool>)
      requires permission.Valid()
      modifies permission
      ensures permission.Valid()
      ensures var gate := old(Authorize(userGroups, tokens, permission.Scan(), accessToken, params, userId));
              if gate.Err? then
                r == Err(gate.error) &&
                permission.items == old(permission.items) && permission.order == old(permission.order)
              else
                r == Ok(true) &&
                permission.items == old(permission.items)[GenerateId(params) := params.(id := Some(GenerateId(params)))] &&
                permission.order == if GenerateId(params) in old(permission.items) then old(permission.order)
                                    else old(permission.order) + [GenerateId(params)]
    {
      var caller := CallerOf(tokens, accessToken, userId);
      if caller.Err? {
        return Err(caller.error);
      }
      if !IsAdmin(userGroups, caller.value) {
        var allowed := HasAllowedPermission(caller.value, params);
        if !allowed {
          return Err(Forbidden);
        }
      }
      var _ := permission.Create(params);
      r := Ok(true);
    }

    /** `update` is not supported. */
    method Update(accessToken: string, params: Record, userId: Option<string>) returns (r: Result<bool>)
      ensures r == Err(Unsupported)
    {
      r := Err(Unsupported);
    }

    /** `delete`: the gate, then the table's `delete`, whose own result is
        dropped: true is returned even when nothing was removed. */
    method Delete(accessToken: string, params: Record, userId: Option<string>) returns (r: Result<bool>)
      requires permission.Valid()
      modifies permission
      ensures permission.Valid()
      ensures var gate := old(Authorize(userGroups, tokens, permission.Scan(), accessToken, params, userId));
              var target := old(DeleteTarget(permission.Scan(), params));
              if gate.Err? || target.Err? then
                r == (if gate.Err? then Err(gate.error) else Err(target.error)) &&
                permission.items == old(permission.items) && permission.order == old(permission.order)
              else
                r == Ok(true) &&
                (target.value.Some? ==>
                   permission.items == old(permission.items) - {target.value.value} &&
                   permission.order == Without(old(permission.order), target.value.value)) &&
                (target.value.None? ==>
                   permission.items == old(permission.items) && permission.order == old(permission.order))
    {
      var caller := CallerOf(tokens, accessToken, userId);
      if caller.Err? {
        return Err(caller.error);
      }
      if !IsAdmin(userGroups, caller.value) {
        var allowed := HasAllowedPermission(caller.value, params);
        if !allowed {
          return Err(Forbidden);
        }
      }
      var removed := permission.Delete(params);
      if removed.Err? {
        return Err(removed.error);
      }
      r := Ok(true);
    }
  }

  /** With a single unconditioned record stored, a query without parameters
      returns that record to any known caller. */
  lemma SelfQueryOfSingleRecord(ms: seq<Membership>, tokens: map<string, string>, token: string, stored: Record)
    requires token in tokens && stored.condition.None?
    ensures FindResult(ms, tokens, [stored], token, EmptyParams) == Ok([stored])
  {
    var caller := tokens[token];
    assert Decide(ms, caller, EmptyParams) == OwnPermissions;
    SelectUnfiltered([stored], EmptyParams);
    FilteredWithoutConditions(ms, [stored], Some(caller));
  }

  /** A global administrator grants U2 a permission; U2's own query then
      returns exactly that record. */
  method AdminGrantSeenByGrantee() returns (r: Result<seq<Record>>)
    ensures r.Ok? && |r.value| == 1
    ensures r.value[0].userId == Some("U2") && r.value[0].resource == Some("doc") && r.value[0].value == Some("42")
  {
    var table := new Permission(map[], []);
    var controller := new PermissionController(table, [Membership("U1", ADMIN_GROUP_ID, false)],
                                               map["t1" := "U1", "t2" := "U2"]);
    var grant := EmptyParams.(userId := Some("U2"), resource := Some("doc"), action := Some("read"), value := Some("42"));
    assert IsAdmin(controller.userGroups, "U1") by {
      assert controller.userGroups[0] in controller.userGroups;
    }
    var created := controller.Create("t1", grant, None);
    var stored := grant.(id := Some(GenerateId(grant)));
    assert table.Scan() == [stored];
    var sent;
    r, sent := controller.Find("t2", EmptyParams);
    SelfQueryOfSingleRecord(controller.userGroups, controller.tokens, "t2", stored);
  }
}
