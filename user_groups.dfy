/** Group-membership rows and the two lookups the permission engine makes on
    them. The membership store itself is not part of this model: it is a
    given sequence of rows in the store's scan order. */
module UserGroups {

  /** One membership row: `userId` belongs to `groupId`, as an
      administrator of that group when `isAdmin` holds. */
  datatype Membership = Membership(userId: string, groupId: string, isAdmin: bool)

  predicate LinksTo(m: Membership, user: string, group: string) {
    m.userId == user && m.groupId == group
  }

  /** The rows for one (user, group) pair, in scan order: the lookup
      `find({'user_id': user, 'group_id': group})`. */
  function RowsFor(ms: seq<Membership>, user: string, group: string): (r: seq<Membership>)
    ensures |r| <= |ms|
  {
    if ms == [] then []
    else (if LinksTo(ms[0], user, group) then [ms[0]] else []) + RowsFor(ms[1..], user, group)
  }

  /** The rows of one user, in scan order: the lookup `find({'user_id': user})`. */
  function GroupsOf(ms: seq<Membership>, user: string): (r: seq<Membership>)
    ensures |r| <= |ms|
  {
    if ms == [] then []
    else (if ms[0].userId == user then [ms[0]] else []) + GroupsOf(ms[1..], user)
  }

  /** The (user, group) lookup returns exactly the rows linking the pair. */
  lemma {:induction false} RowsForExactly(ms: seq<Membership>, user: string, group: string, m: Membership)
    ensures m in RowsFor(ms, user, group) <==> m in ms && LinksTo(m, user, group)
  {
    if ms != [] {
      RowsForExactly(ms[1..], user, group, m);
      assert ms == [ms[0]] + ms[1..];
    }
  }

  /** The user lookup returns exactly the rows of that user. */
  lemma {:induction false} GroupsOfExactly(ms: seq<Membership>, user: string, m: Membership)
    ensures m in GroupsOf(ms, user) <==> m in ms && m.userId == user
  {
    if ms != [] {
      GroupsOfExactly(ms[1..], user, m);
      assert ms == [ms[0]] + ms[1..];
    }
  }

  /** A user without rows belongs to no group. */
  lemma {:induction false} GroupsOfNone(ms: seq<Membership>, user: string)
    requires forall m :: m in ms ==> m.userId != user
    ensures GroupsOf(ms, user) == []
  {
    if ms != [] {
      assert ms[0] in ms;
      forall m | m in ms[1..] ensures m.userId != user {
        assert m in ms;
      }
      GroupsOfNone(ms[1..], user);
    }
  }

  /** The first row for (user, group) sits at index `i` of the store. */
  ghost predicate FirstLinkAt(ms: seq<Membership>, user: string, group: string, i: int) {
    0 <= i < |ms| && LinksTo(ms[i], user, group) &&
    forall j :: 0 <= j < i ==> !LinksTo(ms[j], user, group)
  }

  /** The first row the lookup returns is the first matching row of the store. */
  lemma {:induction false} FirstRowIsFirstLink(ms: seq<Membership>, user: string, group: string)
    requires RowsFor(ms, user, group) != []
    ensures exists i :: FirstLinkAt(ms, user, group, i) && ms[i] == RowsFor(ms, user, group)[0]
  {
    if LinksTo(ms[0], user, group) {
      assert FirstLinkAt(ms, user, group, 0);
    } else {
      FirstRowIsFirstLink(ms[1..], user, group);
      var i :| FirstLinkAt(ms[1..], user, group, i) && ms[1..][i] == RowsFor(ms[1..], user, group)[0];
      assert FirstLinkAt(ms, user, group, i + 1);
    }
  }
}
