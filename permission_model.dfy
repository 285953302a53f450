/** The permission table: record keys, the scan filter used by `find`, and a
    table class whose `Create`, `FindId`, `Delete` and `Find` follow
    porper/models/permission.py. The DynamoDB table is a map from key to
    record plus the order in which a scan returns the keys. */
module PermissionModel {
  import opened Records

  /** The wildcard value: a record with this value applies to every instance. */
  const ALL := "*"

  /** Python's `'%s' % x` of an optional string: an absent key prints as "None". */
  function Show(s: Option<string>): string {
    if s.Some? then s.value else "None"
  }

  /** Whose record a key names: a truthy user id wins over a truthy group id. */
  datatype Subject = UserSubject(user: string) | GroupSubject(group: string) | NoSubject

  function SubjectOf(p: Record): Subject {
    if IsTruthy(p.userId) then UserSubject(p.userId.value)
    else if IsTruthy(p.groupId) then GroupSubject(p.groupId.value)
    else NoSubject
  }

  /** `_generate_id`: "u-<user>-<resource>-<action>-<value>", "g-<group>-..."
      or "-<resource>-<action>-<value>". The first character tells which
      kind of subject the key was made for. */
  function GenerateId(p: Record): (id: string)
    ensures |id| > 0
    ensures id[0] == 'u' <==> SubjectOf(p).UserSubject?
    ensures id[0] == 'g' <==> SubjectOf(p).GroupSubject?
    ensures id[0] == '-' <==> SubjectOf(p).NoSubject?
  {
    var subject :=
      if IsTruthy(p.userId) then "u-" + p.userId.value
      else if IsTruthy(p.groupId) then "g-" + p.groupId.value
      else "";
    subject + "-" + Show(p.resource) + "-" + Show(p.action) + "-" + Show(p.value)
  }

  /** The key depends on the subject, resource, action and value only: two
      creates with the same fields land on the same key. */
  lemma GenerateIdDeterminedByKeyFields(p: Record, q: Record)
    requires SubjectOf(p) == SubjectOf(q)
    requires p.resource == q.resource && p.action == q.action && p.value == q.value
    ensures GenerateId(p) == GenerateId(q)
  {
  }

  /** A group id is ignored once a truthy user id is present. */
  lemma GenerateIdUserTakesPrecedence(p: Record, g: Option<string>)
    requires IsTruthy(p.userId)
    ensures GenerateId(p.(groupId := g)) == GenerateId(p)
  {
  }

  /** `-` also separates the fields, so different records can share a key. */
  lemma GenerateIdCollides()
    ensures var p := EmptyParams.(userId := Some("a-b"), resource := Some("c"));
            var q := EmptyParams.(userId := Some("a"), resource := Some("b-c"));
            p != q && GenerateId(p) == GenerateId(q)
  {
    var p := EmptyParams.(userId := Some("a-b"), resource := Some("c"));
    var q := EmptyParams.(userId := Some("a"), resource := Some("b-c"));
    assert GenerateId(p) == "u-a-b-c-None-None";
    assert GenerateId(q) == "u-a-b-c-None-None";
  }

  // ---------------------------------------------------------------------
  // The scan filter of `find`

  /** Whether a stored item passes the filter `find` builds from `p`:
      resource and action compared when given, value equal to the given
      value or to the wildcard. Subject fields and `all` play no part. */
  predicate Matches(p: Record, item: Record) {
    (IsTruthy(p.resource) ==> item.resource == p.resource) &&
    (IsTruthy(p.action) ==> item.action == p.action) &&
    (IsTruthy(p.value) ==> item.value == p.value || item.value == Some(ALL))
  }

  /** The items of a scan that pass the filter, in scan order. */
  function Select(rows: seq<Record>, p: Record): (r: seq<Record>)
    ensures |r| <= |rows|
  {
    if rows == [] then []
    else
      var last := rows[|rows| - 1];
      Select(rows[..|rows| - 1], p) + (if Matches(p, last) then [last] else [])
  }

  /** Every item that passes the filter is returned. */
  lemma {:induction false} SelectKeeps(rows: seq<Record>, p: Record, x: Record)
    requires x in rows && Matches(p, x)
    ensures x in Select(rows, p)
  {
    var last := rows[|rows| - 1];
    if x != last {
      assert x in rows[..|rows| - 1] by {
        var k :| 0 <= k < |rows| && rows[k] == x;
        assert k < |rows| - 1;
        assert rows[..|rows| - 1][k] == x;
      }
      SelectKeeps(rows[..|rows| - 1], p, x);
    }
  }

  /** Only items that pass the filter are returned. */
  lemma {:induction false} SelectOnlyMatches(rows: seq<Record>, p: Record, x: Record)
    requires x in Select(rows, p)
    ensures x in rows && Matches(p, x)
  {
    var init := rows[..|rows| - 1];
    var last := rows[|rows| - 1];
    assert rows == init + [last];
    if x in Select(init, p) {
      SelectOnlyMatches(init, p, x);
    }
  }

  /** `find` returns an item iff it is in the table and passes the filter. */
  lemma SelectExactly(rows: seq<Record>, p: Record, x: Record)
    ensures x in Select(rows, p) <==> x in rows && Matches(p, x)
  {
    if x in rows && Matches(p, x) {
      SelectKeeps(rows, p, x);
    }
    if x in Select(rows, p) {
      SelectOnlyMatches(rows, p, x);
    }
  }

  /** With none of resource, action and value given, `find` returns the whole scan. */
  lemma {:induction false} SelectUnfiltered(rows: seq<Record>, p: Record)
    requires !IsTruthy(p.resource) && !IsTruthy(p.action) && !IsTruthy(p.value)
    ensures Select(rows, p) == rows
  {
    if rows != [] {
      SelectUnfiltered(rows[..|rows| - 1], p);
      assert rows[..|rows| - 1] + [rows[|rows| - 1]] == rows;
    }
  }

  /** The result of `find` does not depend on the user id, group id or `all`. */
  lemma {:induction false} SelectIgnoresSubject(rows: seq<Record>, p: Record, u: Option<string>, g: Option<string>, all: bool)
    ensures Select(rows, p.(userId := u, groupId := g, all := all)) == Select(rows, p)
  {
    if rows != [] {
      SelectIgnoresSubject(rows[..|rows| - 1], p, u, g, all);
    }
  }

  /** A wildcard-valued record is found by a query for any concrete value
      with the same resource and action. */
  lemma WildcardFound(rows: seq<Record>, p: Record, k: int)
    requires 0 <= k < |rows|
    requires rows[k].resource == p.resource && rows[k].action == p.action
    requires rows[k].value == Some(ALL)
    ensures rows[k] in Select(rows, p)
  {
    SelectKeeps(rows, p, rows[k]);
  }

  /** A record with a concrete value is not found by a query for a
      different concrete value. */
  lemma ConcreteValueMismatch(rows: seq<Record>, p: Record, x: Record)
    requires IsTruthy(p.value) && x.value.Some?
    requires x.value != p.value && x.value != Some(ALL)
    ensures x !in Select(rows, p)
  {
    if x in Select(rows, p) {
      SelectOnlyMatches(rows, p, x);
    }
  }

  /** One conjunct of the filter expression `find` builds. */
  datatype Clause = ResourceIs(resource: string) | ActionIs(action: string) | ValueIn(value: string, wildcard: string)

  predicate Holds(c: Clause, item: Record) {
    match c
    case ResourceIs(r) => item.resource == Some(r)
    case ActionIs(a) => item.action == Some(a)
    case ValueIn(v, w) => item.value == Some(v) || item.value == Some(w)
  }

  predicate Satisfies(clauses: seq<Clause>, item: Record) {
    forall c :: c in clauses ==> Holds(c, item)
  }

  /** The clauses `find` joins with "and", one per truthy field among
      resource, action and value, in that order. */
  function FilterOf(p: Record): seq<Clause> {
    var byResource := if IsTruthy(p.resource) then [ResourceIs(p.resource.value)] else [];
    var byAction := if IsTruthy(p.action) then byResource + [ActionIs(p.action.value)] else byResource;
    if IsTruthy(p.value) then byAction + [ValueIn(p.value.value, ALL)] else byAction
  }

  /** The filter expression `find` builds selects exactly the items the
      parameters match. */
  lemma FilterOfMeansMatches(p: Record, x: Record)
    ensures Satisfies(FilterOf(p), x) <==> Matches(p, x)
  {
    var byResource := if IsTruthy(p.resource) then [ResourceIs(p.resource.value)] else [];
    var byAction := if IsTruthy(p.action) then byResource + [ActionIs(p.action.value)] else byResource;
    if IsTruthy(p.resource) {
      assert ResourceIs(p.resource.value) in byResource;
    }
    if IsTruthy(p.action) {
      SatisfiesAppend(byResource, ActionIs(p.action.value));
    }
    if IsTruthy(p.value) {
      SatisfiesAppend(byAction, ValueIn(p.value.value, ALL));
    }
  }

  // ---------------------------------------------------------------------
  // Deleting by fields

  /** The exact-field scan of `_find_id`: action, resource and value equal
      (no wildcard), and the user id or else the group id equal when truthy. */
  predicate ExactMatch(p: Record, item: Record) {
    item.action == p.action && item.resource == p.resource && item.value == p.value &&
    (if IsTruthy(p.userId) then item.userId == p.userId
     else if IsTruthy(p.groupId) then item.groupId == p.groupId
     else true)
  }

  /** The index of the first exact match in a scan. */
  function FirstExact(rows: seq<Record>, p: Record): (r: Option<nat>)
    ensures r.Some? ==> r.value < |rows| && ExactMatch(p, rows[r.value]) &&
                        forall j :: 0 <= j < r.value ==> !ExactMatch(p, rows[j])
    ensures r.None? ==> forall j :: 0 <= j < |rows| ==> !ExactMatch(p, rows[j])
  {
    if rows == [] then None
    else if ExactMatch(p, rows[0]) then Some(0)
    else match FirstExact(rows[1..], p)
      case None => None
      case Some(k) => Some(k + 1)
  }

  /** What `_find_id` returns for a scan: None when neither subject key is
      present, a KeyError when action, resource or value is absent (in the
      order the lookups are made), else the id of the first exact match. */
  function LookupId(rows: seq<Record>, p: Record): Result<Option<string>> {
    if p.userId.None? && p.groupId.None? then Ok(None)
    else if p.action.None? then Err(MissingKey("action"))
    else if p.resource.None? then Err(MissingKey("resource"))
    else if p.value.None? then Err(MissingKey("value"))
    else match FirstExact(rows, p)
      case None => Ok(None)
      case Some(i) => Ok(rows[i].id)
  }

  /** Over items that all carry an id, the id `_find_id` finds belongs to an
      exact match and every earlier item of the scan is not one; when it
      finds none, no item is one. */
  lemma LookupIdFindsFirstExact(rows: seq<Record>, p: Record)
    requires p.userId.Some? || p.groupId.Some?
    requires p.action.Some? && p.resource.Some? && p.value.Some?
    requires forall j :: 0 <= j < |rows| ==> rows[j].id.Some?
    ensures LookupId(rows, p).Ok?
    ensures LookupId(rows, p).value.None? ==> forall j :: 0 <= j < |rows| ==> !ExactMatch(p, rows[j])
    ensures LookupId(rows, p).value.Some? ==>
              exists i :: 0 <= i < |rows| && Some(LookupId(rows, p).value.value) == rows[i].id &&
                ExactMatch(p, rows[i]) && forall j :: 0 <= j < i ==> !ExactMatch(p, rows[j])
  {
    var f := FirstExact(rows, p);
    if f.Some? {
      assert Some(LookupId(rows, p).value.value) == rows[f.value].id;
    }
  }

  /** The key `delete` removes: the explicit id when present, else what
      `_find_id` finds. */
  function DeleteTarget(rows: seq<Record>, p: Record): Result<Option<string>> {
    if p.id.Some? then Ok(p.id) else LookupId(rows, p)
  }

  /** `order` with the key `k` taken out. */
  function Without(order: seq<string>, k: string): (r: seq<string>)
    ensures forall x :: x in r <==> x in order && x != k
  {
    if order == [] then []
    else (if order[0] == k then [] else [order[0]]) + Without(order[1..], k)
  }

  ghost predicate Distinct(order: seq<string>) {
    forall i, j :: 0 <= i < j < |order| ==> order[i] != order[j]
  }

  lemma {:induction false} WithoutKeepsDistinct(order: seq<string>, k: string)
    requires Distinct(order)
    ensures Distinct(Without(order, k))
  {
    if order != [] {
      WithoutKeepsDistinct(order[1..], k);
      var rest := Without(order[1..], k);
      assert order[0] !in rest by {
        assert order[0] !in order[1..];
      }
    }
  }

  /** The items of the table in scan order. */
  function Rows(items: map<string, Record>, keys: seq<string>): (r: seq<Record>)
    requires forall k :: k in keys ==> k in items
    ensures |r| == |keys| && forall i :: 0 <= i < |keys| ==> r[i] == items[keys[i]]
  {
    seq(|keys|, i requires 0 <= i < |keys| => items[keys[i]])
  }

  // ---------------------------------------------------------------------
  // The table

  class Permission {
    /** The stored items by key. */
    var items: map<string, Record>
    /** The keys in the order a scan returns them (first insertion first). */
    var order: seq<string>

    ghost predicate Valid()
      reads this
    {
      Distinct(order) &&
      (forall k :: k in items <==> k in order) &&
      (forall k :: k in items ==> items[k].id == Some(k))
    }

    /** Binds to an existing table: its items and their scan order, each
        key listed once and each item stored under its own id. */
    constructor (items: map<string, Record>, order: seq<string>)
      requires Distinct(order)
      requires forall k :: k in items <==> k in order
      requires forall k :: k in items ==> items[k].id == Some(k)
      ensures Valid() && this.items == items && this.order == order
    {
      this.items := items;
      this.order := order;
    }

    /** The result of a scan with no filter. */
    function Scan(): (rows: seq<Record>)
      reads this
      requires Valid()
      ensures |rows| == |order| && forall i :: 0 <= i < |order| ==> rows[i] == items[order[i]]
    {
      Rows(items, order)
    }

    /** `create`: sets the record's id to its generated key and puts it
        under that key, overwriting a record already there. */
    method Create(params: Record) returns (stored: Record)
      requires Valid()
      modifies this
      ensures Valid()
      ensures stored == params.(id := Some(GenerateId(params)))
      ensures items == old(items)[GenerateId(params) := stored]
      ensures order == if GenerateId(params) in old(items) then old(order) else old(order) + [GenerateId(params)]
    {
      var key := GenerateId(params);
      stored := params.(id := Some(key));
      if key !in items {
        order := order + [key];
      }
      items := items[key := stored];
    }

    /** `_find_id`: the key of the first item of a scan that matches the
        parameters exactly. */
    method FindId(params: Record) returns (r: Result<Option<string>>)
      requires Valid()
      ensures r == LookupId(Scan(), params)
    {
      if params.userId.None? && params.groupId.None? {
        return Ok(None);
      }
      if params.action.None? { return Err(MissingKey("action")); }
      if params.resource.None? { return Err(MissingKey("resource")); }
      if params.value.None? { return Err(MissingKey("value")); }
      var rows := Scan();
      var i := 0;
      while i < |rows|
        invariant 0 <= i <= |rows|
        invariant forall j :: 0 <= j < i ==> !ExactMatch(params, rows[j])
      {
        if ExactMatch(params, rows[i]) {
          FirstExactIs(rows, params, i);
          return Ok(rows[i].id);
        }
        i := i + 1;
      }
      FirstExactNone(rows, params);
      r := Ok(None);
    }

    /** `delete`: removes the item under the explicit id, or under the id
        `_find_id` finds; returns that id, or None when there is no id. */
    method Delete(params: Record) returns (r: Result<Option<string>>)
      requires Valid()
      modifies this
      ensures Valid()
      ensures r == old(DeleteTarget(Scan(), params))
      ensures r.Ok? && r.value.Some? ==>
                items == old(items) - {r.value.value} && order == Without(old(order), r.value.value)
      ensures !(r.Ok? && r.value.Some?) ==> items == old(items) && order == old(order)
    {
      var id := params.id;
      if id.None? {
        r := FindId(params);
        if r.Err? || r.value.None? {
          return;
        }
        id := r.value;
      }
      var key := id.value;
      WithoutKeepsDistinct(order, key);
      items := items - {key};
      order := Without(order, key);
      r := Ok(id);
    }

    /** `find`: builds the filter clause by clause, then returns the items
        of a scan that satisfy every clause. */
    method Find(params: Record) returns (rows: seq<Record>)
      requires Valid()
      ensures rows == Select(Scan(), params)
    {
      var all := Scan();
      if !IsTruthy(params.resource) && !IsTruthy(params.action) && !IsTruthy(params.value) {
        SelectUnfiltered(all, params);
        return all;
      }
      var clauses: seq<Clause> := [];
      if IsTruthy(params.resource) {
        clauses := clauses + [ResourceIs(params.resource.value)];
      }
      if IsTruthy(params.action) {
        clauses := clauses + [ActionIs(params.action.value)];
      }
      if IsTruthy(params.value) {
        clauses := clauses + [ValueIn(params.value.value, ALL)];
      }
      assert clauses == FilterOf(params);
      rows := [];
      var i := 0;
      while i < |all|
        invariant 0 <= i <= |all|
        invariant rows == Select(all[..i], params)
      {
        assert all[..i + 1][..i] == all[..i];
        FilterOfMeansMatches(params, all[i]);
        if Satisfies(clauses, all[i]) {
          rows := rows + [all[i]];
        }
        i := i + 1;
      }
      assert all[..i] == all;
    }
  }

  lemma SatisfiesAppend(clauses: seq<Clause>, c: Clause)
    ensures forall x :: Satisfies(clauses + [c], x) <==> Satisfies(clauses, x) && Holds(c, x)
  {
    forall x ensures Satisfies(clauses + [c], x) <==> Satisfies(clauses, x) && Holds(c, x) {
      if Satisfies(clauses, x) && Holds(c, x) {
        forall d | d in clauses + [c] ensures Holds(d, x) {
          if d != c { assert d in clauses; }
        }
      }
    }
  }

  lemma FirstExactIs(rows: seq<Record>, p: Record, i: int)
    requires 0 <= i < |rows| && ExactMatch(p, rows[i])
    requires forall j :: 0 <= j < i ==> !ExactMatch(p, rows[j])
    ensures FirstExact(rows, p) == Some(i)
  {
  }

  lemma FirstExactNone(rows: seq<Record>, p: Record)
    requires forall j :: 0 <= j < |rows| ==> !ExactMatch(p, rows[j])
    ensures FirstExact(rows, p) == None
  {
  }
}
