# Porper permission engine, in Dafny

Porper keeps permission records in a table. Each record says that a user (or
a group) may perform an action on a resource instance: a value, or the
wildcard `*` for every instance. Some records carry a condition. The engine
in `porper/controllers/permission_controller.py` does five things:

- decides who is a global administrator (a member of the reserved group
  `ffffffff-ffff-ffff-ffff-ffffffffffff`) and who administers a group;
- drops conditioned records the acting user does not satisfy;
- scopes `find` through a first-match decision list;
- answers `is_permitted` and `are_permitted`;
- gates `create` and `delete`. The evident intent is "global administrator,
  or some stored record grants create on the same resource and value", but
  whoever holds that grant does not matter. As written (see Findings), the
  gate lets every caller through whose identity resolves.

`porper/models/permission.py` is the table. It derives a record's key from
its fields, stores records under that key, finds the key of a record by its
fields, deletes by key, and scans with a filter on resource, action and
value (where the stored wildcard matches every value).

The project has four modules:

- `Records` (`records.dfy`): the shared shapes.
  - A parameters dictionary and a stored item are both a `Record` with
    optional fields. `None` means the key is absent; `Some("")` means it is
    present but falsy.
  - The `is_admin` flag of a condition is an `AdminFlag`: truthy, equal to
    0 (`0` and `false`), or another falsy value (`null`, `""`).
  - Errors are `Unauthenticated`, `Forbidden`, `Unsupported`, a `KeyError`
    (`MissingKey`) and an `AttributeError` (`MissingAttribute`).
- `UserGroups` (`user_groups.dfy`): the membership rows and the two lookups
  the engine makes on them.
- `PermissionModel` (`permission_model.dfy`): the table.
  - The pure parts are key derivation, the scan filter and the `_find_id`
    lookup.
  - `class Permission` holds a map from key to record and the keys in scan
    order. Its `Create`, `FindId`, `Delete` and `Find` are each proved
    against a specification function.
- `PermissionControl` (`permission_control.dfy`): the engine.
  - The decision functions: `IsAdmin`, `IsGroupAdmin`, `IsPermittedByGroup`,
    `Filtered`, `Decide`, `FindResult`, `PermittedResult`, `AllPermitted`
    and `Authorize`.
  - `class PermissionController` holds the table, the membership rows and
    the token map. Each method is proved equal to the matching function,
    and the properties of the engine are proved as lemmas about those
    functions.

The model follows the code in these places, where a reader might expect
otherwise:

- Group administration is decided by the FIRST membership row for the
  (user, group) pair (`OnlyFirstRowConsulted`). A later row for the same
  pair is never looked at.
- A condition flag equal to 0 grants access without looking at membership
  at all (`ZeroFlagIgnoresMembership`). The comment at
  porper/controllers/permission_controller.py:36 speaks of "the member of
  this group", but no membership lookup is made, so a user outside the
  group also passes.
- Delete by fields does not recompute the key. It takes the id of the first
  item of a scan that matches action, resource, value and the subject
  exactly (`LookupId`).
- The derived key is not injective (`GenerateIdCollides`).
- The table's `find` ignores the user id and group id (that part of the
  filter is commented out). A self query therefore returns every matching
  unconditioned record of every user. Conditioned records are kept or
  dropped by their condition, with the caller as the acting user
  (`SelectIgnoresSubject`, `SelfQueryOfSingleRecord`, `FilteredExactly`).
- The create/delete gate does not look at who holds the create grant
  (`HasAllowed`).

## Model

| member | source | states |
|---|---|---|
| `UserGroups.RowsFor` | porper/controllers/permission_controller.py:20 | the (user, group) membership lookup returns no more rows than the store holds |
| `UserGroups.GroupsOf` | porper/controllers/permission_controller.py:152 | the lookup of a user's memberships returns no more rows than the store holds |
| `UserGroups.RowsForExactly` | porper/controllers/permission_controller.py:25 | a row is returned by the (user, group) lookup iff it is stored and links exactly that user to that group |
| `UserGroups.GroupsOfExactly` | porper/controllers/permission_controller.py:152 | a row is returned by the user lookup iff it is stored and belongs to that user |
| `UserGroups.GroupsOfNone` | porper/controllers/permission_controller.py:152-153 | a user with no stored row has an empty group list, the case `find` refuses |
| `UserGroups.FirstRowIsFirstLink` | porper/controllers/permission_controller.py:25-26 | `rows[0]` of the lookup is the earliest stored row for the pair, and no earlier row links it |
| `PermissionModel.GenerateId` | porper/models/permission.py:26-32 | the key is non-empty; its first character is 'u' iff a truthy user id was given, 'g' iff no truthy user id but a truthy group id, '-' iff neither |
| `PermissionModel.Show` | porper/models/permission.py:32 | an absent key prints as Python's "None"; used by `GenerateId`, whose contract and lemmas state the key |
| `PermissionModel.SubjectOf` | porper/models/permission.py:28-31 | a truthy user id wins over a truthy group id; its meaning is stated by `GenerateId` and `GenerateIdUserTakesPrecedence` |
| `PermissionModel.GenerateIdDeterminedByKeyFields` | porper/models/permission.py:26-32 | two records with the same subject, resource, action and value get the same key, so a second create overwrites the first |
| `PermissionModel.GenerateIdUserTakesPrecedence` | porper/models/permission.py:28-31 | with a truthy user id the group id does not affect the key |
| `PermissionModel.GenerateIdCollides` | porper/models/permission.py:32 | two different records ("a-b"/"c" and "a"/"b-c") share one key, since '-' both joins and may occur inside fields |
| `PermissionModel.Matches` | porper/models/permission.py:97-115 | the scan filter on resource, action and value-or-wildcard; `SelectExactly` and `FilterOfMeansMatches` state what it selects |
| `PermissionModel.Select` | porper/models/permission.py:89-161 | the scan result is no longer than the table |
| `PermissionModel.SelectKeeps` | porper/models/permission.py:97-115 | every stored item that passes the filter is returned |
| `PermissionModel.SelectOnlyMatches` | porper/models/permission.py:97-115 | every returned item is stored and passes the filter |
| `PermissionModel.SelectExactly` | porper/models/permission.py:89-161 | an item is returned iff it is stored and passes the resource, action and value-or-wildcard filter |
| `PermissionModel.SelectUnfiltered` | porper/models/permission.py:91-92 | without a truthy resource, action or value the whole scan is returned |
| `PermissionModel.SelectIgnoresSubject` | porper/models/permission.py:116-150 | the result does not depend on the user id, group id or `all` of the parameters |
| `PermissionModel.WildcardFound` | porper/models/permission.py:109-115 | a stored record with value `*` is found by a query for any value with the same resource and action |
| `PermissionModel.ConcreteValueMismatch` | porper/models/permission.py:109-115 | a record with a concrete value is not found by a query for a different concrete value |
| `PermissionModel.FilterOfMeansMatches` | porper/models/permission.py:94-115 | the "and"-joined filter expression built clause by clause holds for an item iff the item passes the filter |
| `PermissionModel.FilterOf` | porper/models/permission.py:94-115 | the clauses joined with " and ", one per truthy field; `FilterOfMeansMatches` states that they select exactly what `Matches` accepts |
| `PermissionModel.SatisfiesAppend` | porper/models/permission.py:98-99 | appending a clause with " and " narrows the filter to items that also pass that clause |
| `PermissionModel.ExactMatch` | porper/models/permission.py:50-58 | the exact-field filter of `_find_id`; `LookupIdFindsFirstExact` states that the found id belongs to the first item it accepts |
| `PermissionModel.LookupId` | porper/models/permission.py:47-67 | `_find_id` over a scan; its contract is `LookupIdFindsFirstExact`, and `Permission.FindId` is proved equal to it |
| `PermissionModel.DeleteTarget` | porper/models/permission.py:70-72 | the key `delete` removes; `Permission.Delete` is proved to remove exactly that key |
| `PermissionModel.FirstExact` | porper/models/permission.py:59-67 | the index found is of an exact match with no exact match before it; when none is found, no item matches exactly |
| `PermissionModel.LookupIdFindsFirstExact` | porper/models/permission.py:47-67 | when a subject key and action, resource and value are present, `_find_id` succeeds; a found id belongs to an exact match preceded by none, and None means no item matches exactly |
| `PermissionModel.Without` | porper/models/permission.py:77-81 | after the delete a key is in the scan order iff it was there before and is not the deleted key |
| `PermissionModel.WithoutKeepsDistinct` | porper/models/permission.py:77-81 | removing a key keeps every key of the table unique |
| `PermissionModel.Rows` | porper/models/permission.py:92 | the scan lists the stored items in key order, one per key |
| `PermissionModel.Permission.constructor` | porper/models/permission.py:22-24 | binds to an existing table with any contents whose keys are listed once in scan order and whose items carry their own key as id; the fields are exactly those contents |
| `PermissionModel.Permission.Scan` | porper/models/permission.py:92 | the scan returns the stored item of each key, in scan order |
| `PermissionModel.Permission.Create` | porper/models/permission.py:34-45 | the record gets its generated key as id and is stored under it, overwriting a record with the same key; a new key is scanned last; the table stays consistent |
| `PermissionModel.Permission.FindId` | porper/models/permission.py:47-67 | the loop returns exactly `LookupId` of the scan: None without a subject key, KeyError for a missing action, resource or value, else the first exact match's id |
| `PermissionModel.Permission.Delete` | porper/models/permission.py:69-87 | returns `DeleteTarget` of the scan; when it names a key, exactly that key leaves the table and the scan order; otherwise nothing changes |
| `PermissionModel.Permission.Find` | porper/models/permission.py:89-161 | the clause-building scan returns exactly `Select` of the table: the matching items in scan order |
| `PermissionControl.Resolve` | porper/controllers/permission_controller.py:124-125 | a token resolves iff it is known, to its user; otherwise the call fails as unauthenticated |
| `PermissionControl.IsAdmin` | porper/controllers/permission_controller.py:19-22 | `is_admin`; its contract is `IsAdminIffMember` |
| `PermissionControl.IsGroupAdmin` | porper/controllers/permission_controller.py:24-27 | `is_group_admin`; its contract is `IsGroupAdminIffFirstRow` |
| `PermissionControl.IsAdminIffMember` | porper/controllers/permission_controller.py:19-22 | a user is a global administrator iff some row links them to the administrator group, whatever that row's admin flag |
| `PermissionControl.IsGroupAdminIffFirstRow` | porper/controllers/permission_controller.py:24-27 | a user administers a group iff the first stored row for the pair has the admin flag |
| `PermissionControl.OnlyFirstRowConsulted` | porper/controllers/permission_controller.py:26 | a later admin row for the same pair does not make a user group administrator |
| `PermissionControl.IsPermittedByGroup` | porper/controllers/permission_controller.py:29-40 | a falsy group denies; a truthy flag permits iff the user administers the group; a flag equal to 0 permits; any other falsy flag denies |
| `PermissionControl.ZeroFlagIgnoresMembership` | porper/controllers/permission_controller.py:35-38 | a user with no row in the group passes a zero flag and fails a truthy one |
| `PermissionControl.Unconditioned` | porper/controllers/permission_controller.py:94 | the records without a condition, in order, no more than the input; contents by `PartitionExactly`, counts by `PartitionIsPermutation` |
| `PermissionControl.Conditioned` | porper/controllers/permission_controller.py:92 | the records with a condition, in order, no more than the input; contents by `PartitionExactly`, counts by `PartitionIsPermutation` |
| `PermissionControl.Passes` | porper/controllers/permission_controller.py:98-100 | whether a conditioned record survives; `KeptKeeps`, `KeptOnlyPassing` and `FilteredExactly` state its role |
| `PermissionControl.PartitionExactly` | porper/controllers/permission_controller.py:92-94 | the two list comprehensions hold exactly the stored records without, resp. with, a condition |
| `PermissionControl.ConditionedAt` | porper/controllers/permission_controller.py:92 | every element of the conditioned list has a condition |
| `PermissionControl.PartitionStep` | porper/controllers/permission_controller.py:92-94 | the first record lands in exactly one of the two comprehensions |
| `PermissionControl.PartitionIsPermutation` | porper/controllers/permission_controller.py:92-94 | the unconditioned and conditioned lists together hold each record exactly as often as the input does |
| `PermissionControl.Kept` | porper/controllers/permission_controller.py:95-101 | no more conditioned records are kept than were considered |
| `PermissionControl.KeptKeeps` | porper/controllers/permission_controller.py:98-101 | every conditioned record that passes is kept |
| `PermissionControl.KeptOnlyPassing` | porper/controllers/permission_controller.py:98-101 | every kept record was considered and passes |
| `PermissionControl.KeptGrows` | porper/controllers/permission_controller.py:98-101 | one loop step appends a passing record |
| `PermissionControl.KeptSame` | porper/controllers/permission_controller.py:98-102 | one loop step leaves the result unchanged for a failing record |
| `PermissionControl.KeptWithoutUser` | porper/controllers/permission_controller.py:98-99 | without an acting user every conditioned record is kept, in order |
| `PermissionControl.FilteredExactly` | porper/controllers/permission_controller.py:90-112 | a record is in the result iff it is in the input and is unconditioned or passes its condition |
| `PermissionControl.NoConditionsPartition` | porper/controllers/permission_controller.py:92-94 | without conditions every record is unconditioned, in order, and none is conditioned |
| `PermissionControl.FilteredWithoutConditions` | porper/controllers/permission_controller.py:93 | without conditioned records the input is returned unchanged, as the general path would also give |
| `PermissionControl.FilteredNoLonger` | porper/controllers/permission_controller.py:90-112 | filtering never adds records |
| `PermissionControl.FilteredWithoutUserKeepsAll` | porper/controllers/permission_controller.py:98-99 | without an acting user the result is a reordering of the input: nothing is dropped |
| `PermissionControl.FilteredDropsConditionWithoutFlag` | porper/controllers/permission_controller.py:100 | with an acting user, a record whose condition has no "is_admin" key is dropped |
| `PermissionControl.Filtered` | porper/controllers/permission_controller.py:90-112 | `filter_conditions`; its contracts are `FilteredExactly`, `FilteredWithoutConditions`, `FilteredNoLonger` and `FilteredWithoutUserKeepsAll` |
| `PermissionControl.Decide` | porper/controllers/permission_controller.py:127-158 | the first-match decision list of `find`; `FindNeedsPrivilege`, `SelfQuerySucceeds`, `FindAdminNeverRefused`, `FindGroupAdminSeesAll`, `SameUserSucceeds`, `MemberAdminSucceeds` and `FindRefusesMemberlessTarget` state it both ways |
| `PermissionControl.FilterUser` | porper/controllers/permission_controller.py:131-157 | the acting user each branch filters conditions with: the caller, none for a group query, else the asked-for user; used in `FindResult` |
| `PermissionControl.FindResult` | porper/controllers/permission_controller.py:122-158 | what `find` returns or raises; its contracts are the `Find...` lemmas below, and `PermissionController.Find` is proved equal to it |
| `PermissionControl.SentParams` | porper/controllers/permission_controller.py:128-129 | a self query writes the caller's id into the parameters; `PermissionController.Find` is proved to leave them so |
| `PermissionControl.FindReturnsStoredMatches` | porper/controllers/permission_controller.py:122-158 | every record `find` returns is stored and passes the query's filter |
| `PermissionControl.FindNeedsPrivilege` | porper/controllers/permission_controller.py:122-158 | `find` succeeds only with a known token and a self query, global administration, administration of the asked-for group, being the asked-for user, or administering one of that user's groups |
| `PermissionControl.FindRefusesMemberlessTarget` | porper/controllers/permission_controller.py:152-153 | a caller who is no global administrator, asking for another user who has no group, is refused |
| `PermissionControl.FindAdminNeverRefused` | porper/controllers/permission_controller.py:134-136 | a global administrator's query always succeeds |
| `PermissionControl.SelfQuerySucceeds` | porper/controllers/permission_controller.py:128-131 | a known caller's query with neither user id nor group id is never refused, and returns the matching records filtered with the caller as acting user |
| `PermissionControl.SameUserSucceeds` | porper/controllers/permission_controller.py:145-149 | a caller asking by user id for their own records, without a group id, is never refused |
| `PermissionControl.MemberAdminSucceeds` | porper/controllers/permission_controller.py:151-157 | a caller administering some group of the asked-for user (no group id asked) is never refused |
| `PermissionControl.FindGroupAdminSeesAll` | porper/controllers/permission_controller.py:139-142 | a group administrator who is no global administrator, querying the group, gets every matching record: filtering with no user drops none |
| `PermissionControl.FindIgnoresAll` | porper/controllers/permission_controller.py:53 | setting `all` does not change what `find` returns or raises |
| `PermissionControl.PermittedResult` | porper/controllers/permission_controller.py:51-58 | (corrected) what `is_permitted` returns; its contract is `PermittedIffFindNonEmpty` |
| `PermissionControl.AllPermitted` | porper/controllers/permission_controller.py:42-48 | (corrected `is_permitted`) what `are_permitted` returns; its contract is `AllPermittedIffEach` |
| `PermissionControl.PermittedIffFindNonEmpty` | porper/controllers/permission_controller.py:51-58 | (corrected) `is_permitted` is true iff `find` returns a non-empty list, and fails iff `find` fails, with the same error |
| `PermissionControl.AllPermittedIffEach` | porper/controllers/permission_controller.py:42-48 | `are_permitted` is true iff every element is permitted |
| `PermissionControl.CallerOf` | porper/controllers/permission_controller.py:68-70 | a truthy user id is the acting user; otherwise the token must resolve |
| `PermissionControl.HasAllowed` | porper/controllers/permission_controller.py:60-65 | (corrected) the create-grant check; its contracts are `HasAllowedIffCreateGrant` and `HasAllowedIgnoresAction` |
| `PermissionControl.Authorize` | porper/controllers/permission_controller.py:67-73 | (corrected) the create/delete gate; its contracts are `AdminPassesGate` and `GateForNonAdmins` |
| `PermissionControl.HasAllowedIffCreateGrant` | porper/controllers/permission_controller.py:60-65 | (corrected) the check holds iff some stored record grants "create" on the same resource and value |
| `PermissionControl.HasAllowedIgnoresAction` | porper/controllers/permission_controller.py:63-64 | the action asked for plays no part: the copy's action is always "create" |
| `PermissionControl.AdminPassesGate` | porper/controllers/permission_controller.py:71 | a global administrator passes the create/delete gate whatever the parameters |
| `PermissionControl.GateForNonAdmins` | porper/controllers/permission_controller.py:71-73 | (corrected) anyone else passes iff some stored record grants create on the resource and value, whoever holds it, and is otherwise refused as not permitted |
| `PermissionControl.CreateGrantAllowsDelete` | porper/controllers/permission_controller.py:84-86 | (corrected) a create grant on doc/42 lets its holder delete doc/42; without one on doc/99 the delete is refused |
| `PermissionControl.HasAllowedPermissionAsWritten` | porper/controllers/permission_controller.py:65 | as written the comparison of a list with 0 is true whatever was found |
| `PermissionControl.AuthorizeAsWritten` | porper/controllers/permission_controller.py:67-73 | the create/delete gate with line 65 as written; its contract is `AuthorizeAsWrittenOnlyNeedsCaller` |
| `PermissionControl.AuthorizeAsWrittenOnlyNeedsCaller` | porper/controllers/permission_controller.py:65-73 | as written the gate gives exactly the acting user: every caller who resolves passes, whatever the memberships, table and parameters |
| `PermissionControl.AsWrittenGateNeverRefuses` | porper/controllers/permission_controller.py:65 | with no memberships and an empty table, the as-written gate passes the caller where the corrected gate refuses them as not permitted |
| `PermissionControl.PermittedByAnyMatchingRecord` | porper/controllers/permission_controller.py:55 | with the corrected call, a caller is permitted when the table holds one matching record, even one that belongs to another user |
| `PermissionControl.SelfQueryOfSingleRecord` | porper/controllers/permission_controller.py:128-131 | with one unconditioned record stored, any known caller's query without parameters returns it, whoever it belongs to |
| `PermissionControl.PermissionController.constructor` | porper/controllers/permission_controller.py:8-17 | the controller is wired to the given table, membership rows and tokens |
| `PermissionControl.PermissionController.FilterConditions` | porper/controllers/permission_controller.py:90-112 | the loop returns exactly `Filtered`: the input when nothing is conditioned, else the unconditioned records followed by the passing conditioned ones |
| `PermissionControl.PermissionController.AdministersAny` | porper/controllers/permission_controller.py:154-157 | the loop finds a group iff the caller administers one of the target's groups |
| `PermissionControl.PermissionController.Scope` | porper/controllers/permission_controller.py:127-158 | the branch taken is `Decide`: self query, global administrator, group administrator, same user, administrator of a group of the target, else refused |
| `PermissionControl.PermissionController.Find` | porper/controllers/permission_controller.py:122-158 | returns exactly `FindResult` (an unknown token fails, a refused branch is forbidden, else the filtered fetch); a self query writes the caller's id into the parameters |
| `PermissionControl.PermissionController.FindOne` | porper/controllers/permission_controller.py:160-161 | always fails as unsupported |
| `PermissionControl.PermissionController.IsPermitted` | porper/controllers/permission_controller.py:51-58 | (corrected) returns `PermittedResult`, with `all` set in the parameters |
| `PermissionControl.PermissionController.IsPermittedAsWritten` | porper/controllers/permission_controller.py:51-55 | as written sets `all` and then fails on the undefined `find_all` |
| `PermissionControl.PermissionController.ArePermitted` | porper/controllers/permission_controller.py:42-48 | (corrected `is_permitted`) the loop returns `AllPermitted`: the first failure or refusal in list order, else true |
| `PermissionControl.PermissionController.HasAllowedPermission` | porper/controllers/permission_controller.py:60-65 | (corrected) returns `HasAllowed` of the table without changing the caller's parameters |
| `PermissionControl.PermissionController.Create` | porper/controllers/permission_controller.py:67-75 | (corrected gate) a refused gate returns its error and leaves the table alone; otherwise true, with the record stored under its generated key |
| `PermissionControl.PermissionController.Update` | porper/controllers/permission_controller.py:77-78 | always fails as unsupported |
| `PermissionControl.PermissionController.Delete` | porper/controllers/permission_controller.py:80-88 | (corrected gate) a refused gate or a `_find_id` KeyError returns that error and leaves the table alone; otherwise true, with the target key removed when there is one, even when nothing was removed |
| `PermissionControl.AdminGrantSeenByGrantee` | porper/controllers/permission_controller.py:67-75 | a global administrator creates a grant for U2 through the controller, and U2's query without parameters then returns that one record |

## Left out

- The DynamoDB table, the membership store and the token store are not
  modelled as services. The table is a map plus a scan order, the
  memberships are a given sequence of rows, and the tokens are a map from
  token to user id. Scan order is modelled as first insertion first; the
  real store's order is not.
- Scan pagination is not modelled.
- Store failures (`ClientError`, re-raised at porper/models/permission.py:40-42
  and 82-84) are not modelled: the store never fails here.
- Logging and printing are left out, including the Python 2 print statements
  and the `print` loop at porper/models/permission.py:64-65.
- JSON parsing of a condition is left out. A condition arrives already
  parsed: either absent/empty, or an object that has or lacks "is_admin".
  A condition that is not valid JSON, or is JSON but not an object, is not
  modelled.
- Keys of the parameters other than id, user_id, group_id, resource, action,
  value, condition and all are not modelled. The table stores exactly the
  fields listed.
- The code after `continue` in `filter_conditions`
  (porper/controllers/permission_controller.py:103-111) cannot be reached
  and is left out. So is the commented-out user/group filter of the table's
  `find` (porper/models/permission.py:116-150).
- PermissionModel.LookupId: a key that is present with the value `null` (or
  a non-string value) is not modelled, because a `Record` field is either
  absent or a string. The KeyError of `_find_id`
  (porper/models/permission.py:52) is therefore modelled only for absent
  keys. With `"action": null` the source raises nothing and goes on to scan;
  the model reads that key as absent and returns the KeyError.
- PermissionControl.PermissionController.Create: the source also writes
  the generated id into the caller's parameters dictionary
  (porper/models/permission.py:35). The model returns only the result and
  the new table state.
- PermissionControl.PermissionController.ArePermitted: `is_permitted`
  writes `all` (and, on a self query, the caller's id) into each element of
  the caller's list that it reaches. The model returns only the result and
  drops those writes, and it does not model two list elements that are the
  same dictionary.
- The membership lookups assume that `UserGroup.find`, which is not part of
  this model, returns exactly the stored rows that match every given key,
  in the store's scan order (`RowsFor`, `GroupsOf`). The table's own `find`
  ignores its subject keys, so this is an assumption about the other model.
- The source's final fall-through in `find` (returning None when neither
  id is truthy after the first branch) cannot be reached, because the first
  branch covers that case. The model has no such result.
- The scoped `find` is split into `Scope` (the decision list, with the loop
  over the target's groups) and one fetch-and-filter. The source fetches
  inside each branch, with the same parameters and the same filter user as
  the model.
- The two files target different interpreters: the controller uses Python 2
  print statements and the table uses Python 3 f-strings. The model gives
  each file the semantics of its own dialect.

## Findings

| source | as written | input that shows it | evidently intended | confidence | as-written member | corrected member |
|---|---|---|---|---|---|---|
| porper/controllers/permission_controller.py:65 | `self.permission.find(params_for_allowed) > 0` compares a list with 0. Under Python 2, which the file's print statements require, every list orders above every number, so the check is always true (under Python 3 it raises `TypeError`). | a non-administrator creating or deleting on an empty table: the gate lets them through | `len(...) > 0`: true iff some stored record grants "create" on the resource and value | not executed | `PermissionControl.AuthorizeAsWrittenOnlyNeedsCaller` and `PermissionControl.AsWrittenGateNeverRefuses` (over `PermissionControl.AuthorizeAsWritten` and `PermissionControl.HasAllowedPermissionAsWritten`) | `PermissionControl.HasAllowedIffCreateGrant` (over `PermissionControl.HasAllowed`, used by `Authorize`, `Create` and `Delete`) |
| porper/controllers/permission_controller.py:55 | `is_permitted` calls `self.find_all`, which the class does not define, so every call raises `AttributeError` (and `are_permitted` with a non-empty list raises too) | any token and parameters | call the scoped `self.find(access_token, params)` and return whether it found a record | not executed | `PermissionControl.PermissionController.IsPermittedAsWritten` | `PermissionControl.PermittedIffFindNonEmpty` and `PermissionControl.PermittedByAnyMatchingRecord` (over `PermissionControl.PermissionController.IsPermitted`, used by `ArePermitted`) |
