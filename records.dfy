/** Shared shapes of the permission service: optional values, errors, and the
    permission record that is both a stored item and a query's parameters. */
module Records {

  datatype Option<+T> = None | Some(value: T)

  /** The failures the engine raises. */
  datatype Error =
    | Unauthenticated             // the access token resolves to no user (`rows[0]` fails)
    | Forbidden                   // "not permitted"
    | Unsupported                 // "not supported"
    | MissingKey(key: string)     // a `params[key]` lookup on an absent key
    | MissingAttribute(name: string)  // a call to a method the object does not have

  datatype Result<+T> = Ok(value: T) | Err(error: Error)

  /** The JSON value stored under a condition's "is_admin" key, as Python
      sees it: truthy (true, 1, ...), equal to 0 (0, false), or falsy
      without being equal to 0 (null, "", ...). */
  datatype AdminFlag = TruthyFlag | ZeroFlag | OtherFalsyFlag

  /** A parsed condition; `isAdmin` is None when the "is_admin" key is absent. */
  datatype Condition = Condition(isAdmin: Option<AdminFlag>)

  /** A permission record, or the parameters of a request about one.
      Each optional field is None when the key is absent from the
      dictionary; `condition` is None when it is absent or empty (falsy),
      and `all` is false when absent. */
  datatype Record = Record(
    id: Option<string>,
    userId: Option<string>,
    groupId: Option<string>,
    resource: Option<string>,
    action: Option<string>,
    value: Option<string>,
    condition: Option<Condition>,
    all: bool)

  /** Python truthiness of an optional string: present and non-empty. */
  predicate IsTruthy(s: Option<string>) {
    s.Some? && s.value != ""
  }

  /** The parameters with no keys at all. */
  const EmptyParams := Record(None, None, None, None, None, None, None, false)
}
