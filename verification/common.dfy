/** Small shared datatypes: optional values and the outcome of a server call. */
module Common {

  /** A value that may be missing (`null`, `undefined` or an absent key). */
  datatype Option<T> = None | Some(value: T)

  /** How a request to the server ended: the response said `success: true`,
      the response said `success: false`, or the call threw (network error,
      non-2xx status). */
  datatype Outcome = Succeeded | Refused | Threw

  /** JavaScript truthiness of an optional string: present and non-empty. */
  predicate Truthy(s: Option<string>) {
    s.Some? && s.value != ""
  }
}
