/** Terraform attribute values and nullable database columns. */
module Tf {

  /** A framework value: null, not known yet, or known. */
  datatype Attr<+T> = Null | Unknown | Known(value: T)

  /** A column value as database/sql scans it; None is SQL NULL. */
  datatype Live<+T> = Missing | Valid(value: T)

  predicate IsSet<T>(a: Attr<T>) {
    a.Known?
  }

  /** `ValueString`: null and unknown read as the empty string. */
  function ValueString(a: Attr<string>): string {
    if a.Known? then a.value else ""
  }

  function ValueInt64(a: Attr<int>): int {
    if a.Known? then a.value else 0
  }

  function ValueBool(a: Attr<bool>): bool {
    a.Known? && a.value
  }

  /** `nullString` and its kin. */
  function FromLive<T>(l: Live<T>): Attr<T> {
    match l case Missing => Null case Valid(v) => Known(v)
  }

  /** `clearableStringFromLive` of internal/resources/common.go: an optional text
      that is cleared by writing "" reads back in the configured spelling. */
  function ClearableFromLive(current: Attr<string>, live: Live<string>): Attr<string> {
    if live.Valid? && live.value != "" then Known(live.value)
    else if current == Known("") then Known("")
    else Null
  }
}
