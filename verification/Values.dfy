/** JSON values as the program's callers see them. */
module Values {
  import opened Bytes

  datatype Kind = ObjectKind | ArrayKind | IntegerKind | DoubleKind | StringKind | BooleanKind | NullKind

  datatype Entry = Entry(name: bytes, value: Value)

  /** A value. Booleans are C integers, true when they are not zero; entries keep their order and may repeat a name. */
  datatype Value =
    | Null
    | Boolean(b: int)
    | Integer(i: int)
    | Double(x: real)
    | Str(s: bytes)
    | Arr(items: seq<Value>)
    | Obj(entries: seq<Entry>)

  predicate NulFree(s: bytes) {
    forall k | 0 <= k < |s| :: s[k] != 0
  }

  /** The values whose printed form is modelled and parses back: no double, no NUL inside a
      string, booleans 0 or 1, and integers whose negation is representable. */
  predicate Plain(v: Value) {
    match v
    case Null => true
    case Boolean(b) => b == 0 || b == 1
    case Integer(i) => -INT_MAX <= i <= INT_MAX
    case Double(_) => false
    case Str(s) => NulFree(s)
    case Arr(items) => forall k | 0 <= k < |items| :: Plain(items[k])
    case Obj(entries) => forall k | 0 <= k < |entries| :: NulFree(entries[k].name) && Plain(entries[k].value)
  }
}
