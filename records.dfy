/** A stored task is a plain JSON object: the store never looks inside it
    except for its `id`, and the command layer reads `status`, `priority`,
    `description`, `dueDate` and `category` by name. */
module Records {
  /** A JSON field value. Numbers are integers here (task ids are
      millisecond timestamps). */
  datatype Value = Num(n: int) | Str(s: string) | Bool(b: bool) | Null

  /** A task object: field names to values. `{}` is a task too. */
  type Task = map<string, Value>

  /** JavaScript truthiness of a field value; an absent field is `undefined`,
      which is falsy as well. */
  predicate Truthy(v: Value) {
    match v
    case Num(n) => n != 0
    case Str(s) => s != ""
    case Bool(b) => b
    case Null => false
  }

  predicate FieldTruthy(t: Task, key: string) {
    key in t && Truthy(t[key])
  }

  /** `t[key] === s` for a string `s`. */
  predicate FieldIs(t: Task, key: string, s: string) {
    key in t && t[key] == Str(s)
  }

  /** `t.id === id`: a task without an `id` field never matches. */
  predicate HasId(t: Task, id: int) {
    "id" in t && t["id"] == Num(id)
  }

  /** `{...t, ...updates}`: the shallow merge in which the fields of
      `updates` override those of `t`. */
  function Merge(t: Task, updates: Task): (r: Task)
    ensures r.Keys == t.Keys + updates.Keys
    ensures forall k :: k in updates ==> r[k] == updates[k]
    ensures forall k :: k in t && k !in updates ==> r[k] == t[k]
  {
    t + updates
  }
}
