/** JavaScript values as the event log stores them, and the two small
    object helpers the serialiser relies on: `shallow-copy` (a copy of a map
    is the map itself here, since maps are values) and `xtend`. */
module Values {

  datatype Option<+T> = None | Some(value: T)

  /** A value stored under a key of an event's `args` or `layout`.
      `Nothing` is `null` or `undefined` stored under a present key. */
  datatype Value = Str(s: string) | Num(n: int) | Flag(b: bool) | Nothing

  /** JavaScript truthiness, `!!v`. */
  predicate Truthy(v: Value)
  {
    match v
    case Str(s) => s != ""
    case Num(n) => n != 0
    case Flag(b) => b
    case Nothing => false
  }

  /** A plain object: its own enumerable keys and their values. */
  type Args = map<string, Value>

  /** `obj || {}` */
  function OrEmpty(m: Option<Args>): Args
  {
    if m.Some? then m.value else map[]
  }

  /** `obj[key]`, which is `undefined` when the key is missing. */
  function Get(m: Args, key: string): Value
  {
    if key in m then m[key] else Nothing
  }

  /** `xtend(a, b)`: a fresh object holding the keys of both sources,
      where `b` wins on a shared key; a missing source adds nothing. */
  function Xtend(a: Option<Args>, b: Option<Args>): (r: Args)
    ensures r.Keys == OrEmpty(a).Keys + OrEmpty(b).Keys
    ensures forall k :: k in OrEmpty(b) ==> r[k] == OrEmpty(b)[k]
    ensures forall k :: k in OrEmpty(a) && k !in OrEmpty(b) ==> r[k] == OrEmpty(a)[k]
  {
    OrEmpty(a) + OrEmpty(b)
  }

  /** A character `/a|l/i` matches: an arc or line command letter. */
  predicate IsLineOrArc(c: char)
  {
    c == 'a' || c == 'A' || c == 'l' || c == 'L'
  }

  /** `/a|l/i.test(d)`: the path description holds an `a` or an `l` in
      either case, read as an arc or line command. */
  function HasLineOrArc(d: string): (r: bool)
    ensures r <==> exists k :: 0 <= k < |d| && IsLineOrArc(d[k])
  {
    if d == [] then false
    else if IsLineOrArc(d[0]) then true
    else
      var rest := HasLineOrArc(d[1..]);
      assert forall k :: 1 <= k < |d| ==> d[k] == d[1..][k - 1];
      rest
  }
}
