/** Request bodies, query strings and response objects as JavaScript sees
    them: a key absent from an object is `undefined`, a present key holds a
    JSON value. Numbers are integers (floating point is not modelled). */
module Json {
  import opened Text

  datatype Value = Null | Bool(b: bool) | Num(n: int) | Str(s: string)

  type Object = map<string, Value>

  /** JavaScript truthiness: `null`, `false`, `0` and `""` are falsy. */
  predicate Truthy(v: Value)
  {
    match v
    case Null => false
    case Bool(b) => b
    case Num(n) => n != 0
    case Str(s) => s != ""
  }

  /** `obj.key` is truthy (an absent key reads as `undefined`, which is falsy). */
  predicate Given(obj: Object, key: string)
  {
    key in obj && Truthy(obj[key])
  }

  /** `obj.key !== undefined`. */
  predicate Defined(obj: Object, key: string)
  {
    key in obj
  }

  /** `obj.key || fallback`. */
  function OrElse(obj: Object, key: string, fallback: Value): (v: Value)
    ensures Given(obj, key) ==> v == obj[key]
    ensures !Given(obj, key) ==> v == fallback
  {
    if Given(obj, key) then obj[key] else fallback
  }

  /** `Object.assign(target, source)`: every own key of `source` overwrites
      or adds to `target`, the other keys of `target` stay. */
  function Assign(target: Object, source: Object): (r: Object)
    ensures r.Keys == target.Keys + source.Keys
    ensures forall k :: k in source ==> r[k] == source[k]
    ensures forall k :: k in target && k !in source ==> r[k] == target[k]
  {
    target + source
  }

  /** What `JSON.stringify` keeps of an object whose `toJSON` lists `keys`:
      only those keys. */
  function Project(obj: Object, keys: set<string>): (r: Object)
    ensures r.Keys == obj.Keys * keys
    ensures forall k :: k in r ==> r[k] == obj[k]
  {
    map k | k in obj.Keys * keys :: obj[k]
  }

  /** The integer an amount column holds; anything that is not a number
      counts as 0. */
  function AmountOf(v: Value): int
  {
    if v.Num? then v.n else 0
  }

  /** `parseFloat(v)` on the integers of the model: a number is itself, a
      text is read up to the end of its leading integer (after white space
      and an optional sign), and anything else, or a text that does not
      start with a number, is NaN, which the database stores as `NULL`. */
  function ParseFloat(v: Value): (r: Value)
    ensures r.Num? || r.Null?
    ensures v.Num? ==> r == v
    ensures !v.Num? && !v.Str? ==> r == Null
  {
    match v
    case Num(_) => v
    case Str(s) => if ParseInt(s).Int? then Num(ParseInt(s).value) else Null
    case _ => Null
  }

  /** The text of an integer parses back to that integer, so a request may
      send an amount as a number or as its text with the same effect. */
  lemma ParseFloatOfText(n: int)
    ensures ParseFloat(Str(NumberToString(Int(n)))) == ParseFloat(Num(n)) == Num(n)
  {
    ParseIntOfNumber(n);
  }

  /** The order SQL `ORDER BY` applies to a column of mixed values: `NULL`
      first, then booleans, numbers and strings, each in its natural order. */
  predicate ValueLe(a: Value, b: Value)
  {
    if Rank(a) != Rank(b) then Rank(a) < Rank(b)
    else match (a, b)
      case (Bool(x), Bool(y)) => !x || y
      case (Num(x), Num(y)) => x <= y
      case (Str(x), Str(y)) => LexLe(x, y)
      case _ => true
  }

  function Rank(v: Value): int
  {
    match v
    case Null => 0
    case Bool(_) => 1
    case Num(_) => 2
    case Str(_) => 3
  }

  lemma ValueLeTotal(a: Value, b: Value)
    ensures ValueLe(a, b) || ValueLe(b, a)
  {
    if a.Str? && b.Str? {
      LexLeTotal(a.s, b.s);
    }
  }

  lemma ValueLeTransitive(a: Value, b: Value, c: Value)
    requires ValueLe(a, b) && ValueLe(b, c)
    ensures ValueLe(a, c)
  {
    if a.Str? && b.Str? && c.Str? {
      LexLeTransitive(a.s, b.s, c.s);
    }
  }
}
