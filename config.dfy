/** The attribute-default canonicalisation of `loadConfig` in lib/config.py, applied to
    the already-parsed `studentAttributes` object of the configuration file. */
module Config {
  import opened Wrappers
  import opened Dicts

  /** A parsed JSON value (numbers restricted to integers). */
  datatype Json =
    | JNull
    | JBool(b: bool)
    | JNum(n: int)
    | JStr(s: string)
    | JArr(items: seq<Json>)
    | JObj(fields: map<string, Json>)

  /** Python's truth value of a parsed JSON value. */
  predicate Truthy(v: Json)
    ensures !Truthy(v) <==> v in {JNull, JBool(false), JNum(0), JStr(""), JArr([]), JObj(map[])}
  {
    match v
    case JNull => false
    case JBool(b) => b
    case JNum(n) => n != 0
    case JStr(s) => s != ""
    case JArr(a) => |a| > 0
    case JObj(m) => |m| > 0
  }

  /** The ways the loop raises when an attribute's flags are not a JSON object. */
  datatype ConfigError =
    | NotIterable      // `key in v` on a number, boolean or null (TypeError)
    | NotAssignable    // `v[key] = ...` on a string or list (TypeError)

  /** The three flags that the rest of the program reads, with their defaults. */
  const IdentifiesStudent := "identifiesStudent"
  const OnePerStudent := "onePerStudent"
  const Filters := "filters"

  /** `key in s` for strings: `key` occurs somewhere in `s`. */
  predicate IsInfix(key: string, s: string)
    decreases |s|
  {
    (|key| <= |s| && s[..|key|] == key) || (s != [] && IsInfix(key, s[1..]))
  }

  /** `key in v`: dict membership, substring for a string, element for a list. */
  function Contains(v: Json, key: string): (r: Result<bool, ConfigError>)
    ensures r.Err? <==> v.JNull? || v.JBool? || v.JNum?
    ensures r.Err? ==> r.error == NotIterable
    ensures v.JObj? ==> r == Ok(key in v.fields)
    ensures v == JStr(key) ==> r == Ok(true)
  {
    match v
    case JObj(m) => Ok(key in m)
    case JStr(s) => Ok(IsInfix(key, s))
    case JArr(a) => Ok(JStr(key) in a)
    case _ => Err(NotIterable)
  }

  /** `if key not in v: v[key] = d`. */
  function SetDefault(v: Json, key: string, d: Json): (r: Result<Json, ConfigError>)
    ensures v.JObj? ==> (
      && r.Ok? && r.value.JObj?
      && r.value.fields.Keys == v.fields.Keys + {key}
      && (forall k :: k in v.fields ==> r.value.fields[k] == v.fields[k])
      && (key !in v.fields ==> r.value.fields[key] == d))
    ensures v.JStr? || v.JArr? ==> (r.Ok? <==> Contains(v, key) == Ok(true))
    ensures !v.JObj? && r.Ok? ==> r.value == v
  {
    match Contains(v, key)
    case Err(e) => Err(e)
    case Ok(true) => Ok(v)
    case Ok(false) => if v.JObj? then Ok(JObj(v.fields[key := d])) else Err(NotAssignable)
  }

  /** One turn of the loop: the three defaults, filled in that order. */
  function Canonical(v: Json): (r: Result<Json, ConfigError>)
    ensures v.JObj? ==> r.Ok? && r.value.JObj?
    ensures !v.JObj? && r.Ok? ==> r.value == v
  {
    match SetDefault(v, IdentifiesStudent, JBool(false))
    case Err(e) => Err(e)
    case Ok(v1) =>
      match SetDefault(v1, OnePerStudent, JBool(false))
      case Err(e) => Err(e)
      case Ok(v2) => SetDefault(v2, Filters, JArr([]))
  }

  /** On a flag object, canonicalisation adds exactly the missing flags, each with
      its default, and keeps every value that was there. */
  lemma CanonicalObject(m: map<string, Json>)
    ensures Canonical(JObj(m)).Ok? && Canonical(JObj(m)).value.JObj?
    ensures var r := Canonical(JObj(m)).value.fields;
      && r.Keys == m.Keys + {IdentifiesStudent, OnePerStudent, Filters}
      && (forall k :: k in m ==> r[k] == m[k])
      && (IdentifiesStudent !in m ==> r[IdentifiesStudent] == JBool(false))
      && (OnePerStudent !in m ==> r[OnePerStudent] == JBool(false))
      && (Filters !in m ==> r[Filters] == JArr([]))
  {
  }

  /** Canonicalising twice is canonicalising once. */
  lemma CanonicalIdempotent(v: Json)
    requires Canonical(v).Ok?
    ensures Canonical(Canonical(v).value) == Canonical(v)
  {
    if v.JObj? {
      CanonicalObject(v.fields);
      CanonicalObject(Canonical(v).value.fields);
    } else {
      assert Canonical(v) == Ok(v);
    }
  }

  /** Only a value that is a dict, a string or a list survives the loop, and a string
      or list only when it already mentions all three flags. */
  lemma CanonicalNonObject(v: Json)
    requires !v.JObj?
    ensures Canonical(v).Ok? <==>
      match v
      case JStr(s) => IsInfix(IdentifiesStudent, s) && IsInfix(OnePerStudent, s) && IsInfix(Filters, s)
      case JArr(a) => JStr(IdentifiesStudent) in a && JStr(OnePerStudent) in a && JStr(Filters) in a
      case _ => false
    ensures Canonical(v).Ok? ==> Canonical(v).value == v
  {
  }

  predicate AllCanonicalizable(items: Dict<string, Json>) {
    forall i :: 0 <= i < |items| ==> Canonical(items[i].1).Ok?
  }

  /** The attribute table after a run of the loop that raised nothing. */
  function CanonicalItems(items: Dict<string, Json>): (r: Dict<string, Json>)
    requires AllCanonicalizable(items)
    ensures |r| == |items|
    ensures forall i :: 0 <= i < |items| ==> r[i].0 == items[i].0
  {
    seq(|items|, i requires 0 <= i < |items| => (items[i].0, Canonical(items[i].1).value))
  }

  /** After canonicalisation every attribute that was a flag object holds all three
      flags, defaulted where missing, and keeps its other values. */
  lemma CanonicalItemsFlags(items: Dict<string, Json>, i: nat)
    requires AllCanonicalizable(items) && i < |items| && items[i].1.JObj?
    ensures CanonicalItems(items)[i].1.JObj?
    ensures var m, r := items[i].1.fields, CanonicalItems(items)[i].1.fields;
      && IdentifiesStudent in r && OnePerStudent in r && Filters in r
      && (forall k :: k in m ==> k in r && r[k] == m[k])
      && (IdentifiesStudent !in m ==> r[IdentifiesStudent] == JBool(false))
      && (OnePerStudent !in m ==> r[OnePerStudent] == JBool(false))
      && (Filters !in m ==> r[Filters] == JArr([]))
  {
    CanonicalObject(items[i].1.fields);
  }

  /** Canonicalising the whole table twice is canonicalising it once. */
  lemma CanonicalItemsIdempotent(items: Dict<string, Json>)
    requires AllCanonicalizable(items)
    ensures AllCanonicalizable(CanonicalItems(items))
    ensures CanonicalItems(CanonicalItems(items)) == CanonicalItems(items)
  {
    var r := CanonicalItems(items);
    forall i | 0 <= i < |r| ensures Canonical(r[i].1) == Ok(r[i].1) {
      CanonicalIdempotent(items[i].1);
    }
  }

  /** `configObj["studentAttributes"]`, whose flag values the loop rewrites in place. */
  class StudentAttributes {
    var items: Dict<string, Json>

    constructor (items: Dict<string, Json>)
      ensures this.items == items
    {
      this.items := items;
    }

    /** The loop of `loadConfig`: every attribute's flags get their defaults, in order;
        the first attribute whose flags are neither a dict nor a string or list that
        mentions them all raises. */
    method Canonicalize() returns (err: Option<ConfigError>)
      modifies this
      ensures err.None? <==> AllCanonicalizable(old(items))
      ensures err.None? ==> items == CanonicalItems(old(items))
      ensures err.Some? ==> exists i :: 0 <= i < |old(items)| && Canonical(old(items)[i].1) == Err(err.value)
    {
      ghost var before := items;
      var i := 0;
      while i < |items|
        invariant 0 <= i <= |items| && |items| == |before|
        invariant forall j :: 0 <= j < i ==> Canonical(before[j].1).Ok?
        invariant forall j :: 0 <= j < i ==> items[j] == (before[j].0, Canonical(before[j].1).value)
        invariant forall j :: i <= j < |items| ==> items[j] == before[j]
      {
        var (name, v) := items[i];
        var c := Canonical(v);
        if c.Err? {
          return Some(c.error);
        }
        items := items[i := (name, c.value)];
        i := i + 1;
      }
      assert items == CanonicalItems(before);
      return None;
    }
  }
}
