/**
  The values the teacher and student handlers move around: stored column
  values, the values encoding/json produces inside a map[string]interface{},
  and the schema that stands for the reflected struct type (models.Teacher,
  models.Student), whose field list is not part of this model and is
  therefore a parameter everywhere.
*/
module Values {
  import opened Wrappers

  /** The Go kinds a struct field of an entity can have. */
  datatype Kind = KString | KInt | KFloat | KBool

  /** A value held by one struct field / one table column. */
  datatype Cell = CString(s: string) | CInt(i: int) | CFloat(f: real) | CBool(b: bool)

  /**
    A value decoded by encoding/json into an interface{}: JSON null, a string,
    a number (always float64 in Go; taken here as an exact real), a boolean, or
    an object or array (never convertible to a scalar field).
  */
  datatype Json = JNull | JString(s: string) | JNumber(n: real) | JBool(b: bool) | JCompound

  /** One struct field as reflect sees it: its json tag, its kind, and whether CanSet holds. */
  datatype Field = Field(tag: string, kind: Kind, exported: bool)

  /** The struct's fields in declaration order; field 0 is the integer ID. */
  type Schema = seq<Field>

  /** A struct value: one cell per schema field. */
  type Entity = seq<Cell>

  predicate HasKind(c: Cell, k: Kind) {
    match c
    case CString(_) => k == KString
    case CInt(_) => k == KInt
    case CFloat(_) => k == KFloat
    case CBool(_) => k == KBool
  }

  /** The schema has an integer ID as its first field. */
  predicate SchemaOk(s: Schema) {
    |s| > 0 && s[0].kind == KInt
  }

  /** `e` is a value of the struct type `s` describes. */
  predicate Fits(s: Schema, e: Entity) {
    |e| == |s| && forall i :: 0 <= i < |s| ==> HasKind(e[i], s[i].kind)
  }

  /** Every element of `es` is a value of the struct type `s` describes. */
  predicate AllFit(s: Schema, es: seq<Entity>) {
    forall i :: 0 <= i < |es| ==> Fits(s, es[i])
  }

  function IdOf(e: Entity): int
    requires |e| > 0 && e[0].CInt?
  {
    e[0].i
  }

  /** The struct with its ID field replaced (`x.ID = id`). */
  function WithId(e: Entity, id: int): Entity
    requires |e| > 0
  {
    e[0 := CInt(id)]
  }

  /** Go's float64-to-int conversion: the fraction is discarded, rounding toward zero. */
  function TruncateToInt(x: real): (r: int)
    ensures 0.0 <= x ==> 0 <= r && r as real <= x < r as real + 1.0
    ensures x < 0.0 ==> r <= 0 && r as real - 1.0 < x <= r as real
  {
    if 0.0 <= x then x.Floor else -((-x).Floor)
  }

  /**
    reflect's `ConvertibleTo` for a decoded JSON value and a field kind: a string
    converts only to a string, a float64 to an int or a float, a bool to a bool;
    null (an invalid reflect.Value) and objects or arrays convert to nothing.
  */
  predicate ConvertibleTo(v: Json, k: Kind): (b: bool)
    ensures v.JNull? || v.JCompound? ==> !b
    ensures b ==> (v.JString? <==> k == KString) && (v.JBool? <==> k == KBool)
  {
    match v
    case JString(_) => k == KString
    case JNumber(_) => k == KInt || k == KFloat
    case JBool(_) => k == KBool
    case JNull => false
    case JCompound => false
  }

  /** reflect's `Convert`, defined where `ConvertibleTo` holds. */
  function Convert(v: Json, k: Kind): (c: Cell)
    requires ConvertibleTo(v, k)
    ensures HasKind(c, k)
  {
    match v
    case JString(s) => CString(s)
    case JBool(b) => CBool(b)
    case JNumber(n) => if k == KInt then CInt(TruncateToInt(n)) else CFloat(n)
  }
}
