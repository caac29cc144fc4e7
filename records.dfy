/**
 * What Unmarshal and Marshal see of a Go struct through reflection: for
 * each field in declaration order its name, its `env` tag and whether it
 * is exported, and the field's current value.  Only string, int (64 bits)
 * and bool fields are modelled; the constructor of a value is the field's
 * type.
 */
module Records {
  import opened Wrappers
  import opened Strconv

  datatype Scalar = Str(s: string) | Int(i: int) | Bool(b: bool)

  predicate SameType(a: Scalar, b: Scalar) {
    (a.Str? && b.Str?) || (a.Int? && b.Int?) || (a.Bool? && b.Bool?)
  }

  /** An int field holds a 64-bit value. */
  predicate WellTyped(v: Scalar) {
    v.Int? ==> InInt64(v.i)
  }

  /** The zero value of the field's type. */
  predicate IsZero(v: Scalar) {
    match v
    case Str(s) => s == ""
    case Int(i) => i == 0
    case Bool(b) => !b
  }

  /**
   * `tag` is what Tag.Get("env") returns: the empty string when the field
   * has no env tag.  `exported` is true for exported fields: those are the
   * fields CanSet accepts once the struct is reached through a pointer, and
   * the only ones whose value Interface() will hand out.
   */
  datatype FieldDecl = FieldDecl(name: string, tag: string, exported: bool)

  /** A struct variable: its type's fields and its current field values. */
  class Struct {
    const decls: seq<FieldDecl>
    var values: seq<Scalar>

    ghost predicate Valid()
      reads this
    {
      |values| == |decls| && forall k | 0 <= k < |values| :: WellTyped(values[k])
    }

    constructor (decls: seq<FieldDecl>, values: seq<Scalar>)
      requires |values| == |decls| && forall k | 0 <= k < |values| :: WellTyped(values[k])
      ensures Valid() && this.decls == decls && this.values == values
    {
      this.decls := decls;
      this.values := values;
    }
  }

  /** The dynamic value passed as `interface{}`: an untyped nil, a value of
      a non-struct type, a struct value, or a pointer (None when nil). */
  datatype Arg = Nil | Basic(v: Scalar) | StructValue(s: Struct) | Pointer(to: Option<Arg>)

  /**
   * setField (called by Unmarshal, its source is not part of this model),
   * with strconv's conventions: a string field takes the text verbatim, an
   * int field strconv.ParseInt(text, 10, 64), a bool field
   * strconv.ParseBool(text).
   */
  function SetField(current: Scalar, text: string): (r: Result<Scalar, NumError>)
    ensures r.Success? ==> SameType(current, r.value) && WellTyped(r.value)
    ensures current.Str? ==> r == Success(Str(text))
    ensures text == [] ==> (r.Failure? <==> !current.Str?)
  {
    match current
    case Str(_) => Success(Str(text))
    case Int(_) =>
      (match ParseInt(text)
       case Success(n) => Success(Int(n))
       case Failure(e) => Failure(e))
    case Bool(_) =>
      (match ParseBool(text)
       case Success(b) => Success(Bool(b))
       case Failure(e) => Failure(e))
  }

  /** fmt.Sprintf("%v", value) for the modelled types. */
  function Format(v: Scalar): string
  {
    match v
    case Str(s) => s
    case Int(i) => FormatInt(i)
    case Bool(b) => FormatBool(b)
  }

  /** setField reads back what %v prints, for every field type. */
  lemma SetFieldFormat(current: Scalar, v: Scalar)
    requires SameType(current, v) && WellTyped(v)
    ensures SetField(current, Format(v)) == Success(v)
  {
    match v
    case Str(_) =>
    case Int(i) => ParseFormatInt(i);
    case Bool(b) => ParseFormatBool(b);
  }
}
