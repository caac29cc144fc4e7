/**
 * Unmarshal from dotenv.go: fill the tagged fields of the struct a pointer
 * designates from the environment, in declaration order, stopping at the
 * first value setField rejects.
 */
module Unmarshaling {
  import opened Wrappers
  import opened Strconv
  import opened Environment
  import opened Records

  datatype UnmarshalError =
    | NotNonNilPointer                        // "dest must be a non-nil pointer"
    | NotPointerToStruct                      // "dest must be a pointer to a struct"
    | FieldError(name: string, cause: NumError) // "error setting field <name>: <cause>"

  /** The struct Unmarshal fills: present only for a non-nil pointer to a
      struct. */
  function Target(dest: Arg): (t: Option<Struct>)
    ensures t.Some? ==> dest == Pointer(Some(StructValue(t.value)))
    ensures dest.Pointer? && dest.to.Some? && dest.to.value.StructValue? ==> t.Some?
  {
    if dest.Pointer? && dest.to.Some? && dest.to.value.StructValue? then Some(dest.to.value.s) else None
  }

  function TargetSet(dest: Arg): set<Struct>
  {
    if Target(dest).Some? then {Target(dest).value} else {}
  }

  /** The error Unmarshal reports before touching any field, if any. */
  function TargetError(dest: Arg): (e: Option<UnmarshalError>)
    ensures e.None? <==> Target(dest).Some?
  {
    if !dest.Pointer? || dest.to.None? then Some(NotNonNilPointer)
    else if !dest.to.value.StructValue? then Some(NotPointerToStruct)
    else None
  }

  /** The field is exported, tagged, and its variable is set to a non-empty
      value: the only fields setField is called on. */
  predicate Visited(d: FieldDecl, vars: Vars) {
    d.exported && d.tag != "" && Getenv(vars, d.tag) != ""
  }

  /** setField on a visited field. */
  function Attempt(d: FieldDecl, v: Scalar, vars: Vars): Result<Scalar, NumError>
  {
    SetField(v, Getenv(vars, d.tag))
  }

  predicate FailsAt(decls: seq<FieldDecl>, values: seq<Scalar>, vars: Vars, j: nat)
    requires j < |decls| && |values| == |decls|
  {
    Visited(decls[j], vars) && Attempt(decls[j], values[j], vars).Failure?
  }

  /** The value a field has once visited successfully, or its old value. */
  function Filled(d: FieldDecl, v: Scalar, vars: Vars): Scalar
  {
    if Visited(d, vars) && Attempt(d, v, vars).Success? then Attempt(d, v, vars).value else v
  }

  datatype Outcome = Outcome(values: seq<Scalar>, err: Option<UnmarshalError>)

  /** The loop of Unmarshal from field `i` on. */
  function FillFrom(decls: seq<FieldDecl>, values: seq<Scalar>, vars: Vars, i: nat): (o: Outcome)
    requires |values| == |decls| && i <= |decls|
    ensures |o.values| == |decls|
    ensures forall j | 0 <= j < i :: o.values[j] == values[j]
    ensures o.err.Some? ==> o.err.value.FieldError?
    decreases |decls| - i
  {
    if i == |decls| then Outcome(values, None)
    else if !Visited(decls[i], vars) then FillFrom(decls, values, vars, i + 1)
    else
      match Attempt(decls[i], values[i], vars)
      case Failure(e) => Outcome(values, Some(FieldError(decls[i].name, e)))
      case Success(x) => FillFrom(decls, values[i := x], vars, i + 1)
  }

  /** With no failing field ahead, every field from `i` on takes its filled
      value (unsettable, untagged, unset or empty ones keep theirs) and no
      error is reported. */
  lemma {:induction false} FillFromNoFailure(decls: seq<FieldDecl>, values: seq<Scalar>, vars: Vars, i: nat)
    requires |values| == |decls| && i <= |decls|
    requires forall j | i <= j < |decls| :: !FailsAt(decls, values, vars, j)
    ensures FillFrom(decls, values, vars, i).err == None
    ensures forall j | 0 <= j < |decls| ::
      FillFrom(decls, values, vars, i).values[j] == if j < i then values[j] else Filled(decls[j], values[j], vars)
    decreases |decls| - i
  {
    if i < |decls| {
      if !Visited(decls[i], vars) {
        FillFromNoFailure(decls, values, vars, i + 1);
      } else {
        assert !FailsAt(decls, values, vars, i);
        var x := Attempt(decls[i], values[i], vars).value;
        var next := values[i := x];
        assert forall j | i < j < |decls| :: next[j] == values[j];
        assert forall j | i + 1 <= j < |decls| :: !FailsAt(decls, next, vars, j) by {
          forall j | i + 1 <= j < |decls| ensures !FailsAt(decls, next, vars, j) {
            assert !FailsAt(decls, values, vars, j);
          }
        }
        FillFromNoFailure(decls, next, vars, i + 1);
      }
    }
  }

  /** At the first failing field `e`: an error naming it, fields before it
      (from `i`) filled, it and every later field untouched. */
  lemma {:induction false} FillFromFirstFailure(decls: seq<FieldDecl>, values: seq<Scalar>, vars: Vars, i: nat, e: nat)
    requires |values| == |decls| && i <= e < |decls|
    requires FailsAt(decls, values, vars, e)
    requires forall j | i <= j < e :: !FailsAt(decls, values, vars, j)
    ensures FillFrom(decls, values, vars, i).err ==
      Some(FieldError(decls[e].name, Attempt(decls[e], values[e], vars).error))
    ensures forall j | 0 <= j < |decls| ::
      FillFrom(decls, values, vars, i).values[j] == if i <= j < e then Filled(decls[j], values[j], vars) else values[j]
    decreases |decls| - i
  {
    if i < e {
      if !Visited(decls[i], vars) {
        FillFromFirstFailure(decls, values, vars, i + 1, e);
      } else {
        assert !FailsAt(decls, values, vars, i);
        var x := Attempt(decls[i], values[i], vars).value;
        var next := values[i := x];
        assert forall j | i < j < |decls| :: next[j] == values[j];
        assert FailsAt(decls, next, vars, e);
        assert forall j | i + 1 <= j < e :: !FailsAt(decls, next, vars, j) by {
          forall j | i + 1 <= j < e ensures !FailsAt(decls, next, vars, j) {
            assert !FailsAt(decls, values, vars, j);
          }
        }
        FillFromFirstFailure(decls, next, vars, i + 1, e);
      }
    }
  }

  /** Unmarshal(dest): reads the environment through os.Getenv. */
  method Unmarshal(dest: Arg, env: Env) returns (err: Option<UnmarshalError>)
    requires Target(dest).Some? ==> Target(dest).value.Valid()
    modifies TargetSet(dest)
    ensures Target(dest).None? ==> err == TargetError(dest)
    ensures Target(dest).Some? ==>
      var s := Target(dest).value;
      var o := FillFrom(s.decls, old(s.values), env.vars, 0);
      s.Valid() && s.values == o.values && err == o.err
  {
    if !dest.Pointer? || dest.to.None? {
      return Some(NotNonNilPointer);
    }
    var elem := dest.to.value;
    if !elem.StructValue? {
      return Some(NotPointerToStruct);
    }
    var rv := elem.s;
    for i := 0 to |rv.decls|
      invariant rv.Valid()
      invariant FillFrom(rv.decls, rv.values, env.vars, i) == FillFrom(rv.decls, old(rv.values), env.vars, 0)
    {
      var field := rv.decls[i];
      if !field.exported {
        continue;
      }
      var key := field.tag;
      if key == "" {
        continue;
      }
      var value := env.Get(key);
      if value == "" {
        continue;
      }
      var r := SetField(rv.values[i], value);
      if r.Failure? {
        return Some(FieldError(field.name, r.error));
      }
      rv.values := rv.values[i := r.value];
    }
    return None;
  }
}
