/**
 * The process environment that os.Setenv and os.Getenv work on, as an
 * explicit key-value store.  Setting follows Unix `syscall.Setenv`:
 * an empty key, a key holding `=` or NUL, or a value holding NUL is
 * refused (EINVAL) and the store is left as it was.
 */
module Environment {

  /** The variables the process sees. */
  type Vars = map<string, string>

  /** The arguments os.Setenv accepts. */
  predicate CanSetenv(key: string, value: string) {
    key != "" && '=' !in key && '\0' !in key && '\0' !in value
  }

  /** The store after os.Setenv(key, value). */
  function Setenv(vars: Vars, key: string, value: string): (r: Vars)
    ensures CanSetenv(key, value) ==> key in r && r[key] == value
    ensures forall k | k != key :: (k in r <==> k in vars) && (k in r ==> r[k] == vars[k])
    ensures !CanSetenv(key, value) ==> r == vars
  {
    if CanSetenv(key, value) then vars[key := value] else vars
  }

  /** os.Getenv(key): the empty string when the variable is not set. */
  function Getenv(vars: Vars, key: string): (v: string)
    ensures key in vars ==> v == vars[key]
    ensures key !in vars ==> v == ""
  {
    if key in vars then vars[key] else ""
  }

  /** Reading a variable back after os.Setenv: an accepted assignment is
      read back, a refused one leaves the old reading, and other variables
      read as before. */
  lemma GetenvSetenv(vars: Vars, key: string, value: string, other: string)
    requires other != key
    ensures Getenv(Setenv(vars, key, value), key) == if CanSetenv(key, value) then value else Getenv(vars, key)
    ensures Getenv(Setenv(vars, key, value), other) == Getenv(vars, other)
  {
  }

  class Env {
    var vars: Vars

    constructor (initial: Vars)
      ensures vars == initial
    {
      vars := initial;
    }

    /** os.Setenv, reporting whether the variable was set. */
    method Set(key: string, value: string) returns (ok: bool)
      modifies this
      ensures ok == CanSetenv(key, value)
      ensures vars == Setenv(old(vars), key, value)
    {
      ok := CanSetenv(key, value);
      if ok {
        vars := vars[key := value];
      }
    }

    /** os.Getenv. */
    function Get(key: string): (v: string)
      reads this
      ensures key in vars ==> v == vars[key]
      ensures key !in vars ==> v == ""
    {
      Getenv(vars, key)
    }
  }
}
