/**
 * The flat environment (lox/Environment.java): a single map from names to
 * values, with no enclosing frame and no initialized flag.
 */
module FlatEnvironment {
  import opened Tokens

  datatype Lookup<V> = Found(value: V) | Undefined(error: RuntimeError)

  class Environment<V> {
    var values: map<string, V>

    constructor ()
      ensures values == map[]
    {
      values := map[];
    }

    /** `get(name)`: the bound value, or the RuntimeError "Undefined variable 'n'." */
    function Get(name: Token): (r: Lookup<V>)
      reads this
      ensures r.Found? <==> name.lexeme in values
      ensures r.Found? ==> r.value == values[name.lexeme]
      ensures r.Undefined? ==> r.error == RuntimeError(name, "Undefined variable '" + name.lexeme + "'.")
    {
      if name.lexeme in values then Found(values[name.lexeme])
      else Undefined(RuntimeError(name, "Undefined variable '" + name.lexeme + "'."))
    }

    /**
     * `define(name, value)`: binds or rebinds `name`; afterwards `get` of that
     * name yields `value` and every other name reads as before.
     */
    method Define(name: string, value: V)
      modifies this
      ensures values == old(values)[name := value]
      ensures forall t: Token | t.lexeme == name :: Get(t) == Found(value)
      ensures forall t: Token | t.lexeme != name :: Get(t) == old(Get(t))
    {
      values := values[name := value];
    }
  }
}
