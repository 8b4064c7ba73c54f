/** The variable variant: construction with the reserved name "e" refused,
    the variable x, and equality by name. */
module Variables {
  import opened Expressions
  import opened NormalForm
  import opened Constants

  /** Variable.var: a variable of the given name; "e" is refused because
      it names the constant e. */
  function NewVar(name: string): (r: Result<Variable>)
    ensures r.Err? <==> name == "e"
    ensures r.Ok? ==> Canon(r.value)
  {
    if name == "e" then Err("Variable can't be named e.") else Ok(Var(name))
  }

  /** Variable.x. */
  function X(): (r: Variable)
    ensures r.name == "x" && Canon(r)
  {
    Var("x")
  }

  /** Variable names, the field that equality compares. */
  function Name(v: Variable): string
  {
    v.name
  }

  // ---------------------------------------------------------------------
  // Properties
  // ---------------------------------------------------------------------

  /** Every name except "e" gives a variable that reports that name. */
  lemma NewVarName(name: string)
    requires name != "e"
    ensures NewVar(name).Ok? && Name(NewVar(name).value) == name
  {
  }

  /** x is the variable built from the name "x". */
  lemma XIsNamedX()
    ensures NewVar("x") == Ok(X()) && Name(X()) == "x"
  {
  }

  /** Two variables are equal exactly when their names are. */
  lemma VariableEquality(a: Variable, b: Variable)
    ensures a == b <==> Name(a) == Name(b)
  {
  }

  /** The named-constant constructor and e bypass the reserved-name check:
      they build the variable node that Variable.var refuses to build. */
  lemma ReservedNameBypassed()
    ensures NewVar("e").Err?
    ensures E() == NamedConstant("e") && Name(E()) == "e"
  {
  }
}
