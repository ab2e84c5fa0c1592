/** The variables a lowered graph declares for its secrets, and the ones its expressions read. */
module Secrets {
  import opened GraphIr
  import opened Hcl

  /** Every secret an expression mentions, at any depth. */
  function SecretNames(e: Expr): set<string> {
    match e
    case SecretEnv(name) => {name}
    case Array(items) => set item, n | item in items && n in SecretNames(item) :: n
    case Object(fields) => set f, n | f in fields && n in SecretNames(f.value) :: n
    case Index(collection, key) => SecretNames(collection) + SecretNames(key)
    case Attribute(of, _) => SecretNames(of)
    case Splat(of) => SecretNames(of)
    case Conditional(condition, whenTrue, whenFalse) =>
      SecretNames(condition) + SecretNames(whenTrue) + SecretNames(whenFalse)
    case Function(_, args) => set arg, n | arg in args && n in SecretNames(arg) :: n
    case Template(parts) =>
      set part, n | part in parts && part.Interpolation? && n in SecretNames(part.expression) :: n
    case _ => {}
  }

  /** The variables declared for these secrets. */
  function Declared(names: set<string>): set<string> {
    set n | n in names :: "inframe_secret_" + n
  }

  /** Every secret in an expression is printed as a reference to one of these variables. */
  ghost predicate ReadsOnly(e: Expr, variables: set<string>) {
    match e
    case SecretEnv(_) => exists v :: v in variables && Render(e) == [Ident("var"), Dot, Ident(v)]
    case Array(items) => forall item :: item in items ==> ReadsOnly(item, variables)
    case Object(fields) => forall f :: f in fields ==> ReadsOnly(f.value, variables)
    case Index(collection, key) => ReadsOnly(collection, variables) && ReadsOnly(key, variables)
    case Attribute(of, _) => ReadsOnly(of, variables)
    case Splat(of) => ReadsOnly(of, variables)
    case Conditional(condition, whenTrue, whenFalse) =>
      ReadsOnly(condition, variables) && ReadsOnly(whenTrue, variables) && ReadsOnly(whenFalse, variables)
    case Function(_, args) => forall arg :: arg in args ==> ReadsOnly(arg, variables)
    case Template(parts) =>
      forall part :: part in parts && part.Interpolation? ==> ReadsOnly(part.expression, variables)
    case _ => true
  }

  /** What an expression reads is declared if and only if the variables of its secrets are: no fewer
      would do. */
  lemma {:induction false} SecretsAreDeclared(e: Expr, variables: set<string>)
    ensures ReadsOnly(e, variables) <==> Declared(SecretNames(e)) <= variables
  {
    match e
    case SecretEnv(name) =>
      assert Render(e) == [Ident("var"), Dot, Ident("inframe_secret_" + name)];
      assert Render(e)[2].name == "inframe_secret_" + name;
      assert Declared({name}) == {"inframe_secret_" + name};
    case Array(items) =>
      forall x | x in items { SecretsAreDeclared(x, variables); }
    case Object(fields) =>
      forall f | f in fields { SecretsAreDeclared(f.value, variables); }
    case Index(collection, key) =>
      SecretsAreDeclared(collection, variables);
      SecretsAreDeclared(key, variables);
    case Attribute(of, _) => SecretsAreDeclared(of, variables);
    case Splat(of) => SecretsAreDeclared(of, variables);
    case Conditional(condition, whenTrue, whenFalse) =>
      SecretsAreDeclared(condition, variables);
      SecretsAreDeclared(whenTrue, variables);
      SecretsAreDeclared(whenFalse, variables);
    case Function(_, args) =>
      forall x | x in args { SecretsAreDeclared(x, variables); }
    case Template(parts) =>
      forall p | p in parts && p.Interpolation? { SecretsAreDeclared(p.expression, variables); }
    case _ =>
  }
}
