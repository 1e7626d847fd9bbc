/** The component factory: an alias → class-name registry with last-write-wins
    registration, and a factory that constructs the class registered under an
    alias. Whether a class is declared is an oracle supplied by the caller. */
module Registry {
  import opened Results
  import opened OrderedMaps

  /** `$registeredTypes`: aliases to fully qualified class names, in
      registration order. */
  type Registry = OMap<string, string>

  /** A freshly constructed component, known only by its class. */
  datatype Instance = Instance(className: string)

  /** The namespace the factory's `Exception` resolves in. */
  const FactoryNamespace := "LAdmin\\Package"

  /** `register` / `addRegisteredTypes`: maps `alias` to `className`,
      replacing an earlier mapping in place. The registry returned is the one
      that was updated, so calls chain. */
  function Register(reg: Registry, alias: string, className: string): (r: Registry)
    ensures Get(r, alias) == Some(className)
    ensures forall other :: other != alias ==> Get(r, other) == Get(reg, other)
    ensures HasKey(reg, alias) ==> |r| == |reg|
    ensures !HasKey(reg, alias) ==> r == reg + [(alias, className)]
  {
    PutGetAll(reg, alias, className);
    Put(reg, alias, className)
  }

  /** `factory` / `instatiateRegiteredType` with the two failures kept apart,
      as the messages of its two `throw`s intend: an alias that was never
      registered, then a registered class that is not declared. */
  function Factory(reg: Registry, alias: string, classExists: string -> bool): (r: Result<Instance>)
    ensures !HasKey(reg, alias) ==> r == Failure(UnknownAlias(alias))
    ensures HasKey(reg, alias) && !classExists(Get(reg, alias).value) ==>
              r == Failure(UnknownClass(Get(reg, alias).value, alias))
    ensures r.Success? <==> HasKey(reg, alias) && classExists(Get(reg, alias).value)
    ensures r.Success? ==> r.value == Instance(Get(reg, alias).value)
  {
    match Get(reg, alias)
    case None => Failure(UnknownAlias(alias))
    case Some(className) =>
      if !classExists(className) then Failure(UnknownClass(className, alias))
      else Success(Instance(className))
  }

  /** The factory as written: `Exception` is not imported into the
      `LAdmin\Package` namespace, so either `throw` first fails to find the
      class `LAdmin\Package\Exception`, and both failures raise that same
      engine error. */
  function FactoryAsWritten(reg: Registry, alias: string, classExists: string -> bool): (r: Result<Instance>)
    ensures r.Success? <==> Factory(reg, alias, classExists).Success?
    ensures r.Success? ==> r == Factory(reg, alias, classExists)
    ensures r.Failure? ==> r.error == ClassNotFound(FactoryNamespace + "\\Exception")
  {
    match Get(reg, alias)
    case None => Failure(ClassNotFound(FactoryNamespace + "\\Exception"))
    case Some(className) =>
      if !classExists(className) then Failure(ClassNotFound(FactoryNamespace + "\\Exception"))
      else Success(Instance(className))
  }

  /** As written, an unknown alias and an undeclared class cannot be told
      apart by the caller. */
  lemma AsWrittenFailuresCoincide(reg: Registry, alias: string, other: string, classExists: string -> bool)
    requires !HasKey(reg, alias)
    requires HasKey(reg, other) && !classExists(Get(reg, other).value)
    ensures FactoryAsWritten(reg, alias, classExists) == FactoryAsWritten(reg, other, classExists)
    ensures Factory(reg, alias, classExists) != Factory(reg, other, classExists)
  {
  }

  /** Registering twice under one alias: the second class wins. */
  lemma RegisterLastWins(reg: Registry, alias: string, first: string, second: string)
    ensures Register(Register(reg, alias, first), alias, second) == Register(reg, alias, second)
  {
    PutOverwrite(reg, alias, first, second);
  }

  /** Right after registering, the factory builds the registered class, or
      fails naming it when it is not declared. */
  lemma RegisterThenFactory(reg: Registry, alias: string, className: string, classExists: string -> bool)
    ensures Factory(Register(reg, alias, className), alias, classExists) ==
            if classExists(className) then Success(Instance(className))
            else Failure(UnknownClass(className, alias))
  {
  }

  /** Registering one alias leaves what the factory does for every other
      alias unchanged. */
  lemma RegisterKeepsOthers(reg: Registry, alias: string, className: string, other: string, classExists: string -> bool)
    requires other != alias
    ensures Factory(Register(reg, alias, className), other, classExists) == Factory(reg, other, classExists)
  {
  }

  /** Registrations under distinct aliases can be chained in either order
      without changing what the factory builds. */
  lemma RegisterCommutes(reg: Registry, a: string, ca: string, b: string, cb: string, x: string, classExists: string -> bool)
    requires a != b
    ensures Factory(Register(Register(reg, a, ca), b, cb), x, classExists) ==
            Factory(Register(Register(reg, b, cb), a, ca), x, classExists)
  {
  }
}
