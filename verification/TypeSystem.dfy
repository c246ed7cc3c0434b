/** The slow lookup of virtual methods: a walk up the class hierarchy, comparing names and signatures. */
module TypeSystem {
  import opened Options

  datatype TypeIndex = TypeIndex(assembly: nat, ordinal: nat)

  datatype MethodIndex = MethodIndex(assembly: nat, ordinal: nat)

  datatype MethodDef = MethodDef(index: MethodIndex, name: string, signature: seq<int>, numArgs: nat, isAbstract: bool)

  /** `methods` lists the virtual and the instance methods of the type. */
  datatype TypeDef = TypeDef(fullName: string, isInterface: bool, methods: seq<MethodDef>)

  /** The loaded assemblies.  `hierarchy` gives a type and then its base types up to the root;
      `definition` is undefined for an index that names no method. */
  datatype Assemblies = Assemblies(
    typeDef: TypeIndex -> TypeDef,
    hierarchy: TypeIndex -> seq<TypeIndex>,
    definition: MethodIndex -> Option<MethodDef>,
    owner: MethodIndex -> TypeIndex)

  /** The method m can stand in for the callee when it is looked for under `name`. */
  predicate Implements(m: MethodDef, callee: MethodDef, name: string) {
    m.index == callee.index || Homonym(m, callee, name)
  }

  predicate Homonym(m: MethodDef, callee: MethodDef, name: string) {
    m.numArgs == callee.numArgs && !m.isAbstract && m.name == name && m.signature == callee.signature
  }

  /** The first method of a type that can stand in for the callee. */
  function FirstIn(methods: seq<MethodDef>, callee: MethodDef, name: string): Option<MethodIndex> {
    if methods == [] then None
    else if Implements(methods[0], callee, name) then Some(methods[0].index)
    else FirstIn(methods[1..], callee, name)
  }

  /** The first match on the way up the hierarchy. */
  function FirstUp(asm: Assemblies, types: seq<TypeIndex>, callee: MethodDef, name: string): Option<MethodIndex> {
    if types == [] then None
    else
      var here := FirstIn(asm.typeDef(types[0]).methods, callee, name);
      if here.Some? then here else FirstUp(asm, types[1..], callee, name)
  }

  /** The name of an explicitly implemented interface method. */
  function ExplicitName(asm: Assemblies, callee: MethodDef): string {
    asm.typeDef(asm.owner(callee.index)).fullName + "." + callee.name
  }

  function Resolve(asm: Assemblies, cls: TypeIndex, md: MethodIndex): Option<MethodIndex> {
    match asm.definition(md)
    case None => None
    case Some(callee) =>
      var byInterface := if asm.typeDef(asm.owner(md)).isInterface
                         then FirstUp(asm, asm.hierarchy(cls), callee, ExplicitName(asm, callee)) else None;
      if byInterface.Some? then byInterface else FirstUp(asm, asm.hierarchy(cls), callee, callee.name)
  }

  method FindByName(asm: Assemblies, cls: TypeIndex, callee: MethodDef, name: string) returns (idx: Option<MethodIndex>)
    ensures idx == FirstUp(asm, asm.hierarchy(cls), callee, name)
  {
    var types := asm.hierarchy(cls);
    var depth := 0;
    while depth < |types|
      invariant 0 <= depth <= |types|
      invariant FirstUp(asm, types, callee, name) == FirstUp(asm, types[depth..], callee, name)
    {
      var methods := asm.typeDef(types[depth]).methods;
      for i := 0 to |methods|
        invariant FirstIn(methods, callee, name) == FirstIn(methods[i..], callee, name)
      {
        if methods[i].index == callee.index { return Some(callee.index); }
        if methods[i].numArgs == callee.numArgs && !methods[i].isAbstract {
          if methods[i].name == name && methods[i].signature == callee.signature { return Some(methods[i].index); }
        }
      }
      depth := depth + 1;
    }
    idx := None;
  }

  method FindVirtualMethodDef(asm: Assemblies, cls: TypeIndex, md: MethodIndex) returns (idx: Option<MethodIndex>)
    ensures idx == Resolve(asm, cls, md) && Answered(asm, cls, md, idx)
  {
    ResolveAnswers(asm, cls, md);
    var def := asm.definition(md);
    if def.Some? {
      var callee := def.value;
      if asm.typeDef(asm.owner(md)).isInterface {
        idx := FindByName(asm, cls, callee, ExplicitName(asm, callee));
        if idx.Some? { return; }
      }
      idx := FindByName(asm, cls, callee, callee.name);
      if idx.Some? { return; }
    }
    idx := None;
  }

  // ---------------------------------------------------------------- the owner shortcut

  /** The indices agree: a method is listed where its owner says, under its own index. */
  ghost predicate Listed(asm: Assemblies, md: MethodIndex, i: nat) {
    var cls := asm.owner(md);
    && asm.definition(md).Some? && asm.definition(md).value.index == md
    && asm.hierarchy(cls) != [] && asm.hierarchy(cls)[0] == cls
    && i < |asm.typeDef(cls).methods| && asm.typeDef(cls).methods[i] == asm.definition(md).value
    && forall j | 0 <= j < i :: asm.typeDef(cls).methods[j].index != md
  }

  /** Under this name the owner is asked for the method first. */
  function FirstName(asm: Assemblies, md: MethodIndex): string
    requires asm.definition(md).Some?
  {
    var callee := asm.definition(md).value;
    if asm.typeDef(asm.owner(md)).isInterface then ExplicitName(asm, callee) else callee.name
  }

  lemma {:induction false} FirstInAt(methods: seq<MethodDef>, callee: MethodDef, name: string, i: nat)
    requires i < |methods| && methods[i].index == callee.index
    requires forall j | 0 <= j < i :: methods[j].index != callee.index
    ensures FirstIn(methods, callee, name).Some?
    ensures FirstIn(methods, callee, name) == Some(callee.index) <==>
              forall j | 0 <= j < i :: !Homonym(methods[j], callee, name)
  {
    if i > 0 {
      if Implements(methods[0], callee, name) {
        assert Homonym(methods[0], callee, name);
      } else {
        assert methods[1..][i - 1] == methods[i];
        assert forall j | 0 <= j < i - 1 :: methods[1..][j] == methods[j + 1];
        FirstInAt(methods[1..], callee, name, i - 1);
        assert (forall j | 0 <= j < i :: !Homonym(methods[j], callee, name)) <==>
               (forall j | 0 <= j < i - 1 :: !Homonym(methods[1..][j], callee, name)) by {
          assert forall j | 0 < j < i :: methods[j] == methods[1..][j - 1];
        }
      }
    }
  }

  /** Asking a type for a method of its own gives that method exactly when no earlier, concrete
      method of the type has the same signature and the name that is tried first. */
  lemma {:induction false} OwnMethod(asm: Assemblies, md: MethodIndex, i: nat)
    requires Listed(asm, md, i)
    ensures Resolve(asm, asm.owner(md), md) == Some(md) <==>
            forall j | 0 <= j < i ::
                !Homonym(asm.typeDef(asm.owner(md)).methods[j], asm.definition(md).value, FirstName(asm, md))
  {
    FirstInAt(asm.typeDef(asm.owner(md)).methods, asm.definition(md).value, FirstName(asm, md), i);
  }

  /** Methods are told apart by name, signature and number of arguments, as metadata must have it. */
  ghost predicate ToldApart(methods: seq<MethodDef>) {
    forall i, j | 0 <= i < j < |methods| ::
      methods[i].name != methods[j].name || methods[i].signature != methods[j].signature
          || methods[i].numArgs != methods[j].numArgs
  }

  /** A class with well-formed metadata always answers with its own method. */
  lemma {:induction false} OwnMethodOfClass(asm: Assemblies, md: MethodIndex, i: nat)
    requires Listed(asm, md, i) && ToldApart(asm.typeDef(asm.owner(md)).methods)
               && !asm.typeDef(asm.owner(md)).isInterface
    ensures Resolve(asm, asm.owner(md), md) == Some(md)
  {
    OwnMethod(asm, md, i);
  }

  const FIRST_TWIN := MethodDef(MethodIndex(0, 0), "Twin", [], 1, false)
  const SECOND_TWIN := FIRST_TWIN.(index := MethodIndex(0, 1))
  const TWINS_TYPE := TypeIndex(0, 0)

  /** Malformed metadata: a class with two concrete methods of one name and one signature. */
  function Twins(): Assemblies {
    Assemblies(
      t => TypeDef("Twins", false, [FIRST_TWIN, SECOND_TWIN]),
      t => [t],
      md => if md == FIRST_TWIN.index then Some(FIRST_TWIN)
            else if md == SECOND_TWIN.index then Some(SECOND_TWIN) else None,
      md => TWINS_TYPE)
  }

  /** Asked for its second method, such a class answers with the first. */
  lemma TwinsDiffer()
    ensures Listed(Twins(), SECOND_TWIN.index, 1) && Twins().owner(SECOND_TWIN.index) == TWINS_TYPE
    ensures Resolve(Twins(), TWINS_TYPE, SECOND_TWIN.index) == Some(FIRST_TWIN.index)
  {
    assert FirstUp(Twins(), [TWINS_TYPE], SECOND_TWIN, "Twin") == Some(FIRST_TWIN.index);
  }

  /** Method i of type d in the hierarchy can stand in for the callee. */
  ghost predicate MatchAt(asm: Assemblies, types: seq<TypeIndex>, callee: MethodDef, name: string, d: nat, i: nat) {
    && d < |types| && i < |asm.typeDef(types[d]).methods|
    && Implements(asm.typeDef(types[d]).methods[i], callee, name)
  }

  /** The walk finds the match nearest to the class, and within a type the first; it fails only if
      there is no match. */
  lemma {:induction false} NearestMatch(asm: Assemblies, types: seq<TypeIndex>, callee: MethodDef, name: string)
      returns (d: nat, i: nat)
    ensures FirstUp(asm, types, callee, name).None? <==>
              forall d: nat, i: nat :: !MatchAt(asm, types, callee, name, d, i)
    ensures FirstUp(asm, types, callee, name).Some? ==>
              && MatchAt(asm, types, callee, name, d, i)
              && FirstUp(asm, types, callee, name) == Some(asm.typeDef(types[d]).methods[i].index)
              && forall d': nat, i': nat | MatchAt(asm, types, callee, name, d', i') :: d < d' || (d == d' && i <= i')
  {
    d, i := 0, 0;
    if types != [] {
      var methods := asm.typeDef(types[0]).methods;
      i := FirstMatch(methods, callee, name);
      if FirstIn(methods, callee, name).None? {
        d, i := NearestMatch(asm, types[1..], callee, name);
        forall d': nat, i': nat | MatchAt(asm, types, callee, name, d', i')
          ensures 0 < d' && MatchAt(asm, types[1..], callee, name, d' - 1, i')
        {
        }
        if FirstUp(asm, types[1..], callee, name).Some? { assert MatchAt(asm, types, callee, name, d + 1, i); }
        d := d + 1;
      } else {
        assert MatchAt(asm, types, callee, name, 0, i);
      }
    }
  }

  lemma {:induction false} FirstMatch(methods: seq<MethodDef>, callee: MethodDef, name: string) returns (i: nat)
    ensures FirstIn(methods, callee, name).None? <==>
              forall i | 0 <= i < |methods| :: !Implements(methods[i], callee, name)
    ensures FirstIn(methods, callee, name).Some? ==>
              && i < |methods| && Implements(methods[i], callee, name)
              && FirstIn(methods, callee, name) == Some(methods[i].index)
              && forall j | 0 <= j < i :: !Implements(methods[j], callee, name)
  {
    i := 0;
    if methods != [] && !Implements(methods[0], callee, name) {
      i := FirstMatch(methods[1..], callee, name);
      forall j | 0 <= j < |methods| ensures j > 0 ==> methods[j] == methods[1..][j - 1] {
      }
      i := i + 1;
    }
  }

  // ---------------------------------------------------------------- the answer, spelled out

  /** Method i of type d up the hierarchy may answer for the callee under `name`: it is the callee, or a
      concrete method with that name and with the callee's signature and number of arguments. */
  ghost predicate MayAnswer(asm: Assemblies, types: seq<TypeIndex>, callee: MethodDef, name: string, d: nat, i: nat) {
    && d < |types| && i < |asm.typeDef(types[d]).methods|
    && var m := asm.typeDef(types[d]).methods[i];
      || m.index == callee.index
      || (!m.isAbstract && m.name == name && m.signature == callee.signature && m.numArgs == callee.numArgs)
  }

  /** It is the nearest to the class, and the first in its type. */
  ghost predicate FirstToAnswer(asm: Assemblies, types: seq<TypeIndex>, callee: MethodDef, name: string, d: nat, i: nat)
  {
    && MayAnswer(asm, types, callee, name, d, i)
    && forall d': nat, i': nat | MayAnswer(asm, types, callee, name, d', i') :: d < d' || (d == d' && i <= i')
  }

  /** The answer under one name: the index of the first method that may answer, and none only if there is none. */
  ghost predicate AnsweredBy(asm: Assemblies, types: seq<TypeIndex>, callee: MethodDef, name: string,
      idx: Option<MethodIndex>)
  {
    if idx.Some? then
      exists d: nat, i: nat ::
        FirstToAnswer(asm, types, callee, name, d, i) && asm.typeDef(types[d]).methods[i].index == idx.value
    else
      forall d: nat, i: nat :: !MayAnswer(asm, types, callee, name, d, i)
  }

  /** What the slow lookup should answer: for a method of an interface it asks for the full name of the
      interface, a dot and the name of the method first, and only then for the plain name. */
  ghost predicate Answered(asm: Assemblies, cls: TypeIndex, md: MethodIndex, idx: Option<MethodIndex>) {
    match asm.definition(md)
    case None => idx == None
    case Some(callee) =>
      var types, explicit := asm.hierarchy(cls), asm.typeDef(asm.owner(callee.index)).fullName + "." + callee.name;
      if asm.typeDef(asm.owner(md)).isInterface && !AnsweredBy(asm, types, callee, explicit, None) then
        idx.Some? && AnsweredBy(asm, types, callee, explicit, idx)
      else
        AnsweredBy(asm, types, callee, callee.name, idx)
  }

  lemma {:induction false} FirstUpAnswers(asm: Assemblies, types: seq<TypeIndex>, callee: MethodDef, name: string)
    ensures AnsweredBy(asm, types, callee, name, FirstUp(asm, types, callee, name))
    ensures AnsweredBy(asm, types, callee, name, None) <==> FirstUp(asm, types, callee, name).None?
  {
    var d, i := NearestMatch(asm, types, callee, name);
    forall d: nat, i: nat
      ensures MayAnswer(asm, types, callee, name, d, i) <==> MatchAt(asm, types, callee, name, d, i)
    {
    }
    if FirstUp(asm, types, callee, name).Some? { assert FirstToAnswer(asm, types, callee, name, d, i); }
  }

  lemma {:induction false} ResolveAnswers(asm: Assemblies, cls: TypeIndex, md: MethodIndex)
    ensures Answered(asm, cls, md, Resolve(asm, cls, md))
  {
    if asm.definition(md).Some? {
      var callee := asm.definition(md).value;
      FirstUpAnswers(asm, asm.hierarchy(cls), callee, ExplicitName(asm, callee));
      FirstUpAnswers(asm, asm.hierarchy(cls), callee, callee.name);
    }
  }

  const INTERFACE_METHOD := MethodDef(MethodIndex(0, 0), "M", [], 1, true)
  const EXPLICIT_METHOD := MethodDef(MethodIndex(0, 1), "I.M", [], 1, false)
  const PLAIN_METHOD := MethodDef(MethodIndex(0, 2), "M", [], 1, false)
  const IMPLEMENTER := TypeIndex(0, 1)

  /** An interface I with a method M, and a class that has a method named I.M and, with the same signature,
      one named M. */
  function Implementers(): Assemblies {
    Assemblies(
      t => if t == IMPLEMENTER then TypeDef("C", false, [PLAIN_METHOD, EXPLICIT_METHOD])
           else TypeDef("I", true, [INTERFACE_METHOD]),
      t => [t],
      md => if md == INTERFACE_METHOD.index then Some(INTERFACE_METHOD) else None,
      md => if md == INTERFACE_METHOD.index then TypeIndex(0, 0) else IMPLEMENTER)
  }

  /** Asked for the method of the interface, the class answers with its explicit implementation. */
  lemma ExplicitFirst(idx: Option<MethodIndex>)
    ensures Resolve(Implementers(), IMPLEMENTER, INTERFACE_METHOD.index) == Some(EXPLICIT_METHOD.index)
    ensures Answered(Implementers(), IMPLEMENTER, INTERFACE_METHOD.index, idx) ==> idx == Some(EXPLICIT_METHOD.index)
  {
    var asm, types := Implementers(), [IMPLEMENTER];
    var explicit := "I" + "." + "M";
    assert explicit == "I.M" && |explicit| == 3 && |PLAIN_METHOD.name| == 1;
    assert MayAnswer(asm, types, INTERFACE_METHOD, explicit, 0, 1);
    forall d: nat, i: nat | MayAnswer(asm, types, INTERFACE_METHOD, explicit, d, i) ensures d == 0 && i == 1 {
    }
    ResolveAnswers(asm, IMPLEMENTER, INTERFACE_METHOD.index);
  }
}
