/** Ownership of what type descriptors point at: class-name strings, handler references and libffi
    argument lists, from create_type_* (xs/TypeParser.xs) to DESTROY (xs/Type.xs). */
module TypeOwnership {
  import opened TypeCodes

  type Id = nat  // a block of the C heap: a class string or an arg_types array; never reused
  type Sv = nat

  /** A descriptor as DESTROY sees it: the type code, and the fields of the union.  The ones its
      kind does not set hold whatever was in the memory. */
  datatype Descriptor = Descriptor(code: Code, className: Option<Id>, argTypes: Option<Id>,
                                   toNative: Option<Sv>, toNativePost: Option<Sv>, toPerl: Option<Sv>)

  /** `types`: every descriptor made so far, None once destroyed.  `strings`: class strings by block.
      `freed` counts frees per block. */
  datatype State = State(types: seq<Option<Descriptor>>, strings: map<Id, string>, next: Id,
                         made: multiset<Id>, freed: multiset<Id>, count: map<Sv, int>)

  const START := State([], map[], 0, multiset{}, multiset{}, map[])

  /** A request to make or destroy a type.  `junk` is what uninitialised fields happen to contain. */
  datatype Step =
    | Plain(code: Code, junk: Descriptor)                               // basic, string, pointer, array
    | RecordType(byValue: bool, recordClass: Option<string>, junk: Descriptor)
    | ObjectType(code: Code, objectClass: string, junk: Descriptor)
    | CustomType(basis: nat, toNative: Option<Sv>, toPerl: Option<Sv>, post: Option<Sv>, junk: Descriptor)
    | ClosureType(junk: Descriptor)
    | Destroy(which: nat)

  predicate IsRecordCode(code: Code) {
    Base(code) == BASE_RECORD || Base(code) == Base(RECORD)
  }

  /** What the parser asks for, and only of descriptors that still exist. */
  predicate Proper(s: State, step: Step) {
    match step
    case Plain(code, _) => code == VOID || IsUnit(code) ||
        ((Shape(code) == SHAPE_POINTER || Shape(code) == SHAPE_ARRAY) && IsUnit(Stem(code)))
    case ObjectType(code, _, _) => IsUnit(code) && IsObjectOk(code)
    case CustomType(basis, _, _, _, _) => basis < |s.types| && s.types[basis].Some? &&
        IsCustomizable(s.types[basis].value.code)
    case Destroy(which) => which < |s.types| && s.types[which].Some?
    case _ => true
  }

  function Count(count: map<Sv, int>, sv: Sv): int {
    if sv in count then count[sv] else 0
  }

  function BumpIf(count: map<Sv, int>, sv: Option<Sv>, delta: int): map<Sv, int> {
    if sv.Some? then count[sv.value := Count(count, sv.value) + delta] else count
  }

  /** The three handler counts moved together. */
  function BumpAll(count: map<Sv, int>, d: Descriptor, delta: int): map<Sv, int> {
    BumpIf(BumpIf(BumpIf(count, d.toNative, delta), d.toNativePost, delta), d.toPerl, delta)
  }

  /** malloc and memcpy of a class name. */
  function NewString(s: State, name: string): State {
    s.(strings := s.strings[s.next := name], next := s.next + 1, made := s.made + multiset{s.next})
  }

  function Add(s: State, d: Descriptor): State {
    s.(types := s.types + [Some(d)])
  }

  /** A custom type over a record type gets its own copy of the class name. */
  function ClassCopied(s: State, b: Descriptor): (State, Option<Id>) {
    if IsRecordCode(b.code) && b.className.Some? then
      (NewString(s, if b.className.value in s.strings then s.strings[b.className.value] else ""), Some(s.next))
    else (s, None)
  }

  function CustomOf(b: Descriptor, name: Option<Id>, toNative: Option<Sv>, toPerl: Option<Sv>, post: Option<Sv>,
                    junk: Descriptor): Descriptor {
    junk.(code := SHAPE_CUSTOM | b.code, className := name, toNative := toNative, toNativePost := post,
        toPerl := toPerl)
  }

  function Created(s: State, step: Step): State
    requires Proper(s, step) && !step.Destroy?
  {
    match step
    case Plain(code, junk) => Add(s, junk.(code := code))
    case RecordType(byValue, name, junk) =>
      var code := if byValue then RECORD_VALUE else RECORD;
      if name.Some? then Add(NewString(s, name.value), junk.(code := code, className := Some(s.next)))
      else Add(s, junk.(code := code, className := None))
    case ObjectType(code, name, junk) => Add(NewString(s, name),
        junk.(code := code | SHAPE_OBJECT, className := Some(s.next)))
    case CustomType(basis, toNative, toPerl, post, junk) =>
      var b := s.types[basis].value;
      var (t, name) := ClassCopied(s, b);
      var d := CustomOf(b, name, toNative, toPerl, post, junk);
      Add(t.(count := BumpAll(t.count, d, 1)), d)
    case ClosureType(junk) =>
      Add(s.(next := s.next + 1, made := s.made + multiset{s.next}), junk.(code := CLOSURE, argTypes := Some(s.next)))
  }

  /** free of an optional block. */
  function FreeIf(s: State, id: Option<Id>): State {
    if id.Some? then s.(strings := s.strings - {id.value}, freed := s.freed + multiset{id.value}) else s
  }

  /** Type DESTROY, branching on the code as it does. */
  function Destroyed(s: State, which: nat): State
    requires which < |s.types| && s.types[which].Some?
  {
    var d := s.types[which].value;
    var t := s.(types := s.types[which := None]);
    if d.code == CLOSURE then FreeIf(t, d.argTypes)
    else if d.code == RECORD || d.code == RECORD_VALUE then FreeIf(t, d.className)
    else if IsCustom(d.code) then
      FreeIf(t.(count := BumpAll(t.count, d, -1)), d.className)
    else if Shape(d.code) == SHAPE_OBJECT then FreeIf(t, d.className)
    else t
  }

  function Next(s: State, step: Step): State
    requires Proper(s, step)
  {
    if step.Destroy? then Destroyed(s, step.which) else Created(s, step)
  }

  // ---- Who owns what, by kind and not by the branches of DESTROY ----

  /** The block a descriptor owns. */
  function Owned(d: Descriptor): Option<Id> {
    if d.code == CLOSURE then d.argTypes
    else if Shape(d.code) == SHAPE_POINTER || Shape(d.code) == SHAPE_ARRAY || d.code == VOID || IsUnit(d.code) then None
    else d.className
  }

  function Holds(sv: Sv, handler: Option<Sv>): nat {
    if handler == Some(sv) then 1 else 0
  }

  /** References to sv a descriptor holds. */
  function References(d: Descriptor, sv: Sv): nat {
    if IsCustom(d.code) then Holds(sv, d.toNative) + Holds(sv, d.toNativePost) + Holds(sv, d.toPerl) else 0
  }

  function Owners(types: seq<Option<Descriptor>>, id: Id): nat {
    if types == [] then 0
    else
      var last := types[|types| - 1];
      Owners(types[..|types| - 1], id) + (if last.Some? && Owned(last.value) == Some(id) then 1 else 0)
  }

  function Held(types: seq<Option<Descriptor>>, sv: Sv): nat {
    if types == [] then 0
    else
      var last := types[|types| - 1];
      Held(types[..|types| - 1], sv) + (if last.Some? then References(last.value, sv) else 0)
  }

  lemma {:induction false} OwnersUpdate(types: seq<Option<Descriptor>>, which: nat, id: Id)
    requires which < |types| && types[which].Some?
    ensures Owners(types[which := None], id) + (if Owned(types[which].value) == Some(id) then 1 else 0) ==
            Owners(types, id)
  {
    var last := |types| - 1;
    if which < last {
      assert types[which := None][..last] == types[..last][which := None];
      OwnersUpdate(types[..last], which, id);
    } else {
      assert types[which := None][..last] == types[..last];
    }
  }

  lemma {:induction false} HeldUpdate(types: seq<Option<Descriptor>>, which: nat, sv: Sv)
    requires which < |types| && types[which].Some?
    ensures Held(types[which := None], sv) + References(types[which].value, sv) == Held(types, sv)
  {
    var last := |types| - 1;
    if which < last {
      assert types[which := None][..last] == types[..last][which := None];
      HeldUpdate(types[..last], which, sv);
    } else {
      assert types[which := None][..last] == types[..last];
    }
  }

  /** Codes descriptors can have. */
  predicate Known(code: Code) {
    code == VOID || IsArgument(code)
  }

  /** Every block is owned by exactly one descriptor while it exists and was freed exactly once when
      it does not; the count on a handler is the number of references descriptors hold. */
  ghost predicate Good(s: State, id: Id, sv: Sv) {
    && (forall i :: 0 <= i < |s.types| && s.types[i].Some? ==> Known(s.types[i].value.code))
    && s.made[id] == (if id < s.next then 1 else 0)
    && s.freed[id] + Owners(s.types, id) == s.made[id]
    && (forall i :: 0 <= i < |s.types| && s.types[i].Some? && s.types[i].value.code != CLOSURE ==>
          Owned(s.types[i].value) == Some(id) ==> id in s.strings)
    && Count(s.count, sv) == Held(s.types, sv)
  }

  lemma {:induction false} AddEffect(types: seq<Option<Descriptor>>, d: Descriptor, id: Id, sv: Sv)
    ensures Owners(types + [Some(d)], id) == Owners(types, id) + (if Owned(d) == Some(id) then 1 else 0)
    ensures Held(types + [Some(d)], sv) == Held(types, sv) + References(d, sv)
  {
    assert (types + [Some(d)])[..|types|] == types;
  }

  /** What a block of code bits says about the kinds that own a class string. */
  lemma {:induction false} OwnerKinds(code: Code)
    requires Known(code)
    ensures code == CLOSURE || code == RECORD || code == RECORD_VALUE || IsCustom(code) ||
            Shape(code) == SHAPE_OBJECT <==>
            !(Shape(code) == SHAPE_POINTER || Shape(code) == SHAPE_ARRAY || code == VOID || IsUnit(code))
    ensures IsCustom(code) ==> code != CLOSURE && code != RECORD && code != RECORD_VALUE
    ensures Shape(code) == SHAPE_OBJECT ==> code != CLOSURE && code != RECORD && code != RECORD_VALUE && !IsCustom(code)
  {
  }

  /** The codes the creators put together. */
  lemma {:induction false} CreatedCodes(s: State, step: Step)
    requires Proper(s, step) && !step.Destroy?
    requires forall i :: 0 <= i < |s.types| && s.types[i].Some? ==> Known(s.types[i].value.code)
    ensures step.Plain? ==> Known(step.code) && !IsCustom(step.code) && step.code != CLOSURE &&
                            (Shape(step.code) == SHAPE_POINTER || Shape(step.code) == SHAPE_ARRAY ||
                                step.code == VOID || IsUnit(step.code))
    ensures step.ObjectType? ==> Known(step.code | SHAPE_OBJECT) && Shape(step.code | SHAPE_OBJECT) == SHAPE_OBJECT
    ensures step.CustomType? ==> var b := s.types[step.basis].value.code;
                                 Known(SHAPE_CUSTOM | b) && IsCustom(SHAPE_CUSTOM | b) && b != CLOSURE &&
                                 (IsRecordCode(b) <==> b == RECORD || b == RECORD_VALUE)
    ensures Known(RECORD) && Known(RECORD_VALUE) && Known(CLOSURE)
    ensures !IsCustom(RECORD) && !IsCustom(RECORD_VALUE) && !IsCustom(CLOSURE)
  {
  }

  lemma {:induction false} BumpAllEffect(count: map<Sv, int>, d: Descriptor, delta: int, sv: Sv)
    requires IsCustom(d.code)
    ensures Count(BumpAll(count, d, delta), sv) == Count(count, sv) + delta * References(d, sv)
  {
  }

  /** DESTROY, by its branches, frees what the descriptor owns by its kind, and releases what it
      references. */
  lemma {:induction false} DestroyedFrees(s: State, which: nat, id: Id, sv: Sv)
    requires which < |s.types| && s.types[which].Some? && Known(s.types[which].value.code)
    ensures var d, t := s.types[which].value, Destroyed(s, which); var mine := Owned(d) == Some(id);
            && t.types == s.types[which := None] && t.next == s.next && t.made == s.made
            && t.freed[id] == s.freed[id] + (if mine then 1 else 0)
            && (id in s.strings && !mine ==> id in t.strings)
            && Count(t.count, sv) == Count(s.count, sv) - References(d, sv)
  {
    var d := s.types[which].value;
    OwnerKinds(d.code);
    if IsCustom(d.code) {
      BumpAllEffect(s.count, d, -1, sv);
    }
  }

  lemma {:induction false} DestroyKeeps(s: State, which: nat, id: Id, sv: Sv)
    requires Good(s, id, sv) && which < |s.types| && s.types[which].Some?
    ensures Good(Destroyed(s, which), id, sv)
  {
    DestroyedFrees(s, which, id, sv);
    OwnersUpdate(s.types, which, id);
    HeldUpdate(s.types, which, sv);
    var types := Destroyed(s, which).types;
    forall i | 0 <= i < |types| && types[i].Some? && Owned(types[i].value) == Some(id)
      ensures Owners(types, id) >= 1
    {
      OwnersAtLeast(types, i, id);
    }
  }

  lemma {:induction false} OwnersAtLeast(types: seq<Option<Descriptor>>, i: nat, id: Id)
    requires i < |types| && types[i].Some? && Owned(types[i].value) == Some(id)
    ensures Owners(types, id) >= 1
  {
    OwnersUpdate(types, i, id);
  }

  /** Adding a descriptor for which `t` was prepared: what it owns is new, what it references was counted. */
  lemma {:induction false} AddKeeps(s: State, t: State, d: Descriptor, id: Id, sv: Sv)
    requires Good(s, id, sv) && Known(d.code) && t.types == s.types && t.freed == s.freed
    requires t.made[id] == (if id < t.next then 1 else 0)
    requires t.made[id] == s.made[id] + (if Owned(d) == Some(id) then 1 else 0)
    requires id in s.strings || (Owned(d) == Some(id) && d.code != CLOSURE) ==> id in t.strings
    requires Count(t.count, sv) == Count(s.count, sv) + References(d, sv)
    ensures Good(Add(t, d), id, sv)
  {
    AddEffect(s.types, d, id, sv);
  }

  lemma {:induction false} CreateCustomKeeps(s: State, step: Step, id: Id, sv: Sv)
    requires Good(s, id, sv) && Proper(s, step) && step.CustomType?
    ensures Good(Created(s, step), id, sv)
  {
    CreatedCodes(s, step);
    var b := s.types[step.basis].value;
    var (t, name) := ClassCopied(s, b);
    var d := CustomOf(b, name, step.toNative, step.toPerl, step.post, step.junk);
    OwnerKinds(d.code);
    BumpAllEffect(t.count, d, 1, sv);
    AddKeeps(s, t.(count := BumpAll(t.count, d, 1)), d, id, sv);
  }

  lemma {:induction false} CreateRecordKeeps(s: State, step: Step, id: Id, sv: Sv)
    requires Good(s, id, sv) && step.RecordType?
    ensures Good(Created(s, step), id, sv)
  {
    CreatedCodes(s, step);
    var code := if step.byValue then RECORD_VALUE else RECORD;
    OwnerKinds(code);
    if step.recordClass.Some? {
      AddKeeps(s, NewString(s, step.recordClass.value), step.junk.(code := code, className := Some(s.next)), id, sv);
    } else {
      AddKeeps(s, s, step.junk.(code := code, className := None), id, sv);
    }
  }

  lemma {:induction false} CreatePlainKeeps(s: State, step: Step, id: Id, sv: Sv)
    requires Good(s, id, sv) && Proper(s, step) && step.Plain?
    ensures Good(Created(s, step), id, sv)
  {
    CreatedCodes(s, step);
    OwnerKinds(step.code);
    AddKeeps(s, s, step.junk.(code := step.code), id, sv);
  }

  lemma {:induction false} CreateObjectKeeps(s: State, step: Step, id: Id, sv: Sv)
    requires Good(s, id, sv) && Proper(s, step) && step.ObjectType?
    ensures Good(Created(s, step), id, sv)
  {
    CreatedCodes(s, step);
    var d := step.junk.(code := step.code | SHAPE_OBJECT, className := Some(s.next));
    OwnerKinds(d.code);
    AddKeeps(s, NewString(s, step.objectClass), d, id, sv);
  }

  lemma {:induction false} CreateClosureKeeps(s: State, step: Step, id: Id, sv: Sv)
    requires Good(s, id, sv) && step.ClosureType?
    ensures Good(Created(s, step), id, sv)
  {
    CreatedCodes(s, step);
    AddKeeps(s, s.(next := s.next + 1, made := s.made + multiset{s.next}),
             step.junk.(code := CLOSURE, argTypes := Some(s.next)), id, sv);
  }

  lemma {:induction false} CreateKeeps(s: State, step: Step, id: Id, sv: Sv)
    requires Good(s, id, sv) && Proper(s, step) && !step.Destroy?
    ensures Good(Created(s, step), id, sv)
  {
    match step {
      case Plain(_, _) =>
        CreatePlainKeeps(s, step, id, sv);
      case RecordType(_, _, _) =>
        CreateRecordKeeps(s, step, id, sv);
      case ObjectType(_, _, _) =>
        CreateObjectKeeps(s, step, id, sv);
      case CustomType(_, _, _, _, _) =>
        CreateCustomKeeps(s, step, id, sv);
      case ClosureType(_) =>
        CreateClosureKeeps(s, step, id, sv);
    }
  }

  // ---- Runs ----

  function Run(s: State, steps: seq<Step>): Option<State> {
    if steps == [] then Some(s)
    else
      var before := Run(s, steps[..|steps| - 1]);
      if before.Some? && Proper(before.value, steps[|steps| - 1]) then Some(Next(before.value, steps[|steps| - 1]))
          else None
  }

  /** Over any population of types made and destroyed in any order: every class string and argument
      list has exactly one owner until it is freed, once, and the counts on handlers are exactly the
      references existing custom types hold, whatever uninitialised descriptor fields contain. */
  lemma {:induction false} EveryRunIsGood(steps: seq<Step>, id: Id, sv: Sv)
    requires Run(START, steps).Some?
    ensures Good(Run(START, steps).value, id, sv)
  {
    if steps != [] {
      var earlier := steps[..|steps| - 1];
      EveryRunIsGood(earlier, id, sv);
      var s := Run(START, earlier).value;
      var step := steps[|steps| - 1];
      if step.Destroy? {
        DestroyKeeps(s, step.which, id, sv);
      } else {
        CreateKeeps(s, step, id, sv);
      }
    }
  }

  /** Once every type is destroyed nothing is left: each block made was freed once, no handler is held. */
  lemma {:induction false} AllDestroyedLeavesNothing(steps: seq<Step>, id: Id, sv: Sv)
    requires Run(START, steps).Some?
    requires forall i :: 0 <= i < |Run(START, steps).value.types| ==> Run(START, steps).value.types[i].None?
    ensures var s := Run(START, steps).value;
            s.freed[id] == s.made[id] && Count(s.count, sv) == 0
  {
    EveryRunIsGood(steps, id, sv);
    NothingOwned(Run(START, steps).value.types, id, sv);
  }

  lemma {:induction false} NothingOwned(types: seq<Option<Descriptor>>, id: Id, sv: Sv)
    requires forall i :: 0 <= i < |types| ==> types[i].None?
    ensures Owners(types, id) == 0 && Held(types, sv) == 0
  {
    if types != [] {
      NothingOwned(types[..|types| - 1], id, sv);
    }
  }

  /** The class string of a type is its own: destroying any other type, its basis included, leaves
      it in place with the same content. */
  lemma {:induction false} ClassStringIsIndependent(s: State, i: nat, which: nat, id: Id, sv: Sv)
    requires Good(s, id, sv) && i < |s.types| && s.types[i].Some? && s.types[i].value.code != CLOSURE
    requires Owned(s.types[i].value) == Some(id)
    requires which < |s.types| && s.types[which].Some? && which != i
    ensures id in s.strings && id in Destroyed(s, which).strings
    ensures Destroyed(s, which).strings[id] == s.strings[id]
  {
    DestroyKeeps(s, which, id, sv);
    assert Destroyed(s, which).types[i] == s.types[i];
  }

  /** A custom type over a record type with a class gets its own copy of the class name. */
  lemma {:induction false} CustomCopiesClass(s: State, step: Step, id: Id, sv: Sv)
    requires Proper(s, step) && step.CustomType? && s.types[step.basis].value.className == Some(id)
    requires s.types[step.basis].value.code == RECORD || s.types[step.basis].value.code == RECORD_VALUE
    requires Good(s, id, sv)
    ensures var t := Created(s, step); var d := t.types[|s.types|].value;
            && Owned(d).Some? && Owned(d) != Some(id) && Owned(d).value in t.strings
            && id in t.strings && t.strings[Owned(d).value] == s.strings[id] == t.strings[id]
  {
    CreatedCodes(s, step);
    var b := s.types[step.basis].value;
    OwnerKinds(b.code);
    OwnerKinds(SHAPE_CUSTOM | b.code);
    assert Owned(b) == Some(id);
    OwnersAtLeast(s.types, step.basis, id);
  }

  /** A custom type has the bits of its basis and the three handlers it was given, each in its own place; it has
      a class string only if its basis is a record with one.  Every other descriptor stays as it was. */
  lemma {:induction false} CustomMade(s: State, step: Step)
    requires Proper(s, step) && step.CustomType? && Known(s.types[step.basis].value.code)
    ensures var b, t := s.types[step.basis].value, Created(s, step); var made := t.types[|s.types|].value;
            && t.types == s.types + [Some(made)]
            && IsCustom(made.code) && Stem(made.code) == b.code
            && made.toNative == step.toNative && made.toPerl == step.toPerl && made.toNativePost == step.post
            && (made.className.Some? <==> (b.code == RECORD || b.code == RECORD_VALUE) && b.className.Some?)
  {
    CreatedCustomCode(s.types[step.basis].value.code);
  }

  lemma {:induction false} CreatedCustomCode(code: Code)
    requires IsCustomizable(code) && Known(code)
    ensures IsCustom(SHAPE_CUSTOM | code) && Stem(SHAPE_CUSTOM | code) == code
    ensures IsRecordCode(code) <==> code == RECORD || code == RECORD_VALUE
  {
  }

  /** What the other requests make, added behind the descriptors there are: a code of the kind asked for, and for
      a record or an object the class name it was asked for in a new block of its own. */
  lemma {:induction false} TypeMade(s: State, step: Step)
    requires Proper(s, step) && !step.Destroy? && !step.CustomType?
    ensures var t, n := Created(s, step), |s.types|; var made := t.types[n].value;
            && t.types == s.types + [Some(made)]
            && (step.Plain? ==> made.code == step.code && t.strings == s.strings)
            && (step.ClosureType? ==> made.code == CLOSURE && made.argTypes == Some(s.next) && t.strings == s.strings)
            && (step.ObjectType? ==> Shape(made.code) == SHAPE_OBJECT && Stem(made.code) == step.code &&
                                     Named(s, t, made, step.objectClass))
            && (step.RecordType? ==>
                  && made.code == (if step.byValue then RECORD_VALUE else RECORD)
                  && if step.recordClass.Some? then Named(s, t, made, step.recordClass.value)
                     else made.className == None && t.strings == s.strings)
  {
    if step.ObjectType? {
      ObjectBits(step.code);
    }
  }

  /** The descriptor's class name is in a block allocated for it. */
  predicate Named(s: State, t: State, made: Descriptor, name: string) {
    made.className == Some(s.next) && t.next == s.next + 1 && t.strings == s.strings[s.next := name]
  }

  lemma {:induction false} ObjectBits(code: Code)
    requires IsUnit(code)
    ensures Shape(code | SHAPE_OBJECT) == SHAPE_OBJECT && Stem(code | SHAPE_OBJECT) == code
  {
  }

  // ---- The code ----

  class TypeStore {
    var types: seq<Option<Descriptor>>
    var strings: map<Id, string>
    var next: Id
    var count: map<Sv, int>
    ghost var made: multiset<Id>
    ghost var freed: multiset<Id>

    constructor ()
      ensures Store() == START
    {
      types, strings, next, count, made, freed := [], map[], 0, map[], multiset{}, multiset{};
    }

    ghost function Store(): State
      reads this
    {
      State(types, strings, next, made, freed, count)
    }

    /** malloc and memcpy. */
    method CopyString(name: string) returns (id: Id)
      modifies this`strings, this`next, this`made
      ensures Store() == NewString(old(Store()), name) && id == old(next)
    {
      id := next;
      strings := strings[id := name];
      next := next + 1;
      made := made + multiset{id};
    }

    method Free(id: Option<Id>)
      modifies this`strings, this`freed
      ensures Store() == FreeIf(old(Store()), id)
    {
      if id.Some? {
        strings := strings - {id.value};
        freed := freed + multiset{id.value};
      }
    }

    method Bump(d: Descriptor, delta: int)
      modifies this`count
      ensures Store() == old(Store()).(count := BumpAll(old(count), d, delta))
    {
      if d.toNative.Some? {
        count := count[d.toNative.value := Count(count, d.toNative.value) + delta];
      }
      if d.toNativePost.Some? {
        count := count[d.toNativePost.value := Count(count, d.toNativePost.value) + delta];
      }
      if d.toPerl.Some? {
        count := count[d.toPerl.value := Count(count, d.toPerl.value) + delta];
      }
    }

    /** create_type_basic, create_type_string, create_type_array and create_type_pointer. */
    method MakePlain(code: Code, junk: Descriptor)
      requires Proper(Store(), Plain(code, junk))
      modifies this
      ensures Store() == Created(old(Store()), Plain(code, junk))
    {
      types := types + [Some(junk.(code := code))];
    }

    /** create_type_closure that succeeds: Newx of the libffi argument list. */
    method MakeClosure(junk: Descriptor)
      modifies this
      ensures Store() == Created(old(Store()), ClosureType(junk))
    {
      var id := next;
      next := next + 1;
      made := made + multiset{id};
      types := types + [Some(junk.(code := CLOSURE, argTypes := Some(id)))];
    }

    /** create_type_record. */
    method MakeRecord(byValue: bool, name: Option<string>, junk: Descriptor)
      modifies this
      ensures Store() == Created(old(Store()), RecordType(byValue, name, junk))
    {
      var d := junk.(code := if byValue then RECORD_VALUE else RECORD, className := None);
      if name.Some? {
        var id := CopyString(name.value);
        d := d.(className := Some(id));
      }
      types := types + [Some(d)];
    }

    /** create_type_object. */
    method MakeObject(code: Code, name: string, junk: Descriptor)
      requires Proper(Store(), ObjectType(code, name, junk))
      modifies this
      ensures Store() == Created(old(Store()), ObjectType(code, name, junk))
    {
      var id := CopyString(name);
      types := types + [Some(junk.(code := code | SHAPE_OBJECT, className := Some(id)))];
    }

    /** _create_type_custom. */
    method MakeCustom(basis: nat, toNative: Option<Sv>, toPerl: Option<Sv>, post: Option<Sv>, junk: Descriptor)
      requires Proper(Store(), CustomType(basis, toNative, toPerl, post, junk))
      modifies this
      ensures Store() == Created(old(Store()), CustomType(basis, toNative, toPerl, post, junk))
    {
      var b := types[basis].value;
      var name := CopyBasisClass(b);
      var d := CustomOf(b, name, toNative, toPerl, post, junk);
      Bump(d, 1);
      types := types + [Some(d)];
    }

    method CopyBasisClass(b: Descriptor) returns (name: Option<Id>)
      modifies this`strings, this`next, this`made
      ensures (Store(), name) == ClassCopied(old(Store()), b)
    {
      name := None;
      if IsRecordCode(b.code) && b.className.Some? {
        var id := CopyString(if b.className.value in strings then strings[b.className.value] else "");
        name := Some(id);
      }
    }

    /** Type DESTROY. */
    method Destroy(which: nat)
      requires which < |types| && types[which].Some?
      modifies this
      ensures Store() == Destroyed(old(Store()), which)
    {
      var d := types[which].value;
      if d.code == CLOSURE {
        Free(d.argTypes);
      } else if d.code == RECORD || d.code == RECORD_VALUE {
        Free(d.className);
      } else if IsCustom(d.code) {
        Bump(d, -1);
        Free(d.className);
      } else if Shape(d.code) == SHAPE_OBJECT {
        Free(d.className);
      }
      types := types[which := None];
    }
  }
}
