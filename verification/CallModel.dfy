/** What a run of calls does to the state the engine shares between them, told per Perl-level
    argument (include/ffi_platypus_call.h, xs/custom.c, include/ffi_platypus.h).

    A `Call` carries everything the engine does not decide: the Perl values, what each handler
    does and returns, what callbacks the foreign code makes.  Quantifying over calls therefore
    quantifies over every handler, every callee and every nesting of calls.  Perl code makes a
    nested call inside an eval; exceptions thrown by handlers themselves are not part of the model. */
module CallModel {
  import opened TypeCodes
  import opened Signature

  /** Identity of one allocation, never reused, and of one Perl scalar. */
  type Id = nat
  type Sv = nat

  /** `alloca`: small storage is taken from the C stack, not from the call's heap list.
      `longDouble`: sizeof(long double). */
  datatype Platform = Platform(alloca: bool, longDouble: nat)

  datatype Value = Undef | Scalar(sv: Sv) | Ref(sv: Sv, referent: Sv)

  /** What Perl code can do that the engine sees: use the arguments_* API, or call a function. */
  datatype Action = Api | Invoke(call: Call)

  /** One Perl-level argument.  `instance`: the value stored is an object of the class the type
      demands.  `storage`: blocks the pointer/array branch puts on the heap list for it.
      `code`, `reply`: what perl_to_native does and returns (None is the empty list); `copy` is
      the scalar newSVsv makes when there is no such handler.  `after`: what the post handler does. */
  datatype Arg = Arg(ty: Type, instance: bool, storage: nat, code: seq<Action>, reply: Option<Sv>, copy: Sv,
                     after: seq<Action>)

  /** `$function->call(...)` or an attached sub. */
  datatype Style = ViaMethod | ViaSub

  /** `stack` is ST(0..items).  `callbacks`: what the Perl code of closures does while the
      foreign function runs; `scribble`: what the foreign function leaves in the blocks it can
      reach.  `finish`: what native_to_perl does. */
  datatype Call = Call(style: Style, stack: seq<Value>, args: seq<Arg>, callbacks: seq<Action>,
                       scribble: map<Id, seq<bv8>>, ret: Type, finish: seq<Action>)

  /** Where an entry of the argument pointer table points. */
  datatype Target = Slot(slot: nat) | Block(bytes: nat) | RecordBody

  /** The state calls share: MY_CXT.current_argv, MY_CXT.custom_keepers, reference counts
      relative to the start of the run, and the allocator.  `freed` counts frees per block. */
  datatype Shared = Shared(argv: Option<Id>, keepers: seq<Sv>, count: map<Sv, int>,
                           next: Id, live: set<Id>, freed: multiset<Id>)

  /** A point where control passes to Perl or to the foreign function, a use of the API, or a point
      where a handler, or the foreign function with its callbacks, gives control back: which of
      these, on behalf of which call in progress (its argument block), and the shared state then. */
  datatype What = ApiUse | Convert(slot: nat, index: nat, value: Value) | Post(slot: nat, index: nat, value: Value)
                | Native | Foreign(targets: seq<Target>) | Back
  datatype Event = Event(owner: Option<Id>, what: What, at: Shared)
  datatype World = World(now: Shared, log: seq<Event>)

  /** A call under way: its heap list (latest first), the pointer table so far, croaked or not. */
  datatype Frame = Frame(world: World, own: seq<Id>, targets: seq<Target>, croaked: bool)

  function Types(args: seq<Arg>): (r: seq<Type>)
    ensures |r| == |args|
    ensures forall k :: 0 <= k < |args| ==> r[k] == args[k].ty
  {
    seq(|args|, k requires 0 <= k < |args| => args[k].ty)
  }

  function SlotOf(c: Call, k: nat): nat
    requires k <= |c.args|
  {
    Offset(Types(c.args), k)
  }

  /** EXTRA_ARGS: a method call has the function object at ST(0). */
  function Extra(style: Style): nat {
    if style == ViaMethod then 1 else 0
  }

  function Fetch(stack: seq<Value>, index: nat): Value {
    if index < |stack| then stack[index] else Undef
  }

  function ValueOf(c: Call, k: nat): Value {
    Fetch(c.stack, Extra(c.style) + k)
  }

  /** The scalar ffi_pl_custom_perl gives back; None is NULL. */
  function Converted(a: Arg): Option<Sv> {
    if a.ty.convert then a.reply else Some(a.copy)
  }

  // ---- Elementary steps ----

  function Count(count: map<Sv, int>, sv: Sv): int {
    if sv in count then count[sv] else 0
  }

  function Bump(s: Shared, sv: Sv, delta: int): Shared {
    s.(count := s.count[sv := Count(s.count, sv) + delta])
  }

  function Log(w: World, owner: Option<Id>, what: What): World {
    w.(log := w.log + [Event(owner, what, w.now)])
  }

  function SetArgv(w: World, argv: Option<Id>): World {
    w.(now := w.now.(argv := argv))
  }

  /** ffi_pl_heap_add: the block and, right after it, the list node that will free it. */
  function HeapAdd(s: Shared): Shared {
    s.(next := s.next + 2, live := s.live + {s.next, s.next + 1})
  }

  function HeapAdds(f: Frame, n: nat): Frame {
    if n == 0 then f
    else
      var g := HeapAdds(f, n - 1);
      g.(world := g.world.(now := HeapAdd(g.world.now)), own := [g.world.now.next] + g.own)
  }

  /** ffi_pl_heap_free. */
  function Release(s: Shared, own: seq<Id>): Shared
    decreases |own|
  {
    if own == [] then s
    else Release(s.(live := s.live - {own[0], own[0] + 1},
                    freed := s.freed + multiset{own[0]} + multiset{own[0] + 1}), own[1..])
  }

  function FreeAll(f: Frame): Frame {
    f.(world := f.world.(now := Release(f.world.now, f.own)), own := [])
  }

  /** av_push(custom_keepers, newRV_inc(sv)). */
  function Keep(s: Shared, sv: Sv): Shared {
    Bump(s.(keepers := s.keepers + [sv]), sv, 1)
  }

  /** av_pop(custom_keepers); an empty array yields undef and nothing is released. */
  function Unkeep(s: Shared): Shared {
    if s.keepers == [] then s
    else
      var last := |s.keepers| - 1;
      Bump(s.(keepers := s.keepers[..last]), s.keepers[last], -1)
  }

  /** The reference counts a closure argument holds during the call. */
  function Lend(s: Shared, v: Value, delta: int): Shared {
    if v.Ref? then Bump(Bump(s, v.sv, delta), v.referent, delta) else s
  }

  // ---- Return value: which exit a return type takes ----

  predicate IsRecordReturn(code: Code) {
    code == RECORD_VALUE || code == RECORD_VALUE | SHAPE_CUSTOM
  }

  predicate HandledReturn(code: Code) {
    IsCustom(code) && (IsInteger(Basis(code)) || Basis(code) == FLOAT || Basis(code) == DOUBLE || Basis(code) == OPAQUE)
  }

  /** The two macros the dispatch is compiled with. */
  datatype Variant = Variant(noRecordValue: bool, noNormal: bool)

  /** `call` has both halves; _attach and _sub_ref pick one by the return type. */
  function VariantOf(style: Style, code: Code): Variant {
    if style == ViaMethod then Variant(false, false)
    else if IsRecordReturn(code) then Variant(false, true)
    else Variant(true, false)
  }

  /** FreesEarly: the heap list is released before the return switch. */
  predicate FreesEarly(code: Code) {
    Shape(code) != SHAPE_CUSTOM && code != RECORD_VALUE
  }

  /** What the return switch itself does with the call's memory. */
  datatype Exit = ExitPlain | ExitFree | ExitHandler

  function ExitOf(variant: Variant, code: Code): Exit {
    if !variant.noRecordValue && code == RECORD_VALUE then ExitFree
    else if !variant.noRecordValue && code == RECORD_VALUE | SHAPE_CUSTOM then ExitHandler
    else if variant.noNormal then ExitPlain
    else if code == RECORD | SHAPE_CUSTOM || HandledReturn(code) then ExitHandler
    else if IsCustom(code) then ExitFree
    else ExitPlain
  }

  // ---- Runs ----

  /** Entry: storage for a record result when it cannot come from the C stack, then the argument block. */
  function ResultBlocks(p: Platform, c: Call): nat {
    if !p.alloca && IsRecordReturn(c.ret.code) then 1 else 0
  }

  function BlockOf(p: Platform, c: Call, w: World): Id {
    w.now.next + 2 * ResultBlocks(p, c)
  }

  function Enter(p: Platform, c: Call, w: World): Frame {
    var f := HeapAdds(Frame(w, [], [], false), ResultBlocks(p, c) + 1);
    f.(world := SetArgv(f.world, Some(BlockOf(p, c, w))))
  }

  /** Where the pointer table points after a value of the (stripped) code was stored at `slot`. */
  function TargetOf(p: Platform, code: Code, slot: nat): Target {
    match InKindOf(code)
    case InBoxed => Block(if code == COMPLEX_FLOAT then 8 else if code == COMPLEX_DOUBLE then 16 else p.longDouble)
    case InInstance => RecordBody
    case _ => Slot(slot)
  }

  /** Blocks put on the heap list while storing it. */
  function BlocksOf(p: Platform, code: Code, a: Arg): nat {
    match InKindOf(code)
    case InBoxed => if p.alloca then 0 else 1
    case InIndirect => a.storage
    case _ => 0
  }

  /** The arms that end in ffi_pl_croak. */
  predicate StoreFails(code: Code, a: Arg) {
    match InKindOf(code)
    case InInstance => !a.instance
    case InObject => !a.instance
    case InObjectBad => true
    case _ => false
  }

  /** The argument-in switch for the stripped code and the value to store. */
  function Store(p: Platform, code: Code, a: Arg, v: Value, slot: nat, f: Frame): Frame {
    if StoreFails(code, a) then FreeAll(f).(croaked := true)
    else
      var s := if InKindOf(code) == InClosure then Lend(f.world.now, v, 1) else f.world.now;
      HeapAdds(f.(world := f.world.(now := s), targets := f.targets + [TargetOf(p, code, slot)]), BlocksOf(p, code, a))
  }

  /** argument_pointers[i] = &arguments->slot[i] for n slots from `slot` on. */
  function SlotTargets(slot: nat, n: nat): (r: seq<Target>)
    ensures |r| == n
  {
    seq(n, j requires 0 <= j < n => Slot(slot + j))
  }

  /** A value perl_to_native gave: keep it, store it as the basis type, drop the conversion's own
      reference, and point the extra slots of a wide type at themselves. */
  function StoreConverted(p: Platform, a: Arg, sv: Sv, slot: nat, f: Frame): Frame {
    var kept := f.(world := f.world.(now := Keep(Bump(f.world.now, sv, 1), sv)));
    var g := Store(p, Basis(a.ty.code), a, Scalar(sv), slot, kept);
    if g.croaked then g
    else g.(world := g.world.(now := Bump(g.world.now, sv, -1)),
        targets := g.targets + SlotTargets(slot + 1, a.ty.skip))
  }

  /** perl_to_native of argument k, if it has one. */
  function RunConvert(p: Platform, c: Call, b: Id, k: nat, w: World): World
    requires k < |c.args|
    decreases c, 1, 4 * k
  {
    var a := c.args[k];
    if a.ty.convert then
      RunHandler(p, a.code, Some(b), Convert(SlotOf(c, k), Extra(c.style) + k, ValueOf(c, k)), w)
    else w
  }

  /** A custom argument: convert it; the empty list leaves its slots as they are. */
  function InCustom(p: Platform, c: Call, b: Id, k: nat, f: Frame): Frame
    requires k < |c.args|
    decreases c, 1, 4 * k + 1
  {
    var a := c.args[k];
    var g := f.(world := RunConvert(p, c, b, k, f.world));
    match Converted(a)
    case None => g.(targets := g.targets + SlotTargets(SlotOf(c, k), 1 + a.ty.skip))
    case Some(sv) => StoreConverted(p, a, sv, SlotOf(c, k), g)
  }

  /** One turn of the argument-in loop. */
  function InStep(p: Platform, c: Call, b: Id, k: nat, f: Frame): Frame
    requires k < |c.args|
    decreases c, 1, 4 * k + 2
  {
    var a := c.args[k];
    if IsCustom(a.ty.code) then InCustom(p, c, b, k, f)
    else Store(p, a.ty.code, a, ValueOf(c, k), SlotOf(c, k), f)
  }

  /** The argument-in loop up to argument k; it stops at a croak. */
  function InPrefix(p: Platform, c: Call, b: Id, k: nat, f: Frame): Frame
    requires k <= |c.args|
    decreases c, 1, 4 * k
  {
    if k == 0 then f
    else
      var g := InPrefix(p, c, b, k - 1, f);
      if g.croaked then g else InStep(p, c, b, k - 1, g)
  }

  function PostOf(c: Call, k: nat): What
    requires k < |c.args|
  {
    Post(SlotOf(c, k), Extra(c.style) + k, ValueOf(c, k))
  }

  /** perl_to_native_post of argument k, if it has one. */
  function RunPost(p: Platform, c: Call, b: Id, k: nat, w: World): World
    requires k < |c.args|
    decreases c, 1, 0
  {
    var a := c.args[k];
    if OutKindOf(a.ty.code) == OutCustom && a.ty.post then RunHandler(p, a.after, Some(b), PostOf(c, k), w) else w
  }

  /** One turn of the argument-out loop. */
  function OutStep(p: Platform, c: Call, b: Id, k: nat, w: World): World
    requires k < |c.args|
    decreases c, 1, 2 * (|c.args| - k) - 1
  {
    match OutKindOf(c.args[k].ty.code)
    case OutClosure => w.(now := Lend(w.now, ValueOf(c, k), -1))
    case OutCustom =>
      var called := RunPost(p, c, b, k, w);
      called.(now := Unkeep(called.now))
    case _ => w
  }

  /** The argument-out loop from the last argument down to argument k. */
  function OutSuffix(p: Platform, c: Call, b: Id, k: nat, w: World): World
    requires k <= |c.args|
    decreases c, 1, 2 * (|c.args| - k)
  {
    if k == |c.args| then w else OutStep(p, c, b, k, OutSuffix(p, c, b, k + 1, w))
  }

  /** The foreign call: current_argv is cleared around it, and Perl code may run inside it. */
  function RunForeign(p: Platform, c: Call, b: Id, f: Frame): World
    decreases c, 1
  {
    var before := SetArgv(f.world, None);
    SetArgv(RunHandler(p, c.callbacks, Some(b), Foreign(f.targets), before), Some(b))
  }

  /** From the end of the argument-out loop to the XSRETURN. */
  function Leave(p: Platform, c: Call, b: Id, f: Frame): Frame
    decreases c, 1
  {
    var early := if FreesEarly(c.ret.code) then FreeAll(f) else f;
    var quiet := early.(world := SetArgv(early.world, None));
    match ExitOf(VariantOf(c.style, c.ret.code), c.ret.code)
    case ExitPlain => quiet
    case ExitFree => FreeAll(quiet)
    case ExitHandler =>
      var own := SetArgv(quiet.world, Some(b));
      var ran := if c.ret.back then RunHandler(p, c.finish, Some(b), Native, own) else own;
      FreeAll(quiet.(world := SetArgv(ran, None)))
  }

  function RunCall(p: Platform, c: Call, w: World): Frame
    decreases c, 2
  {
    var b := BlockOf(p, c, w);
    var f := InPrefix(p, c, b, |c.args|, Enter(p, c, w));
    if f.croaked then f
    else
      var foreign := RunForeign(p, c, b, f);
      Leave(p, c, b, f.(world := OutSuffix(p, c, b, 0, foreign)))
  }

  /** A handler, or a foreign function with its callbacks: announced, run, and given back from. */
  function RunHandler(p: Platform, code: seq<Action>, owner: Option<Id>, what: What, w: World): World
    decreases code, 1
  {
    Log(RunCode(p, code, owner, |code|, Log(w, owner, what)), owner, Back)
  }

  /** The first n actions of a piece of Perl code run on behalf of call `owner`. */
  function RunCode(p: Platform, code: seq<Action>, owner: Option<Id>, n: nat, w: World): World
    requires n <= |code|
    decreases code, 0, n
  {
    if n == 0 then w
    else
      var before := RunCode(p, code, owner, n - 1, w);
      var action := code[n - 1];
      if action.Api? then Log(before, owner, ApiUse)
      else
        assert (code decreases to action) && (action decreases to action.call);
        RunCall(p, action.call, before).world
  }
}
