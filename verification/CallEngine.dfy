/** The dispatch of include/ffi_platypus_call.h over mutable state, proved to do what
    CallModel.RunCall says: two loops over the expanded signature, an intrusive list of native
    blocks to free, and re-entry from handlers and from the foreign function. */
module CallEngine {
  import opened TypeCodes
  import opened Signature
  import opened CallModel
  import HeapLaws

  /** A native allocation: plain bytes, or an ffi_pl_heap node. */
  datatype Cell = Data(bytes: seq<bv8>) | Node(block: Id, next: Option<Id>)

  type Memory = map<Id, Cell>

  /** The list starting at `head` frees the blocks `own` in this order; every entry lies below
      `bound` and above the entries after it. */
  ghost predicate Chain(mem: Memory, head: Option<Id>, own: seq<Id>, bound: Id)
    decreases |own|
  {
    if own == [] then head == None
    else
      && own[0] + 1 < bound
      && own[0] in mem
      && own[0] + 1 in mem
      && head == Some(own[0] + 1)
      && mem[own[0] + 1].Node?
      && mem[own[0] + 1].block == own[0]
      && Chain(mem, mem[own[0] + 1].next, own[1..], own[0])
  }

  /** Below `bound`, everything in `m` is still allocated in `m'` and list nodes are unchanged. */
  ghost predicate NodesKept(m: Memory, m': Memory, bound: Id) {
    forall id :: id in m && id < bound ==> id in m' && (m[id].Node? ==> m'[id] == m[id])
  }

  /** List nodes that are still allocated are unchanged. */
  ghost predicate NodesSame(m: Memory, m': Memory) {
    forall id :: id in m && id in m' && m[id].Node? ==> m'[id] == m[id]
  }

  /** Nothing allocated before is gone, and no list node of a call in progress has changed. */
  ghost predicate Undisturbed(m: Memory, n: Id, m': Memory, n': Id) {
    m.Keys == m'.Keys && NodesKept(m, m', n) && n <= n'
  }

  lemma {:induction false} NodesKeptTwice(m: Memory, m': Memory, m'': Memory, n: Id, n': Id)
    requires NodesKept(m, m', n) && NodesKept(m', m'', n') && n <= n'
    ensures NodesKept(m, m'', n)
  {
  }

  /** What is kept up to some point, after which no surviving node changes, is undisturbed if in the end
      the same is allocated. */
  lemma {:induction false} UndisturbedAtEnd(m: Memory, n: Id, m': Memory, m'': Memory, n'': Id)
    requires NodesKept(m, m', n) && NodesSame(m', m'') && m''.Keys == m.Keys && n <= n''
    ensures Undisturbed(m, n, m'', n'')
  {
  }

  lemma {:induction false} ChainKept(m: Memory, m': Memory, head: Option<Id>, own: seq<Id>, bound: Id, bound': Id)
    requires Chain(m, head, own, bound) && NodesKept(m, m', bound) && bound <= bound'
    ensures Chain(m', head, own, bound')
    decreases |own|
  {
    if own != [] {
      ChainKept(m, m', m[own[0] + 1].next, own[1..], own[0], own[0]);
    }
  }

  lemma {:induction false} CroakStops(p: Platform, c: Call, b: Id, k: nat, f: Frame)
    requires k <= |c.args| && InPrefix(p, c, b, k, f).croaked
    ensures InPrefix(p, c, b, |c.args|, f) == InPrefix(p, c, b, k, f)
    decreases |c.args| - k
  {
    if k < |c.args| {
      CroakStops(p, c, b, k + 1, f);
    }
  }

  lemma {:induction false} SlotCarriesType(c: Call, sig: seq<Type>, k: nat, i: nat)
    requires sig == Expand(Types(c.args)) && k < |c.args| && i == SlotOf(c, k)
    ensures i + Slots(c.args[k].ty) == SlotOf(c, k + 1) <= |sig|
    ensures sig[i] == c.args[k].ty
  {
    var types := Types(c.args);
    OffsetStep(types, k);
    OffsetMonotone(types, k + 1, |types|);
    OffsetEnd(types);
    ExpandAt(types, k, 0);
  }

  class Interp {
    const platform: Platform
    var argv: Option<Id>     // MY_CXT.current_argv
    var keepers: seq<Sv>     // MY_CXT.custom_keepers
    var count: map<Sv, int>  // reference counts, relative
    var mem: Memory
    var next: Id
    ghost var freed: multiset<Id>
    ghost var log: seq<Event>

    constructor (platform: Platform)
      ensures Valid() && this.platform == platform
      ensures World() == CallModel.World(Shared(None, [], map[], 0, {}, multiset{}), [])
    {
      this.platform := platform;
      argv, keepers, count, mem, next := None, [], map[], map[], 0;
      freed, log := multiset{}, [];
    }

    ghost function World(): World
      reads this
    {
      CallModel.World(Shared(argv, keepers, count, next, mem.Keys, freed), log)
    }

    ghost predicate Valid()
      reads this
    {
      forall id :: id in mem ==> id < next
    }

    /** The state is the one frame `f` describes and `head` is its heap list. */
    ghost predicate At(f: Frame, head: Option<Id>)
      reads this
    {
      Valid() && World() == f.world && Chain(mem, head, f.own, next)
    }

    /** ffi_pl_heap_add. */
    method HeapAdd(head: Option<Id>, ghost f: Frame) returns (ptr: Id, newHead: Option<Id>, ghost g: Frame)
      requires At(f, head)
      modifies this
      ensures g == HeapAdds(f, 1) && At(g, newHead) && ptr == old(next) && g.own == [ptr] + f.own
      ensures forall id :: id in old(mem) ==> id in mem && mem[id] == old(mem)[id]
    {
      g := HeapAdds(f, 1);
      assert HeapAdds(f, 0) == f;
      ptr := next;
      var n := next + 1;
      mem := mem[ptr := Data([])][n := Node(ptr, head)];
      next := next + 2;
      newHead := Some(n);
      ChainKept(old(mem), mem, head, f.own, old(next), ptr);
      assert g.own[1..] == f.own;
    }

    /** ffi_pl_heap_free: the loop ends because the list is finite, whatever the blocks contain. */
    method HeapFree(head: Option<Id>, ghost f: Frame)
      requires At(f, head)
      modifies this
      ensures Valid() && World() == FreeAll(f).world && next == old(next)
      ensures forall id :: id in mem ==> id in old(mem) && mem[id] == old(mem)[id]
    {
      var heap := head;
      ghost var own, bound := f.own, next;
      while heap != None
        invariant Valid() && Chain(mem, heap, own, bound)
        invariant Release(World().now, own) == Release(old(World().now), f.own)
        invariant log == old(log) && next == old(next)
        invariant forall id :: id in mem ==> id in old(mem) && mem[id] == old(mem)[id]
        decreases |own|
      {
        var node := heap.value;
        var block := mem[node].block;
        heap := mem[node].next;
        ghost var before := mem;
        mem := mem - {block, node};
        freed := freed + multiset{block} + multiset{node};
        assert mem.Keys == before.Keys - {own[0], own[0] + 1};
        ChainKept(before, mem, heap, own[1..], own[0], own[0]);
        own, bound := own[1..], own[0];
      }
    }

    /** n times ffi_pl_heap_add. */
    method HeapAddMany(head: Option<Id>, n: nat, ghost f: Frame) returns (newHead: Option<Id>, ghost g: Frame)
      requires At(f, head)
      modifies this
      ensures g == HeapAdds(f, n) && At(g, newHead)
      ensures forall id :: id in old(mem) ==> id in mem && mem[id] == old(mem)[id]
    {
      newHead, g := head, f;
      for j := 0 to n
        invariant g == HeapAdds(f, j) && At(g, newHead)
        invariant forall id :: id in old(mem) ==> id in mem && mem[id] == old(mem)[id]
      {
        ghost var h;
        var ptr;
        assert HeapAdds(g, 0) == g;
        ptr, newHead, h := HeapAdd(newHead, g);
        g := h;
      }
    }

    method Record(owner: Option<Id>, what: What)
      requires Valid()
      modifies this`log
      ensures Valid() && World() == Log(old(World()), owner, what)
    {
      log := log + [Event(owner, what, World().now)];
    }

    /** Change a reference count. */
    method Adjust(sv: Sv, delta: int)
      requires Valid()
      modifies this`count
      ensures Valid() && World() == old(World()).(now := Bump(old(World()).now, sv, delta))
    {
      count := count[sv := Count(count, sv) + delta];
    }

    method LendClosure(v: Value, delta: int)
      requires Valid()
      modifies this`count
      ensures Valid() && World() == old(World()).(now := Lend(old(World()).now, v, delta))
    {
      if v.Ref? {
        Adjust(v.sv, delta);
        Adjust(v.referent, delta);
      }
    }

    /** av_push(custom_keepers, newRV_inc(sv)). */
    method PushKeeper(sv: Sv)
      requires Valid()
      modifies this`keepers, this`count
      ensures Valid() && World() == old(World()).(now := Keep(old(World()).now, sv))
    {
      keepers := keepers + [sv];
      Adjust(sv, 1);
    }

    /** av_pop(custom_keepers), releasing what it gave. */
    method PopKeeper()
      requires Valid()
      modifies this`keepers, this`count
      ensures Valid() && World() == old(World()).(now := Unkeep(old(World()).now))
    {
      if keepers != [] {
        var last := keepers[|keepers| - 1];
        keepers := keepers[..|keepers| - 1];
        Adjust(last, -1);
      }
    }

    /** The argument-in switch for argument `a` at slot i, with the code already stripped. */
    method StoreArgument(code: Code, a: Arg, v: Value, i: nat, pointers: array<Target>, head: Option<Id>,
                         ghost f: Frame)
      returns (newHead: Option<Id>, croaked: bool, ghost g: Frame)
      requires At(f, head) && !f.croaked && i < pointers.Length && f.targets == pointers[..i]
      modifies this, pointers
      ensures g == Store(platform, code, a, v, i, f) && croaked == g.croaked
      ensures World() == g.world && Valid() && next >= old(next)
      ensures !croaked ==> At(g, newHead) && g.targets == pointers[..i + 1]
      ensures !croaked ==> forall id :: id in old(mem) ==> id in mem && mem[id] == old(mem)[id]
      ensures croaked ==> forall id :: id in mem ==> id in old(mem) && mem[id] == old(mem)[id]
    {
      g := Store(platform, code, a, v, i, f);
      newHead, croaked := head, false;
      if StoreFails(code, a) {
        HeapFree(head, f);
        HeapLaws.ReleaseEffect(f.world.now, f.own, 0);
        return None, true, g;
      }
      pointers[i] := TargetOf(platform, code, i);
      assert pointers[..i + 1] == f.targets + [TargetOf(platform, code, i)];
      if InKindOf(code) == InClosure {
        LendClosure(v, 1);
      }
      ghost var lent := f.(world := World(), targets := f.targets + [TargetOf(platform, code, i)]);
      ghost var h;
      newHead, h := HeapAddMany(head, BlocksOf(platform, code, a), lent);
      HeapLaws.HeapAddsEffect(lent, BlocksOf(platform, code, a));
    }

    /** argument_pointers[i..i+n] = &arguments->slot[..], advancing i. */
    method PointAtSlots(i: nat, n: nat, pointers: array<Target>) returns (j: nat)
      requires i + n <= pointers.Length
      modifies pointers
      ensures j == i + n && pointers[..j] == old(pointers[..i]) + SlotTargets(i, n)
    {
      j := i;
      while j < i + n
        invariant i <= j <= i + n
        invariant pointers[..j] == old(pointers[..i]) + SlotTargets(i, j - i)
      {
        pointers[j] := Slot(j);
        j := j + 1;
      }
    }

    /** Perl code run by a handler, a callback or the program itself. */
    method Perl(code: seq<Action>, owner: Option<Id>)
      requires Valid()
      modifies this
      ensures Valid() && World() == RunCode(platform, code, owner, |code|, old(World()))
      ensures Undisturbed(old(mem), old(next), mem, next)
      decreases code, 0
    {
      var n := 0;
      while n < |code|
        invariant 0 <= n <= |code|
        invariant Valid() && World() == RunCode(platform, code, owner, n, old(World()))
        invariant Undisturbed(old(mem), old(next), mem, next)
      {
        var action := code[n];
        if action.Api? {
          Record(owner, ApiUse);
        } else {
          assert (code decreases to action) && (action decreases to action.call);
          var sig := Expand(Types(action.call.args));
          var _ := Call(action.call, sig);
        }
        n := n + 1;
      }
    }

    /** A handler, or the callbacks of a foreign function, with the points before and after it. */
    method Handler(code: seq<Action>, owner: Option<Id>, what: What)
      requires Valid()
      modifies this
      ensures Valid() && World() == RunHandler(platform, code, owner, what, old(World()))
      ensures Undisturbed(old(mem), old(next), mem, next)
      decreases code, 1
    {
      Record(owner, what);
      Perl(code, owner);
      Record(owner, Back);
    }

    /** ffi_pl_custom_perl on argument k. */
    method ConvertArgument(c: Call, t: Type, b: Id, ghost k: nat, i: nat, index: nat, head: Option<Id>, ghost f: Frame)
      returns (sv: Option<Sv>, ghost g: Frame)
      requires k < |c.args| && t == c.args[k].ty && i == SlotOf(c, k) && index == Extra(c.style) + k
      requires At(f, head)
      modifies this
      ensures sv == Converted(c.args[k]) && At(g, head) && next >= old(next)
      ensures g == f.(world := RunConvert(platform, c, b, k, f.world))
      ensures NodesKept(old(mem), mem, old(next))
      decreases c, 1, 0
    {
      var a := c.args[index - Extra(c.style)];
      if t.convert {
        assert c decreases to a.code;
        Handler(a.code, Some(b), Convert(i, index, Fetch(c.stack, index)));
        ChainKept(old(mem), mem, head, f.own, old(next), next);
      }
      sv := Converted(a);
      g := f.(world := World());
    }

    /** Keep and store a converted value of type t, then step over the extra slots of t. */
    method StoreConverted(t: Type, a: Arg, sv: Sv, i: nat, pointers: array<Target>, head: Option<Id>, ghost f: Frame)
      returns (newHead: Option<Id>, j: nat, croaked: bool, ghost g: Frame)
      requires At(f, head) && !f.croaked && t == a.ty && i + t.skip < pointers.Length && f.targets == pointers[..i]
      modifies this, pointers
      ensures g == CallModel.StoreConverted(platform, a, sv, i, f) && croaked == g.croaked
      ensures World() == g.world && Valid() && next >= old(next)
      ensures !croaked ==> At(g, newHead) && j == i + 1 + t.skip && g.targets == pointers[..j]
      ensures !croaked ==> forall id :: id in old(mem) ==> id in mem && mem[id] == old(mem)[id]
      ensures croaked ==> forall id :: id in mem ==> id in old(mem) && mem[id] == old(mem)[id]
    {
      Adjust(sv, 1);
      PushKeeper(sv);
      ghost var kept := f.(world := f.world.(now := Keep(Bump(f.world.now, sv, 1), sv)));
      newHead, croaked, g := StoreArgument(Basis(t.code), a, Scalar(sv), i, pointers, head, kept);
      j := i + 1;
      if !croaked {
        Adjust(sv, -1);
        j := PointAtSlots(i + 1, t.skip, pointers);
        g := g.(world := World(), targets := pointers[..j]);
      }
    }

    /** A custom argument. */
    method CustomArgument(c: Call, t: Type, b: Id, ghost k: nat, i: nat, index: nat, pointers: array<Target>,
                          head: Option<Id>, ghost f: Frame)
      returns (newHead: Option<Id>, j: nat, croaked: bool, ghost g: Frame)
      requires k < |c.args| && t == c.args[k].ty && i == SlotOf(c, k) && index == Extra(c.style) + k
      requires At(f, head) && !f.croaked && i + t.skip < pointers.Length && f.targets == pointers[..i]
      modifies this, pointers
      ensures g == InCustom(platform, c, b, k, f) && croaked == g.croaked
      ensures World() == g.world && Valid() && next >= old(next)
      ensures !croaked ==> At(g, newHead) && j == i + 1 + t.skip && g.targets == pointers[..j]
      ensures !croaked ==> NodesKept(old(mem), mem, old(next))
      ensures NodesSame(old(mem), mem)
      decreases c, 1, 1
    {
      var sv;
      sv, g := ConvertArgument(c, t, b, k, i, index, head, f);
      if sv.None? {
        j := PointAtSlots(i, 1 + t.skip, pointers);
        newHead, croaked, g := head, false, g.(targets := pointers[..j]);
      } else {
        var a := c.args[index - Extra(c.style)];
        newHead, j, croaked, g := StoreConverted(t, a, sv.value, i, pointers, head, g);
      }
    }

    /** One turn of the argument-in loop, for Perl-level argument k at slot i. */
    method ArgumentIn(c: Call, sig: seq<Type>, b: Id, ghost k: nat, i: nat, index: nat, pointers: array<Target>,
                      head: Option<Id>, ghost f: Frame)
      returns (newHead: Option<Id>, j: nat, croaked: bool, ghost g: Frame)
      requires sig == Expand(Types(c.args)) && pointers.Length == |sig|
      requires k < |c.args| && i == SlotOf(c, k) && index == Extra(c.style) + k
      requires At(f, head) && !f.croaked && i <= |sig| && f.targets == pointers[..i]
      modifies this, pointers
      ensures g == InStep(platform, c, b, k, f) && croaked == g.croaked
      ensures World() == g.world && Valid() && next >= old(next)
      ensures !croaked ==> At(g, newHead) && j == SlotOf(c, k + 1) <= |sig| && g.targets == pointers[..j]
      ensures !croaked ==> NodesKept(old(mem), mem, old(next))
      ensures NodesSame(old(mem), mem)
      decreases c, 1, 2
    {
      SlotCarriesType(c, sig, k, i);
      var a, t := c.args[index - Extra(c.style)], sig[i];
      if IsCustom(t.code) {
        newHead, j, croaked, g := CustomArgument(c, t, b, k, i, index, pointers, head, f);
      } else {
        newHead, croaked, g := StoreArgument(t.code, a, Fetch(c.stack, index), i, pointers, head, f);
        j := i + 1;
      }
    }

    /** The argument-in loop; `sig` is self->argument_types. */
    method ArgumentsIn(c: Call, sig: seq<Type>, b: Id, pointers: array<Target>, head: Option<Id>, ghost f: Frame)
      returns (newHead: Option<Id>, index: nat, croaked: bool, ghost g: Frame)
      requires sig == Expand(Types(c.args)) && pointers.Length == |sig|
      requires At(f, head) && !f.croaked && f.targets == []
      modifies this, pointers
      ensures g == InPrefix(platform, c, b, |c.args|, f) && croaked == g.croaked
      ensures World() == g.world && Valid() && next >= old(next)
      ensures !croaked ==> At(g, newHead) && g.targets == pointers[..|sig|] && index == Extra(c.style) + |c.args|
      ensures !croaked ==> NodesKept(old(mem), mem, old(next))
      ensures NodesSame(old(mem), mem)
      decreases c, 1, 3
    {
      ghost var types := Types(c.args);
      ghost var k: nat := 0;
      var i := 0;
      index := Extra(c.style);
      newHead, croaked, g := head, false, f;
      OffsetEnd(types);
      while i < |sig|
        invariant k <= |c.args| && i == SlotOf(c, k) <= |sig| && index == Extra(c.style) + k
        invariant g == InPrefix(platform, c, b, k, f) && !g.croaked && !croaked
        invariant At(g, newHead) && g.targets == pointers[..i]
        invariant NodesKept(old(mem), mem, old(next)) && old(next) <= next
        decreases |c.args| - k
      {
        newHead, i, croaked, g := ArgumentIn(c, sig, b, k, i, index, pointers, newHead, g);
        if croaked {
          CroakStops(platform, c, b, k + 1, f);
          return;
        }
        index := index + 1;
        k := k + 1;
      }
      OffsetMonotone(types, k, |types|);
    }

    /** One turn of the argument-out loop, for argument k whose last slot is i; `first` is the slot
        where the loop continues its descent. */
    method ArgumentOut(c: Call, t: Type, b: Id, ghost k: nat, i: nat, index: nat) returns (first: nat)
      requires Valid() && k < |c.args| && t == c.args[k].ty
      requires i == SlotOf(c, k) + Slots(t) - 1 && index == Extra(c.style) + k
      modifies this
      ensures Valid() && World() == OutStep(platform, c, b, k, old(World()))
      ensures NodesKept(old(mem), mem, old(next)) && old(next) <= next
      ensures first == SlotOf(c, k)
      decreases c, 1, 0
    {
      first := i;
      match OutKindOf(t.code) {
        case OutClosure =>
          LendClosure(Fetch(c.stack, index), -1);
        case OutCustom =>
          first := i - t.skip;
          if t.post {
            var a := c.args[index - Extra(c.style)];
            assert c decreases to a.after;
            Handler(a.after, Some(b), Post(first, index, Fetch(c.stack, index)));
          }
          PopKeeper();
        case _ =>
      }
    }

    /** The argument-out loop, entered with the index one past the last Perl argument. */
    method ArgumentsOut(c: Call, sig: seq<Type>, b: Id, end: nat)
      requires Valid() && sig == Expand(Types(c.args)) && end == Extra(c.style) + |c.args|
      modifies this
      ensures Valid() && World() == OutSuffix(platform, c, b, 0, old(World()))
      ensures NodesKept(old(mem), mem, old(next)) && old(next) <= next
      decreases c, 1, 1
    {
      ghost var types := Types(c.args);
      ghost var k: nat := |c.args|;
      OffsetEnd(types);
      var i, index: int := |sig| - 1, end - 1;
      while i >= 0
        invariant k <= |c.args| && i == SlotOf(c, k) - 1 < |sig| && index == Extra(c.style) + k - 1
        invariant Valid() && World() == OutSuffix(platform, c, b, k, old(World()))
        invariant NodesKept(old(mem), mem, old(next)) && old(next) <= next
        decreases i
      {
        LastSlot(types, sig, k, i);
        i := ArgumentOut(c, sig[i], b, k - 1, i, index);
        i, index := i - 1, index - 1;
        k := k - 1;
      }
      OffsetMonotone(types, 0, k);
    }

    /** ffi_call: the foreign function may overwrite any block it can reach and call back. */
    method ForeignCall(c: Call, b: Id, targets: seq<Target>)
      requires Valid()
      modifies this
      ensures Valid() && NodesKept(old(mem), mem, old(next)) && old(next) <= next
      ensures World() == RunHandler(platform, c.callbacks, Some(b), Foreign(targets), old(World()))
      decreases c, 1, 0
    {
      mem := map id | id in mem :: if id in c.scribble && mem[id].Data? then Data(c.scribble[id]) else mem[id];
      assert mem.Keys == old(mem.Keys);
      Handler(c.callbacks, Some(b), Foreign(targets));
    }

    /** From the end of the argument-out loop to the XSRETURN. */
    method Return(c: Call, b: Id, head: Option<Id>, ghost f: Frame)
      requires At(f, head)
      modifies this
      ensures Valid() && World() == Leave(platform, c, b, f).world && next >= old(next)
      ensures NodesSame(old(mem), mem)
      decreases c, 1, 0
    {
      var heap := head;
      ghost var g := f;
      if FreesEarly(c.ret.code) {
        HeapFree(heap, f);
        heap, g := None, FreeAll(f);
      }
      argv := None;
      g := g.(world := World());
      match ExitOf(VariantOf(c.style, c.ret.code), c.ret.code) {
        case ExitPlain =>
        case ExitFree =>
          HeapFree(heap, g);
        case ExitHandler =>
          g := NativeToPerl(c, b, heap, g);
          HeapFree(heap, g);
      }
    }

    /** ffi_pl_custom_perl on the result, while the argument block is current again. */
    method NativeToPerl(c: Call, b: Id, heap: Option<Id>, ghost f: Frame) returns (ghost g: Frame)
      requires At(f, heap)
      modifies this
      ensures var own := SetArgv(f.world, Some(b));
              var ran := if c.ret.back then RunHandler(platform, c.finish, Some(b), Native, own) else own;
              g == f.(world := SetArgv(ran, None))
      ensures At(g, heap) && next >= old(next) && NodesKept(old(mem), mem, old(next))
      decreases c, 0
    {
      argv := Some(b);
      if c.ret.back {
        Handler(c.finish, Some(b), Native);
        ChainKept(old(mem), mem, heap, f.own, old(next), next);
      }
      argv := None;
      g := f.(world := World());
    }

    /** Entry of a call: storage for a record result, the argument block, current_argv. */
    method Begin(c: Call) returns (b: Id, head: Option<Id>, ghost f: Frame)
      requires Valid()
      modifies this
      ensures f == Enter(platform, c, old(World())) && b == BlockOf(platform, c, old(World())) && At(f, head)
      ensures !f.croaked && f.targets == [] && next >= old(next)
      ensures NodesKept(old(mem), mem, old(next))
    {
      f := Frame(World(), [], [], false);
      HeapLaws.HeapAddsEffect(f, ResultBlocks(platform, c));
      HeapLaws.HeapAddsEffect(f, ResultBlocks(platform, c) + 1);
      head, f := HeapAddMany(None, ResultBlocks(platform, c), f);
      assert HeapAdds(f, 0) == f;
      b, head, f := HeapAdd(head, f);
      argv := Some(b);
      f := f.(world := World());
    }

    /** The foreign call and the argument-out loop. */
    method CallAndCollect(c: Call, sig: seq<Type>, b: Id, end: nat, targets: seq<Target>, head: Option<Id>,
                          ghost f: Frame)
      returns (ghost g: Frame)
      requires sig == Expand(Types(c.args)) && end == Extra(c.style) + |c.args|
      requires At(f, head) && f.targets == targets
      modifies this
      ensures g == f.(world := OutSuffix(platform, c, b, 0, RunForeign(platform, c, b, f))) && At(g, head)
      ensures NodesKept(old(mem), mem, old(next)) && old(next) <= next
      decreases c, 1, 3
    {
      argv := None;
      ForeignCall(c, b, targets);
      argv := Some(b);
      ArgumentsOut(c, sig, b, end);
      ChainKept(old(mem), mem, head, f.own, old(next), next);
      g := f.(world := World());
    }

    /** One call of a prepared function. */
    method Call(c: Call, sig: seq<Type>) returns (croaked: bool)
      requires Valid() && sig == Expand(Types(c.args))
      modifies this
      ensures Valid() && World() == RunCall(platform, c, old(World())).world
      ensures croaked == RunCall(platform, c, old(World())).croaked
      ensures Undisturbed(old(mem), old(next), mem, next)
      decreases c, 2
    {
      HeapLaws.CallFreesExactlyItsBlocks(platform, c, World());
      ghost var f;
      var b, head, index;
      b, head, f := Begin(c);
      ghost var kept, bound := mem, next;
      var pointers := new Target[|sig|];
      head, index, croaked, f := ArgumentsIn(c, sig, b, pointers, head, f);
      if croaked {
        UndisturbedAtEnd(old(mem), old(next), kept, mem, next);
        return;
      }
      NodesKeptTwice(old(mem), kept, mem, old(next), bound);
      kept, bound := mem, next;
      f := CallAndCollect(c, sig, b, index, pointers[..|sig|], head, f);
      NodesKeptTwice(old(mem), kept, mem, old(next), bound);
      kept := mem;
      Return(c, b, head, f);
      UndisturbedAtEnd(old(mem), old(next), kept, mem, next);
    }
  }
}
