/** Closure trampolines: the native function pointers made for FFI::Platypus::Closure objects when
    they are passed to C, cached per (object, type) by get_data/add_data, confined to the thread
    that made them, and released with the object. */
module Trampolines {
  import opened TypeCodes

  type Object = nat   // a closure object
  type TypeId = nat   // a closure type descriptor
  type Thread = nat   // what ffi_pl_thread_self gives; unique per thread
  type Sv = nat
  type Id = nat       // a trampoline; never reused

  /** ffi_pl_closure.  Its identity also stands for its ffi_closure and its function pointer. */
  datatype Closure = Closure(coderef: Sv, ty: TypeId, thread: Thread)

  /** For whom, as what and on which thread a trampoline was made. */
  datatype Birth = Birth(owner: Object, ty: TypeId, thread: Thread)

  /** `cache` is the cbdata hash of every object; `closures` the trampolines in existence.  The four
      multisets count how often the struct and the libffi half were made and freed.  `ran` records
      which trampoline ran Perl code on which thread. */
  datatype State = State(cache: map<(Object, TypeId), Id>, closures: map<Id, Closure>, next: Id,
                         made: multiset<Id>, freed: multiset<Id>, nativeMade: multiset<Id>, nativeFreed: multiset<Id>,
                         count: map<Sv, int>, born: map<Id, Birth>, ran: seq<(Id, Thread)>, aborted: bool)

  const START := State(map[], map[], 0, multiset{}, multiset{}, multiset{}, multiset{}, map[], map[], [], false)

  /** How creating a trampoline goes: ffi_closure_alloc or ffi_prep_closure_loc may fail. */
  datatype Luck = Fine | NoMemory | NoPrep

  /** `coderef` is the object's "code" entry, None when it has none.  `keys` of Destroy lists the
      entries of the dying object's cbdata in the order Perl frees them. */
  datatype Step =
    | Pass(owner: Object, ty: TypeId, coderef: Option<Sv>, thread: Thread, luck: Luck)
    | Callback(id: Id, thread: Thread)
    | Destroy(owner: Object, keys: seq<(Object, TypeId)>)

  function Count(count: map<Sv, int>, sv: Sv): int {
    if sv in count then count[sv] else 0
  }

  function Bump(count: map<Sv, int>, sv: Sv, delta: int): map<Sv, int> {
    count[sv := Count(count, sv) + delta]
  }

  /** The function pointer get_data finds; NULL if there is none. */
  function Pointer(s: State, owner: Object, ty: TypeId): Option<Id> {
    if (owner, ty) in s.cache then Some(s.cache[(owner, ty)]) else None
  }

  /** Newx of the struct, ffi_closure_alloc, ffi_closure_free, Safefree. */
  function WithStruct(s: State): State {
    s.(next := s.next + 1, made := s.made + multiset{s.next})
  }

  function WithNative(s: State, id: Id): State {
    s.(nativeMade := s.nativeMade + multiset{id})
  }

  function WithoutNative(s: State, id: Id): State {
    s.(nativeFreed := s.nativeFreed + multiset{id})
  }

  function WithoutStruct(s: State, id: Id): State {
    s.(freed := s.freed + multiset{id})
  }

  function Registered(s: State, owner: Object, ty: TypeId, code: Sv, thread: Thread, id: Id): State {
    s.(closures := s.closures[id := Closure(code, ty, thread)], count := Bump(s.count, code, 1),
       cache := s.cache[(owner, ty) := id], born := s.born[id := Birth(owner, ty, thread)])
  }

  /** The closure branch of the argument-in switch. */
  function AfterPass(s: State, owner: Object, ty: TypeId, coderef: Option<Sv>, thread: Thread, luck: Luck): State {
    if (owner, ty) in s.cache then s
    else if luck == NoMemory then WithoutStruct(WithStruct(s), s.next)
    else
      var grown := WithNative(WithStruct(s), s.next);
      if luck == NoPrep || coderef.None? then WithoutStruct(WithoutNative(grown, s.next), s.next)
      else Registered(grown, owner, ty, coderef.value, thread, s.next)
  }

  /** ffi_pl_closure_call up to the point where Perl code runs: any other thread aborts the process. */
  function AfterCallback(s: State, id: Id, thread: Thread): State {
    if id !in s.closures then s
    else if s.closures[id].thread != thread then s.(aborted := true)
    else s.(ran := s.ran + [(id, thread)])
  }

  /** ClosureData::DESTROY for the cache entry `key`. */
  function Released(s: State, key: (Object, TypeId)): State {
    if key !in s.cache || s.cache[key] !in s.closures then s
    else
      var id := s.cache[key];
      s.(count := Bump(s.count, s.closures[id].coderef, -1), freed := s.freed + multiset{id},
         nativeFreed := s.nativeFreed + multiset{id}, closures := s.closures - {id}, cache := s.cache - {key})
  }

  function ReleasedAll(s: State, keys: seq<(Object, TypeId)>): State {
    if keys == [] then s else Released(ReleasedAll(s, keys[..|keys| - 1]), keys[|keys| - 1])
  }

  ghost predicate Lists(keys: seq<(Object, TypeId)>, s: State, owner: Object) {
    forall key :: key in keys <==> key in s.cache && key.0 == owner
  }

  // ---- What holds in every reachable state ----

  /** The cache and the trampolines in existence are in one-to-one correspondence, each trampoline
      sitting where it was made for, and Perl code ran only on the thread of its birth. */
  ghost predicate Valid(s: State) {
    && (forall key :: key in s.cache ==> s.cache[key] in s.closures && s.cache[key] in s.born)
    && (forall key :: key in s.cache ==> s.born[s.cache[key]].owner == key.0 && s.born[s.cache[key]].ty == key.1)
    && (forall id :: id in s.closures ==> id in s.born && Home(s, id))
    && (forall id :: id in s.born ==> id < s.next)
    && (forall i :: 0 <= i < |s.ran| ==> s.ran[i].0 in s.born && s.born[s.ran[i].0].thread == s.ran[i].1)
  }

  predicate Home(s: State, id: Id)
    requires id in s.closures && id in s.born
  {
    var b, c := s.born[id], s.closures[id];
    (b.owner, b.ty) in s.cache && s.cache[(b.owner, b.ty)] == id && c.ty == b.ty && c.thread == b.thread
  }

  /** Struct and libffi half of a trampoline: made at most once, freed as often as made unless it exists. */
  predicate Balanced(s: State, id: Id) {
    var here := if id in s.closures then 1 else 0;
    && s.made[id] == s.freed[id] + here && s.made[id] <= (if id < s.next then 1 else 0)
    && s.nativeMade[id] == s.nativeFreed[id] + here && s.nativeMade[id] <= s.made[id]
  }

  /** The trampolines holding a reference to the code sv; the reference count is their number. */
  ghost function Holders(s: State, sv: Sv): set<Id> {
    set id | id in s.closures && s.closures[id].coderef == sv
  }

  ghost predicate Counted(s: State, sv: Sv) {
    Count(s.count, sv) == |Holders(s, sv)|
  }

  ghost predicate Good(s: State, id: Id, sv: Sv) {
    Valid(s) && Balanced(s, id) && Counted(s, sv)
  }

  /** A new trampoline is filed under a free key with a fresh identity. */
  lemma {:induction false} RegisteredValid(s: State, owner: Object, ty: TypeId, code: Sv, thread: Thread, id: Id)
    requires Valid(s) && (owner, ty) !in s.cache && id !in s.closures && id !in s.born && id < s.next
    ensures Valid(Registered(s, owner, ty, code, thread, id))
  {
    var t := Registered(s, owner, ty, code, thread, id);
    forall j | j in t.closures
      ensures j in t.born && Home(t, j)
    {
      if j != id {
        assert Home(s, j);
      }
    }
  }

  lemma {:induction false} RegisteredCounted(s: State, owner: Object, ty: TypeId, code: Sv, thread: Thread, id: Id,
                                             sv: Sv)
    requires Counted(s, sv) && id !in s.closures
    ensures Counted(Registered(s, owner, ty, code, thread, id), sv)
  {
    var t := Registered(s, owner, ty, code, thread, id);
    var before, after := Holders(s, sv), Holders(t, sv);
    if code == sv {
      assert after == before + {id};
    } else {
      assert after == before;
    }
  }

  lemma {:induction false} SameClosuresCounted(s: State, t: State, sv: Sv)
    requires Counted(s, sv) && t.closures == s.closures && t.count == s.count
    ensures Counted(t, sv)
  {
    assert Holders(t, sv) == Holders(s, sv);
  }

  lemma {:induction false} PassBalanced(s: State, owner: Object, ty: TypeId, coderef: Option<Sv>, thread: Thread,
                                        luck: Luck, id: Id)
    requires Valid(s) && Balanced(s, id)
    ensures Balanced(AfterPass(s, owner, ty, coderef, thread, luck), id)
  {
    if (owner, ty) !in s.cache && luck == NoMemory {
      UnmadeBalanced(s, id);
    } else if (owner, ty) !in s.cache {
      if luck == NoPrep || coderef.None? {
        UnmadeBalanced(s, id);
      } else {
        RegisteredBalanced(s, owner, ty, coderef.value, thread, id);
      }
    }
  }

  /** What is made and freed again stays balanced. */
  lemma {:induction false} UnmadeBalanced(s: State, id: Id)
    requires Valid(s) && Balanced(s, id)
    ensures Balanced(WithoutStruct(WithStruct(s), s.next), id)
    ensures Balanced(WithoutStruct(WithoutNative(WithNative(WithStruct(s), s.next), s.next), s.next), id)
  {
  }

  lemma {:induction false} RegisteredBalanced(s: State, owner: Object, ty: TypeId, code: Sv, thread: Thread, id: Id)
    requires Valid(s) && Balanced(s, id)
    ensures Balanced(Registered(WithNative(WithStruct(s), s.next), owner, ty, code, thread, s.next), id)
  {
  }

  lemma {:induction false} PassKeeps(s: State, owner: Object, ty: TypeId, coderef: Option<Sv>, thread: Thread,
                                     luck: Luck, id: Id, sv: Sv)
    requires Good(s, id, sv)
    ensures Good(AfterPass(s, owner, ty, coderef, thread, luck), id, sv)
  {
    PassBalanced(s, owner, ty, coderef, thread, luck, id);
    if (owner, ty) !in s.cache && luck == Fine && coderef.Some? {
      RegisterKeeps(s, owner, ty, coderef.value, thread, sv);
    } else {
      SameClosuresCounted(s, AfterPass(s, owner, ty, coderef, thread, luck), sv);
      SameClosuresValid(s, AfterPass(s, owner, ty, coderef, thread, luck));
    }
  }

  lemma {:induction false} RegisterKeeps(s: State, owner: Object, ty: TypeId, coderef: Sv, thread: Thread, sv: Sv)
    requires Valid(s) && Counted(s, sv) && (owner, ty) !in s.cache
    ensures var t := AfterPass(s, owner, ty, Some(coderef), thread, Fine); Valid(t) && Counted(t, sv)
  {
    var grown := WithNative(WithStruct(s), s.next);
    assert s.next !in s.born;
    assert s.next !in s.closures;
    SameClosuresCounted(s, grown, sv);
    RegisteredCounted(grown, owner, ty, coderef, thread, s.next, sv);
    RegisterValid(s, grown, owner, ty, coderef, thread);
  }

  lemma {:induction false} RegisterValid(s: State, grown: State, owner: Object, ty: TypeId, coderef: Sv, thread: Thread)
    requires Valid(s) && (owner, ty) !in s.cache && s.next !in s.born && s.next !in s.closures
    requires grown == WithNative(WithStruct(s), s.next)
    ensures Valid(Registered(grown, owner, ty, coderef, thread, s.next))
  {
    SameClosuresValid(s, grown);
    RegisteredValid(grown, owner, ty, coderef, thread, s.next);
  }

  lemma {:induction false} SameClosuresValid(s: State, t: State)
    requires Valid(s) && t.closures == s.closures && t.cache == s.cache && t.born == s.born && t.ran == s.ran &&
             s.next <= t.next
    ensures Valid(t)
  {
    forall j | j in t.closures
      ensures j in t.born && Home(t, j)
    {
      assert Home(s, j);
    }
  }

  /** What passing a closure object gives: the cached pointer, with nothing changed; NULL exactly if there is none
      and it could not be made; and otherwise a trampoline never handed out before, for this coderef, type
      and thread, which holds one more reference to the coderef, and no other pointer changed. */
  lemma {:induction false} PassGivesPointer(s: State, owner: Object, ty: TypeId, coderef: Option<Sv>, thread: Thread,
                                            luck: Luck, key: (Object, TypeId), sv: Sv)
    requires Valid(s)
    ensures var t := AfterPass(s, owner, ty, coderef, thread, luck); var pointer := Pointer(t, owner, ty);
            && ((owner, ty) in s.cache ==> t == s)
            && (pointer == None <==> (owner, ty) !in s.cache && (luck != Fine || coderef == None))
            && (pointer.Some? && (owner, ty) !in s.cache ==>
                  && pointer.value !in s.born && pointer.value !in s.closures
                  && t.closures == s.closures[pointer.value := Closure(coderef.value, ty, thread)]
                  && t.born == s.born[pointer.value := Birth(owner, ty, thread)]
                  && Count(t.count, sv) == Count(s.count, sv) + (if coderef == Some(sv) then 1 else 0)
                  && (key != (owner, ty) ==> Pointer(t, key.0, key.1) == Pointer(s, key.0, key.1)))
  {
  }

  /** A creation that fails leaves nothing behind: no entry, nothing held, everything made freed. */
  lemma {:induction false} FailedPassLeavesNothing(s: State, owner: Object, ty: TypeId, coderef: Option<Sv>,
                                                   thread: Thread, luck: Luck)
    requires (owner, ty) !in s.cache && (luck != Fine || coderef.None?)
    ensures var t := AfterPass(s, owner, ty, coderef, thread, luck);
            && Pointer(t, owner, ty) == None && t.closures == s.closures && t.cache == s.cache && t.count == s.count
            && forall id: Id :: t.made[id] - s.made[id] == t.freed[id] - s.freed[id] &&
                                t.nativeMade[id] - s.nativeMade[id] == t.nativeFreed[id] - s.nativeFreed[id]
  {
  }

  lemma {:induction false} ReleaseKeeps(s: State, key: (Object, TypeId), id: Id, sv: Sv)
    requires Good(s, id, sv)
    ensures Good(Released(s, key), id, sv)
  {
    if key in s.cache {
      ReleasedValid(s, key);
      ReleasedCounted(s, key, sv);
    }
  }

  lemma {:induction false} ReleasedValid(s: State, key: (Object, TypeId))
    requires Valid(s) && key in s.cache
    ensures Valid(Released(s, key))
  {
    var t := Released(s, key);
    forall j | j in t.closures
      ensures j in t.born && Home(t, j)
    {
      assert Home(s, j);
    }
  }

  lemma {:induction false} ReleasedCounted(s: State, key: (Object, TypeId), sv: Sv)
    requires Valid(s) && key in s.cache && Counted(s, sv)
    ensures Counted(Released(s, key), sv)
  {
    var gone := s.cache[key];
    assert Holders(Released(s, key), sv) == Holders(s, sv) - {gone};
    assert gone in Holders(s, sv) <==> s.closures[gone].coderef == sv;
  }

  lemma {:induction false} CallbackKeeps(s: State, at: Id, thread: Thread, id: Id, sv: Sv)
    requires Good(s, id, sv)
    ensures Good(AfterCallback(s, at, thread), id, sv)
  {
    assert Holders(AfterCallback(s, at, thread), sv) == Holders(s, sv);
  }

  lemma {:induction false} ReleaseAllKeeps(s: State, keys: seq<(Object, TypeId)>, id: Id, sv: Sv)
    requires Good(s, id, sv)
    ensures var t := ReleasedAll(s, keys);
            && Good(t, id, sv) && t.next == s.next && t.born == s.born && t.ran == s.ran && t.aborted == s.aborted
            && (forall key :: key in t.cache <==> key in s.cache && key !in keys)
            && (forall key :: key in t.cache ==> t.cache[key] == s.cache[key])
  {
    if keys != [] {
      var earlier := keys[..|keys| - 1];
      assert keys == earlier + [keys[|keys| - 1]];
      ReleaseAllKeeps(s, earlier, id, sv);
      ReleaseKeeps(ReleasedAll(s, earlier), keys[|keys| - 1], id, sv);
    }
  }

  /** A callback into an existing trampoline runs its Perl code exactly on the thread it was made on, and
      aborts the process on any other; nothing else changes. */
  lemma {:induction false} CallbackRunsIff(s: State, id: Id, thread: Thread)
    requires Valid(s) && id in s.closures && !s.aborted
    ensures var t, home := AfterCallback(s, id, thread), s.born[id].thread == thread;
            && t.ran == (if home then s.ran + [(id, thread)] else s.ran)
            && (t.aborted <==> !home)
            && t.(ran := s.ran, aborted := s.aborted) == s
  {
    assert Home(s, id);
  }

  // ---- Runs ----

  /** A step of a run.  After abort() nothing happens any more; destroying an object frees all its entries. */
  ghost predicate Allowed(s: State, step: Step) {
    step.Destroy? ==> Lists(step.keys, s, step.owner)
  }

  function Next(s: State, step: Step): State {
    if s.aborted then s
    else
      match step
      case Pass(owner, ty, coderef, thread, luck) => AfterPass(s, owner, ty, coderef, thread, luck)
      case Callback(id, thread) => AfterCallback(s, id, thread)
      case Destroy(_, keys) => ReleasedAll(s, keys)
  }

  function Run(s: State, steps: seq<Step>): State {
    if steps == [] then s else Next(Run(s, steps[..|steps| - 1]), steps[|steps| - 1])
  }

  /** After abort() nothing happens any more. */
  lemma {:induction false} AbortIsFinal(s: State, steps: seq<Step>)
    requires s.aborted
    ensures Run(s, steps) == s
  {
    if steps != [] {
      AbortIsFinal(s, steps[..|steps| - 1]);
    }
  }

  ghost predicate Legal(s: State, steps: seq<Step>) {
    forall n :: 0 <= n < |steps| ==> Allowed(Run(s, steps[..n]), steps[n])
  }

  lemma {:induction false} LegalPrefix(s: State, steps: seq<Step>)
    requires Legal(s, steps) && steps != []
    ensures Legal(s, steps[..|steps| - 1]) && Allowed(Run(s, steps[..|steps| - 1]), steps[|steps| - 1])
  {
    var earlier := steps[..|steps| - 1];
    forall n | 0 <= n < |earlier|
      ensures Allowed(Run(s, earlier[..n]), earlier[n])
    {
      assert earlier[..n] == steps[..n];
    }
  }

  lemma {:induction false} NextKeeps(s: State, step: Step, id: Id, sv: Sv)
    requires Good(s, id, sv)
    ensures Good(Next(s, step), id, sv)
  {
    if !s.aborted {
      match step {
        case Pass(owner, ty, coderef, thread, luck) => PassKeeps(s, owner, ty, coderef, thread, luck, id, sv);
        case Callback(at, thread) => CallbackKeeps(s, at, thread, id, sv);
        case Destroy(_, keys) => ReleaseAllKeeps(s, keys, id, sv);
      }
    }
  }

  /** Over every run from the start, for every trampoline and every coderef: at most one trampoline
      exists per (object, type); each was made once and, when it no longer exists, freed once, both
      halves, failed creations included; the count held on a coderef is the number of trampolines
      for it; and Perl code ran only on the thread that had made the trampoline. */
  lemma {:induction false} EveryRunIsGood(steps: seq<Step>, id: Id, sv: Sv)
    ensures Good(Run(START, steps), id, sv)
  {
    if steps == [] {
      assert Holders(START, sv) == {};
    } else {
      EveryRunIsGood(steps[..|steps| - 1], id, sv);
      NextKeeps(Run(START, steps[..|steps| - 1]), steps[|steps| - 1], id, sv);
    }
  }

  predicate Spares(owner: Object, steps: seq<Step>) {
    forall n :: 0 <= n < |steps| && steps[n].Destroy? ==> steps[n].owner != owner
  }

  lemma {:induction false} RunKeeps(s: State, steps: seq<Step>, id: Id, sv: Sv)
    requires Good(s, id, sv)
    ensures Good(Run(s, steps), id, sv)
  {
    if steps != [] {
      RunKeeps(s, steps[..|steps| - 1], id, sv);
      NextKeeps(Run(s, steps[..|steps| - 1]), steps[|steps| - 1], id, sv);
    }
  }

  /** Passing again gives the same pointer: once an object has a trampoline for a type, every later
      pass finds it, whatever happens in between short of the object's own destruction. */
  lemma {:induction false} PointerIsStable(s: State, steps: seq<Step>, owner: Object, ty: TypeId, id: Id, sv: Sv)
    requires Good(s, id, sv) && (owner, ty) in s.cache && Legal(s, steps) && Spares(owner, steps)
    ensures Pointer(Run(s, steps), owner, ty) == Pointer(s, owner, ty)
    ensures Pointer(s, owner, ty).value in Run(s, steps).closures
  {
    if steps != [] {
      LegalPrefix(s, steps);
      PointerIsStable(s, steps[..|steps| - 1], owner, ty, id, sv);
      RunKeeps(s, steps[..|steps| - 1], id, sv);
      PointerStays(Run(s, steps[..|steps| - 1]), steps[|steps| - 1], owner, ty, id, sv);
    }
  }

  lemma {:induction false} PointerStays(s: State, step: Step, owner: Object, ty: TypeId, id: Id, sv: Sv)
    requires Good(s, id, sv) && (owner, ty) in s.cache && Allowed(s, step) && (step.Destroy? ==> step.owner != owner)
    ensures Pointer(Next(s, step), owner, ty) == Pointer(s, owner, ty)
    ensures Pointer(s, owner, ty).value in Next(s, step).closures
  {
    NextKeeps(s, step, id, sv);
    if step.Destroy? {
      ReleaseAllKeeps(s, step.keys, id, sv);
      assert (owner, ty) !in step.keys;
    }
  }

  /** Destroying an object releases all its trampolines and no other. */
  lemma {:induction false} DestroyReleases(s: State, owner: Object, keys: seq<(Object, TypeId)>, id: Id, sv: Sv)
    requires Good(s, id, sv) && Lists(keys, s, owner)
    ensures var t := ReleasedAll(s, keys);
            && (forall ty :: Pointer(t, owner, ty) == None)
            && (forall other, ty :: other != owner ==> Pointer(t, other, ty) == Pointer(s, other, ty))
            && (id in t.closures <==> id in s.closures && s.born[id].owner != owner)
  {
    ReleaseAllKeeps(s, keys, id, sv);
    var t := ReleasedAll(s, keys);
    if id in s.closures && s.born[id].owner != owner {
      assert Home(s, id) && (s.born[id].owner, s.born[id].ty) !in keys;
      assert t.cache[(s.born[id].owner, s.born[id].ty)] == id;
    }
    if id in t.closures {
      assert Home(t, id);
      assert s.cache[(s.born[id].owner, s.born[id].ty)] == id;
    }
  }

  // ---- The code ----

  /** The interpreter's side of it: closure objects with their cbdata, and the C heap. */
  class ClosureTable {
    var cache: map<(Object, TypeId), Id>
    var closures: map<Id, Closure>
    var next: Id
    var count: map<Sv, int>
    var aborted: bool
    ghost var made: multiset<Id>
    ghost var freed: multiset<Id>
    ghost var nativeMade: multiset<Id>
    ghost var nativeFreed: multiset<Id>
    ghost var born: map<Id, Birth>
    ghost var ran: seq<(Id, Thread)>

    constructor ()
      ensures Table() == START
    {
      cache, closures, next, count, aborted := map[], map[], 0, map[], false;
      made, freed, nativeMade, nativeFreed, born, ran := multiset{}, multiset{}, multiset{}, multiset{}, map[], [];
    }

    ghost function Table(): State
      reads this
    {
      State(cache, closures, next, made, freed, nativeMade, nativeFreed, count, born, ran, aborted)
    }

    /** What the argument slot gets when a closure object is passed; NULL after a failure. */
    method PassClosure(owner: Object, ty: TypeId, coderef: Option<Sv>, thread: Thread,
                       luck: Luck) returns (pointer: Option<Id>)
      modifies this
      ensures Table() == AfterPass(old(Table()), owner, ty, coderef, thread, luck)
      ensures pointer == Pointer(Table(), owner, ty)
      ensures pointer == None <==> (owner, ty) !in old(cache) && (luck != Fine || coderef == None)
      ensures pointer.Some? ==>
                pointer.value == if (owner, ty) in old(cache) then old(cache)[(owner, ty)] else old(next)
    {
      if (owner, ty) in cache {
        return Some(cache[(owner, ty)]);
      }
      pointer := CreateClosure(owner, ty, coderef, thread, luck);
    }

    method CreateClosure(owner: Object, ty: TypeId, coderef: Option<Sv>, thread: Thread,
                         luck: Luck) returns (pointer: Option<Id>)
      requires (owner, ty) !in cache
      modifies this
      ensures Table() == AfterPass(old(Table()), owner, ty, coderef, thread, luck)
      ensures pointer == Pointer(Table(), owner, ty)
      ensures if luck == Fine && coderef.Some? then pointer == Some(old(next)) else pointer == None
    {
      var id := MakeStruct();
      if luck == NoMemory {
        FreeStruct(id);
        return None;
      }
      MakeNative(id);
      if luck == NoPrep || coderef == None {
        FreeNative(id);
        FreeStruct(id);
        return None;
      }
      Register(owner, ty, coderef.value, thread, id);
      pointer := Some(id);
    }

    method MakeStruct() returns (id: Id)
      modifies this`next, this`made
      ensures Table() == WithStruct(old(Table())) && id == old(next)
    {
      id, next := next, next + 1;
      made := made + multiset{id};
    }

    method MakeNative(id: Id)
      modifies this`nativeMade
      ensures Table() == WithNative(old(Table()), id)
    {
      nativeMade := nativeMade + multiset{id};
    }

    method FreeNative(id: Id)
      modifies this`nativeFreed
      ensures Table() == WithoutNative(old(Table()), id)
    {
      nativeFreed := nativeFreed + multiset{id};
    }

    method FreeStruct(id: Id)
      modifies this`freed
      ensures Table() == WithoutStruct(old(Table()), id)
    {
      freed := freed + multiset{id};
    }

    /** The coderef is referenced and the trampoline entered with add_data. */
    method Register(owner: Object, ty: TypeId, code: Sv, thread: Thread, id: Id)
      modifies this`closures, this`count, this`cache, this`born
      ensures Table() == Registered(old(Table()), owner, ty, code, thread, id)
    {
      closures := closures[id := Closure(code, ty, thread)];
      count := Bump(count, code, 1);
      cache := cache[(owner, ty) := id];
      born := born[id := Birth(owner, ty, thread)];
    }

    /** Entry of ffi_pl_closure_call; `perl` says whether Perl code gets to run. */
    method Enter(id: Id, thread: Thread) returns (perl: bool)
      requires id in closures
      modifies this
      ensures Table() == AfterCallback(old(Table()), id, thread)
      ensures perl <==> thread == closures[id].thread
    {
      if closures[id].thread != thread {
        aborted := true;
        return false;
      }
      ran := ran + [(id, thread)];
      perl := true;
    }

    /** The object goes away: its cbdata entries are destroyed one after the other. */
    method DestroyObject(keys: seq<(Object, TypeId)>)
      modifies this
      ensures Table() == ReleasedAll(old(Table()), keys)
    {
      var i := 0;
      while i < |keys|
        invariant 0 <= i <= |keys|
        invariant Table() == ReleasedAll(old(Table()), keys[..i])
      {
        assert keys[..i + 1][..i] == keys[..i];
        DestroyEntry(keys[i]);
        i := i + 1;
      }
      assert keys[..|keys|] == keys;
    }

    /** ClosureData::DESTROY. */
    method DestroyEntry(key: (Object, TypeId))
      modifies this
      ensures Table() == Released(old(Table()), key)
    {
      if key in cache && cache[key] in closures {
        var id := cache[key];
        count := Bump(count, closures[id].coderef, -1);
        FreeNative(id);
        closures := closures - {id};
        FreeStruct(id);
        cache := cache - {key};
      }
    }
  }
}
