/** Ownership of the memory of calls: over every run, each block is freed exactly once by the
    call that allocated it, and no other block is touched. */
module HeapLaws {
  import opened TypeCodes
  import opened CallModel

  /** How often `id` will be freed when the list `own` is: each entry stands for a block and its node. */
  function Owed(own: seq<Id>, id: Id): nat {
    if own == [] then 0
    else (if id == own[0] then 1 else 0) + (if id == own[0] + 1 then 1 else 0) + Owed(own[1..], id)
  }

  /** All allocated blocks have been handed out by the allocator. */
  ghost predicate Bounded(s: Shared) {
    forall id :: id in s.live ==> id < s.next
  }

  predicate BoundedAt(s: Shared, id: Id) {
    id in s.live ==> id < s.next
  }

  /** Conservation for one block between two states, with the list `own` still to be freed. */
  predicate Ledger(s: Shared, t: Shared, own: seq<Id>, id: Id) {
    && s.next <= t.next
    && s.freed[id] <= t.freed[id]
    && t.freed[id] + Owed(own, id) == s.freed[id] + (if s.next <= id < t.next then 1 else 0)
    && (id in t.live <==> (id in s.live || Owed(own, id) > 0))
  }

  /** The parts of the shared state the allocator does not touch. */
  predicate SameApartFromHeap(s: Shared, t: Shared) {
    s.argv == t.argv && s.keepers == t.keepers && s.count == t.count
  }

  lemma {:induction false} ReleaseEffect(s: Shared, own: seq<Id>, id: Id)
    ensures var t := Release(s, own);
            && SameApartFromHeap(s, t) && t.next == s.next
            && t.freed[id] == s.freed[id] + Owed(own, id)
            && (id in t.live <==> (id in s.live && Owed(own, id) == 0))
    decreases |own|
  {
    if own != [] {
      var s' := s.(live := s.live - {own[0], own[0] + 1}, freed := s.freed + multiset{own[0]} + multiset{own[0] + 1});
      ReleaseEffect(s', own[1..], id);
    }
  }

  lemma {:induction false} FreeAllLedger(s: Shared, f: Frame, id: Id)
    requires BoundedAt(s, id) && Ledger(s, f.world.now, f.own, id)
    ensures Ledger(s, FreeAll(f).world.now, [], id)
  {
    ReleaseEffect(f.world.now, f.own, id);
  }

  lemma {:induction false} HeapAddsEffect(f: Frame, n: nat)
    ensures var g := HeapAdds(f, n);
            && g.croaked == f.croaked && g.targets == f.targets && g.world.log == f.world.log
            && SameApartFromHeap(f.world.now, g.world.now)
            && g.world.now.next == f.world.now.next + 2 * n
            && f.world.now.live <= g.world.now.live
            && (forall id :: id in g.world.now.live ==>
                  id in f.world.now.live || f.world.now.next <= id < g.world.now.next)
            && (forall id :: id in f.own ==> id in g.own)
            && g.world.now.freed == f.world.now.freed
  {
    if n > 0 {
      HeapAddsEffect(f, n - 1);
    }
  }

  lemma {:induction false} HeapAddsLedger(s: Shared, f: Frame, n: nat, id: Id)
    requires BoundedAt(s, id) && Ledger(s, f.world.now, f.own, id)
    ensures Ledger(s, HeapAdds(f, n).world.now, HeapAdds(f, n).own, id)
  {
    if n > 0 {
      HeapAddsLedger(s, f, n - 1, id);
      var g := HeapAdds(f, n - 1);
      assert ([g.world.now.next] + g.own)[1..] == g.own;
    }
  }

  lemma {:induction false} StoreLedger(p: Platform, code: Code, a: Arg, v: Value, slot: nat, f: Frame, s: Shared,
                                       id: Id)
    requires BoundedAt(s, id) && Ledger(s, f.world.now, f.own, id)
    ensures var g := Store(p, code, a, v, slot, f);
            Ledger(s, g.world.now, g.own, id) && (g.croaked && !f.croaked ==> g.own == [])
  {
    FreeAllLedger(s, f, id);
    var now := if InKindOf(code) == InClosure then Lend(f.world.now, v, 1) else f.world.now;
    var g := f.(world := f.world.(now := now), targets := f.targets + [TargetOf(p, code, slot)]);
    HeapAddsLedger(s, g, BlocksOf(p, code, a), id);
    HeapAddsEffect(g, BlocksOf(p, code, a));
  }

  lemma {:induction false} StoreConvertedLedger(p: Platform, a: Arg, sv: Sv, slot: nat, f: Frame, s: Shared, id: Id)
    requires BoundedAt(s, id) && Ledger(s, f.world.now, f.own, id)
    ensures var g := StoreConverted(p, a, sv, slot, f);
            Ledger(s, g.world.now, g.own, id) && (g.croaked && !f.croaked ==> g.own == [])
  {
    var kept := f.(world := f.world.(now := Keep(Bump(f.world.now, sv, 1), sv)));
    StoreLedger(p, Basis(a.ty.code), a, Scalar(sv), slot, kept, s, id);
  }

  lemma {:induction false} InStepLedger(p: Platform, c: Call, b: Id, k: nat, f: Frame, s: Shared, id: Id)
    requires k < |c.args| && !f.croaked
    requires BoundedAt(s, id) && Ledger(s, f.world.now, f.own, id)
    ensures var g := InStep(p, c, b, k, f);
            Ledger(s, g.world.now, g.own, id) && (g.croaked ==> g.own == [])
    decreases c, 1, 2 * k + 1
  {
    var a := c.args[k];
    var slot := SlotOf(c, k);
    if IsCustom(a.ty.code) {
      if a.ty.convert {
        HandlerLedger(p, a.code, Some(b), Convert(slot, Extra(c.style) + k, ValueOf(c, k)), f.world, id);
      }
      var g := f.(world := RunConvert(p, c, b, k, f.world));
      if Converted(a).Some? {
        StoreConvertedLedger(p, a, Converted(a).value, slot, g, s, id);
      }
    } else {
      StoreLedger(p, a.ty.code, a, ValueOf(c, k), slot, f, s, id);
    }
  }

  lemma {:induction false} InPrefixLedger(p: Platform, c: Call, b: Id, k: nat, f: Frame, s: Shared, id: Id)
    requires k <= |c.args| && !f.croaked
    requires BoundedAt(s, id) && Ledger(s, f.world.now, f.own, id)
    ensures var g := InPrefix(p, c, b, k, f);
            Ledger(s, g.world.now, g.own, id) && (g.croaked ==> g.own == [])
    decreases c, 1, 2 * k
  {
    if k > 0 {
      InPrefixLedger(p, c, b, k - 1, f, s, id);
      var g := InPrefix(p, c, b, k - 1, f);
      if !g.croaked {
        InStepLedger(p, c, b, k - 1, g, s, id);
      }
    }
  }

  lemma {:induction false} OutSuffixLedger(p: Platform, c: Call, b: Id, k: nat, w: World, s: Shared, own: seq<Id>,
                                           id: Id)
    requires k <= |c.args|
    requires BoundedAt(s, id) && Ledger(s, w.now, own, id)
    ensures Ledger(s, OutSuffix(p, c, b, k, w).now, own, id)
    decreases c, 1, 1 + |c.args| - k
  {
    if k < |c.args| {
      OutSuffixLedger(p, c, b, k + 1, w, s, own, id);
      PostLedger(p, c, b, k, OutSuffix(p, c, b, k + 1, w), s, own, id);
    }
  }

  lemma {:induction false} PostLedger(p: Platform, c: Call, b: Id, k: nat, w: World, s: Shared, own: seq<Id>, id: Id)
    requires k < |c.args|
    requires BoundedAt(s, id) && Ledger(s, w.now, own, id)
    ensures Ledger(s, RunPost(p, c, b, k, w).now, own, id)
    decreases c, 1, 0
  {
    var a := c.args[k];
    if OutKindOf(a.ty.code) == OutCustom && a.ty.post {
      HandlerLedger(p, a.after, Some(b), PostOf(c, k), w, id);
    }
  }

  /** Every exit the selected variant can take releases the list. */
  lemma {:induction false} LeaveLedger(p: Platform, c: Call, b: Id, f: Frame, s: Shared, id: Id)
    requires BoundedAt(s, id) && Ledger(s, f.world.now, f.own, id)
    ensures Ledger(s, Leave(p, c, b, f).world.now, [], id)
    decreases c, 1
  {
    FreeAllLedger(s, f, id);
    var early := if FreesEarly(c.ret.code) then FreeAll(f) else f;
    var quiet := early.(world := SetArgv(early.world, None));
    match ExitOf(VariantOf(c.style, c.ret.code), c.ret.code) {
      case ExitPlain =>
        ReturnReleases(VariantOf(c.style, c.ret.code), c.ret.code);
      case ExitFree =>
        FreeAllLedger(s, quiet, id);
      case ExitHandler =>
        var own := SetArgv(quiet.world, Some(b));
        if c.ret.back {
          HandlerLedger(p, c.finish, Some(b), Native, own, id);
        }
        var ran := if c.ret.back then RunHandler(p, c.finish, Some(b), Native, own) else own;
        FreeAllLedger(s, quiet.(world := SetArgv(ran, None)), id);
    }
  }

  lemma {:induction false} RunCallLedger(p: Platform, c: Call, w: World, id: Id)
    requires BoundedAt(w.now, id)
    ensures Ledger(w.now, RunCall(p, c, w).world.now, [], id)
    decreases c, 2
  {
    var b := BlockOf(p, c, w);
    HeapAddsLedger(w.now, Frame(w, [], [], false), ResultBlocks(p, c) + 1, id);
    HeapAddsEffect(Frame(w, [], [], false), ResultBlocks(p, c) + 1);
    InPrefixLedger(p, c, b, |c.args|, Enter(p, c, w), w.now, id);
    var f := InPrefix(p, c, b, |c.args|, Enter(p, c, w));
    if !f.croaked {
      HandlerLedger(p, c.callbacks, Some(b), Foreign(f.targets), SetArgv(f.world, None), id);
      var foreign := RunForeign(p, c, b, f);
      OutSuffixLedger(p, c, b, 0, foreign, w.now, f.own, id);
      LeaveLedger(p, c, b, f.(world := OutSuffix(p, c, b, 0, foreign)), w.now, id);
    }
  }

  /** Announcing a handler, and noting where it gives control back, changes nothing. */
  lemma {:induction false} HandlerNow(p: Platform, code: seq<Action>, owner: Option<Id>, what: What, w: World)
    ensures RunHandler(p, code, owner, what, w).now == RunCode(p, code, owner, |code|, Log(w, owner, what)).now
  {
  }

  lemma {:induction false} HandlerLedger(p: Platform, code: seq<Action>, owner: Option<Id>, what: What, w: World,
                                        id: Id)
    requires BoundedAt(w.now, id)
    ensures Ledger(w.now, RunHandler(p, code, owner, what, w).now, [], id)
    decreases code, 1
  {
    HandlerNow(p, code, owner, what, w);
    RunCodeLedger(p, code, owner, |code|, Log(w, owner, what), id);
  }

  /** So a handler neither frees nor leaves any block. */
  lemma {:induction false} HandlerFrees(p: Platform, code: seq<Action>, owner: Option<Id>, what: What, w: World)
    requires Bounded(w.now)
    ensures var t := RunHandler(p, code, owner, what, w).now;
            t.live == w.now.live && w.now.next <= t.next && Bounded(t)
  {
    HandlerNow(p, code, owner, what, w);
    CodeFreesExactlyItsBlocks(p, code, owner, |code|, Log(w, owner, what));
  }

  lemma {:induction false} RunCodeLedger(p: Platform, code: seq<Action>, owner: Option<Id>, n: nat, w: World, id: Id)
    requires n <= |code| && BoundedAt(w.now, id)
    ensures Ledger(w.now, RunCode(p, code, owner, n, w).now, [], id)
    decreases code, 0, n
  {
    if n > 0 {
      RunCodeLedger(p, code, owner, n - 1, w, id);
      var action := code[n - 1];
      if action.Invoke? {
        assert (code decreases to action) && (action decreases to action.call);
        RunCallLedger(p, action.call, RunCode(p, code, owner, n - 1, w), id);
      }
    }
  }

  /** Over any call, whatever nests inside it and whether or not it or a nested call croaks:
      what was allocated before stays allocated, every block allocated meanwhile has been freed
      exactly once, and no other block has been freed. */
  lemma {:induction false} CallFreesExactlyItsBlocks(p: Platform, c: Call, w: World)
    requires Bounded(w.now)
    ensures var t := RunCall(p, c, w).world.now;
            && t.live == w.now.live && w.now.next <= t.next && Bounded(t)
            && forall id: Id :: t.freed[id] == w.now.freed[id] + (if w.now.next <= id < t.next then 1 else 0)
  {
    var t := RunCall(p, c, w).world.now;
    RunCallLedger(p, c, w, 0);
    forall id: Id
      ensures t.freed[id] == w.now.freed[id] + (if w.now.next <= id < t.next then 1 else 0)
      ensures id in t.live <==> id in w.now.live
    {
      RunCallLedger(p, c, w, id);
    }
  }

  /** The same for a whole Perl program, or any handler or callback in it. */
  lemma {:induction false} CodeFreesExactlyItsBlocks(p: Platform, code: seq<Action>, owner: Option<Id>, n: nat,
                                                     w: World)
    requires n <= |code| && Bounded(w.now)
    ensures var t := RunCode(p, code, owner, n, w).now;
            && t.live == w.now.live && w.now.next <= t.next && Bounded(t)
            && forall id: Id :: t.freed[id] == w.now.freed[id] + (if w.now.next <= id < t.next then 1 else 0)
  {
    var t := RunCode(p, code, owner, n, w).now;
    RunCodeLedger(p, code, owner, n, w, 0);
    forall id: Id
      ensures t.freed[id] == w.now.freed[id] + (if w.now.next <= id < t.next then 1 else 0)
      ensures id in t.live <==> id in w.now.live
    {
      RunCodeLedger(p, code, owner, n, w, id);
    }
  }

  /** Which exits keep the promise: a return path releases the call's list exactly once or more,
      except when record values meet the variant compiled without them, or an ordinary custom
      type meets the variant compiled for records only.  The variants _attach, _sub_ref and
      `call` select never do either. */
  lemma {:induction false} ReturnReleases(variant: Variant, code: Code)
    ensures (FreesEarly(code) || ExitOf(variant, code) != ExitPlain) <==>
            !(variant.noRecordValue && code == RECORD_VALUE) &&
            !(variant.noNormal && IsCustom(code) && (variant.noRecordValue || code != RECORD_VALUE | SHAPE_CUSTOM))
    ensures forall style :: variant == VariantOf(style, code) ==> FreesEarly(code) || ExitOf(variant, code) != ExitPlain
  {
  }
}
