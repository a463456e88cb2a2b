/** Signatures: how Function::new spreads Perl-level argument types over native slots, and how
    the two argument loops of a call walk the result (xs/Function.xs, include/ffi_platypus_call.h). */
module Signature {
  import opened TypeCodes

  /** Native slots taken by one Perl-level argument. */
  function Slots(t: Type): (n: nat)
    ensures n >= 1
  {
    if IsCustom(t.code) then 1 + t.skip else 1
  }

  function Repeat(t: Type, n: nat): (r: seq<Type>)
    ensures |r| == n && forall j :: 0 <= j < n ==> r[j] == t
  {
    seq(n, _ => t)
  }

  /** The expanded type list: each type repeated once per slot it takes. */
  function Expand(types: seq<Type>): seq<Type> {
    if types == [] then []
    else Expand(types[..|types| - 1]) + Repeat(types[|types| - 1], Slots(types[|types| - 1]))
  }

  /** First native slot of Perl-level argument k. */
  function Offset(types: seq<Type>, k: nat): nat
    requires k <= |types|
  {
    |Expand(types[..k])|
  }

  lemma {:induction false} OffsetStep(types: seq<Type>, k: nat)
    requires k < |types|
    ensures Offset(types, k + 1) == Offset(types, k) + Slots(types[k])
    ensures Expand(types[..k + 1]) == Expand(types[..k]) + Repeat(types[k], Slots(types[k]))
  {
    assert types[..k + 1][..k] == types[..k];
  }

  lemma {:induction false} ExpandPrefix(types: seq<Type>, k: nat)
    requires k <= |types|
    ensures Expand(types[..k]) <= Expand(types)
    decreases |types| - k
  {
    if k == |types| {
      assert types[..k] == types;
    } else {
      OffsetStep(types, k);
      ExpandPrefix(types, k + 1);
    }
  }

  /** Slot Offset(k) + j of the expanded list carries type k, for every j below its width. */
  lemma {:induction false} ExpandAt(types: seq<Type>, k: nat, j: nat)
    requires k < |types| && j < Slots(types[k])
    ensures Offset(types, k) + j < |Expand(types)|
    ensures Expand(types)[Offset(types, k) + j] == types[k]
  {
    OffsetStep(types, k);
    ExpandPrefix(types, k + 1);
    assert Expand(types[..k + 1])[Offset(types, k) + j] == types[k];
  }

  lemma {:induction false} OffsetEnd(types: seq<Type>)
    ensures Offset(types, |types|) == |Expand(types)|
  {
    assert types[..|types|] == types;
  }

  lemma {:induction false} OffsetMonotone(types: seq<Type>, j: nat, k: nat)
    requires j <= k <= |types|
    ensures Offset(types, j) + (k - j) <= Offset(types, k)
    decreases k - j
  {
    if j < k {
      OffsetMonotone(types, j, k - 1);
      OffsetStep(types, k - 1);
    }
  }

  /** Number of extra slots Function::new counts in its first loop. */
  function ExtraSlots(types: seq<Type>): nat {
    if types == [] then 0
    else ExtraSlots(types[..|types| - 1]) + (if IsCustom(types[|types| - 1].code) then types[|types| - 1].skip else 0)
  }

  lemma {:induction false} ExpandLength(types: seq<Type>)
    ensures |Expand(types)| == |types| + ExtraSlots(types)
  {
    if types != [] {
      ExpandLength(types[..|types| - 1]);
    }
  }

  /** The two arrays Function::new fills. */
  datatype Prepared = Prepared(argumentTypes: seq<Type>, ffiTypes: seq<Option<FfiType>>)

  /** First loop of Function::new: refuse void, count the extra slots. */
  method CountExtra(types: seq<Type>) returns (extra: Option<nat>)
    ensures extra.None? <==> exists k :: 0 <= k < |types| && types[k].code == VOID
    ensures extra.Some? ==> |types| + extra.value == |Expand(types)|
  {
    var n := 0;
    var i := 0;
    while i < |types|
      invariant 0 <= i <= |types|
      invariant n == ExtraSlots(types[..i])
      invariant forall k :: 0 <= k < i ==> types[k].code != VOID
    {
      if types[i].code == VOID {
        return None;
      }
      assert types[..i + 1][..i] == types[..i];
      if IsCustom(types[i].code) {
        n := n + types[i].skip;
      }
      i := i + 1;
    }
    assert types[..|types|] == types;
    ExpandLength(types);
    extra := Some(n);
  }

  /** Body of the second loop of Function::new: store a type at slot n and copy it to the slots
      after it that a wide custom type also takes. */
  method FillGroup(argumentTypes: array<Type>, n: nat, t: Type) returns (next: nat)
    requires n + Slots(t) <= argumentTypes.Length
    modifies argumentTypes
    ensures next == n + Slots(t)
    ensures argumentTypes[..next] == old(argumentTypes[..n]) + Repeat(t, Slots(t))
  {
    argumentTypes[n] := t;
    next := n;
    if IsCustom(t.code) && t.skip > 0 {
      var j := 1;
      while j - 1 < t.skip
        invariant 1 <= j <= t.skip + 1
        invariant argumentTypes[..n] == old(argumentTypes[..n])
        invariant argumentTypes[n..n + j] == Repeat(t, j)
      {
        argumentTypes[n + j] := argumentTypes[n];
        j := j + 1;
      }
      next := next + t.skip;
    }
    next := next + 1;
    assert argumentTypes[..next] == argumentTypes[..n] + argumentTypes[n..next];
  }

  /** Function::new: allocate the array of native argument types and fill it with an index that
      jumps ahead over the slots of a wide custom type.  The libffi list is made slot by slot
      from the same types.  None when an argument type is void. */
  method Prepare(types: seq<Type>) returns (r: Option<Prepared>)
    ensures r.None? <==> exists k :: 0 <= k < |types| && types[k].code == VOID
    ensures r.Some? ==> r.value.argumentTypes == Expand(types) && r.value.ffiTypes == LibffiTypes(Expand(types))
  {
    var extra := CountExtra(types);
    if extra.None? {
      return None;
    }
    var argumentTypes := new Type[|types| + extra.value];
    var n := 0;
    var i := 0;
    OffsetEnd(types);
    while i < |types|
      invariant 0 <= i <= |types|
      invariant n == Offset(types, i) <= argumentTypes.Length
      invariant argumentTypes[..n] == Expand(types[..i])
    {
      OffsetStep(types, i);
      OffsetMonotone(types, i + 1, |types|);
      n := FillGroup(argumentTypes, n, types[i]);
      i := i + 1;
    }
    assert types[..|types|] == types && argumentTypes[..] == argumentTypes[..n];
    r := Some(Prepared(argumentTypes[..], LibffiTypes(argumentTypes[..])));
  }

  function LibffiTypes(sig: seq<Type>): (r: seq<Option<FfiType>>)
    ensures |r| == |sig|
  {
    seq(|sig|, j requires 0 <= j < |sig| => ToLibffi(sig[j]))
  }

  // ---- The two argument loops, reduced to the indices they visit ----

  /** A stop of an argument loop: the first native slot and the index of the Perl argument. */
  datatype Visit = Visit(slot: int, index: int)

  /** Slots the loops step over on top of their own i++ or i--. */
  function Skip(t: Type): nat {
    if IsCustom(t.code) then t.skip else 0
  }

  function ForwardVisits(sig: seq<Type>, i: nat, index: int): seq<Visit>
    decreases |sig| - i
  {
    if i >= |sig| then []
    else [Visit(i, index)] + ForwardVisits(sig, i + Skip(sig[i]) + 1, index + 1)
  }

  /** The backward loop reads the skip from the last slot of the group and handles the argument
      at the slot it lands on. */
  function BackwardVisits(sig: seq<Type>, i: int, index: int): seq<Visit>
    requires i < |sig|
    decreases i
  {
    if i < 0 then []
    else
      var first := i - Skip(sig[i]);
      [Visit(first, index)] + BackwardVisits(sig, first - 1, index - 1)
  }

  /** Value of i when the backward loop stops. */
  function BackwardEnd(sig: seq<Type>, i: int): int
    requires i < |sig|
    decreases i
  {
    if i < 0 then i else BackwardEnd(sig, i - Skip(sig[i]) - 1)
  }

  function Reverse(visits: seq<Visit>): (r: seq<Visit>)
    ensures |r| == |visits|
  {
    if visits == [] then [] else Reverse(visits[1..]) + [visits[0]]
  }

  /** Reference list: one visit per Perl-level argument, at the slot where its group starts. */
  function GroupStarts(types: seq<Type>, k: nat, extra: nat): seq<Visit>
    requires k <= |types|
    decreases |types| - k
  {
    if k == |types| then [] else [Visit(Offset(types, k), extra + k)] + GroupStarts(types, k + 1, extra)
  }

  lemma {:induction false} ForwardVisitsGroups(types: seq<Type>, sig: seq<Type>, k: nat, i: nat, extra: nat)
    requires k <= |types| && sig == Expand(types) && i == Offset(types, k)
    ensures ForwardVisits(sig, i, extra + k) == GroupStarts(types, k, extra)
    decreases |types| - k
  {
    if k == |types| {
      OffsetEnd(types);
    } else {
      OffsetStep(types, k);
      ExpandAt(types, k, 0);
      var after := i + Skip(sig[i]) + 1;
      assert sig[i] == types[k] && after == Offset(types, k + 1);
      ForwardVisitsGroups(types, sig, k + 1, after, extra);
      assert ForwardVisits(sig, i, extra + k) == [Visit(i, extra + k)] + ForwardVisits(sig, after, extra + (k + 1));
    }
  }

  /** Reversed reference list, built from the front: argument k - 1 first. */
  function GroupStartsDown(types: seq<Type>, k: nat, extra: nat): seq<Visit>
    requires k <= |types|
  {
    if k == 0 then [] else [Visit(Offset(types, k - 1), extra + k - 1)] + GroupStartsDown(types, k - 1, extra)
  }

  lemma {:induction false} GroupStartsReversed(types: seq<Type>, k: nat, extra: nat)
    requires k <= |types|
    ensures Reverse(GroupStarts(types, k, extra)) + GroupStartsDown(types, k, extra) ==
            GroupStartsDown(types, |types|, extra)
    decreases |types| - k
  {
    if k < |types| {
      GroupStartsReversed(types, k + 1, extra);
    }
  }

  lemma {:induction false} BackwardStep(sig: seq<Type>, i: int, first: int, index: int)
    requires 0 <= i < |sig| && first == i - Skip(sig[i])
    ensures BackwardVisits(sig, i, index) == [Visit(first, index)] + BackwardVisits(sig, first - 1, index - 1)
    ensures BackwardEnd(sig, i) == BackwardEnd(sig, first - 1)
  {
  }

  lemma {:induction false} GroupStartsDownStep(types: seq<Type>, k: nat, first: int, index: int, extra: nat)
    requires 0 < k <= |types| && first == Offset(types, k - 1) && index == extra + k - 1
    ensures GroupStartsDown(types, k, extra) == [Visit(first, index)] + GroupStartsDown(types, k - 1, extra)
  {
  }

  /** The slot before the group of argument k is the last one of the group before it. */
  lemma {:induction false} LastSlot(types: seq<Type>, sig: seq<Type>, k: nat, i: int)
    requires k <= |types| && sig == Expand(types) && i == Offset(types, k) - 1
    ensures i < |sig|
    ensures if k == 0 then i == -1 else i >= 0 && sig[i] == types[k - 1] && i - Skip(sig[i]) == Offset(types, k - 1)
  {
    OffsetMonotone(types, k, |types|);
    OffsetEnd(types);
    if k > 0 {
      OffsetStep(types, k - 1);
      ExpandAt(types, k - 1, Slots(types[k - 1]) - 1);
    }
  }

  lemma {:induction false} BackwardVisitsGroups(types: seq<Type>, sig: seq<Type>, k: nat, i: int, index: int,
                                                extra: nat)
    requires k <= |types| && sig == Expand(types) && i == Offset(types, k) - 1 && index == extra + k - 1
    ensures i < |sig|
    ensures BackwardVisits(sig, i, index) == GroupStartsDown(types, k, extra)
    ensures BackwardEnd(sig, i) == -1
  {
    LastSlot(types, sig, k, i);
    if k > 0 {
      var first: int := Offset(types, k - 1);
      BackwardVisitsGroups(types, sig, k - 1, first - 1, index - 1, extra);
      BackwardStep(sig, i, first, index);
      GroupStartsDownStep(types, k, first, index, extra);
    }
  }

  /** Traversal duality: whatever mix of wide custom types the signature has, the argument-out
      loop stops at exactly the stops of the argument-in loop, in reverse, and ends at i = -1.
      So every post handler gets the slot and the Perl argument its perl_to_native got. */
  lemma {:induction false} TraversalDuality(types: seq<Type>, extra: nat)
    ensures var sig := Expand(types);
            && BackwardVisits(sig, |sig| - 1, extra + |types| - 1) == Reverse(ForwardVisits(sig, 0, extra))
            && |ForwardVisits(sig, 0, extra)| == |types|
            && BackwardEnd(sig, |sig| - 1) == -1
  {
    OffsetEnd(types);
    ForwardVisitsGroups(types, Expand(types), 0, 0, extra);
    BackwardVisitsGroups(types, Expand(types), |types|, |Expand(types)| - 1, extra + |types| - 1, extra);
    GroupStartsReversed(types, 0, extra);
    GroupStartsLength(types, 0, extra);
  }

  lemma {:induction false} GroupStartsLength(types: seq<Type>, k: nat, extra: nat)
    requires k <= |types|
    ensures |GroupStarts(types, k, extra)| == |types| - k
    decreases |types| - k
  {
    if k < |types| {
      GroupStartsLength(types, k + 1, extra);
    }
  }
}
