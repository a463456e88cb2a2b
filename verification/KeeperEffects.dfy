/** What runs do to the shared keeper stack, told apart from the runs themselves: a part of a run
    takes some entries off the stack it finds and leaves some others on top. */
module KeeperEffects {
  import opened TypeCodes
  import opened CallModel
  import opened ArgvLaws

  /** A stack after n pops; popping an empty stack changes nothing. */
  function Drop(stack: seq<Sv>, n: nat): seq<Sv> {
    if n == 0 || stack == [] then stack else Drop(stack[..|stack| - 1], n - 1)
  }

  lemma {:induction false} DropIs(stack: seq<Sv>, n: nat)
    ensures Drop(stack, n) == if n >= |stack| then [] else stack[..|stack| - n]
  {
    if n > 0 && stack != [] {
      DropIs(stack[..|stack| - 1], n - 1);
    }
  }

  lemma {:induction false} DropDrop(stack: seq<Sv>, m: nat, n: nat)
    ensures Drop(Drop(stack, m), n) == Drop(stack, m + n)
  {
    if m > 0 && stack != [] {
      DropDrop(stack[..|stack| - 1], m - 1, n);
    }
  }

  lemma {:induction false} DropAppended(a: seq<Sv>, b: seq<Sv>, n: nat)
    ensures Drop(a + b, n) == if n <= |b| then a + b[..|b| - n] else Drop(a, n - |b|)
  {
    DropIs(a + b, n);
    if n > |b| {
      DropIs(a, n - |b|);
    }
  }

  // ---- Effects ----

  /** `drop` entries off the stack found, then `push` on top. */
  datatype Effect = Effect(drop: nat, push: seq<Sv>)

  const NOTHING := Effect(0, [])

  function Act(e: Effect, stack: seq<Sv>): seq<Sv> {
    Drop(stack, e.drop) + e.push
  }

  /** e and then f. */
  function Then(e: Effect, f: Effect): Effect {
    if f.drop <= |e.push| then Effect(e.drop, e.push[..|e.push| - f.drop] + f.push)
    else Effect(e.drop + (f.drop - |e.push|), f.push)
  }

  lemma {:induction false} ActThen(e: Effect, f: Effect, stack: seq<Sv>)
    ensures Act(Then(e, f), stack) == Act(f, Act(e, stack))
  {
    DropAppended(Drop(stack, e.drop), e.push, f.drop);
    if f.drop <= |e.push| {
      var kept := e.push[..|e.push| - f.drop];
      assert Drop(stack, e.drop) + (kept + f.push) == (Drop(stack, e.drop) + kept) + f.push;
    } else {
      DropDrop(stack, e.drop, f.drop - |e.push|);
    }
  }

  /** ActThen along three stacks. */
  lemma {:induction false} Acts(e: Effect, f: Effect, both: Effect, before: seq<Sv>, between: seq<Sv>, after: seq<Sv>)
    requires both == Then(e, f) && between == Act(e, before) && after == Act(f, between)
    ensures after == Act(both, before)
  {
    ActThen(e, f, before);
  }

  lemma {:induction false} ThenAssociates(e: Effect, f: Effect, g: Effect)
    ensures Then(e, Then(f, g)) == Then(Then(e, f), g)
  {
  }

  lemma {:induction false} ActNothing(stack: seq<Sv>)
    ensures Act(NOTHING, stack) == stack
  {
  }

  /** The effect puts back just what it takes off this stack. */
  predicate Restores(e: Effect, stack: seq<Sv>) {
    var taken := if e.drop < |stack| then e.drop else |stack|;
    stack[|stack| - taken..] == e.push
  }

  lemma {:induction false} RestoresIff(e: Effect, stack: seq<Sv>)
    ensures Act(e, stack) == stack <==> Restores(e, stack)
  {
    DropIs(stack, e.drop);
    var taken := if e.drop < |stack| then e.drop else |stack|;
    assert Drop(stack, e.drop) == stack[..|stack| - taken];
    assert stack == stack[..|stack| - taken] + stack[|stack| - taken..];
    if Act(e, stack) == stack {
      assert stack[|stack| - taken..] == Act(e, stack)[|stack| - taken..] == e.push;
    }
  }

  // ---- A floor that is not dug into ----

  /** The stack stands on `floor`, and d entries can be dropped without reaching it.  The empty
      floor asks nothing. */
  ghost predicate Room(floor: seq<Sv>, stack: seq<Sv>, d: nat) {
    floor <= stack && (floor == [] || d <= |stack| - |floor|)
  }

  lemma {:induction false} RoomAct(floor: seq<Sv>, stack: seq<Sv>, e: Effect)
    requires Room(floor, stack, e.drop)
    ensures floor <= Act(e, stack)
  {
    DropIs(stack, e.drop);
  }

  // ---- The effects of the parts of a run ----

  /** The scalar pushed for an argument. */
  function PushedAt(a: Arg): seq<Sv> {
    if IsCustom(a.ty.code) && Converted(a).Some? then [Converted(a).value] else []
  }

  function CodeEffect(code: seq<Action>, n: nat): Effect
    requires n <= |code|
    decreases code, 0, n
  {
    if n == 0 then NOTHING
    else
      var action := code[n - 1];
      if action.Api? then CodeEffect(code, n - 1)
      else
        assert (code decreases to action) && (action decreases to action.call);
        Then(CodeEffect(code, n - 1), CallEffect(action.call))
  }

  /** Of perl_to_native of argument k; of its conversion; of the conversions of arguments j to k - 1,
      as far as the loop gets. */
  function ConvertEffect(c: Call, k: nat): Effect
    requires k < |c.args|
    decreases c, 1, 2 * k
  {
    if ConvertRuns(c.args[k]) then CodeEffect(c.args[k].code, |c.args[k].code|) else NOTHING
  }

  function InEffectAt(c: Call, k: nat): Effect
    requires k < |c.args|
    decreases c, 1, 2 * k + 1
  {
    Then(ConvertEffect(c, k), Effect(0, PushedAt(c.args[k])))
  }

  function InEffect(c: Call, j: nat, k: nat): Effect
    requires j <= k <= |c.args|
    decreases c, 1, 2 * k
  {
    if j == k then NOTHING
    else if Failed(c, k - 1) then InEffect(c, j, k - 1)
    else Then(InEffect(c, j, k - 1), InEffectAt(c, k - 1))
  }

  /** Of the post handler of argument k; of its turn of the argument-out loop; of the turns of the
      last argument down to argument k. */
  function PostEffect(c: Call, k: nat): Effect
    requires k < |c.args|
    decreases c, 1, 0
  {
    if PostRuns(c.args[k]) then CodeEffect(c.args[k].after, |c.args[k].after|) else NOTHING
  }

  function OutEffectAt(c: Call, k: nat): Effect
    requires k < |c.args|
    decreases c, 1, 1
  {
    if IsCustom(c.args[k].ty.code) then Then(PostEffect(c, k), Effect(1, [])) else NOTHING
  }

  function OutEffect(c: Call, k: nat): Effect
    requires k <= |c.args|
    decreases c, 1, 2 + |c.args| - k
  {
    if k == |c.args| then NOTHING else Then(OutEffect(c, k + 1), OutEffectAt(c, k))
  }

  function FinishEffect(c: Call): Effect
    decreases c, 1
  {
    if FinishRuns(c) then CodeEffect(c.finish, |c.finish|) else NOTHING
  }

  /** From argument m of a call that does not croak through the foreign call back down to argument k. */
  function RoundEffect(c: Call, m: nat, k: nat): Effect
    requires m <= |c.args| && k <= |c.args|
    decreases c, 1, 2 * |c.args| + 3
  {
    Then(Then(InEffect(c, m, |c.args|), CodeEffect(c.callbacks, |c.callbacks|)), OutEffect(c, k))
  }

  /** Of a whole call; a croak ends it inside the argument-in loop. */
  function CallEffect(c: Call): Effect
    decreases c, 2
  {
    if Failed(c, |c.args|) then InEffect(c, 0, |c.args|) else Then(RoundEffect(c, 0, 0), FinishEffect(c))
  }

  // ---- References that are lost ----

  function LentBy(v: Value, sv: Sv): nat {
    if v.Ref? then (if sv == v.sv then 1 else 0) + (if sv == v.referent then 1 else 0) else 0
  }

  /** References to sv held for the closure passed as argument k, and for those among the first k
      that the loop reaches. */
  function LentAt(c: Call, k: nat, sv: Sv): nat
    requires k < |c.args|
  {
    if c.args[k].ty.code == CLOSURE then LentBy(ValueOf(c, k), sv) else 0
  }

  function Lent(c: Call, k: nat, sv: Sv): nat
    requires k <= |c.args|
  {
    if k == 0 then 0
    else if Failed(c, k - 1) then Lent(c, k - 1, sv)
    else Lent(c, k - 1, sv) + LentAt(c, k - 1, sv)
  }

  /** References to sv that croaking calls leave behind: the closures lent so far, and the
      conversion's own reference to a value that then fails its check. */
  function CodeLeak(code: seq<Action>, n: nat, sv: Sv): nat
    requires n <= |code|
    decreases code, 0, n
  {
    if n == 0 then 0
    else
      var action := code[n - 1];
      if action.Api? then CodeLeak(code, n - 1, sv)
      else
        assert (code decreases to action) && (action decreases to action.call);
        CodeLeak(code, n - 1, sv) + CallLeak(action.call, sv)
  }

  function ConvertLeak(c: Call, k: nat, sv: Sv): nat
    requires k < |c.args|
    decreases c, 1, 2 * k
  {
    if ConvertRuns(c.args[k]) then CodeLeak(c.args[k].code, |c.args[k].code|, sv) else 0
  }

  /** The conversion's own reference to argument k, when the value fails its check. */
  function FailingLeak(a: Arg, sv: Sv): nat {
    if IsCustom(a.ty.code) && ArgFails(a) && Converted(a) == Some(sv) then 1 else 0
  }

  function InLeak(c: Call, k: nat, sv: Sv): nat
    requires k <= |c.args|
    decreases c, 1, 2 * k
  {
    if k == 0 then 0
    else if Failed(c, k - 1) then InLeak(c, k - 1, sv)
    else InLeak(c, k - 1, sv) + (ConvertLeak(c, k - 1, sv) + FailingLeak(c.args[k - 1], sv))
  }

  function PostLeak(c: Call, k: nat, sv: Sv): nat
    requires k < |c.args|
    decreases c, 1, 0
  {
    if PostRuns(c.args[k]) then CodeLeak(c.args[k].after, |c.args[k].after|, sv) else 0
  }

  function OutLeak(c: Call, k: nat, sv: Sv): nat
    requires k <= |c.args|
    decreases c, 1, 1 + |c.args| - k
  {
    if k == |c.args| then 0 else OutLeak(c, k + 1, sv) + PostLeak(c, k, sv)
  }

  function FinishLeak(c: Call, sv: Sv): nat
    decreases c, 1
  {
    if FinishRuns(c) then CodeLeak(c.finish, |c.finish|, sv) else 0
  }

  function CallLeak(c: Call, sv: Sv): nat
    decreases c, 2
  {
    InLeak(c, |c.args|, sv) +
    if Failed(c, |c.args|) then Lent(c, |c.args|, sv)
    else CodeLeak(c.callbacks, |c.callbacks|, sv) + OutLeak(c, 0, sv) + FinishLeak(c, sv)
  }
}
