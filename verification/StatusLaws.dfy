/** current_argv at every event of every run: for each point where control passes to Perl code or to a
    foreign function, and for each use of the arguments_* API, whether it is NULL, names the live
    block of the innermost call in progress, or names a freed block. */
module StatusLaws {
  import opened TypeCodes
  import opened CallModel
  import opened HeapLaws
  import opened ArgvLaws

  /** Elsewhere stands for what never happens: a live block of some other call. */
  datatype Status = Null | Own | Freed | Elsewhere

  datatype Point = AtApi | AtConvert | AtPost | AtNative | AtForeign | AtBack

  datatype Mark = Mark(point: Point, status: Status)

  function StatusOf(s: Shared, owner: Option<Id>): Status {
    if s.argv == None then Null
    else if s.argv == owner && s.argv.value in s.live then Own
    else if DeadArgv(s) then Freed
    else Elsewhere
  }

  function PointOf(what: What): Point {
    match what
    case ApiUse => AtApi
    case Convert(_, _, _) => AtConvert
    case Post(_, _, _) => AtPost
    case Native => AtNative
    case Foreign(_) => AtForeign
    case Back => AtBack
  }

  function Marks(log: seq<Event>): (r: seq<Mark>)
    ensures |r| == |log|
    ensures forall j :: 0 <= j < |r| ==> r[j] == Mark(PointOf(log[j].what), StatusOf(log[j].at, log[j].owner))
  {
    seq(|log|, j requires 0 <= j < |log| => Mark(PointOf(log[j].what), StatusOf(log[j].at, log[j].owner)))
  }

  // ---- The marks a run leaves, worked out from the run tree alone ----

  /** The status after code whose last nested call was `last`. */
  function After(last: Option<Call>, entry: Status): Status {
    if last.None? then entry else if Dangles(last.value) then Freed else Null
  }

  function CodeMarks(code: seq<Action>, n: nat, entry: Status): seq<Mark>
    requires n <= |code|
    decreases code, 0, n
  {
    if n == 0 then []
    else
      var action := code[n - 1];
      if action.Api? then CodeMarks(code, n - 1, entry) + [Mark(AtApi, After(LastCall(code, n - 1), entry))]
      else
        assert (code decreases to action) && (action decreases to action.call);
        CodeMarks(code, n - 1, entry) + CallMarks(action.call)
  }

  /** A handler announced with the given status, what happens in it, and where it gives control back. */
  function HandlerMarks(point: Point, code: seq<Action>, entry: Status): seq<Mark>
    decreases code, 1
  {
    [Mark(point, entry)] + CodeMarks(code, |code|, entry) + [Mark(AtBack, After(LastCall(code, |code|), entry))]
  }

  function ConvertMarks(c: Call, k: nat): seq<Mark>
    requires k < |c.args|
    decreases c, 1, 0
  {
    if ConvertRuns(c.args[k]) then HandlerMarks(AtConvert, c.args[k].code, After(LastConvertCall(c, k), Own)) else []
  }

  function InMarks(c: Call, k: nat): seq<Mark>
    requires k <= |c.args|
    decreases c, 1, 1 + k
  {
    if k == 0 then []
    else if Failed(c, k - 1) then InMarks(c, k - 1)
    else InMarks(c, k - 1) + ConvertMarks(c, k - 1)
  }

  function PostMarks(c: Call, k: nat): seq<Mark>
    requires k < |c.args|
    decreases c, 1, 0
  {
    if PostRuns(c.args[k]) then HandlerMarks(AtPost, c.args[k].after, After(LastPostCall(c, k + 1), Own)) else []
  }

  function OutMarks(c: Call, k: nat): seq<Mark>
    requires k <= |c.args|
    decreases c, 1, 1 + |c.args| - k
  {
    if k == |c.args| then [] else OutMarks(c, k + 1) + PostMarks(c, k)
  }

  function FinishMarks(c: Call): seq<Mark>
    decreases c, 1, 0
  {
    if FinishRuns(c) then HandlerMarks(AtNative, c.finish, Own) else []
  }

  function CallMarks(c: Call): seq<Mark>
    decreases c, 2
  {
    InMarks(c, |c.args|) + (if Failed(c, |c.args|) then [] else AfterInMarks(c))
  }

  /** Of a call that does not croak, from the foreign call on. */
  function AfterInMarks(c: Call): seq<Mark>
    decreases c, 1, |c.args| + 2
  {
    HandlerMarks(AtForeign, c.callbacks, Null) + OutMarks(c, 0) + FinishMarks(c)
  }

  // ---- They are the marks ----

  /** Between two logs just these marks were added. */
  predicate Leaves(before: seq<Event>, after: seq<Event>, marks: seq<Mark>) {
    Marks(after) == Marks(before) + marks
  }

  lemma {:induction false} LeavesNothing(log: seq<Event>)
    ensures Leaves(log, log, [])
  {
  }

  lemma {:induction false} LeavesOne(log: seq<Event>, e: Event)
    ensures Leaves(log, log + [e], [Mark(PointOf(e.what), StatusOf(e.at, e.owner))])
  {
  }

  lemma {:induction false} LeavesThen(a: seq<Event>, b: seq<Event>, c: seq<Event>, m: seq<Mark>, n: seq<Mark>,
                                      both: seq<Mark>)
    requires Leaves(a, b, m) && Leaves(b, c, n) && both == m + n
    ensures Leaves(a, c, both)
  {
    assert (Marks(a) + m) + n == Marks(a) + (m + n);
  }

  lemma {:induction false} StatusAfter(last: Option<Call>, before: Shared, after: Shared, owner: Option<Id>)
    requires ArgvAfter(last, before.argv, after) && after.live == before.live && before.next <= after.next
    requires StatusOf(before, owner) != Elsewhere
    requires owner.Some? ==> owner.value in before.live
    ensures StatusOf(after, owner) == After(last, StatusOf(before, owner))
  {
  }

  lemma {:induction false} CodeLeaves(p: Platform, code: seq<Action>, owner: Option<Id>, n: nat, w: World)
    requires n <= |code| && Bounded(w.now) && StatusOf(w.now, owner) != Elsewhere
    requires owner.Some? ==> owner.value in w.now.live
    ensures Leaves(w.log, RunCode(p, code, owner, n, w).log, CodeMarks(code, n, StatusOf(w.now, owner)))
    decreases code, 0, n
  {
    var entry := StatusOf(w.now, owner);
    if n == 0 {
      LeavesNothing(w.log);
    } else {
      CodeLeaves(p, code, owner, n - 1, w);
      CodeFreesExactlyItsBlocks(p, code, owner, n - 1, w);
      var u, t := RunCode(p, code, owner, n - 1, w), RunCode(p, code, owner, n, w);
      var action := code[n - 1];
      if action.Api? {
        ApiLeaves(p, code, owner, n, w, u);
        var mark := Mark(AtApi, After(LastCall(code, n - 1), entry));
        LeavesThen(w.log, u.log, t.log, CodeMarks(code, n - 1, entry), [mark], CodeMarks(code, n, entry));
      } else {
        assert (code decreases to action) && (action decreases to action.call);
        CallLeaves(p, action.call, u);
        LeavesThen(w.log, u.log, t.log, CodeMarks(code, n - 1, entry), CallMarks(action.call),
            CodeMarks(code, n, entry));
      }
    }
  }

  lemma {:induction false} ApiLeaves(p: Platform, code: seq<Action>, owner: Option<Id>, n: nat, w: World, u: World)
    requires 0 < n <= |code| && code[n - 1].Api? && u == RunCode(p, code, owner, n - 1, w)
    requires Bounded(w.now) && StatusOf(w.now, owner) != Elsewhere
    requires owner.Some? ==> owner.value in w.now.live
    ensures Leaves(u.log, RunCode(p, code, owner, n, w).log,
                   [Mark(AtApi, After(LastCall(code, n - 1), StatusOf(w.now, owner)))])
  {
    CodeFreesExactlyItsBlocks(p, code, owner, n - 1, w);
    RunCodeArgv(p, code, owner, n - 1, w);
    StatusAfter(LastCall(code, n - 1), w.now, u.now, owner);
    LeavesOne(u.log, Event(owner, ApiUse, u.now));
  }

  lemma {:induction false} HandlerLeaves(p: Platform, code: seq<Action>, owner: Option<Id>, what: What, w: World)
    requires Bounded(w.now) && StatusOf(w.now, owner) != Elsewhere
    requires owner.Some? ==> owner.value in w.now.live
    ensures Leaves(w.log, RunHandler(p, code, owner, what, w).log,
                   HandlerMarks(PointOf(what), code, StatusOf(w.now, owner)))
    decreases code, 1
  {
    var entry, v := StatusOf(w.now, owner), Log(w, owner, what);
    var u := RunCode(p, code, owner, |code|, v);
    var first, last := [Mark(PointOf(what), entry)], [Mark(AtBack, After(LastCall(code, |code|), entry))];
    LeavesOne(w.log, Event(owner, what, w.now));
    CodeLeaves(p, code, owner, |code|, v);
    LeavesThen(w.log, v.log, u.log, first, CodeMarks(code, |code|, entry), first + CodeMarks(code, |code|, entry));
    CodeFreesExactlyItsBlocks(p, code, owner, |code|, v);
    RunCodeArgv(p, code, owner, |code|, v);
    StatusAfter(LastCall(code, |code|), w.now, u.now, owner);
    LeavesOne(u.log, Event(owner, Back, u.now));
    LeavesThen(w.log, u.log, Log(u, owner, Back).log, first + CodeMarks(code, |code|, entry), last,
               HandlerMarks(PointOf(what), code, entry));
  }

  lemma {:induction false} EntryStatus(last: Option<Call>, b: Id, s: Shared)
    requires ArgvAfter(last, Some(b), s) && b in s.live
    ensures StatusOf(s, Some(b)) == After(last, Own)
  {
  }

  lemma {:induction false} ConvertLeaves(p: Platform, c: Call, b: Id, k: nat, w: World)
    requires k < |c.args| && ConvertRuns(c.args[k]) && Bounded(w.now) && b in w.now.live
    requires ArgvAfter(LastConvertCall(c, k), Some(b), w.now)
    ensures Leaves(w.log, RunConvert(p, c, b, k, w).log, ConvertMarks(c, k))
    decreases c, 1, 0
  {
    EntryStatus(LastConvertCall(c, k), b, w.now);
    HandlerLeaves(p, c.args[k].code, Some(b), Convert(SlotOf(c, k), Extra(c.style) + k, ValueOf(c, k)), w);
  }

  lemma {:induction false} InStepLeaves(p: Platform, c: Call, b: Id, k: nat, f: Frame)
    requires k < |c.args| && !f.croaked && Bounded(f.world.now) && InArgv(c, b, k, f)
    ensures Leaves(f.world.log, InStep(p, c, b, k, f).world.log, ConvertMarks(c, k))
    decreases c, 1, 1
  {
    InStepLog(p, c, b, k, f);
    if ConvertRuns(c.args[k]) {
      ConvertLeaves(p, c, b, k, f.world);
    } else {
      LeavesNothing(f.world.log);
    }
  }

  lemma {:induction false} InPrefixLeaves(p: Platform, c: Call, b: Id, k: nat, f: Frame)
    requires k <= |c.args| && !f.croaked && Bounded(f.world.now) && InArgv(c, b, 0, f)
    ensures Leaves(f.world.log, InPrefix(p, c, b, k, f).world.log, InMarks(c, k))
    decreases c, 1, 2 + k
  {
    if k == 0 {
      LeavesNothing(f.world.log);
    } else {
      InPrefixLeaves(p, c, b, k - 1, f);
      InPrefixArgv(p, c, b, k - 1, f);
      var g, h := InPrefix(p, c, b, k - 1, f), InPrefix(p, c, b, k, f);
      if g.croaked {
        assert h == g && InMarks(c, k) == InMarks(c, k - 1);
      } else {
        InStepLeaves(p, c, b, k - 1, g);
        assert h == InStep(p, c, b, k - 1, g);
        LeavesThen(f.world.log, g.world.log, h.world.log, InMarks(c, k - 1), ConvertMarks(c, k - 1), InMarks(c, k));
      }
    }
  }

  lemma {:induction false} OutStepLeaves(p: Platform, c: Call, b: Id, k: nat, w: World)
    requires k < |c.args| && Bounded(w.now) && b in w.now.live && ArgvAfter(LastPostCall(c, k + 1), Some(b), w.now)
    ensures Leaves(w.log, OutStep(p, c, b, k, w).log, PostMarks(c, k))
    decreases c, 1, 0
  {
    var a := c.args[k];
    assert OutStep(p, c, b, k, w).log == RunPost(p, c, b, k, w).log;
    if PostRuns(a) {
      EntryStatus(LastPostCall(c, k + 1), b, w.now);
      HandlerLeaves(p, a.after, Some(b), PostOf(c, k), w);
    } else {
      LeavesNothing(w.log);
    }
  }

  lemma {:induction false} OutSuffixLeaves(p: Platform, c: Call, b: Id, k: nat, w: World)
    requires k <= |c.args| && Bounded(w.now) && w.now.argv == Some(b) && b in w.now.live
    ensures Leaves(w.log, OutSuffix(p, c, b, k, w).log, OutMarks(c, k))
    decreases c, 1, 1 + |c.args| - k
  {
    if k == |c.args| {
      LeavesNothing(w.log);
    } else {
      OutSuffixLeaves(p, c, b, k + 1, w);
      OutSuffixArgv(p, c, b, k + 1, w);
      var u, t := OutSuffix(p, c, b, k + 1, w), OutSuffix(p, c, b, k, w);
      OutStepLeaves(p, c, b, k, u);
      LeavesThen(w.log, u.log, t.log, OutMarks(c, k + 1), PostMarks(c, k), OutMarks(c, k));
    }
  }

  lemma {:induction false} LeaveLeaves(p: Platform, c: Call, b: Id, f: Frame)
    requires Bounded(f.world.now) && b in f.world.now.live
    ensures Leaves(f.world.log, Leave(p, c, b, f).world.log, FinishMarks(c))
    decreases c, 1
  {
    if FinishRuns(c) {
      assert !FreesEarly(c.ret.code);
      var own := SetArgv(SetArgv(f.world, None), Some(b));
      HandlerLeaves(p, c.finish, Some(b), Native, own);
    } else {
      LeavesNothing(f.world.log);
    }
  }

  lemma {:induction false} CallLeaves(p: Platform, c: Call, w: World)
    requires Bounded(w.now)
    ensures Leaves(w.log, RunCall(p, c, w).world.log, CallMarks(c))
    decreases c, 2
  {
    var b, f0 := BlockOf(p, c, w), Enter(p, c, w);
    EnterArgv(p, c, w);
    InPrefixLeaves(p, c, b, |c.args|, f0);
    InPrefixArgv(p, c, b, |c.args|, f0);
    var f := InPrefix(p, c, b, |c.args|, f0);
    if f.croaked {
      assert CallMarks(c) == InMarks(c, |c.args|);
    } else {
      ReturningCallLeaves(p, c, b, f);
      LeavesThen(w.log, f.world.log, RunCall(p, c, w).world.log, InMarks(c, |c.args|), AfterInMarks(c), CallMarks(c));
    }
  }

  lemma {:induction false} ReturningCallLeaves(p: Platform, c: Call, b: Id, f: Frame)
    requires Bounded(f.world.now) && b in f.world.now.live
    ensures var v := OutSuffix(p, c, b, 0, RunForeign(p, c, b, f));
            Leaves(f.world.log, Leave(p, c, b, f.(world := v)).world.log, AfterInMarks(c))
    decreases c, 2, 0
  {
    HandlerLeaves(p, c.callbacks, Some(b), Foreign(f.targets), SetArgv(f.world, None));
    ForeignArgv(p, c, b, f);
    var u := RunForeign(p, c, b, f);
    OutSuffixLeaves(p, c, b, 0, u);
    OutSuffixArgv(p, c, b, 0, u);
    var v := OutSuffix(p, c, b, 0, u);
    LeaveLeaves(p, c, b, f.(world := v));
    var foreign := HandlerMarks(AtForeign, c.callbacks, Null);
    LeavesThen(f.world.log, u.log, v.log, foreign, OutMarks(c, 0), foreign + OutMarks(c, 0));
    LeavesThen(f.world.log, v.log, Leave(p, c, b, f.(world := v)).world.log, foreign + OutMarks(c, 0), FinishMarks(c),
               AfterInMarks(c));
  }

  // ---- What the marks say ----

  /** No call that the run reaches leaves current_argv dangling when it ends. */
  ghost predicate NeverDangles(c: Call)
    decreases c, 1
  {
    && !Dangles(c)
    && (forall k :: 0 <= k < |c.args| && ConvertRuns(c.args[k]) && !Failed(c, k) ==> CodeNeverDangles(c.args[k].code))
    && (!Failed(c, |c.args|) ==>
          && CodeNeverDangles(c.callbacks)
          && (FinishRuns(c) ==> CodeNeverDangles(c.finish))
          && forall k :: 0 <= k < |c.args| && PostRuns(c.args[k]) ==> CodeNeverDangles(c.args[k].after))
  }

  ghost predicate CodeNeverDangles(code: seq<Action>)
    decreases code, 0
  {
    forall n :: 0 <= n < |code| && code[n].Invoke? ==>
      assert (code decreases to code[n]) && (code[n] decreases to code[n].call);
      NeverDangles(code[n].call)
  }

  lemma {:induction false} LastCallSafe(code: seq<Action>, n: nat)
    requires CodeNeverDangles(code) && n <= |code|
    ensures LastCall(code, n).Some? ==> !Dangles(LastCall(code, n).value)
  {
    if n > 0 && code[n - 1].Api? {
      LastCallSafe(code, n - 1);
    }
  }

  lemma {:induction false} LastConvertSafe(c: Call, k: nat)
    requires NeverDangles(c) && k <= |c.args|
    ensures LastConvertCall(c, k).Some? ==> !Dangles(LastConvertCall(c, k).value)
  {
    if k > 0 {
      LastConvertSafe(c, k - 1);
      if ConvertRuns(c.args[k - 1]) && !Failed(c, k - 1) {
        LastCallSafe(c.args[k - 1].code, |c.args[k - 1].code|);
      }
    }
  }

  lemma {:induction false} LastPostSafe(c: Call, k: nat)
    requires NeverDangles(c) && k <= |c.args| && !Failed(c, |c.args|)
    ensures LastPostCall(c, k).Some? ==> !Dangles(LastPostCall(c, k).value)
    decreases |c.args| - k
  {
    if k < |c.args| {
      LastPostSafe(c, k + 1);
      if PostRuns(c.args[k]) {
        LastCallSafe(c.args[k].after, |c.args[k].after|);
      }
    }
  }

  ghost predicate NoneFreed(marks: seq<Mark>) {
    forall j :: 0 <= j < |marks| ==> marks[j].status != Freed
  }

  /** A status any event can have; at a foreign call current_argv is NULL, and native_to_perl starts
      with its own call's live block. */
  predicate Proper(m: Mark) {
    m.status != Elsewhere && (m.point == AtForeign ==> m.status == Null) && (m.point == AtNative ==> m.status == Own)
  }

  ghost predicate AllProper(marks: seq<Mark>) {
    forall j :: 0 <= j < |marks| ==> Proper(marks[j])
  }

  /** All marks are proper; and none is freed, if `safe`. */
  ghost predicate Fine(marks: seq<Mark>, safe: bool) {
    AllProper(marks) && (safe ==> NoneFreed(marks))
  }

  lemma {:induction false} CodeMarksFine(code: seq<Action>, n: nat, entry: Status, safe: bool)
    requires n <= |code| && entry != Elsewhere && (safe ==> CodeNeverDangles(code) && entry != Freed)
    ensures Fine(CodeMarks(code, n, entry), safe)
    decreases code, 0, n
  {
    if n > 0 {
      CodeMarksFine(code, n - 1, entry, safe);
      if safe {
        LastCallSafe(code, n - 1);
      }
      var action := code[n - 1];
      if action.Invoke? {
        assert (code decreases to action) && (action decreases to action.call);
        CallMarksFine(action.call, safe);
      }
    }
  }

  lemma {:induction false} HandlerMarksFine(point: Point, code: seq<Action>, entry: Status, safe: bool)
    requires Proper(Mark(point, entry)) && (safe ==> CodeNeverDangles(code) && entry != Freed)
    ensures Fine(HandlerMarks(point, code, entry), safe)
    decreases code, 1
  {
    CodeMarksFine(code, |code|, entry, safe);
    if safe {
      LastCallSafe(code, |code|);
    }
  }

  lemma {:induction false} InMarksFine(c: Call, k: nat, safe: bool)
    requires k <= |c.args| && (safe ==> NeverDangles(c))
    ensures Fine(InMarks(c, k), safe)
    decreases c, 1, k
  {
    if k > 0 {
      InMarksFine(c, k - 1, safe);
      if safe {
        LastConvertSafe(c, k - 1);
      }
      if ConvertRuns(c.args[k - 1]) && !Failed(c, k - 1) {
        HandlerMarksFine(AtConvert, c.args[k - 1].code, After(LastConvertCall(c, k - 1), Own), safe);
      }
    }
  }

  lemma {:induction false} OutMarksFine(c: Call, k: nat, safe: bool)
    requires k <= |c.args| && !Failed(c, |c.args|) && (safe ==> NeverDangles(c))
    ensures Fine(OutMarks(c, k), safe)
    decreases c, 1, |c.args| - k
  {
    if k < |c.args| {
      OutMarksFine(c, k + 1, safe);
      if safe {
        LastPostSafe(c, k + 1);
      }
      if PostRuns(c.args[k]) {
        HandlerMarksFine(AtPost, c.args[k].after, After(LastPostCall(c, k + 1), Own), safe);
      }
    }
  }

  lemma {:induction false} CallMarksFine(c: Call, safe: bool)
    requires safe ==> NeverDangles(c)
    ensures Fine(CallMarks(c), safe)
    decreases c, 2
  {
    InMarksFine(c, |c.args|, safe);
    if !Failed(c, |c.args|) {
      AfterInMarksFine(c, safe);
    }
  }

  lemma {:induction false} AfterInMarksFine(c: Call, safe: bool)
    requires !Failed(c, |c.args|) && (safe ==> NeverDangles(c))
    ensures Fine(AfterInMarks(c), safe)
    decreases c, 1, |c.args| + 1
  {
    OutMarksFine(c, 0, safe);
    HandlerMarksFine(AtForeign, c.callbacks, Null, safe);
    if FinishRuns(c) {
      HandlerMarksFine(AtNative, c.finish, Own, safe);
    }
  }
}
