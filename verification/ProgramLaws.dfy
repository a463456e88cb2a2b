/** Whole Perl programs, from the state BOOT leaves: what they find at every event and what they
    leave at the end. */
module ProgramLaws {
  import opened TypeCodes
  import opened CallModel
  import opened HeapLaws
  import opened ArgvLaws
  import opened StatusLaws
  import opened KeeperEffects
  import opened KeeperLaws
  import opened PlainRuns

  const START := World(Shared(None, [], map[], 0, {}, multiset{}), [])

  /** The events of a run are exactly those its tree foretells, each with exactly the status
      foretold.  So at every event, at any depth and with any croaks, current_argv is NULL, the live
      block of the innermost call in progress, or a freed block; NULL whenever a foreign function
      starts and the own block whenever native_to_perl does.  It names a freed block, or the API
      reaches the call's block, exactly at the events the tree marks so: the last nested call made
      since current_argv was set decides (`After`). */
  lemma {:induction false} EveryEvent(p: Platform, code: seq<Action>, w: World, j: nat)
    requires Bounded(w.now) && w.now.argv == None && w.log == []
    ensures var log, marks := RunCode(p, code, None, |code|, w).log, CodeMarks(code, |code|, Null);
            && |log| == |marks|
            && (j < |log| ==>
                  && marks[j] == Mark(PointOf(log[j].what), StatusOf(log[j].at, log[j].owner))
                  && Proper(marks[j])
                  && (marks[j].status == Freed <==> DeadArgv(log[j].at)))
  {
    CodeLeaves(p, code, None, |code|, w);
    CodeMarksFine(code, |code|, Null, false);
    var marks := CodeMarks(code, |code|, Null);
    assert Marks(RunCode(p, code, None, |code|, w).log) == [] + marks == marks;
  }

  /** Calls that never croak never leave current_argv dangling. */
  lemma {:induction false} CroakFreeIsSafe(c: Call)
    requires NeverCroaks(c)
    ensures NeverDangles(c)
    decreases c, 1
  {
    CodeCroakFreeIsSafe(c.callbacks);
    if FinishRuns(c) {
      CodeCroakFreeIsSafe(c.finish);
    }
    forall k | 0 <= k < |c.args|
      ensures ConvertRuns(c.args[k]) ==> CodeNeverDangles(c.args[k].code)
      ensures PostRuns(c.args[k]) ==> CodeNeverDangles(c.args[k].after)
    {
      if ConvertRuns(c.args[k]) {
        CodeCroakFreeIsSafe(c.args[k].code);
      }
      if PostRuns(c.args[k]) {
        CodeCroakFreeIsSafe(c.args[k].after);
      }
    }
  }

  lemma {:induction false} CodeCroakFreeIsSafe(code: seq<Action>)
    requires CodeNeverCroaks(code)
    ensures CodeNeverDangles(code)
    decreases code, 0
  {
    forall n | 0 <= n < |code| && code[n].Invoke?
      ensures NeverDangles(code[n].call)
    {
      assert (code decreases to code[n]) && (code[n] decreases to code[n].call);
      CroakFreeIsSafe(code[n].call);
    }
  }

  lemma {:induction false} AllFreedOnce(p: Platform, program: seq<Action>)
    ensures var t := RunCode(p, program, None, |program|, START).now;
            t.live == {} && forall id: Id :: t.freed[id] == if id < t.next then 1 else 0
  {
    CodeFreesExactlyItsBlocks(p, program, None, |program|, START);
    var t := RunCode(p, program, None, |program|, START).now;
    forall id: Id
      ensures t.freed[id] == if id < t.next then 1 else 0
    {
      assert START.now.freed[id] == 0;
    }
  }

  /** Every program, croaking calls and all: its events are those the tree foretells, with the
      status foretold; at the end current_argv is NULL unless the last call dangles, the keepers are
      those the effect of the program pushes, and every block has been freed exactly once. */
  lemma {:induction false} EveryProgram(p: Platform, program: seq<Action>)
    ensures var n := |program|;
            var w, marks := RunCode(p, program, None, n, START), CodeMarks(program, n, Null);
            && Marks(w.log) == marks && AllProper(marks)
            && ArgvAfter(LastCall(program, n), None, w.now)
            && w.now.keepers == CodeEffect(program, n).push
            && w.now.live == {} && forall id: Id :: w.now.freed[id] == if id < w.now.next then 1 else 0
  {
    ProgramMarks(p, program);
    CodeMarksFine(program, |program|, Null, false);
    ProgramEnds(p, program);
    AllFreedOnce(p, program);
  }

  lemma {:induction false} ProgramEnds(p: Platform, program: seq<Action>)
    ensures var t := RunCode(p, program, None, |program|, START).now;
            ArgvAfter(LastCall(program, |program|), None, t) && t.keepers == CodeEffect(program, |program|).push
  {
    RunCodeArgv(p, program, None, |program|, START);
    ProgramKeepers(p, program);
  }

  lemma {:induction false} ProgramKeepers(p: Platform, program: seq<Action>)
    ensures RunCode(p, program, None, |program|, START).now.keepers == CodeEffect(program, |program|).push
  {
    RunCodeKeepers(p, program, None, |program|, START, 0);
    FromEmptyStack(CodeEffect(program, |program|));
  }

  lemma {:induction false} FromEmptyStack(e: Effect)
    ensures Act(e, []) == e.push
  {
  }

  lemma {:induction false} ProgramMarks(p: Platform, program: seq<Action>)
    ensures Marks(RunCode(p, program, None, |program|, START).log) == CodeMarks(program, |program|, Null)
  {
    CodeLeaves(p, program, None, |program|, START);
    assert Marks(START.log) == [];
  }

  /** current_argv is NULL or the still allocated block of the innermost call in progress; it is NULL
      when a foreign function starts and that block when native_to_perl does. */
  predicate SafeArgv(e: Event) {
    && (e.at.argv == None || (e.at.argv == e.owner && e.at.argv.value in e.at.live))
    && (e.what.Foreign? ==> e.at.argv == None)
    && (e.what.Native? ==> e.at.argv.Some?)
  }

  /** A program is safe at every event exactly when its tree marks no event as finding a freed block;
      it does not when no call dangles, in particular when none croaks. */
  lemma {:induction false} ProgramIsSafe(p: Platform, program: seq<Action>)
    ensures var log := RunCode(p, program, None, |program|, START).log;
            (forall j :: 0 <= j < |log| ==> SafeArgv(log[j])) <==> NoneFreed(CodeMarks(program, |program|, Null))
    ensures CodeNeverDangles(program) ==> NoneFreed(CodeMarks(program, |program|, Null))
    ensures CodeNeverCroaks(program) ==> CodeNeverDangles(program)
  {
    var log, marks := RunCode(p, program, None, |program|, START).log, CodeMarks(program, |program|, Null);
    ProgramMarks(p, program);
    CodeMarksFine(program, |program|, Null, false);
    forall j | 0 <= j < |log|
      ensures SafeArgv(log[j]) <==> marks[j].status != Freed
    {
      assert marks[j] == Mark(PointOf(log[j].what), StatusOf(log[j].at, log[j].owner)) && Proper(marks[j]);
    }
    if CodeNeverDangles(program) {
      CodeMarksFine(program, |program|, Null, true);
    }
    if CodeNeverCroaks(program) {
      CodeCroakFreeIsSafe(program);
    }
  }
}
