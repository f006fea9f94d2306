/** Every disc that a rip or scan was submitted for keeps a type that has a handler, so the `no handler` exit of runJob
    (daemon/jobs/orchestrator.go) is never taken. */
module Handlers {
  import opened Jobs
  import opened Protocol
  import opened Ownership

  ghost predicate HandlersOk(s: State) {
    && (forall j <- s.rows :: s.rows[j].kind != Transcode ==> s.HasHandler(s.rows[j].disc))
    && (forall w: Worker :: w.DriveWorker? && s.At(w).Loaded? ==> s.HasHandler(s.At(w).row.disc))
  }

  /** Types change only to handled ones. */
  lemma HandlerKept(s: State, step: Step, disc: nat)
    requires Enabled(s, step) && s.HasHandler(disc)
    ensures Apply(s, step).HasHandler(disc)
  {
  }

  /** A row that a step leaves or makes has the disc it had, or one that has a handler. */
  lemma DiscBefore(s: State, step: Step, j: JobId)
    requires Enabled(s, step) && j in Apply(s, step).rows && Apply(s, step).rows[j].kind != Transcode
    ensures var row := Apply(s, step).rows[j];
      s.HasHandler(row.disc) || (j in s.rows && s.rows[j].disc == row.disc && s.rows[j].kind == row.kind)
  {
    match step {
      case Work(w, a) => assert j in RowsAfter(s, w, a);
      case Serve(r) => assert j in RowsAfterRequest(s, r);
      case Crash(_, _) =>
    }
  }

  lemma HandlersOkKept(s: State, step: Step)
    requires Inv(s) && HandlersOk(s) && Enabled(s, step)
    ensures HandlersOk(Apply(s, step))
  {
    var s' := Apply(s, step);
    forall j <- s'.rows | s'.rows[j].kind != Transcode ensures s'.HasHandler(s'.rows[j].disc) {
      DiscBefore(s, step, j);
      HandlerKept(s, step, s'.rows[j].disc);
    }
    forall w: Worker | w.DriveWorker? && s'.At(w).Loaded? ensures s'.HasHandler(s'.At(w).row.disc) {
      LoadedBefore(s, step, w);
      HandlerKept(s, step, s'.At(w).row.disc);
    }
  }

  /** The copy that a drive worker reads is of a rip or scan. */
  lemma LoadedBefore(s: State, step: Step, w: Worker)
    requires Inv(s) && HandlersOk(s) && Enabled(s, step)
    requires w.DriveWorker? && Apply(s, step).At(w).Loaded?
    ensures s.HasHandler(Apply(s, step).At(w).row.disc)
  {
    if step.Work? && step.worker == w {
      assert Holds(s, AtWorker(w), s.At(w).job);
      assert Apply(s, step).At(w) == NextPc(s, w, step.action);
    }
  }

  lemma {:induction false} HandlersOkAlways(run: seq<State>, steps: seq<Step>, i: nat)
    requires IsExecution(run, steps) && i < |run|
    ensures HandlersOk(run[i])
    decreases i
  {
    if i > 0 {
      HandlersOkAlways(run, steps, i - 1);
      InvAlways(run, steps, i - 1);
      assert Links(run, steps, i - 1);
      HandlersOkKept(run[i - 1], steps[i - 1]);
    }
  }

  /** In every execution, discs retyped and re-identified at will: the exit is dead code. */
  lemma NoHandlerNeverTaken(run: seq<State>, steps: seq<Step>, i: nat)
    requires IsExecution(run, steps) && i < |steps|
    ensures !(steps[i].Work? && steps[i].action.NoHandler?)
  {
    HandlersOkAlways(run, steps, i);
    assert Links(run, steps, i);
  }
}
