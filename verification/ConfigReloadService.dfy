/** The reload handler as an object whose calls and continuations update its flags in place. */
module ConfigReloadService {
  import opened Common
  import opened ConfigReload
  import opened ConfigReloadTheorems

  class ConfigHandler {
    const fallback: string
    var runInFlight: bool
    var rerunRequested: bool
    var stopped: bool
    var configContentHash: Option<string>
    var loops: seq<Loop>
    ghost var log: seq<Mark>

    ghost function View(): State
      reads this
    {
      State(runInFlight, rerunRequested, stopped, configContentHash, loops, log)
    }

    /** One loop for the flag, every heard request answered or noted, and the hash that of the last applied content. */
    ghost predicate Valid()
      reads this
      ensures Valid() ==> |loops| <= 1
      ensures Valid() && !stopped ==> configContentHash == LastApplied(log)
    {
      Inv(View())
    }

    constructor (fallback: string)
      ensures Valid() && View() == Init && this.fallback == fallback
    {
      this.fallback := fallback;
      runInFlight, rerunRequested, stopped, configContentHash, loops, log := false, false, false, None, [], [];
    }

    method BeginPass(i: nat)
      requires i < |loops|
      modifies this
      ensures View() == StartPass(old(View()), i)
    {
      rerunRequested := false;
      loops := loops[i := Reading];
      log := log + [Started];
    }

    method FinishPass(i: nat)
      requires i < |loops|
      modifies this
      ensures View() == EndPass(old(View()), i)
    {
      if !rerunRequested || stopped {
        loops := loops[i := Ended];
        return;
      }
      BeginPass(i);
    }

    method LeaveNote()
      requires runInFlight
      modifies this
      ensures View() == Requested(old(View()))
    {
      log := log + [if exists i :: 0 <= i < |loops| && loops[i] != Ended then Asked else Unheard];
      rerunRequested := true;
    }

    method StartLoop()
      requires !runInFlight
      modifies this
      ensures View() == Requested(old(View()))
    {
      hide StartPass;
      log := log + [Asked];
      runInFlight := true;
      loops := loops + [Ended];
      assert View() == Noted(old(View()), Asked).(inFlight := true, loops := old(loops) + [Ended]);
      if !stopped {
        BeginPass(|loops| - 1);
      }
    }

    method RunLoad()
      requires Valid()
      modifies this
      ensures Valid() && View() == Step(old(View()), fallback, Request)
    {
      StepKeeps(View(), fallback, Request);
      hide Inv, LastApplied, Requested;
      if runInFlight {
        LeaveNote();
      } else {
        StartLoop();
      }
    }

    method FileRead(i: nat, content: Content)
      requires Valid() && i < |loops| && loops[i] == Reading
      modifies this
      ensures Valid() && View() == Step(old(View()), fallback, ReadDone(i, content))
    {
      StepKeeps(View(), fallback, ReadDone(i, content));
      hide Inv, LastApplied;
      if content.Failed? || stopped {
        FinishPass(i);
        return;
      }
      var hashSource := if content.Text? && content.text != "" then content.text else fallback;
      if configContentHash == Some(hashSource) {
        FinishPass(i);
        return;
      }
      if content.Text? && content.text != "" && !content.parses {
        FinishPass(i);
        return;
      }
      loops := loops[i := Applying(hashSource)];
    }

    method ConfigProcessed(i: nat, ok: bool)
      requires Valid() && i < |loops| && loops[i].Applying?
      modifies this
      ensures Valid() && View() == Step(old(View()), fallback, ApplyDone(i, ok))
    {
      StepKeeps(View(), fallback, ApplyDone(i, ok));
      hide Inv, LastApplied;
      if ok {
        if !stopped {
          configContentHash := Some(loops[i].source);
        }
        log := log + [Applied(loops[i].source)];
      }
      FinishPass(i);
    }

    method LoopSettled(i: nat)
      requires Valid() && i < |loops| && loops[i] == Ended
      modifies this
      ensures Valid() && View() == Step(old(View()), fallback, Clear(i))
    {
      StepKeeps(View(), fallback, Clear(i));
      hide Inv, LastApplied;
      runInFlight := false;
      loops := loops[..i] + loops[i + 1..];
    }

    method OnStop()
      requires Valid()
      modifies this`stopped
      ensures Valid() && View() == Step(old(View()), fallback, Stop)
    {
      StepKeeps(View(), fallback, Stop);
      hide Inv, LastApplied;
      stopped := true;
    }
  }
}
