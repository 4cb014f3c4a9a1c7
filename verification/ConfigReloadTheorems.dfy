/** No two passes overlap, no heard request goes unanswered, and the hash is that of the last applied content. */
module ConfigReloadTheorems {
  import opened Common
  import opened ConfigReload

  // ------------------------------------------------------------------- the log

  /** Some pass started after every request that was heard. */
  predicate Answered(log: seq<Mark>) {
    log == [] || log[|log| - 1] == Started || (log[|log| - 1] != Asked && Answered(log[..|log| - 1]))
  }

  predicate StartedAfter(log: seq<Mark>, i: int) {
    exists j :: i < j < |log| && 0 <= j && log[j] == Started
  }

  lemma StartedAfterPush(log: seq<Mark>, m: Mark, i: int)
    requires i < |log| && m != Started
    ensures StartedAfter(log + [m], i) <==> StartedAfter(log, i)
  {
    var t := log + [m];
    if StartedAfter(t, i) {
      var j :| i < j < |t| && 0 <= j && t[j] == Started;
      assert log[j] == Started;
    }
    if StartedAfter(log, i) {
      var j :| i < j < |log| && 0 <= j && log[j] == Started;
      assert t[j] == Started;
    }
  }

  lemma {:induction false} AnsweredMeans(log: seq<Mark>)
    ensures Answered(log) <==> forall i :: 0 <= i < |log| && log[i] == Asked ==> StartedAfter(log, i)
  {
    if log != [] {
      var n := |log| - 1;
      var init := log[..n];
      assert log == init + [log[n]];
      AnsweredMeans(init);
      if log[n] == Started {
        assert forall i :: 0 <= i < n ==> StartedAfter(log, i);
      } else if log[n] == Asked {
        assert !StartedAfter(log, n);
      } else {
        forall i | 0 <= i < n && log[i] == Asked
          ensures init[i] == Asked && (StartedAfter(log, i) <==> StartedAfter(init, i))
        {
          StartedAfterPush(init, log[n], i);
        }
      }
    }
  }

  function LastApplied(log: seq<Mark>): Option<string> {
    if log == [] then None
    else if log[|log| - 1].Applied? then Some(log[|log| - 1].source)
    else LastApplied(log[..|log| - 1])
  }

  /** No content is applied that the last successful application already applied. */
  predicate AppliesChanges(log: seq<Mark>) {
    log == [] ||
    (AppliesChanges(log[..|log| - 1])
     && (log[|log| - 1].Applied? ==> LastApplied(log[..|log| - 1]) != Some(log[|log| - 1].source)))
  }

  function CountOf(log: seq<Mark>, m: Mark): nat {
    if log == [] then 0 else CountOf(log[..|log| - 1], m) + (if log[|log| - 1] == m then 1 else 0)
  }

  lemma Push(log: seq<Mark>, m: Mark)
    ensures (log + [m])[..|log + [m]| - 1] == log
  {
  }

  // ----------------------------------------------------------------- invariants

  predicate Busy(s: State) {
    |s.loops| == 1 && s.loops[0] != Ended
  }

  /** The flag stands for the one loop there is. */
  predicate OneLoop(s: State) {
    |s.loops| == if s.inFlight then 1 else 0
  }

  predicate Heard(s: State) {
    s.stopped || Answered(s.log) || (Busy(s) && s.rerun)
  }

  predicate Applies(s: State) {
    Busy(s) && s.loops[0].Applying?
  }

  predicate HashIsLast(s: State) {
    s.hash == LastApplied(s.log) || (s.stopped && !Applies(s))
  }

  predicate PassesAreAsked(s: State) {
    CountOf(s.log, Started) + (if Busy(s) && s.rerun then 1 else 0) <= CountOf(s.log, Asked)
  }

  /** What is being applied is not what the hash stands for. */
  predicate ApplyingIsNew(s: State) {
    AppliesChanges(s.log) && (Applies(s) ==> s.hash != Some(s.loops[0].source))
  }

  predicate Inv(s: State) {
    OneLoop(s) && Heard(s) && HashIsLast(s) && PassesAreAsked(s) && ApplyingIsNew(s)
  }

  /** What holds just before a pass ends. */
  predicate Passing(s: State) {
    && OneLoop(s) && Heard(s) && PassesAreAsked(s) && Busy(s)
    && (s.stopped || s.hash == LastApplied(s.log)) && AppliesChanges(s.log)
  }

  lemma EndPassKeeps(s: State, i: nat)
    requires Passing(s) && i == 0
    ensures Inv(EndPass(s, i))
  {
    Push(s.log, Started);
  }

  lemma RequestKeeps(s: State)
    requires Inv(s)
    ensures Inv(Requested(s))
  {
    Push(s.log, Asked);
    Push(s.log, Unheard);
    Push(s.log + [Asked], Started);
    if s.inFlight {
      assert (exists i :: 0 <= i < |s.loops| && s.loops[i] != Ended) <==> Busy(s);
    }
  }

  lemma AppliedKeeps(s: State, i: nat)
    requires Inv(s) && i < |s.loops| && s.loops[i].Applying?
    ensures var t := Noted(if s.stopped then s else s.(hash := Some(s.loops[i].source)), Applied(s.loops[i].source));
            Passing(t)
  {
    Push(s.log, Applied(s.loops[i].source));
  }

  lemma StepKeeps(s: State, fallback: string, e: Event)
    requires Inv(s)
    ensures Inv(Step(s, fallback, e))
  {
    hide Answered, LastApplied, AppliesChanges, CountOf, EndPass, Requested;
    match e
    case Request => RequestKeeps(s);
    case ReadDone(i, content) =>
      if i < |s.loops| && s.loops[i] == Reading {
        EndPassKeeps(s, i);
      }
    case ApplyDone(i, ok) =>
      if i < |s.loops| && s.loops[i].Applying? {
        AppliedKeeps(s, i);
        EndPassKeeps(if !ok then s else Noted(if s.stopped then s else s.(hash := Some(s.loops[i].source)), Applied(s.loops[i].source)), i);
      }
    case _ =>
  }

  lemma {:induction false} RunKeeps(s: State, fallback: string, es: seq<Event>)
    requires Inv(s)
    ensures Inv(Run(s, fallback, es))
    decreases |es|
  {
    hide Inv, Step;
    if es != [] {
      StepKeeps(s, fallback, es[0]);
      RunKeeps(Step(s, fallback, es[0]), fallback, es[1..]);
    }
  }

  // ------------------------------------------------------------ what follows

  /** However calls overlap, at most one load pass is under way, and passes never outnumber requests. */
  lemma PassesNeverOverlap(fallback: string, es: seq<Event>)
    ensures var s := Run(Init, fallback, es);
            && (forall i, j :: 0 <= i < |s.loops| && 0 <= j < |s.loops| && s.loops[i] != Ended && s.loops[j] != Ended ==> i == j)
            && CountOf(s.log, Started) <= CountOf(s.log, Asked)
  {
    RunKeeps(Init, fallback, es);
  }

  /**
   * Unless stopped, a request that was heard is followed by the start of a pass, at the latest when the pass under
   * way ends; failed passes are no exception.
   */
  lemma EveryHeardRequestIsAnswered(fallback: string, es: seq<Event>, i: nat)
    requires var s := Run(Init, fallback, es);
             !s.stopped && i < |s.log| && s.log[i] == Asked && !(Busy(s) && s.rerun)
    ensures var log := Run(Init, fallback, es).log;
            StartedAfter(log, i)
  {
    RunKeeps(Init, fallback, es);
    AnsweredMeans(Run(Init, fallback, es).log);
  }

  /** In every run, stopped or not, each successful application is of other content than the one before. */
  lemma EveryApplicationIsAChange(fallback: string, es: seq<Event>)
    ensures AppliesChanges(Run(Init, fallback, es).log)
  {
    RunKeeps(Init, fallback, es);
  }

  /** A failed application leaves its content pending: the pass that was asked for meanwhile applies it again. */
  lemma FailedApplicationIsRetried(s: State, fallback: string, text: string)
    requires Inv(s) && !s.stopped && s.rerun && text != "" && s.loops == [Applying(text)]
    ensures Run(s, fallback, [ApplyDone(0, false), ReadDone(0, Text(text, true))]).loops == [Applying(text)]
  {
    var es := [ApplyDone(0, false), ReadDone(0, Text(text, true))];
    assert es[1..] == [es[1]] && [es[1]][1..] == [];
    var t := Step(s, fallback, es[0]);
    assert Run(t, fallback, [es[1]]) == Run(Step(t, fallback, es[1]), fallback, []);
  }

  // --------------------------------------------------------- what each event does

  /** The pass under way ends: another one starts if it was asked for, else the loop does. */
  predicate PassEnded(s: State, t: State) {
    if s.rerun && !s.stopped then t == s.(rerun := false, loops := [Reading], log := s.log + [Started])
    else t == s.(loops := [Ended])
  }

  /**
   * What was read is applied exactly if it could be read, is not what the hash stands for, and parses; an absent or empty
   * file stands for the fallback. Otherwise the pass ends.
   */
  lemma ReadDecides(s: State, fallback: string, content: Content)
    requires s.loops == [Reading]
    ensures var given := content.Text? && content.text != "";
            var source := if given then content.text else fallback;
            var t := Step(s, fallback, ReadDone(0, content));
            if !s.stopped && !content.Failed? && s.hash != Some(source) && (given ==> content.parses)
            then t == s.(loops := [Applying(source)])
            else PassEnded(s, t)
  {
  }

  /** A successful application sets the hash, unless stopped meanwhile; a failed one leaves it; the pass ends either way. */
  lemma ApplyDecides(s: State, fallback: string, source: string, ok: bool)
    requires s.loops == [Applying(source)]
    ensures PassEnded(if !ok then s
                      else s.(hash := if s.stopped then s.hash else Some(source), log := s.log + [Applied(source)]),
                      Step(s, fallback, ApplyDone(0, ok)))
  {
  }

  /** A request starts a loop exactly if none is in flight, and else asks for another pass; a loop that ended is cleared. */
  lemma RequestsStart(s: State, fallback: string)
    requires Inv(s)
    ensures var t := Step(s, fallback, Request);
            && t.hash == s.hash && t.stopped == s.stopped && t.inFlight
            && (s.inFlight ==> t.rerun && t.loops == s.loops)
            && (!s.inFlight ==> t.loops == [if s.stopped then Ended else Reading] && (!s.stopped ==> !t.rerun))
    ensures s.loops == [Ended] ==> Step(s, fallback, Clear(0)) == s.(inFlight := false, loops := [])
    ensures Step(s, fallback, Stop) == s.(stopped := true)
  {
  }

  predicate Undisturbed(es: seq<Event>) {
    Request !in es && Stop !in es
  }

  lemma QuietStep(s: State, fallback: string, e: Event)
    requires Inv(s) && !s.stopped && e != Request && e != Stop
    ensures var t := Step(s, fallback, e);
            && !t.stopped
            && CountOf(t.log, Started) >= CountOf(s.log, Started)
            && (Busy(s) && s.rerun && !(Busy(t) && t.rerun) ==> CountOf(t.log, Started) > CountOf(s.log, Started))
            && (!Busy(s) ==> !Busy(t) && t.log == s.log)
  {
    Push(s.log, Started);
    if e.ApplyDone? && e.i < |s.loops| && s.loops[e.i].Applying? {
      var a := Applied(s.loops[e.i].source);
      Push(s.log, a);
      Push(s.log + [a], Started);
    }
  }

  lemma {:induction false} QuietRun(s: State, fallback: string, es: seq<Event>)
    requires Inv(s) && !s.stopped && Undisturbed(es)
    ensures var t := Run(s, fallback, es);
            && CountOf(t.log, Started) >= CountOf(s.log, Started)
            && (Busy(s) && s.rerun && !Busy(t) ==> CountOf(t.log, Started) > CountOf(s.log, Started))
            && (!Busy(s) ==> t.log == s.log)
    decreases |es|
  {
    hide Inv, Step, CountOf;
    if es != [] {
      assert es[0] in es && Undisturbed(es[1..]);
      StepKeeps(s, fallback, es[0]);
      QuietStep(s, fallback, es[0]);
      QuietRun(Step(s, fallback, es[0]), fallback, es[1..]);
    }
  }

  /**
   * A request gets a pass of its own accord, once everything has settled, exactly if it does not fall between a
   * loop's end and the moment its call goes on.
   */
  lemma RequestIsHonoured(s: State, fallback: string, es: seq<Event>)
    requires Inv(s) && !s.stopped && Undisturbed(es)
    requires !Busy(Run(Step(s, fallback, Request), fallback, es))
    ensures CountOf(Run(Step(s, fallback, Request), fallback, es).log, Started) > CountOf(s.log, Started)
       <==> (s.inFlight ==> Busy(s))
  {
    RequestKeeps(s);
    QuietRun(Requested(s), fallback, es);
    RequestCounts(s);
  }

  lemma RequestCounts(s: State)
    requires Inv(s) && !s.stopped
    ensures var t := Requested(s);
            && (s.inFlight ==> CountOf(t.log, Started) == CountOf(s.log, Started) && t.rerun && Busy(t) == Busy(s))
            && (!s.inFlight ==> CountOf(t.log, Started) == CountOf(s.log, Started) + 1)
  {
    Push(s.log, Asked);
    Push(s.log, Unheard);
    Push(s.log + [Asked], Started);
  }

  lemma RunTwo(s: State, fallback: string, a: Event, b: Event, es: seq<Event>)
    ensures Run(s, fallback, [a, b] + es) == Run(Step(Step(s, fallback, a), fallback, b), fallback, es)
  {
    hide Step;
    assert ([a, b] + es)[1..] == [b] + es && ([b] + es)[1..] == es;
  }

  /** The code lets a request go unanswered: it comes when the loop has ended and the flag is still set. */
  lemma RequestInTheGapIsLost(fallback: string, text: string)
    requires text != ""
    ensures var s := Run(Init, fallback, [Request, ReadDone(0, Text(text, true)), ApplyDone(0, true), Request, Clear(0)]);
            s.loops == [] && s.rerun && s.log == [Asked, Started, Applied(text), Unheard]
  {
    var a, b, c, d, e: Event := Request, ReadDone(0, Text(text, true)), ApplyDone(0, true), Request, Clear(0);
    var s2 := Step(Step(Init, fallback, a), fallback, b);
    assert s2 == State(true, false, false, None, [Applying(text)], [Asked, Started]);
    var s4 := Step(Step(s2, fallback, c), fallback, d);
    assert s4 == State(true, true, false, Some(text), [Ended], [Asked, Started, Applied(text), Unheard]);
    var s5 := Step(s4, fallback, e);
    assert s5.loops == [] && s5.rerun && s5.log == s4.log;
    hide Step;
    assert [a, b, c, d, e] == [a, b] + ([c, d] + [e]);
    RunTwo(Init, fallback, a, b, [c, d] + [e]);
    RunTwo(s2, fallback, c, d, [e]);
    assert Run(s4, fallback, [e]) == Run(s5, fallback, []);
  }

  /** Every loop can end: whatever it waits for, the next two completions end its pass. */
  lemma PassesEnd(s: State, fallback: string, content: Content, ok: bool)
    requires Inv(s) && Busy(s) && !s.rerun
    ensures !Busy(Step(Step(s, fallback, ReadDone(0, content)), fallback, ApplyDone(0, ok)))
  {
  }
}
