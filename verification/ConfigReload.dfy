/**
 * Serialised reloading of a configuration file: calls overlap, passes do not. The points where the code waits are
 * where the steps of different calls interleave.
 */
module ConfigReload {
  import opened Common

  /** A drain loop that some call has started: where its current pass waits, or that it has ended. */
  datatype Loop = Reading | Applying(source: string) | Ended

  /** History: what was asked for, in which order. `Unheard` is a request that a loop past its end will not see. */
  datatype Mark = Asked | Unheard | Started | Applied(source: string)

  datatype State = State(inFlight: bool, rerun: bool, stopped: bool, hash: Option<string>, loops: seq<Loop>, log: seq<Mark>)

  const Init: State := State(false, false, false, None, [], [])

  /** What a read brings: nothing but an error, no file, or its text; `parses` tells what the parser says of it. */
  datatype Content = Failed | Absent | Text(text: string, parses: bool)

  /** The loop of index `i` moves on, except for `Request` and `Stop`. */
  datatype Event =
    | Request
    | ReadDone(i: nat, content: Content)
    | ApplyDone(i: nat, ok: bool)
    | Clear(i: nat)
    | Stop

  function Noted(s: State, m: Mark): State {
    s.(log := s.log + [m])
  }

  /** A pass of loop `i` starts. */
  function StartPass(s: State, i: nat): State
    requires i < |s.loops|
  {
    Noted(s.(rerun := false, loops := s.loops[i := Reading]), Started)
  }

  /** The end of a pass of loop `i`, whether it failed or not. */
  function EndPass(s: State, i: nat): State
    requires i < |s.loops|
  {
    if s.rerun && !s.stopped then StartPass(s, i) else s.(loops := s.loops[i := Ended])
  }

  /** A call finds a loop in flight and leaves a note for it, or starts one. */
  function Requested(s: State): State {
    if s.inFlight then
      Noted(s.(rerun := true), if exists i :: 0 <= i < |s.loops| && s.loops[i] != Ended then Asked else Unheard)
    else
      var t := Noted(s, Asked).(inFlight := true, loops := s.loops + [Ended]);
      if s.stopped then t else StartPass(t, |s.loops|)
  }

  /** What is hashed: the text unless it is empty, else the fallback's text. */
  function Source(content: Content, fallback: string): string
    requires !content.Failed?
  {
    if content.Text? && content.text != "" then content.text else fallback
  }

  predicate Parses(content: Content) {
    content.Text? && content.text != "" ==> content.parses
  }

  function ReadEnds(s: State, i: nat, content: Content, fallback: string): State
    requires i < |s.loops|
  {
    if content.Failed? || s.stopped then EndPass(s, i)
    else if s.hash == Some(Source(content, fallback)) || !Parses(content) then EndPass(s, i)
    else s.(loops := s.loops[i := Applying(Source(content, fallback))])
  }

  function ApplyEnds(s: State, i: nat, ok: bool): State
    requires i < |s.loops| && s.loops[i].Applying?
  {
    if !ok then EndPass(s, i)
    else
      var source := s.loops[i].source;
      EndPass(Noted(if s.stopped then s else s.(hash := Some(source)), Applied(source)), i)
  }

  /** The call that started loop `i` goes on. */
  function Cleared(s: State, i: nat): State
    requires i < |s.loops|
  {
    s.(inFlight := false, loops := s.loops[..i] + s.loops[i + 1..])
  }

  function Step(s: State, fallback: string, e: Event): State {
    match e
    case Request => Requested(s)
    case ReadDone(i, content) => if i < |s.loops| && s.loops[i] == Reading then ReadEnds(s, i, content, fallback) else s
    case ApplyDone(i, ok) => if i < |s.loops| && s.loops[i].Applying? then ApplyEnds(s, i, ok) else s
    case Clear(i) => if i < |s.loops| && s.loops[i] == Ended then Cleared(s, i) else s
    case Stop => s.(stopped := true)
  }

  function Run(s: State, fallback: string, es: seq<Event>): State
    decreases |es|
  {
    if es == [] then s else Run(Step(s, fallback, es[0]), fallback, es[1..])
  }
}
