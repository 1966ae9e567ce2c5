/**
 * The Expect class of zagreus/expect.py (lines 19-101): a script's
 * generator and its current command, advanced in place by start and
 * interact.  Each method is proved to leave the object in the state the
 * corresponding ExpectModel function computes.
 */
module Runner {
  import opened Wrappers
  import opened ExpectModel
  import Seqs

  class Expect {
    const name: string
    var runner: Option<Gen>     // None once the script has finished or failed
    var step: Option<Command>   // the command the script last yielded

    ghost predicate Valid()
      reads this
    {
      && Consistent(runner, step)
      && (step.Some? && step.value.wantsInput ==> step.value.expires.Some?)
    }

    /** Expect.script (expect.py:40-54) wraps a not yet started generator. */
    constructor(name: string, script: seq<Instr>)
      ensures this.name == name && runner == Some(Fresh(script)) && step == None
      ensures Valid()
    {
      this.name := name;
      runner := Some(Fresh(script));
      step := None;
    }

    /** running (expect.py:65-67): an object that is not running has no pending command either. */
    function Running(): (b: bool)
      reads this
      requires Valid()
      ensures !b ==> step.None?
    {
      runner.Some?
    }

    /** start (expect.py:34-38) */
    method Start(now: int) returns (effects: seq<Effect>)
      requires runner.Some? && (runner.value.Fresh? || runner.value.Exhausted?)
      modifies this
      ensures Reaction(runner, step, effects, None) == ExpectModel.Start(old(runner).value, now)
    {
      match runner.value {
        case Exhausted =>
          step := None;
          effects := [];
        case Fresh(rest) =>
          match Continue(rest, now) {
            case Yielded(raws, cmd, g) =>
              runner := Some(g);
              step := Some(cmd);
              effects := Raws(raws);
            case Finished(raws) =>
              runner := Some(Exhausted);
              step := None;
              effects := Raws(raws);
            case Raised(_, _) =>
              assert false;
          }
      }
    }

    /**
     * interact (expect.py:69-101): start the script if it has not started,
     * hand on the output of its current command, then resume it with s until
     * it waits for input it has not been given.  The effects are the calls
     * to on_output and the raw commands the script sent, in order; `error`
     * is what on_error is called with.
     */
    method Interact(s: Option<string>, now: int) returns (effects: seq<Effect>, error: Option<ScriptError>)
      requires Valid()
      modifies this
      ensures Reaction(runner, step, effects, error) == ExpectModel.Interact(old(runner), old(step), s, now)
      ensures Valid()
    {
      InteractEndsWaiting(runner, step, s, now);
      effects := [];
      error := None;
      if runner.Some? && step.None? {
        effects := Start(now);
      }
      if step.None? {
        return;
      }
      var cmd := step.value;
      var first: seq<Effect> := [];
      if cmd.output != "" {
        first := [Output(cmd.output)];
      }
      step := Some(cmd.(output := ""));
      var more;
      more, error := Advance(s, now);
      effects := effects + first + more;
    }

    /** The while loop of interact (expect.py:83-101). */
    method Advance(s: Option<string>, now: int) returns (effects: seq<Effect>, error: Option<ScriptError>)
      requires runner.Some? && step.Some? && !runner.value.Fresh? && !runner.value.Exhausted?
      modifies this
      ensures Reaction(runner, step, effects, error) == Loop(old(runner).value, old(step).value, s, now)
    {
      ghost var target := Loop(runner.value, step.value, s, now);
      effects := [];
      error := None;
      var input := s;
      while true
        invariant runner.Some? && step.Some? && !runner.value.Fresh? && !runner.value.Exhausted?
        invariant error.None?
        invariant var l := Loop(runner.value, step.value, input, now); target == l.(effects := effects + l.effects)
        decreases Rest(runner.value), if input.Some? then 1 else 0
      {
        if step.value.wantsInput && input.None? && !Expired(step.value, now) {
          assert effects + [] == effects;
          break;
        }
        match Resume(runner.value, input, now) {
          case Finished(raws) =>
            effects := effects + Raws(raws);
            runner := None;
            step := None;
            return;
          case Raised(raws, e) =>
            effects := effects + Raws(raws);
            error := Some(e);
            runner := None;
            step := None;
            return;
          case Yielded(raws, cmd, g) =>
            ghost var l := Loop(g, cmd.(output := ""), if cmd.wantsInput then None else input, now);
            var emitted := Raws(raws) + [Output(cmd.output)];
            Seqs.AppendAssoc(effects, emitted, l.effects);
            effects := effects + emitted;
            runner := Some(g);
            step := Some(cmd.(output := ""));
            if cmd.wantsInput {
              input := None;
            }
        }
      }
    }
  }
}
