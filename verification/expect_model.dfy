/**
 * The expect-style script runner of zagreus/expect.py as values and pure functions.
 *
 * A script is a Python generator that yields Command objects: a command
 * either carries output for the caller to send, or asks for the next chunk
 * of input before a deadline.  Scripts are built from the primitives send,
 * expect and sleep (expect.py:103-133) plus direct calls that send a raw
 * command byte (client.py:212), so a script is modelled as the sequence of
 * those instructions, and a paused generator as the instruction it is
 * paused in together with the instructions still to run.  Time is an
 * integer number of milliseconds passed in by the caller.
 */
module ExpectModel {
  import opened Wrappers
  import opened Framing
  import Seqs

  /** One step of a script, in the order the generator body runs them. */
  datatype Instr =
    | Send(text: string)                          // yield from send(text)
    | Raw(c: byte)                                // send_command(c), run inside the generator
    | ExpectText(pattern: string, timeout: Option<nat>) // yield from expect(pattern, timeout)
    | Sleep(duration: nat)                        // yield from sleep(duration)

  /** Command (expect.py:5-14): output to send, and whether the script waits for input until `expires`. */
  datatype Command = Command(output: string, wantsInput: bool, expires: Option<int>)

  /** Command.expired: never without a deadline, otherwise strictly after it. */
  predicate Expired(cmd: Command, now: int)
  {
    cmd.expires.Some? && now > cmd.expires.value
  }

  /** receive's default timeout of one second (expect.py:108). */
  const ReceiveDefault: nat := 1000

  /** A generator object: not started, paused inside one instruction, or exhausted. */
  datatype Gen =
    | Fresh(rest: seq<Instr>)
    | AtSend(rest: seq<Instr>)
    | AtExpect(pattern: string, gather: string, deadline: Option<int>, rest: seq<Instr>)
    | AtSleep(until: int, rest: seq<Instr>)
    | Exhausted

  /** The instructions a generator has still to run after the one it is paused in. */
  function Rest(g: Gen): nat
  {
    if g.Exhausted? then 0 else |g.rest|
  }

  datatype ScriptError = TimeoutError(pattern: string)

  /** What resuming a generator does: the raw command bytes it sent on the way, then how it stopped. */
  datatype Resumed =
    | Yielded(raws: seq<byte>, cmd: Command, next: Gen)
    | Finished(raws: seq<byte>)
    | Raised(raws: seq<byte>, error: ScriptError)

  /**
   * receive (expect.py:107-111): wait with the caller's deadline, or with a
   * fresh one-second deadline when the caller has none.
   */
  function ReceiveCommand(deadline: Option<int>, now: int): (cmd: Command)
    ensures cmd.wantsInput && cmd.output == "" && cmd.expires.Some?
    ensures deadline.Some? ==> cmd.expires == deadline
  {
    Command("", true, Some(if deadline.Some? then deadline.value else now + ReceiveDefault))
  }

  /** Runs the instructions from the start of `rest` up to the next yield. */
  function Continue(rest: seq<Instr>, now: int): (r: Resumed)
    ensures r.Yielded? ==> Rest(r.next) < |rest| && !r.next.Fresh? && !r.next.Exhausted?
    ensures !r.Raised?
    ensures r.Finished? <==> forall i :: 0 <= i < |rest| ==> rest[i].Raw?
    decreases |rest|
  {
    if rest == [] then Finished([])
    else
      match rest[0]
      case Raw(c) =>
        assert forall i :: 1 <= i < |rest| ==> rest[i] == rest[1..][i - 1];
        (match Continue(rest[1..], now)
         case Yielded(raws, cmd, next) => Yielded([c] + raws, cmd, next)
         case Finished(raws) => Finished([c] + raws)
         case Raised(raws, e) => Raised([c] + raws, e))
      case Send(t) =>
        Yielded([], Command(t, false, None), AtSend(rest[1..]))
      case ExpectText(p, timeout) =>
        var deadline := if timeout.Some? then Some(now + timeout.value) else None;
        Yielded([], ReceiveCommand(deadline, now), AtExpect(p, "", deadline, rest[1..]))
      case Sleep(d) =>
        Yielded([], ReceiveCommand(Some(now + d), now), AtSleep(now + d, rest[1..]))
  }

  /** p occurs in s at index i. */
  predicate OccursAt(s: string, p: string, i: int)
  {
    0 <= i <= |s| - |p| && s[i..i + |p|] == p
  }

  /** Whether p occurs in s as a substring (Python's `p in s`), trying each position from the left. */
  function Contains(s: string, p: string): bool
    decreases |s|
  {
    if |p| > |s| then false
    else if s[..|p|] == p then true
    else Contains(s[1..], p)
  }

  /** Contains is Python's substring test: true exactly when p occurs at some position of s. */
  lemma {:induction false} ContainsOccurs(s: string, p: string)
    ensures Contains(s, p) <==> exists i :: OccursAt(s, p, i)
    decreases |s|
  {
    if |p| > |s| {
      assert forall i :: !OccursAt(s, p, i);
    } else if s[..|p|] == p {
      assert OccursAt(s, p, 0);
    } else {
      ContainsOccurs(s[1..], p);
      if Contains(s[1..], p) {
        var i :| OccursAt(s[1..], p, i);
        assert s[1..][i..i + |p|] == s[i + 1..i + 1 + |p|];
        assert OccursAt(s, p, i + 1);
      }
      if i :| OccursAt(s, p, i) {
        assert i != 0;
        assert s[1..][i - 1..i - 1 + |p|] == s[i..i + |p|];
        assert OccursAt(s[1..], p, i - 1);
      }
    }
  }

  /**
   * runner.send(v) on a paused generator.  A send ignores the value it is
   * resumed with; expect adds it to what it has gathered, or raises
   * TimeoutError on None; sleep ends on None and otherwise waits again.
   */
  function Resume(g: Gen, v: Option<string>, now: int): (r: Resumed)
    requires !g.Fresh? && !g.Exhausted?
    ensures r.Yielded? ==> !r.next.Fresh? && !r.next.Exhausted?
    ensures r.Yielded? ==> Rest(r.next) < Rest(g) || (Rest(r.next) == Rest(g) && v.Some? && r.cmd.wantsInput)
    ensures r.Raised? <==> g.AtExpect? && v.None?
  {
    match g
    case AtSend(rest) => Continue(rest, now)
    case AtExpect(p, gather, deadline, rest) =>
      if v.None? then Raised([], TimeoutError(p))
      else if Contains(gather + v.value, p) then Continue(rest, now)
      else Yielded([], ReceiveCommand(deadline, now), AtExpect(p, gather + v.value, deadline, rest))
    case AtSleep(until, rest) =>
      if v.None? then Continue(rest, now)
      else Yielded([], ReceiveCommand(Some(until), now), AtSleep(until, rest))
  }

  /** What interact hands to its callbacks: output for on_output, or a raw command the script sent itself. */
  datatype Effect = Output(text: string) | RawCommand(c: byte)

  function Raws(cs: seq<byte>): (fx: seq<Effect>)
  {
    if cs == [] then [] else [RawCommand(cs[0])] + Raws(cs[1..])
  }

  /** The observable state of an Expect object after a call, and what the call did. */
  datatype Reaction = Reaction(runner: Option<Gen>, step: Option<Command>, effects: seq<Effect>, error: Option<ScriptError>)

  /**
   * The while loop of interact (expect.py:83-101): stop while the script
   * waits for input that has not come and has not expired; otherwise resume
   * it with s, emit the output of the command it yields, and forget s once
   * a command asks for input again.
   */
  function Loop(g: Gen, cmd: Command, s: Option<string>, now: int): (r: Reaction)
    requires !g.Fresh? && !g.Exhausted?
    decreases Rest(g), if s.Some? then 1 else 0
  {
    if cmd.wantsInput && s.None? && !Expired(cmd, now) then Reaction(Some(g), Some(cmd), [], None)
    else
      match Resume(g, s, now)
      case Finished(raws) => Reaction(None, None, Raws(raws), None)
      case Raised(raws, e) => Reaction(None, None, Raws(raws), Some(e))
      case Yielded(raws, next, g') =>
        var s' := if next.wantsInput then None else s;
        var r := Loop(g', next.(output := ""), s', now);
        r.(effects := Raws(raws) + [Output(next.output)] + r.effects)
  }

  /** start (expect.py:34-38): run a fresh generator to its first yield; StopIteration leaves it exhausted but set. */
  function Start(g: Gen, now: int): (r: Reaction)
    requires g.Fresh? || g.Exhausted?
    ensures r.runner.Some? && r.error.None?
    ensures r.step.Some? ==> !r.runner.value.Fresh? && !r.runner.value.Exhausted?
  {
    if g.Exhausted? then Reaction(Some(Exhausted), None, [], None)
    else
      match Continue(g.rest, now)
      case Yielded(raws, cmd, g') => Reaction(Some(g'), Some(cmd), Raws(raws), None)
      case Finished(raws) => Reaction(Some(Exhausted), None, Raws(raws), None)
      case Raised(raws, e) => Reaction(None, None, Raws(raws), Some(e))
  }

  /**
   * The states an Expect object can be in between calls: not started (or
   * exhausted at start), paused with its last command (output already
   * handed on), or finished.
   */
  ghost predicate Consistent(runner: Option<Gen>, step: Option<Command>)
  {
    && (step.None? ==> runner.None? || runner.value.Fresh? || runner.value.Exhausted?)
    && (step.Some? ==> runner.Some? && !runner.value.Fresh? && !runner.value.Exhausted? && step.value.output == "")
  }

  /** interact (expect.py:69-101) */
  function Interact(runner: Option<Gen>, step: Option<Command>, s: Option<string>, now: int): (r: Reaction)
    requires Consistent(runner, step)
  {
    var started := if runner.Some? && step.None? then Start(runner.value, now)
                   else Reaction(runner, step, [], None);
    if started.step.None? then started
    else
      var cmd := started.step.value;
      var first := if cmd.output != "" then [Output(cmd.output)] else [];
      var r := Loop(started.runner.value, cmd.(output := ""), s, now);
      r.(effects := started.effects + first + r.effects)
  }

  // ---------------------------------------------------------------------
  // Properties
  // ---------------------------------------------------------------------

  /**
   * The loop stops only with the script finished, failed, or waiting for
   * input it has not been given before a deadline that has not passed.
   */
  lemma {:induction false} LoopEndsWaiting(g: Gen, cmd: Command, s: Option<string>, now: int)
    requires !g.Fresh? && !g.Exhausted?
    requires cmd.wantsInput ==> cmd.expires.Some?
    requires cmd.output == ""
    ensures var r := Loop(g, cmd, s, now);
      && (r.step.None? <==> r.runner.None?)
      && (r.step.Some? ==> r.step.value.output == "")
      && (r.step.Some? ==> r.runner.Some? && !r.runner.value.Fresh? && !r.runner.value.Exhausted?)
      && (r.step.Some? ==> r.step.value.wantsInput && r.step.value.expires.Some? && !Expired(r.step.value, now))
      && (r.error.Some? ==> r.runner.None?)
    decreases Rest(g), if s.Some? then 1 else 0
  {
    if !(cmd.wantsInput && s.None? && !Expired(cmd, now)) {
      match Resume(g, s, now)
      case Finished(_) =>
      case Raised(_, _) =>
      case Yielded(raws, next, g') =>
        assert next.wantsInput ==> next.expires.Some? by {
          ResumeWaitsWithDeadline(g, s, now);
        }
        LoopEndsWaiting(g', next.(output := ""), if next.wantsInput then None else s, now);
    }
  }

  /**
   * What the loop of interact resumes the script with at each command that
   * asks for input, in order (expect.py:86-101): the history of what
   * became of the input chunk s.
   */
  ghost function Fed(g: Gen, cmd: Command, s: Option<string>, now: int): seq<Option<string>>
    requires !g.Fresh? && !g.Exhausted?
    decreases Rest(g), if s.Some? then 1 else 0
  {
    if cmd.wantsInput && s.None? && !Expired(cmd, now) then []
    else
      var fed := if cmd.wantsInput then [s] else [];
      match Resume(g, s, now)
      case Yielded(_, next, g') => fed + Fed(g', next.(output := ""), if next.wantsInput then None else s, now)
      case _ => fed
  }

  /**
   * A chunk of input is consumed at most once: only the first command the
   * loop resumes, and only if it asks for input, is given s; every later
   * command that asks for input is given None, because s is dropped as soon
   * as such a command is yielded (expect.py:100-101).  A command that asks
   * for input is given s whenever there is one.
   */
  lemma {:induction false} InputConsumedOnce(g: Gen, cmd: Command, s: Option<string>, now: int)
    requires !g.Fresh? && !g.Exhausted?
    ensures var f := Fed(g, cmd, s, now);
      && (forall i :: 0 <= i < |f| && f[i].Some? ==> i == 0 && cmd.wantsInput && f[i] == s)
      && (cmd.wantsInput && s.Some? ==> f != [] && f[0] == s)
    decreases Rest(g), if s.Some? then 1 else 0
  {
    if !(cmd.wantsInput && s.None? && !Expired(cmd, now)) {
      match Resume(g, s, now)
      case Yielded(_, next, g') =>
        var s' := if next.wantsInput then None else s;
        InputConsumedOnce(g', next.(output := ""), s', now);
        var fed := if cmd.wantsInput then [s] else [];
        var tail := Fed(g', next.(output := ""), s', now);
        assert forall i :: 0 <= i < |tail| ==> tail[i].None?;
        assert forall i :: |fed| <= i < |fed + tail| ==> (fed + tail)[i] == tail[i - |fed|];
      case Finished(_) =>
      case Raised(_, _) =>
    }
  }

  /** Fed for a whole call of interact: what the loop resumes the script with after starting it if need be. */
  ghost function InteractFed(runner: Option<Gen>, step: Option<Command>, s: Option<string>, now: int): seq<Option<string>>
    requires Consistent(runner, step)
  {
    var started := if runner.Some? && step.None? then Start(runner.value, now)
                   else Reaction(runner, step, [], None);
    if started.step.None? then []
    else Fed(started.runner.value, started.step.value.(output := ""), s, now)
  }

  /**
   * Each call of interact hands its input to at most one command that asks
   * for input, the one the script is paused on; a script paused on such a
   * command is given the input whenever there is one.
   */
  lemma InteractConsumesInputOnce(runner: Option<Gen>, step: Option<Command>, s: Option<string>, now: int)
    requires Consistent(runner, step)
    ensures var f := InteractFed(runner, step, s, now);
      && (forall i :: 0 <= i < |f| && f[i].Some? ==> i == 0 && f[i] == s)
      && (step.Some? && step.value.wantsInput && s.Some? ==> f != [] && f[0] == s)
  {
    var started := if runner.Some? && step.None? then Start(runner.value, now)
                   else Reaction(runner, step, [], None);
    if started.step.Some? {
      var cmd := started.step.value.(output := "");
      InputConsumedOnce(started.runner.value, cmd, s, now);
      assert InteractFed(runner, step, s, now) == Fed(started.runner.value, cmd, s, now);
      assert step.Some? ==> started.step == step && cmd.wantsInput == step.value.wantsInput;
    } else {
      assert InteractFed(runner, step, s, now) == [];
    }
  }

  /** Every command that asks for input carries a deadline. */
  lemma ResumeWaitsWithDeadline(g: Gen, v: Option<string>, now: int)
    requires !g.Fresh? && !g.Exhausted?
    ensures var r := Resume(g, v, now); r.Yielded? && r.cmd.wantsInput ==> r.cmd.expires.Some?
  {
    if g.AtSend? || (g.AtExpect? && v.Some? && Contains(g.gather + v.value, g.pattern)) || (g.AtSleep? && v.None?) {
      ContinueWaitsWithDeadline(g.rest, now);
    }
  }

  lemma {:induction false} ContinueWaitsWithDeadline(rest: seq<Instr>, now: int)
    ensures var r := Continue(rest, now); r.Yielded? && r.cmd.wantsInput ==> r.cmd.expires.Some?
    decreases |rest|
  {
    if rest != [] && rest[0].Raw? {
      ContinueWaitsWithDeadline(rest[1..], now);
    }
  }

  /**
   * interact leaves the object consistent, and paused only on a command
   * that waits for input with a deadline still ahead, so the timeout
   * property never meets a command without a deadline.
   */
  lemma InteractEndsWaiting(runner: Option<Gen>, step: Option<Command>, s: Option<string>, now: int)
    requires Consistent(runner, step)
    requires step.Some? && step.value.wantsInput ==> step.value.expires.Some?
    ensures var r := Interact(runner, step, s, now);
      && Consistent(r.runner, r.step)
      && (r.step.Some? ==> r.step.value.wantsInput && r.step.value.expires.Some? && !Expired(r.step.value, now))
  {
    var started := if runner.Some? && step.None? then Start(runner.value, now)
                   else Reaction(runner, step, [], None);
    if started.step.Some? {
      var cmd := started.step.value;
      if runner.Some? && step.None? && runner.value.Fresh? {
        ContinueWaitsWithDeadline(runner.value.rest, now);
      }
      LoopEndsWaiting(started.runner.value, cmd.(output := ""), s, now);
    }
  }

  /** A script waiting for input that has not come, before its deadline, is left as it is and does nothing. */
  lemma WaitingWithoutInputIsQuiet(runner: Option<Gen>, step: Option<Command>, now: int)
    requires Consistent(runner, step) && step.Some?
    requires step.value.wantsInput && !Expired(step.value, now)
    ensures Interact(runner, step, None, now) == Reaction(runner, step, [], None)
  {
    assert step.value.(output := "") == step.value;
  }

  /** A finished script stays finished and does nothing. */
  lemma FinishedIsQuiet(s: Option<string>, now: int)
    ensures Interact(None, None, s, now) == Reaction(None, None, [], None)
  {
  }

  /** A script that runs to its end without yielding leaves the runner set: `running` stays true. */
  lemma EmptyScriptStaysRunning(script: seq<Instr>, s: Option<string>, now: int, later: int)
    requires forall i :: 0 <= i < |script| ==> script[i].Raw?
    ensures var r := Interact(Some(Fresh(script)), None, s, now);
      && r.runner == Some(Exhausted) && r.step.None? && r.error.None?
      && Interact(r.runner, r.step, s, later) == Reaction(Some(Exhausted), None, [], None)
  {
  }

  /**
   * expect gathers every chunk it is resumed with and completes at the
   * first chunk after which the pattern occurs in what it has gathered.
   */
  lemma ExpectGathers(p: string, gather: string, deadline: Option<int>, rest: seq<Instr>, x: string, now: int)
    ensures var r := Resume(AtExpect(p, gather, deadline, rest), Some(x), now);
      if Contains(gather + x, p) then r == Continue(rest, now)
      else r == Yielded([], ReceiveCommand(deadline, now), AtExpect(p, gather + x, deadline, rest))
  {
  }

  /** Resumes with each chunk in turn, as long as the script keeps asking for input. */
  function Feed(g: Gen, xs: seq<string>, now: int): (r: Resumed)
    requires !g.Fresh? && !g.Exhausted? && xs != []
    decreases |xs|
  {
    var r := Resume(g, Some(xs[0]), now);
    if |xs| == 1 || !r.Yielded? then r
    else
      var next := Feed(r.next, xs[1..], now);
      next.(raws := r.raws + next.raws)
  }

  function Concat(xs: seq<string>): string
  {
    if xs == [] then "" else xs[0] + Concat(xs[1..])
  }

  /**
   * Fed the chunks xs, expect(p) completes exactly after the last one when
   * p first occurs in the concatenation of the chunks at that point.
   */
  lemma {:induction false} ExpectCompletesOnFirstMatch(p: string, gather: string, deadline: Option<int>, rest: seq<Instr>, xs: seq<string>, now: int)
    requires xs != []
    requires forall k :: 0 < k < |xs| ==> !Contains(gather + Concat(xs[..k]), p)
    ensures var r := Feed(AtExpect(p, gather, deadline, rest), xs, now);
      if Contains(gather + Concat(xs), p) then r == Continue(rest, now)
      else r == Yielded([], ReceiveCommand(deadline, now), AtExpect(p, gather + Concat(xs), deadline, rest))
    decreases |xs|
  {
    if |xs| == 1 {
      ExpectGathers(p, gather, deadline, rest, xs[0], now);
      assert Concat(xs) == xs[0] by {
        assert xs[1..] == [];
      }
    } else {
      assert !Contains(gather + xs[0], p) by {
        ConcatPrefix(xs);
      }
      FeedExpectCons(p, gather, deadline, rest, xs, now);
      forall k | 0 < k < |xs[1..]|
        ensures !Contains(gather + xs[0] + Concat(xs[1..][..k]), p)
      {
        ConcatCons(xs, k);
        Seqs.AppendAssoc(gather, xs[0], Concat(xs[1..][..k]));
      }
      ExpectCompletesOnFirstMatch(p, gather + xs[0], deadline, rest, xs[1..], now);
      assert Concat(xs) == xs[0] + Concat(xs[1..]);
      Seqs.AppendAssoc(gather, xs[0], Concat(xs[1..]));
    }
  }

  /** A chunk that does not complete expect only grows what it has gathered. */
  lemma FeedExpectCons(p: string, gather: string, deadline: Option<int>, rest: seq<Instr>, xs: seq<string>, now: int)
    requires |xs| > 1 && !Contains(gather + xs[0], p)
    ensures Feed(AtExpect(p, gather, deadline, rest), xs, now)
         == Feed(AtExpect(p, gather + xs[0], deadline, rest), xs[1..], now)
  {
    ExpectGathers(p, gather, deadline, rest, xs[0], now);
    var f := Feed(AtExpect(p, gather + xs[0], deadline, rest), xs[1..], now);
    assert [] + f.raws == f.raws;
  }

  lemma ConcatPrefix(xs: seq<string>)
    requires xs != []
    ensures Concat(xs[..1]) == xs[0]
  {
    assert xs[..1][1..] == [];
  }

  lemma ConcatCons(xs: seq<string>, k: nat)
    requires 0 < k < |xs|
    ensures Concat(xs[..k + 1]) == xs[0] + Concat(xs[1..][..k])
  {
    assert xs[..k + 1] == [xs[0]] + xs[1..][..k];
    assert xs[..k + 1][1..] == xs[1..][..k];
  }

  /** expect raises TimeoutError when it is resumed without input, which interact does only once the deadline has passed. */
  lemma ExpectTimesOut(p: string, gather: string, deadline: Option<int>, rest: seq<Instr>, now: int)
    ensures Resume(AtExpect(p, gather, deadline, rest), None, now) == Raised([], TimeoutError(p))
  {
  }

  /** sleep discards every chunk until it is resumed without input, then the script goes on. */
  lemma SleepDiscards(until: int, rest: seq<Instr>, x: Option<string>, now: int)
    ensures var r := Resume(AtSleep(until, rest), x, now);
      if x.None? then r == Continue(rest, now)
      else r == Yielded([], Command("", true, Some(until)), AtSleep(until, rest))
  {
  }

  /** The timeout property (expect.py:56-63): how long select may block. */
  datatype Wait = Forever | For(ms: nat) | NoDeadline // NoDeadline: the subtraction with None raises TypeError

  function Timeout(step: Option<Command>, now: int): (w: Wait)
    ensures step.None? <==> w.Forever?
    ensures step.Some? && step.value.expires.None? <==> w.NoDeadline?
    ensures w.For? ==> (w.ms == 0 <==> now >= step.value.expires.value)
    ensures w.For? && w.ms > 0 ==> now + w.ms == step.value.expires.value
  {
    if step.None? then Forever
    else if step.value.expires.None? then NoDeadline
    else
      var t := step.value.expires.value - now;
      if t > 0 then For(t) else For(0)
  }

  /**
   * A command without a deadline never expires; one with a deadline has
   * expired exactly when it has no time left and the deadline is not now.
   */
  lemma TimeoutAgreesWithExpired(cmd: Command, now: int)
    ensures cmd.expires.None? ==> !Expired(cmd, now)
    ensures cmd.expires.Some? ==>
      (Expired(cmd, now) <==> Timeout(Some(cmd), now) == For(0) && now != cmd.expires.value)
    ensures cmd.expires.Some? && Timeout(Some(cmd), now).ms > 0 ==> !Expired(cmd, now)
  {
  }
}
