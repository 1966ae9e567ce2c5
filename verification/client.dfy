/**
 * Z80Client (zagreus/client.py, lines 107-255) as a class whose fields the
 * methods update in place, holding its current script as an Expect object.
 * Each method is proved to leave the client in the state the corresponding
 * ClientModel function computes.
 */
module Client {
  import opened Wrappers
  import opened Framing
  import opened Keys
  import E = ExpectModel
  import Runner
  import M = ClientModel

  class Z80Client {
    var connected: bool
    var running: bool
    var inMenu: bool
    var script: Runner.Expect?
    var toServer: seq<byte>
    var console: string
    const clear: string

    /** The client, with its script object, as a ClientModel state. */
    function Snapshot(): M.State
      reads this, script
    {
      M.State(connected, running, inMenu,
              if script == null then None else Some(M.Script(script.name, script.runner, script.step)),
              toServer, console, clear)
    }

    ghost predicate Valid()
      reads this, script
    {
      M.Valid(Snapshot())
    }

    /** __init__ (client.py:108-116) */
    constructor(clear: string)
      ensures Snapshot() == M.Initial(clear)
      ensures Valid()
    {
      connected := true;
      running := true;
      inMenu := false;
      script := null;
      toServer := [];
      console := "";
      this.clear := clear;
    }

    /** send (client.py:144-145) */
    method Send(text: string)
      modifies this
      ensures script == old(script)
      ensures Snapshot() == M.Send(old(Snapshot()), text)
    {
      if connected {
        toServer := toServer + Encode(Utf8(text));
      }
    }

    /** send_command (client.py:147-148) */
    method SendCommand(c: byte)
      modifies this
      ensures script == old(script)
      ensures Snapshot() == M.SendCommand(old(Snapshot()), c)
    {
      if connected {
        toServer := toServer + Framing.Command(c);
      }
    }

    /** close (client.py:130-136) */
    method Close()
      modifies this
      ensures script == old(script)
      ensures Snapshot() == M.Close(old(Snapshot()))
    {
      if connected {
        console := console + "\n";
        connected := false;
        running := false;
      }
    }

    /** The on_output and send_command calls a script made, in order. */
    method ApplyEffects(fx: seq<E.Effect>)
      modifies this
      ensures script == old(script)
      ensures Snapshot() == M.ApplyEffects(old(Snapshot()), fx)
    {
      var i := 0;
      while i < |fx|
        invariant 0 <= i <= |fx|
        invariant script == old(script)
        invariant M.ApplyEffects(Snapshot(), fx[i..]) == M.ApplyEffects(old(Snapshot()), fx)
      {
        assert fx[i..][1..] == fx[i + 1..];
        match fx[i] {
          case Output(t) => Send(t);
          case RawCommand(c) => SendCommand(c);
        }
        i := i + 1;
      }
    }

    /** expect.interact(s) with on_output = send and on_error = handle_script_error (client.py:201-208). */
    method Jog(s: Option<string>, now: int)
      requires Valid()
      modifies this, script
      ensures script == old(script)
      ensures Snapshot() == M.Jog(old(Snapshot()), s, now)
      ensures Valid()
    {
      if script != null {
        var fx, err := script.Interact(s, now);
        ApplyEffects(fx);
        if err.Some? {
          console := console + M.ErrorReport(script.name, err.value);
        }
      }
    }

    /** run_script (client.py:199-203) */
    method RunScript(name: string, instrs: seq<E.Instr>, now: int)
      requires Valid()
      modifies this
      ensures fresh(script)
      ensures Snapshot() == M.RunScript(old(Snapshot()), name, instrs, now)
      ensures Valid()
    {
      script := new Runner.Expect(name, instrs);
      Jog(None, now);
    }

    /** handle_menu_key (client.py:230-255), with the repeated prefix sending the prefix. */
    method HandleMenuKey(key: char, now: int)
      requires Valid()
      modifies this, script
      ensures script == old(script) || fresh(script)
      ensures Snapshot() == M.HandleMenuKey(old(Snapshot()), key, now)
      ensures Valid()
    {
      match M.FirstOption(M.Options, BaseKey(key)) {
        case None =>
        case Some(i) => Perform(M.Options[i].action, now);
      }
    }

    /** The body of the branch of handle_menu_key that matched (client.py:239-255). */
    method Perform(a: M.Action, now: int)
      requires Valid()
      modifies this, script
      ensures script == old(script) || fresh(script)
      ensures Snapshot() == M.Perform(old(Snapshot()), a, now)
      ensures Valid()
    {
      match a {
        case ResetMonitor => RunScript("small_computer_monitor", M.SmallComputerMonitor, now);
        case ClearScreen => console := console + clear;
        case Exit => Close();
        case BootCpm => RunScript("cpm", M.Cpm, now);
        case BootBasic => RunScript("basic", M.Basic, now);
        case SendPrefix => Send([M.MenuKey]);
        case ShowHelp => console := console + M.Framed(M.HelpLines(M.Options));
      }
    }

    /**
     * The console branch of run_once (client.py:184-193), for a key already
     * mapped by getkey, using the corrected menu.
     */
    method Key(c: char, now: int)
      requires Valid()
      modifies this, script
      ensures script == old(script) || fresh(script)
      ensures Snapshot() == M.Key(old(Snapshot()), c, now)
      ensures Valid()
    {
      if inMenu {
        HandleMenuKey(c, now);
        inMenu := false;
      } else if c == M.MenuKey {
        inMenu := true;
      } else {
        Send([c]);
      }
    }

    /** The server branch of run_once (client.py:171-182), closing on an empty read. */
    method Receive(data: seq<byte>, now: int)
      requires Valid()
      modifies this, script
      ensures script == old(script) || fresh(script)
      ensures Snapshot() == M.Receive(old(Snapshot()), data, now)
      ensures Valid()
    {
      if data == [] {
        Close();
      } else {
        ShowPieces(Decode(data), now);
      }
    }

    /**
     * run_once (client.py:154-197) for one event reported by select(), with
     * the corrected menu and the corrected handling of an empty read.
     */
    method RunOnce(ev: M.Event, now: int)
      requires Valid()
      modifies this, script
      ensures script == old(script) || fresh(script)
      ensures Snapshot() == M.RunOnce(old(Snapshot()), ev, now)
      ensures Valid()
    {
      if !running {
        Close();
        return;
      }
      match ev {
        case Broken =>
          Close();
          return;
        case KeyPressed(k) =>
          Key(GetKey(k), now);
        case ServerData(data) =>
          Receive(data, now);
        case Idle =>
      }
      Jog(None, now);
    }

    /** The loop over decode(data) in run_once (client.py:174-182). */
    method ShowPieces(ps: seq<Piece>, now: int)
      requires Valid()
      modifies this, script
      ensures script == old(script) || fresh(script)
      ensures Snapshot() == M.ShowPieces(old(Snapshot()), ps, now)
      ensures Valid()
    {
      var i := 0;
      while i < |ps|
        invariant 0 <= i <= |ps|
        invariant Valid()
        invariant script == old(script) || fresh(script)
        invariant M.ShowPieces(Snapshot(), ps[i..], now) == M.ShowPieces(old(Snapshot()), ps, now)
      {
        assert ps[i..][1..] == ps[i + 1..];
        match ps[i] {
          case Cmd(_) =>
          case Text(t) =>
            var chunk := M.ReplaceFormFeed(M.Chars(t), clear);
            console := console + chunk;
            Jog(Some(chunk), now);
        }
        i := i + 1;
      }
    }

    /** sigint (client.py:90-92) */
    method Interrupt()
      modifies this
      ensures script == old(script)
      ensures Snapshot() == M.Interrupt(old(Snapshot()))
    {
      running := false;
    }
  }
}
