/**
 * The terminal client of zagreus/client.py (Z80Client, lines 107-255) as a
 * value and its operations as functions.
 *
 * The client relays keys typed at the console to the server, shows what the
 * server sends on the console, offers a menu behind a prefix key, and runs
 * expect scripts that drive the RC2014 by sending text and watching its
 * output.  The socket and the terminal are abstract: `toServer` is every
 * byte passed to sendall, `console` every string written to the console,
 * and one call of run_once handles one Event.
 */
module ClientModel {
  import opened Wrappers
  import Seqs
  import opened Framing
  import opened Keys
  import E = ExpectModel

  /** menu_key = control('a') (client.py:116) */
  const MenuKey: char := 1 as char

  /** The script the client runs (its Expect object): the name it reports and the generator's state. */
  datatype Script = Script(name: string, runner: Option<E.Gen>, step: Option<E.Command>)

  datatype State = State(
    connected: bool,          // sock is not None
    running: bool,
    inMenu: bool,
    script: Option<Script>,   // self.expect
    toServer: seq<byte>,      // every byte sent to the server
    console: string,          // everything written to the console
    clear: string)            // the terminal's clear-screen string

  ghost predicate Valid(st: State)
  {
    && (!st.connected ==> !st.running)
    && (st.script.Some? ==>
         && E.Consistent(st.script.value.runner, st.script.value.step)
         && (st.script.value.step.Some? && st.script.value.step.value.wantsInput ==> st.script.value.step.value.expires.Some?))
  }

  /** No script is running, so nothing but the event itself acts. */
  predicate Quiet(st: State)
  {
    st.script.None? || st.script.value.runner.None?
  }

  /** __init__ (client.py:108-116) */
  function Initial(clear: string): (st: State)
    ensures Valid(st) && Quiet(st) && st.connected && st.running && !st.inMenu
  {
    State(true, true, false, None, [], "", clear)
  }

  // ---------------------------------------------------------------------
  // Sending and closing
  // ---------------------------------------------------------------------

  /** send (client.py:144-145): encode the text and send it. */
  function Send(st: State, text: string): (r: State)
    ensures st.connected ==> r == st.(toServer := st.toServer + Encode(Utf8(text)))
    ensures !st.connected ==> r == st
  {
    if st.connected then st.(toServer := st.toServer + Encode(Utf8(text))) else st
  }

  /** send_command (client.py:147-148): the escape byte, then the command byte. */
  function SendCommand(st: State, c: byte): (r: State)
    ensures st.connected ==> r == st.(toServer := st.toServer + [Escape, c])
    ensures !st.connected ==> r == st
  {
    if st.connected then st.(toServer := st.toServer + Command(c)) else st
  }

  /** close (client.py:130-136): once only, restore the terminal (which writes a newline) and stop. */
  function Close(st: State): (r: State)
    ensures !r.connected && (st.connected ==> !r.running)
    ensures !st.connected ==> r == st
    ensures r.toServer == st.toServer && r.script == st.script
  {
    if st.connected then st.(connected := false, running := false, console := st.console + "\n")
    else st
  }

  /**
   * Console used as a context manager (client.py:67-74): cleanup writes a
   * newline and a rule, and leaving writes a rule.
   */
  function Framed(text: string): string
  {
    "\n====\n" + text + "====\n"
  }

  /** repr of a string: single quotes, with backslash, quote, tab, CR and LF escaped. */
  function Repr(s: string): string
  {
    "'" + ReprBody(s) + "'"
  }

  /** How repr writes one character inside the quotes. */
  function ReprChar(c: char): string
  {
    if c == '\\' then "\\\\" else if c == '\'' then "\\'" else if c == '\n' then "\\n"
    else if c == '\r' then "\\r" else if c == '\t' then "\\t" else [c]
  }

  /** The inside of repr: never a line break, so a pattern always prints on one line. */
  function ReprBody(s: string): (r: string)
    ensures '\n' !in r
  {
    if s == [] then "" else ReprChar(s[0]) + ReprBody(s[1..])
  }

  /** Reads the escapes of ReprBody back. */
  function Unrepr(r: string): string
  {
    if |r| >= 2 && r[0] == '\\' then
      var c := r[1];
      [if c == 'n' then '\n' else if c == 'r' then '\r' else if c == 't' then '\t' else c] + Unrepr(r[2..])
    else if r == [] then ""
    else [r[0]] + Unrepr(r[1..])
  }

  /** repr loses nothing: the escaped pattern reads back as the pattern. */
  lemma {:induction false} ReprRoundTrip(s: string)
    ensures Unrepr(ReprBody(s)) == s
  {
    if s != [] {
      ReprRoundTrip(s[1..]);
      UnreprChar(s[0], ReprBody(s[1..]));
      Seqs.HeadTail(s);
    }
  }

  lemma UnreprChar(c: char, rest: string)
    ensures Unrepr(ReprChar(c) + rest) == [c] + Unrepr(rest)
  {
    var e := ReprChar(c);
    if |e| == 2 {
      assert (e + rest)[2..] == rest;
    } else {
      assert (e + rest)[1..] == rest;
    }
  }

  /** handle_script_error (client.py:205-208): the script's name and the error, framed by the console's rules. */
  function ErrorReport(name: string, e: E.ScriptError): string
  {
    Framed(("error in script `" + name + "`" + "\n") + ("TimeoutError: expected " + Repr(e.pattern) + "\n"))
  }

  /** The number of line breaks in s. */
  function Lines(s: string): nat
  {
    if s == [] then 0 else (if s[0] == '\n' then 1 else 0) + Lines(s[1..])
  }

  lemma {:induction false} LinesAppend(a: string, b: string)
    ensures Lines(a + b) == Lines(a) + Lines(b)
  {
    if a == [] {
      assert a + b == b;
    } else {
      LinesAppend(a[1..], b);
      assert (a + b)[0] == a[0] && (a + b)[1..] == a[1..] + b;
    }
  }

  lemma NewlineLines()
    ensures Lines("\n") == 1
  {
    assert "\n"[1..] == [];
  }

  /** Text without a line break, ended by one, is one line. */
  lemma OneLine(t: string)
    requires '\n' !in t
    ensures Lines(t + "\n") == 1
  {
    NoBreakLines(t);
    NewlineLines();
    LinesAppend(t, "\n");
  }

  /** The console's rules add three line breaks around what they frame. */
  lemma FramedLines(t: string)
    ensures Lines(Framed(t)) == Lines(t) + 3
  {
    var rule := "====" + "\n";
    assert Lines(rule) == 1 by {
      OneLine("====");
    }
    assert Framed(t) == "\n" + rule + t + rule;
    NewlineLines();
    LinesAppend("\n", rule);
    LinesAppend("\n" + rule, t);
    LinesAppend("\n" + rule + t, rule);
  }

  /**
   * For a script name without a line break the error report is exactly
   * five lines (a blank line, a rule, the script line, the error line with
   * the pattern's repr, a rule), whatever the pattern holds.
   */
  lemma ErrorReportLines(name: string, e: E.ScriptError)
    requires '\n' !in name
    ensures Lines(ErrorReport(name, e)) == 5
  {
    var script := "error in script `" + name + "`";
    var error := "TimeoutError: expected " + Repr(e.pattern);
    assert Lines(script + "\n") == 1 by {
      assert '\n' !in script;
      OneLine(script);
    }
    assert Lines(error + "\n") == 1 by {
      assert '\n' !in error;
      OneLine(error);
    }
    LinesAppend(script + "\n", error + "\n");
    FramedLines((script + "\n") + (error + "\n"));
  }

  /** One callback of a running script: on_output is send, a raw command goes through send_command. */
  function ApplyEffect(st: State, f: E.Effect): (r: State)
    ensures r == st.(toServer := r.toServer)
    ensures st.connected ==> r.toServer == st.toServer + WireBytes(f)
    ensures !st.connected ==> r == st
  {
    match f
    case Output(t) => Send(st, t)
    case RawCommand(c) => SendCommand(st, c)
  }

  function ApplyEffects(st: State, fx: seq<E.Effect>): (r: State)
    ensures r.script == st.script && r.connected == st.connected && r.running == st.running
    ensures r.inMenu == st.inMenu && r.console == st.console && r.clear == st.clear
    decreases |fx|
  {
    if fx == [] then st else ApplyEffects(ApplyEffect(st, fx[0]), fx[1..])
  }

  /** The bytes one script effect puts on the wire. */
  function WireBytes(f: E.Effect): seq<byte>
  {
    match f
    case Output(t) => Encode(Utf8(t))
    case RawCommand(c) => Command(c)
  }

  /** The bytes a sequence of script effects puts on the wire. */
  function EffectBytes(fx: seq<E.Effect>): seq<byte>
  {
    if fx == [] then [] else WireBytes(fx[0]) + EffectBytes(fx[1..])
  }

  /** Everything a script sends reaches the server, in order. */
  lemma {:induction false} ApplyEffectsSends(st: State, fx: seq<E.Effect>)
    requires st.connected
    ensures ApplyEffects(st, fx).toServer == st.toServer + EffectBytes(fx)
    decreases |fx|
  {
    if fx != [] {
      var next := ApplyEffect(st, fx[0]);
      var b0, b1 := WireBytes(fx[0]), EffectBytes(fx[1..]);
      ApplyEffectsSends(next, fx[1..]);
      Seqs.AppendAssoc(st.toServer, b0, b1);
    }
  }

  /** A disconnected client sends nothing. */
  lemma {:induction false} ApplyEffectsDisconnected(st: State, fx: seq<E.Effect>)
    requires !st.connected
    ensures ApplyEffects(st, fx) == st
    decreases |fx|
  {
    if fx != [] {
      ApplyEffectsDisconnected(st, fx[1..]);
    }
  }

  /** expect.interact(s), with its output sent to the server and its error reported on the console. */
  function Jog(st: State, s: Option<string>, now: int): (r: State)
    requires Valid(st)
    ensures Valid(r)
    ensures r.connected == st.connected && r.running == st.running && r.inMenu == st.inMenu && r.clear == st.clear
  {
    if st.script.None? then st
    else
      var sc := st.script.value;
      E.InteractEndsWaiting(sc.runner, sc.step, s, now);
      var re := E.Interact(sc.runner, sc.step, s, now);
      var st1 := ApplyEffects(st.(script := Some(Script(sc.name, re.runner, re.step))), re.effects);
      if re.error.Some? then st1.(console := st1.console + ErrorReport(sc.name, re.error.value)) else st1
  }

  /** Without a running script, jogging it changes nothing. */
  lemma JogQuiet(st: State, s: Option<string>, now: int)
    requires Valid(st) && Quiet(st)
    ensures Jog(st, s, now) == st
  {
  }

  /** run_script (client.py:199-203): install the script and start it. */
  function RunScript(st: State, name: string, script: seq<E.Instr>, now: int): (r: State)
    requires Valid(st)
    ensures Valid(r)
  {
    Jog(st.(script := Some(Script(name, Some(E.Fresh(script)), None))), None, now)
  }

  // ---------------------------------------------------------------------
  // Scripts (client.py:210-228), with times in milliseconds
  // ---------------------------------------------------------------------

  const Banner: string := "Small Computer Monitor - RC2014\r\n*"

  /** small_computer_monitor: reset the Z80, wait three seconds for the monitor's banner. */
  const SmallComputerMonitor: seq<E.Instr> := [E.Raw(ResetCommand), E.ExpectText(Banner, Some(3000))]

  /** cpm: reset to the monitor, pause, boot CP/M and wait for its prompt. */
  const Cpm: seq<E.Instr> :=
    SmallComputerMonitor + [E.Sleep(300), E.Send("CPM\n"), E.ExpectText("A>", Some(5000))]

  /** basic: reset to the monitor, start BASIC, accept the default memory top, wait for Ok. */
  const Basic: seq<E.Instr> :=
    SmallComputerMonitor + [E.Send("BASIC\n"), E.ExpectText("Memory top? ", Some(1000)),
                            E.Send("\n"), E.ExpectText("Ok", Some(1000))]

  // ---------------------------------------------------------------------
  // The menu (client.py:230-255)
  // ---------------------------------------------------------------------

  datatype Action = ResetMonitor | ClearScreen | Exit | BootCpm | BootBasic | SendPrefix | ShowHelp

  datatype MenuOption = MenuOption(letters: string, action: Action)

  /** The description the help screen gives each action, on one line. */
  function Help(a: Action): string
  {
    match a
    case ResetMonitor => "reset to small computer monitor"
    case ClearScreen => "clear screen"
    case Exit => "exit"
    case BootCpm => "boot CP/M"
    case BootBasic => "boot BASIC"
    case SendPrefix => "send " + MenuName
    case ShowHelp => "help"
  }

  /** pretty_key(menu_key) */
  const MenuName: string := PrettyKey(MenuKey)

  /** The menu's options, in the order they are tried. */
  const Options: seq<MenuOption> := [
    MenuOption("r", ResetMonitor),
    MenuOption("l", ClearScreen),
    MenuOption("xq", Exit),
    MenuOption("c", BootCpm),
    MenuOption("b", BootBasic),
    MenuOption([BaseKey(MenuKey)], SendPrefix),
    MenuOption("h?", ShowHelp)]

  /** The first option whose letters hold c, as the chain of `pressed` tests finds it. */
  function FirstOption(opts: seq<MenuOption>, c: char): (r: Option<nat>)
    ensures r.Some? ==> r.value < |opts| && c in opts[r.value].letters
    ensures r.Some? ==> forall j :: 0 <= j < r.value ==> c !in opts[j].letters
    ensures r.None? ==> forall j :: 0 <= j < |opts| ==> c !in opts[j].letters
    decreases |opts|
  {
    if opts == [] then None
    else if c in opts[0].letters then Some(0)
    else
      match FirstOption(opts[1..], c)
      case None => None
      case Some(i) => Some(i + 1)
  }

  /** One line of the help screen: the menu key and the option's first letter, then its description. */
  function HelpLine(o: MenuOption): string
  {
    var key := if o.letters == [] then "" else PrettyKey(o.letters[0]);
    MenuName + " " + key + "\t" + Help(o.action) + "\n"
  }

  /** The help screen: one line per option, in the order the options are tried. */
  function HelpLines(opts: seq<MenuOption>): string
  {
    if opts == [] then "" else HelpLine(opts[0]) + HelpLines(opts[1..])
  }

  /** A string without a line break counts none. */
  lemma {:induction false} NoBreakLines(s: string)
    requires '\n' !in s
    ensures Lines(s) == 0
  {
    if s != [] {
      assert s[0] != '\n' && '\n' !in s[1..];
      NoBreakLines(s[1..]);
    }
  }

  lemma HelpOneLine(a: Action)
    ensures '\n' !in Help(a)
  {
    match a
    case ResetMonitor => ResetHelpOneLine();
    case ClearScreen => assert '\n' !in "clear screen";
    case Exit => assert '\n' !in "exit";
    case BootCpm => assert '\n' !in "boot CP/M";
    case BootBasic => assert '\n' !in "boot BASIC";
    case SendPrefix => SendPrefixHelpOneLine();
    case ShowHelp => assert '\n' !in "help";
  }

  lemma ResetHelpOneLine()
    ensures '\n' !in Help(ResetMonitor)
  {
    assert '\n' !in "reset to small computer monitor";
  }

  lemma SendPrefixHelpOneLine()
    ensures '\n' !in Help(SendPrefix)
  {
    PrettyKeyPrintable(MenuKey);
    assert '\n' !in "send ";
    var t := "send " + MenuName;
    forall i | 0 <= i < |t|
      ensures t[i] != '\n'
    {
      if i >= 5 {
        assert t[i] == MenuName[i - 5];
      }
    }
  }

  lemma HelpLineOneLine(o: MenuOption)
    ensures Lines(HelpLine(o)) == 1
  {
    var key := if o.letters == [] then "" else PrettyKey(o.letters[0]);
    var t := MenuName + " " + key + "\t" + Help(o.action);
    PrettyKeyPrintable(MenuKey);
    if o.letters != [] {
      PrettyKeyPrintable(o.letters[0]);
    }
    HelpOneLine(o.action);
    assert '\n' !in key && '\n' !in MenuName;
    OneLine(t);
  }

  /** The help screen has exactly one line per option. */
  lemma {:induction false} HelpLinesCount(opts: seq<MenuOption>)
    ensures Lines(HelpLines(opts)) == |opts|
  {
    if opts != [] {
      HelpLinesCount(opts[1..]);
      HelpLineOneLine(opts[0]);
      LinesAppend(HelpLine(opts[0]), HelpLines(opts[1..]));
    }
  }

  /** The menu's options with the prefix's own letter worked out. */
  lemma OptionsLiteral()
    ensures Options == [
      MenuOption("r", ResetMonitor), MenuOption("l", ClearScreen), MenuOption("xq", Exit),
      MenuOption("c", BootCpm), MenuOption("b", BootBasic), MenuOption("a", SendPrefix),
      MenuOption("h?", ShowHelp)]
  {
    MenuKeyIsControlA();
  }

  /** No letter belongs to two options, and every option has a first letter to show in the help. */
  lemma OptionsDisjoint()
    ensures forall i :: 0 <= i < |Options| ==> Options[i].letters != []
    ensures forall i, j, k :: 0 <= i < j < |Options| && 0 <= k < |Options[i].letters| ==>
      Options[i].letters[k] !in Options[j].letters
  {
    OptionsLiteral();
  }

  /** So a key selects the option that holds it, whatever the order of the tests. */
  lemma OptionSelected(c: char, i: nat)
    requires i < |Options| && c in Options[i].letters
    ensures FirstOption(Options, c) == Some(i)
  {
    OptionsDisjoint();
    var r := FirstOption(Options, c);
    assert r.Some?;
    assert r.value >= i;
    assert r.value <= i;
  }

  /** What a menu action does; the key pressed only matters to the as-written prefix case. */
  function Perform(st: State, a: Action, now: int): (r: State)
    requires Valid(st)
    ensures Valid(r)
  {
    match a
    case ResetMonitor => RunScript(st, "small_computer_monitor", SmallComputerMonitor, now)
    case ClearScreen => st.(console := st.console + st.clear)
    case Exit => Close(st)
    case BootCpm => RunScript(st, "cpm", Cpm, now)
    case BootBasic => RunScript(st, "basic", Basic, now)
    case SendPrefix => Send(st, [MenuKey])
    case ShowHelp => st.(console := st.console + Framed(HelpLines(Options)))
  }

  /**
   * handle_menu_key, with the repeated prefix sending the prefix itself as
   * its comment says (see HandleMenuKeyAsWritten).
   */
  function HandleMenuKey(st: State, key: char, now: int): (r: State)
    requires Valid(st)
    ensures Valid(r)
  {
    match FirstOption(Options, BaseKey(key))
    case None => st
    case Some(i) => Perform(st, Options[i].action, now)
  }

  /** handle_menu_key as written: the repeated prefix sends base_key of the key, the letter 'a'. */
  function HandleMenuKeyAsWritten(st: State, key: char, now: int): (r: State)
    requires Valid(st)
    ensures Valid(r)
  {
    match FirstOption(Options, BaseKey(key))
    case None => st
    case Some(i) =>
      if Options[i].action == SendPrefix then Send(st, [BaseKey(key)])
      else Perform(st, Options[i].action, now)
  }

  // ---------------------------------------------------------------------
  // Events
  // ---------------------------------------------------------------------

  /** One byte of server text as one character. */
  function Chars(t: seq<byte>): (s: string)
    ensures |s| == |t| && forall i :: 0 <= i < |t| ==> s[i] as int == t[i] as int
  {
    if t == [] then [] else [(t[0] as int) as char] + Chars(t[1..])
  }

  /** The form feed character, \f. */
  const FormFeed: char := 0x0C as char

  /** chunk.replace('\f', CLEAR) */
  function ReplaceFormFeed(s: string, clear: string): (r: string)
    ensures FormFeed !in s ==> r == s
    ensures FormFeed !in clear ==> FormFeed !in r
    ensures |r| >= |s| - multiset(s)[FormFeed]
  {
    if s == [] then ""
    else
      assert s == [s[0]] + s[1..];
      (if s[0] == FormFeed then clear else [s[0]]) + ReplaceFormFeed(s[1..], clear)
  }

  /** The text pieces from the server go to the console and, one by one, to the script; commands are dropped. */
  function ShowPieces(st: State, ps: seq<Piece>, now: int): (r: State)
    requires Valid(st)
    ensures Valid(r)
    ensures r.connected == st.connected && r.running == st.running && r.inMenu == st.inMenu && r.clear == st.clear
    decreases |ps|
  {
    if ps == [] then st
    else
      match ps[0]
      case Cmd(_) => ShowPieces(st, ps[1..], now)
      case Text(t) =>
        var chunk := ReplaceFormFeed(Chars(t), st.clear);
        ShowPieces(Jog(st.(console := st.console + chunk), Some(chunk), now), ps[1..], now)
  }

  /**
   * The server branch of run_once (client.py:171-182), with an empty read
   * taken as the server closing the connection (see ReceiveAsWritten).
   */
  function Receive(st: State, data: seq<byte>, now: int): (r: State)
    requires Valid(st)
    ensures Valid(r)
  {
    if data == [] then Close(st) else ShowPieces(st, Decode(data), now)
  }

  /** The server branch as written: an empty read is decoded like any other. */
  function ReceiveAsWritten(st: State, data: seq<byte>, now: int): (r: State)
    requires Valid(st)
    ensures Valid(r)
  {
    ShowPieces(st, Decode(data), now)
  }

  /**
   * The console branch of run_once (client.py:184-193) for a key already
   * mapped by getkey, using the corrected HandleMenuKey.
   */
  function Key(st: State, c: char, now: int): (r: State)
    requires Valid(st)
    ensures Valid(r)
  {
    if st.inMenu then HandleMenuKey(st, c, now).(inMenu := false)
    else if c == MenuKey then st.(inMenu := true)
    else Send(st, [c])
  }

  /** What select() reports to run_once. */
  datatype Event = KeyPressed(key: char) | ServerData(data: seq<byte>) | Broken | Idle

  /**
   * run_once (client.py:154-197): handle the event, then jog the script
   * once; keys and server data go through the corrected Key and Receive.
   */
  function RunOnce(st: State, ev: Event, now: int): (r: State)
    requires Valid(st)
    ensures Valid(r)
  {
    if !st.running then Close(st)
    else
      match ev
      case Broken => Close(st)
      case KeyPressed(k) => Jog(Key(st, GetKey(k), now), None, now)
      case ServerData(data) => Jog(Receive(st, data, now), None, now)
      case Idle => Jog(st, None, now)
  }

  /** sigint (client.py:90-92): stop at the next run_once. */
  function Interrupt(st: State): (r: State)
    ensures !r.running
  {
    st.(running := false)
  }

  // ---------------------------------------------------------------------
  // Properties
  // ---------------------------------------------------------------------

  /** The prefix key is Ctrl-A. */
  lemma MenuKeyIsControlA()
    ensures Control('a') == Some(MenuKey)
    ensures BaseKey(MenuKey) == 'a' && MenuName == "C-A"
  {
    assert TableLower[1] == 'a';
    assert TableLower[0] != 'a';
  }

  /** Outside the menu, an ordinary key is sent to the server; with no script running nothing else happens. */
  lemma KeyReachesServer(st: State, k: char, now: int)
    requires Valid(st) && st.running && !st.inMenu && GetKey(k) != MenuKey
    ensures Key(st, GetKey(k), now) == Send(st, [GetKey(k)])
    ensures RunOnce(st, KeyPressed(k), now) == Jog(Send(st, [GetKey(k)]), None, now)
    ensures Quiet(st) ==> RunOnce(st, KeyPressed(k), now) == Send(st, [GetKey(k)])
  {
    if Quiet(st) {
      JogQuiet(Send(st, [GetKey(k)]), None, now);
    }
  }

  /** The prefix key sends nothing and opens the menu; the next key is read as a menu choice and closes it. */
  lemma PrefixOpensMenu(st: State, k: char, now: int)
    requires Valid(st) && st.running && !st.inMenu
    ensures Key(st, MenuKey, now) == st.(inMenu := true)
    ensures var r := RunOnce(st, KeyPressed(MenuKey), now);
      && r == Jog(st.(inMenu := true), None, now)
      && (Quiet(st) ==> r == st.(inMenu := true))
      && r.inMenu
      && RunOnce(r, KeyPressed(k), now) == Jog(HandleMenuKey(r, GetKey(k), now).(inMenu := false), None, now)
  {
    assert GetKey(MenuKey) == MenuKey;
    var r := RunOnce(st, KeyPressed(MenuKey), now);
    assert r == Jog(st.(inMenu := true), None, now);
    if Quiet(st) {
      JogQuiet(st.(inMenu := true), None, now);
    }
  }

  /** Every key reads as the first option whose letters hold its base key. */
  lemma MenuChoosesFirstMatch(st: State, key: char, now: int, i: nat)
    requires Valid(st) && i < |Options| && BaseKey(key) in Options[i].letters
    requires forall j :: 0 <= j < i ==> BaseKey(key) !in Options[j].letters
    ensures HandleMenuKey(st, key, now) == Perform(st, Options[i].action, now)
  {
  }

  /** The menu option for resetting: the Z80 gets a RESET command and the script waits three seconds for the banner. */
  lemma ResetOptionResetsZ80(st: State, now: int)
    requires Valid(st) && st.connected
    ensures var r := Perform(st, ResetMonitor, now);
      && r.toServer == st.toServer + [Escape, ResetCommand]
      && r.script == Some(Script("small_computer_monitor",
                                 Some(E.AtExpect(Banner, "", Some(now + 3000), [])),
                                 Some(E.Command("", true, Some(now + 3000)))))
  {
    var cmd := E.Command("", true, Some(now + 3000));
    var g := E.AtExpect(Banner, "", Some(now + 3000), []);
    var re := E.Interact(Some(E.Fresh(SmallComputerMonitor)), None, None, now);
    assert re == E.Reaction(Some(g), Some(cmd), [E.RawCommand(ResetCommand)], None) by {
      assert SmallComputerMonitor[1..] == [E.ExpectText(Banner, Some(3000))];
      assert E.Continue(SmallComputerMonitor[1..], now) == E.Yielded([], cmd, g);
      assert E.Continue(SmallComputerMonitor, now) == E.Yielded([ResetCommand], cmd, g);
      assert E.Raws([ResetCommand]) == [E.RawCommand(ResetCommand)] by {
        assert [ResetCommand][1..] == [];
      }
      assert E.Start(E.Fresh(SmallComputerMonitor), now) == E.Reaction(Some(g), Some(cmd), [E.RawCommand(ResetCommand)], None);
      assert E.Loop(g, cmd, None, now) == E.Reaction(Some(g), Some(cmd), [], None);
    }
    var st1 := st.(script := Some(Script("small_computer_monitor", Some(g), Some(cmd))));
    assert Perform(st, ResetMonitor, now) == ApplyEffects(st1, [E.RawCommand(ResetCommand)]);
    assert ApplyEffects(st1, [E.RawCommand(ResetCommand)]) == ApplyEffect(st1, E.RawCommand(ResetCommand));
  }

  /** The repeated prefix is the "send C-A" option. */
  lemma PrefixOption()
    ensures FirstOption(Options, BaseKey(MenuKey)) == Some(5)
    ensures Options[5].action == SendPrefix
  {
    assert BaseKey(MenuKey) == 'a';
    assert 'a' in Options[5].letters;
    assert Options[0].letters == "r" && Options[1].letters == "l" && Options[2].letters == "xq";
    assert Options[3].letters == "c" && Options[4].letters == "b";
    assert forall j :: 0 <= j < 5 ==> 'a' !in Options[j].letters by {
      assert 'a' !in "xq";
    }
  }

  lemma EncodeAscii(c: char)
    requires c as int < 0x80 && c as int != 0xFF
    ensures Encode(Utf8([c])) == [c as int as byte]
  {
    Utf8Ascii([c]);
    EncodeEscapeFree(Utf8([c]));
  }

  /**
   * As written, the "send C-A" option, reached by pressing the prefix twice,
   * sends the letter 'a' instead of the prefix.
   */
  lemma RepeatedPrefixSendsLetter(st: State, now: int)
    requires Valid(st) && st.connected
    ensures HandleMenuKeyAsWritten(st, MenuKey, now).toServer == st.toServer + ['a' as int as byte]
  {
    PrefixOption();
    AsWrittenOptionSends(st, MenuKey, now);
    calc {
      HandleMenuKeyAsWritten(st, MenuKey, now).toServer;
      Send(st, [BaseKey(MenuKey)]).toServer;
      { MenuKeyIsControlA(); }
      Send(st, ['a']).toServer;
      { EncodeAscii('a'); }
      st.toServer + ['a' as int as byte];
    }
  }

  lemma AsWrittenOptionSends(st: State, key: char, now: int)
    requires Valid(st)
    requires FirstOption(Options, BaseKey(key)) == Some(5) && Options[5].action == SendPrefix
    ensures HandleMenuKeyAsWritten(st, key, now) == Send(st, [BaseKey(key)])
  {
  }

  /** With the prefix sent as intended, pressing it twice passes Ctrl-A through to the server. */
  lemma RepeatedPrefixSendsPrefix(st: State, now: int)
    requires Valid(st) && st.connected
    ensures HandleMenuKey(st, MenuKey, now).toServer == st.toServer + [1]
  {
    PrefixOption();
    EncodeAscii(MenuKey);
    assert HandleMenuKey(st, MenuKey, now) == Send(st, [MenuKey]);
  }

  /** A text piece, with no script running, is only written to the console. */
  lemma ShowTextQuiet(st: State, t: seq<byte>, rest: seq<Piece>, now: int)
    requires Valid(st) && Quiet(st)
    ensures ShowPieces(st, [Text(t)] + rest, now)
      == ShowPieces(st.(console := st.console + ReplaceFormFeed(Chars(t), st.clear)), rest, now)
  {
    var chunk := ReplaceFormFeed(Chars(t), st.clear);
    var st1 := st.(console := st.console + chunk);
    JogQuiet(st1, Some(chunk), now);
    assert ([Text(t)] + rest)[1..] == rest;
  }

  /** Server text without escapes, with no script running, appears on the console with form feeds cleared. */
  lemma ServerTextShown(st: State, data: seq<byte>, now: int)
    requires Valid(st) && Quiet(st) && data != [] && Escape !in data
    ensures Receive(st, data, now) == st.(console := st.console + ReplaceFormFeed(Chars(data), st.clear))
  {
    DecodeEscapeFree(data);
    assert Decode(data) == [Text(data)] + [];
    ShowTextQuiet(st, data, [], now);
  }

  /** Commands from the server are not shown, nor is a lone 0xFF that ends a read, which decodes as an empty command. */
  lemma ServerCommandsIgnored(st: State, c: byte, now: int)
    requires Valid(st) && Quiet(st)
    ensures Receive(st, Command(c), now) == st
    ensures Receive(st, [Escape], now) == st
  {
    assert ReplaceFormFeed(Chars([]), st.clear) == "";
    assert st.(console := st.console + "") == st;
    assert Decode(Command(c)) == [Text([])] + [Cmd([c]), Text([])];
    ShowTextQuiet(st, [], [Cmd([c]), Text([])], now);
    assert ShowPieces(st, [Cmd([c]), Text([])], now) == ShowPieces(st, [Text([])], now);
    assert [Text([])] == [Text([])] + [];
    ShowTextQuiet(st, [], [], now);
    DecodeTrailingEscape(c);
    assert ShowPieces(st, [Cmd([])], now) == ShowPieces(st, [], now) by {
      assert [Cmd([])][1..] == [];
    }
  }

  /**
   * As written, an empty read, which is how a closed connection shows, leaves
   * an idle client connected and running and the socket still readable, so
   * run() spins.
   */
  lemma EmptyReadKeepsSpinning(st: State, now: int)
    requires Valid(st) && Quiet(st)
    ensures ReceiveAsWritten(st, [], now) == st
  {
    assert Decode([]) == [Text([])] + [];
    assert ReplaceFormFeed(Chars([]), st.clear) == "";
    assert st.(console := st.console + "") == st;
    ShowTextQuiet(st, [], [], now);
  }

  /** Taking an empty read as the end of the connection closes the client, which ends run(). */
  lemma EmptyReadCloses(st: State, now: int)
    requires Valid(st)
    ensures var r := Receive(st, [], now); !r.connected && !r.running
  {
  }

  /** Once stopped, the next run_once closes the client, and closing twice is closing once. */
  lemma StopCloses(st: State, ev: Event, now: int)
    requires Valid(st) && !st.running
    ensures RunOnce(st, ev, now) == Close(st)
    ensures Close(Close(st)) == Close(st)
  {
  }
}
