/**
 * The bookkeeping of Z80Server (zagreus/server.py, lines 70-214) as a value
 * and its transitions as functions.
 *
 * The server owns a listening socket, the list of client connections with a
 * map from each connection to its address, and a bounded backbuffer of the
 * Z80's recent output that a newly accepted client is sent first.  Sockets,
 * the serial port and select() are abstract here: a connection is an opaque
 * id, each select() result is one Event, and the connections whose sendall
 * raises during an event are given as the set `failed`.
 */
module ServerModel {
  import opened Framing
  import Seqs

  type Conn = nat

  /** backbuffer_max (server.py:79) */
  const BackbufferMax: nat := 1024 * 8

  /** What the server does to the Z80: a reset pulse on the GPIO pin, or a write to the serial port. */
  datatype Z80Op = Pulse | Write(bytes: seq<byte>)

  /** The peer address returned by accept(). */
  datatype Peer = Inet(host: string, port: nat) | Unix

  /** One readable or broken descriptor reported by select(). */
  datatype Event =
    | Accept(conn: Conn, peer: Peer)
    | Z80Data(text: string)
    | Recv(from: Conn, bytes: seq<byte>)
    | Broken(target: Target)

  datatype Target = Listener | Z80 | Client(conn: Conn)

  /** How serve_once ends: normally, or with the exception that escapes it. */
  datatype Status =
    | Served
    | ServerClosed      // RuntimeError('server has been closed')
    | AcceptSendFailed  // the unguarded sendall of the backbuffer to a new client raised
    | AddrLookupFailed  // KeyError from conn_addrs[s]

  datatype State = State(
    listening: bool,                 // sock is not None
    connections: seq<Conn>,
    connAddrs: map<Conn, string>,
    backbuffer: string,
    delivered: map<Conn, seq<byte>>, // every byte sendall delivered, per connection ever accepted
    z80: seq<Z80Op>,                 // everything done to the Z80, in order
    disconnected: seq<Conn>)         // connections closed by close_client, in order

  // ---------------------------------------------------------------------
  // Sequences of connections
  // ---------------------------------------------------------------------

  function Members(s: seq<Conn>): set<Conn>
  {
    set c | c in s
  }

  ghost predicate NoDup(s: seq<Conn>)
  {
    forall i, j :: 0 <= i < j < |s| ==> s[i] != s[j]
  }

  /** The elements of s that are not in xs, in order. */
  function Drop(s: seq<Conn>, xs: set<Conn>): (r: seq<Conn>)
    ensures Members(r) == Members(s) - xs
    ensures NoDup(s) ==> NoDup(r)
  {
    if s == [] then []
    else
      var rest := Drop(s[1..], xs);
      assert s == [s[0]] + s[1..];
      MembersCons(s[0], s[1..]);
      NoDupCons(s[0], s[1..]);
      if s[0] in xs then rest
      else
        MembersCons(s[0], rest);
        NoDupCons(s[0], rest);
        [s[0]] + rest
  }

  /** The elements of s that are in xs, in order. */
  function Keep(s: seq<Conn>, xs: set<Conn>): (r: seq<Conn>)
    ensures Members(r) == Members(s) * xs
    ensures NoDup(s) ==> NoDup(r)
  {
    if s == [] then []
    else
      var rest := Keep(s[1..], xs);
      assert s == [s[0]] + s[1..];
      MembersCons(s[0], s[1..]);
      NoDupCons(s[0], s[1..]);
      if s[0] in xs then
        MembersCons(s[0], rest);
        NoDupCons(s[0], rest);
        [s[0]] + rest
      else rest
  }

  lemma MembersCons(x: Conn, t: seq<Conn>)
    ensures Members([x] + t) == {x} + Members(t)
  {
  }

  lemma NoDupCons(x: Conn, t: seq<Conn>)
    ensures NoDup([x] + t) <==> x !in t && NoDup(t)
  {
    var s := [x] + t;
    if NoDup(s) {
      forall i, j | 0 <= i < j < |t| ensures t[i] != t[j] {
        assert t[i] == s[i + 1] && t[j] == s[j + 1];
      }
      forall k | 0 <= k < |t| ensures t[k] != x {
        assert s[0] != s[k + 1];
      }
    }
  }

  lemma KeepSnoc(s: seq<Conn>, x: Conn, xs: set<Conn>)
    ensures Keep(s + [x], xs) == Keep(s, xs) + (if x in xs then [x] else [])
    decreases |s|
  {
    if s != [] {
      assert (s + [x])[1..] == s[1..] + [x];
      KeepSnoc(s[1..], x, xs);
    }
  }

  /** list.remove: drop the first occurrence of x. */
  function Remove(s: seq<Conn>, x: Conn): (r: seq<Conn>)
  {
    if s == [] then []
    else if s[0] == x then s[1..]
    else [s[0]] + Remove(s[1..], x)
  }

  // ---------------------------------------------------------------------
  // The invariant
  // ---------------------------------------------------------------------

  /** The connection list and the address map stay in step. */
  ghost predicate Bookkept(st: State)
  {
    && NoDup(st.connections)
    && st.connAddrs.Keys == Members(st.connections)
    && Members(st.connections) <= st.delivered.Keys
  }

  ghost predicate Valid(st: State)
  {
    && Bookkept(st)
    && |st.backbuffer| <= BackbufferMax
    && (!st.listening ==> st.connections == [])
  }

  /** Z80Server.__init__ (server.py:71-79): listening, no clients, empty backbuffer, the Z80 reset once. */
  function Initial(): (st: State)
    ensures Valid(st)
  {
    State(true, [], map[], "", map[], [Pulse], [])
  }

  // ---------------------------------------------------------------------
  // Transitions
  // ---------------------------------------------------------------------

  /**
   * close_client (server.py:113-117): forgets c's address, takes c off the
   * connection list (see CloseClientRemovesOne) and closes it; the Z80,
   * the backbuffer and what was delivered are untouched.
   */
  function CloseClient(st: State, c: Conn): (r: State)
    requires c in st.connAddrs
    ensures c !in r.connAddrs && r.connAddrs.Keys == st.connAddrs.Keys - {c}
    ensures r.disconnected == st.disconnected + [c]
    ensures r.listening == st.listening && r.backbuffer == st.backbuffer
    ensures r.delivered == st.delivered && r.z80 == st.z80
  {
    st.(connections := Remove(st.connections, c),
        connAddrs := st.connAddrs - {c},
        disconnected := st.disconnected + [c])
  }

  /** Removing the only occurrence of x is dropping x. */
  lemma {:induction false} RemoveIsDrop(s: seq<Conn>, x: Conn)
    requires NoDup(s)
    ensures Remove(s, x) == Drop(s, {x})
  {
    if s != [] {
      RemoveIsDrop(s[1..], x);
      if s[0] == x {
        DropAbsent(s[1..], {x});
      }
    }
  }

  lemma {:induction false} DropAbsent(s: seq<Conn>, xs: set<Conn>)
    requires Members(s) !! xs
    ensures Drop(s, xs) == s
  {
    if s != [] {
      assert Members(s) == {s[0]} + Members(s[1..]);
      DropAbsent(s[1..], xs);
    }
  }

  lemma {:induction false} DropDrop(s: seq<Conn>, a: set<Conn>, b: set<Conn>)
    ensures Drop(Drop(s, a), b) == Drop(s, a + b)
  {
    if s != [] {
      DropDrop(s[1..], a, b);
    }
  }

  /** Dropping depends only on which elements of s are dropped. */
  lemma {:induction false} DropSameOn(s: seq<Conn>, a: set<Conn>, b: set<Conn>)
    requires forall x :: x in s ==> (x in a <==> x in b)
    ensures Drop(s, a) == Drop(s, b)
  {
    if s != [] {
      DropSameOn(s[1..], a, b);
    }
  }

  /** close_client removes exactly that one connection from the list and the map, and keeps them in step. */
  lemma CloseClientRemovesOne(st: State, c: Conn)
    requires Bookkept(st) && c in st.connAddrs
    ensures Bookkept(CloseClient(st, c))
    ensures CloseClient(st, c).connections == Drop(st.connections, {c})
    ensures CloseClient(st, c).connAddrs.Keys == st.connAddrs.Keys - {c}
  {
    RemoveIsDrop(st.connections, c);
  }

  /** Closes each connection of cs in turn, as the loops of close and send_to_all do. */
  function CloseEach(st: State, cs: seq<Conn>): (r: State)
    requires NoDup(cs) && Members(cs) <= st.connAddrs.Keys
    ensures r.connAddrs == st.connAddrs - Members(cs)
    ensures r.disconnected == st.disconnected + cs
    ensures r.listening == st.listening && r.backbuffer == st.backbuffer
    ensures r.delivered == st.delivered && r.z80 == st.z80
    ensures Bookkept(st) ==> Bookkept(r) && r.connections == Drop(st.connections, Members(cs))
    decreases |cs|
  {
    if cs == [] then
      assert Members(cs) == {};
      assert st.connAddrs - Members(cs) == st.connAddrs;
      assert Bookkept(st) ==> Drop(st.connections, {}) == st.connections by {
        if Bookkept(st) { DropAbsent(st.connections, {}); }
      }
      st
    else
      assert Members(cs) == {cs[0]} + Members(cs[1..]);
      var next := CloseClient(st, cs[0]);
      var r := CloseEach(next, cs[1..]);
      assert Bookkept(st) ==> r.connections == Drop(st.connections, Members(cs)) by {
        if Bookkept(st) {
          CloseClientRemovesOne(st, cs[0]);
          DropDrop(st.connections, {cs[0]}, Members(cs[1..]));
        }
      }
      assert cs == [cs[0]] + cs[1..];
      Seqs.AppendAssoc(st.disconnected, [cs[0]], cs[1..]);
      r
  }

  /** Closing a list of connections is closing its first one, then the rest. */
  lemma CloseEachCons(st: State, cs: seq<Conn>)
    requires NoDup(cs) && Members(cs) <= st.connAddrs.Keys && cs != []
    ensures cs[0] in st.connAddrs
    ensures NoDup(cs[1..]) && Members(cs[1..]) <= CloseClient(st, cs[0]).connAddrs.Keys
    ensures CloseEach(st, cs) == CloseEach(CloseClient(st, cs[0]), cs[1..])
  {
    assert cs == [cs[0]] + cs[1..];
    NoDupCons(cs[0], cs[1..]);
    MembersCons(cs[0], cs[1..]);
  }

  /** close (server.py:105-111): stop listening, then close every client in list order. */
  function Close(st: State): (r: State)
    requires Bookkept(st)
    ensures Bookkept(r) && !r.listening
    ensures r.connections == [] && r.connAddrs == map[]
    ensures r.disconnected == st.disconnected + st.connections
    ensures r.backbuffer == st.backbuffer && r.delivered == st.delivered && r.z80 == st.z80
  {
    var r := CloseEach(st.(listening := false), st.connections);
    assert r.connections == [] by {
      assert Drop(st.connections, Members(st.connections)) == [] by {
        DropEverything(st.connections, Members(st.connections));
      }
    }
    assert r.connAddrs.Keys == {};
    r
  }

  lemma {:induction false} DropEverything(s: seq<Conn>, xs: set<Conn>)
    requires forall x :: x in s ==> x in xs
    ensures Drop(s, xs) == []
  {
    if s != [] {
      DropEverything(s[1..], xs);
    }
  }

  /** The backbuffer keeps only the last BackbufferMax characters. */
  function Trim(s: string): (r: string)
    ensures |r| == if |s| > BackbufferMax then BackbufferMax else |s|
    ensures r == s[|s| - |r|..]
  {
    if |s| > BackbufferMax then s[|s| - BackbufferMax..] else s
  }

  /** Appends bytes to what each connection in `to` has been delivered. */
  function DeliverTo(m: map<Conn, seq<byte>>, to: set<Conn>, bytes: seq<byte>): map<Conn, seq<byte>>
  {
    map c | c in m :: if c in to then m[c] + bytes else m[c]
  }

  /** One more connection of the list has been sent to (or has failed). */
  lemma SendStep(cs: seq<Conn>, i: nat, failed: set<Conn>, m: map<Conn, seq<byte>>, payload: seq<byte>)
    requires NoDup(cs) && Members(cs) <= m.Keys && i < |cs|
    ensures Keep(cs[..i + 1], failed) == Keep(cs[..i], failed) + (if cs[i] in failed then [cs[i]] else [])
    ensures var before := DeliverTo(m, Members(cs[..i]) - failed, payload);
      DeliverTo(m, Members(cs[..i + 1]) - failed, payload)
        == if cs[i] in failed then before else before[cs[i] := before[cs[i]] + payload]
  {
    assert Keep(cs[..i + 1], failed) == Keep(cs[..i], failed) + (if cs[i] in failed then [cs[i]] else []) by {
      assert cs[..i + 1] == cs[..i] + [cs[i]];
      KeepSnoc(cs[..i], cs[i], failed);
    }
    MembersStep(cs, i);
    NotInPrefix(cs, i);
    DeliverStep(m, Members(cs[..i]), cs[i], failed, payload);
  }

  lemma MembersStep(cs: seq<Conn>, i: nat)
    requires i < |cs|
    ensures Members(cs[..i + 1]) == Members(cs[..i]) + {cs[i]}
  {
    assert cs[..i + 1] == cs[..i] + [cs[i]];
  }

  /** Delivering to the sent-to set grown by c changes c's buffer only, and only when c did not fail. */
  lemma DeliverStep(m: map<Conn, seq<byte>>, pre: set<Conn>, c: Conn, failed: set<Conn>, bytes: seq<byte>)
    requires c in m && c !in pre
    ensures var before := DeliverTo(m, pre - failed, bytes);
      DeliverTo(m, (pre + {c}) - failed, bytes) == if c in failed then before else before[c := before[c] + bytes]
  {
    if c !in failed {
      assert (pre + {c}) - failed == (pre - failed) + {c};
      DeliverToGrow(m, pre - failed, c, bytes);
    } else {
      assert (pre + {c}) - failed == pre - failed;
    }
  }

  lemma NotInPrefix(cs: seq<Conn>, i: nat)
    requires NoDup(cs) && i < |cs|
    ensures cs[i] !in Members(cs[..i])
  {
    assert forall k :: 0 <= k < i ==> cs[..i][k] == cs[k] != cs[i];
  }

  /** Delivering to one more connection appends the bytes to that connection only. */
  lemma DeliverToGrow(m: map<Conn, seq<byte>>, to: set<Conn>, c: Conn, bytes: seq<byte>)
    requires c in m && c !in to
    ensures var before := DeliverTo(m, to, bytes);
      DeliverTo(m, to + {c}, bytes) == before[c := before[c] + bytes]
  {
  }

  /**
   * send_to_all (server.py:125-136): extend and trim the backbuffer, send
   * encode(data) to every connection, then close those whose send raised,
   * in list order.
   */
  function SendToAll(st: State, data: string, failed: set<Conn>): (r: State)
    requires Valid(st)
    ensures Valid(r)
  {
    var payload := Encode(Utf8(data));
    var st1 := st.(backbuffer := Trim(st.backbuffer + data),
                   delivered := DeliverTo(st.delivered, Members(st.connections) - failed, payload));
    CloseEach(st1, Keep(st.connections, failed))
  }

  /**
   * handle_command (server.py:211-214), given what follows the escape byte:
   * only the one-byte string RESET acts; it pulses the reset line and
   * broadcasts a newline.
   */
  function HandleCommand(st: State, c: seq<byte>, failed: set<Conn>): (r: State)
    requires Valid(st)
    ensures Valid(r)
  {
    if c == [ResetCommand] then SendToAll(st.(z80 := st.z80 + [Pulse]), "\n", failed) else st
  }

  /** Hostname of an inet peer, 'local' for a unix-socket peer (server.py:160-165). */
  function AddrLabel(p: Peer): string
  {
    match p
    case Inet(host, _) => host
    case Unix => "local"
  }

  /**
   * The accept branch of serve_once (server.py:157-169): the new connection
   * joins the list and the map, and is first sent the encoded backbuffer.
   * That sendall is not guarded, so its failure escapes serve_once.
   */
  function AcceptClient(st: State, c: Conn, peer: Peer, failed: set<Conn>): (r: (State, Status))
    requires Valid(st) && st.listening && c !in st.delivered
    ensures Valid(r.0)
  {
    var st1 := st.(connections := st.connections + [c],
                   connAddrs := st.connAddrs[c := AddrLabel(peer)]);
    assert Members(st1.connections) == Members(st.connections) + {c};
    if c in failed then (st1.(delivered := st.delivered[c := []]), AcceptSendFailed)
    else (st1.(delivered := st.delivered[c := Encode(Utf8(st.backbuffer))]), Served)
  }

  /** One decoded piece of client data: commands go to handle_command, text goes to the Z80 with ENTER as CR LF. */
  function ApplyPiece(st: State, p: Piece, failed: set<Conn>): (r: State)
    requires Valid(st)
    ensures Valid(r)
  {
    match p
    case Cmd(c) => HandleCommand(st, c, failed)
    case Text(t) => st.(z80 := st.z80 + [Write(CrLf(t))])
  }

  function ApplyPieces(st: State, ps: seq<Piece>, failed: set<Conn>): (r: State)
    requires Valid(st)
    ensures Valid(r)
    decreases |ps|
  {
    if ps == [] then st else ApplyPieces(ApplyPiece(st, ps[0], failed), ps[1..], failed)
  }

  /**
   * The client-data branch of serve_once (server.py:175-192), with the
   * address looked up once for the log lines (see ReceiveAsWritten): data
   * from a connection no longer in the list is ignored, an empty read
   * closes the connection, anything else is decoded and applied piece by piece.
   */
  function Receive(st: State, c: Conn, data: seq<byte>, failed: set<Conn>): (r: State)
    requires Valid(st)
    ensures Valid(r)
  {
    if c !in st.connections then st
    else if data == [] then
      CloseClientRemovesOne(st, c);
      CloseClient(st, c)
    else ApplyPieces(st, Decode(data), failed)
  }

  /**
   * The same branch as written: each piece first formats a log line with
   * conn_addrs[s], which raises KeyError once a reset broadcast has closed s.
   */
  function ApplyPiecesAsWritten(st: State, c: Conn, ps: seq<Piece>, failed: set<Conn>): (r: (State, Status))
    requires Valid(st)
    ensures Valid(r.0)
    decreases |ps|
  {
    if ps == [] then (st, Served)
    else if c !in st.connAddrs then (st, AddrLookupFailed)
    else ApplyPiecesAsWritten(ApplyPiece(st, ps[0], failed), c, ps[1..], failed)
  }

  function ReceiveAsWritten(st: State, c: Conn, data: seq<byte>, failed: set<Conn>): (r: (State, Status))
    requires Valid(st)
    ensures Valid(r.0)
  {
    if c !in st.connections then (st, Served)
    else if data == [] then
      CloseClientRemovesOne(st, c);
      (CloseClient(st, c), Served)
    else ApplyPiecesAsWritten(st, c, Decode(data), failed)
  }

  /** accept() hands out a connection never seen before. */
  ghost predicate Admissible(st: State, ev: Event)
  {
    ev.Accept? ==> ev.conn !in st.delivered
  }

  /**
   * serve_once (server.py:138-192) for one event reported by select(),
   * with client data handled by the corrected Receive (see
   * ReceiveAsWritten for the branch as written).
   */
  function Step(st: State, ev: Event, failed: set<Conn>): (r: (State, Status))
    requires Valid(st) && Admissible(st, ev)
    ensures Valid(r.0)
  {
    if !st.listening then (st, ServerClosed)
    else
      match ev
      case Accept(c, peer) => AcceptClient(st, c, peer, failed)
      case Z80Data(data) => (SendToAll(st, data, failed), Served)
      case Recv(c, data) => (Receive(st, c, data, failed), Served)
      case Broken(Listener) => (Close(st), Served)
      case Broken(Z80) => (Close(st), Served)
      case Broken(Client(c)) =>
        if c in st.connAddrs then
          CloseClientRemovesOne(st, c);
          (CloseClient(st, c), Served)
        else (st, AddrLookupFailed)
  }

  // ---------------------------------------------------------------------
  // Properties
  // ---------------------------------------------------------------------

  /**
   * send_to_all delivers encode(data) to every connection, then removes from
   * the list and the map exactly the connections whose send failed, closing
   * them in list order; nothing else changes.
   */
  lemma SendToAllSpec(st: State, data: string, failed: set<Conn>)
    requires Valid(st)
    ensures var r := SendToAll(st, data, failed);
      && r.connections == Drop(st.connections, failed)
      && r.connAddrs.Keys == st.connAddrs.Keys - failed
      && r.disconnected == st.disconnected + Keep(st.connections, failed)
      && r.delivered.Keys == st.delivered.Keys
      && (forall c :: c in r.connections ==> r.delivered[c] == st.delivered[c] + Encode(Utf8(data)))
      && (forall c :: c in st.delivered && c !in r.connections ==> r.delivered[c] == st.delivered[c])
      && r.backbuffer == Trim(st.backbuffer + data)
      && r.z80 == st.z80 && r.listening == st.listening
  {
    var broken := Keep(st.connections, failed);
    DropSameOn(st.connections, Members(broken), failed);
  }

  /** A client that joins is first sent the backbuffer, which it decodes as one plain text piece. */
  lemma NewClientSeesBackbuffer(st: State, c: Conn, peer: Peer, failed: set<Conn>)
    requires Valid(st) && st.listening && c !in st.delivered && c !in failed
    ensures var (r, status) := AcceptClient(st, c, peer, failed);
      && status == Served
      && r.connections == st.connections + [c]
      && r.connAddrs == st.connAddrs[c := AddrLabel(peer)]
      && Decode(r.delivered[c]) == [Text(Utf8(st.backbuffer))]
  {
    TextRoundTrip(st.backbuffer);
  }

  /** close stops the server and disconnects every client, and a second close changes nothing. */
  lemma CloseIdempotent(st: State)
    requires Bookkept(st)
    ensures Close(Close(st)) == Close(st)
  {
    var r := Close(st);
    assert r.disconnected + r.connections == r.disconnected;
  }

  /** What a sequence of decoded pieces does to the Z80: text is written with CR LF, RESET pulses, other commands do nothing. */
  function Z80Effects(ps: seq<Piece>): (ops: seq<Z80Op>)
    ensures |ops| <= |ps|
  {
    if ps == [] then [] else PieceEffect(ps[0]) + Z80Effects(ps[1..])
  }

  function PieceEffect(p: Piece): seq<Z80Op>
  {
    match p
    case Text(t) => [Write(CrLf(t))]
    case Cmd(c) => if c == [ResetCommand] then [Pulse] else []
  }

  lemma ApplyPieceZ80(st: State, p: Piece, failed: set<Conn>)
    requires Valid(st)
    ensures ApplyPiece(st, p, failed).z80 == st.z80 + PieceEffect(p)
  {
    if p.Cmd? {
      HandleCommandSpec(st, p.payload, failed);
    }
  }

  /**
   * handle_command ignores every command but RESET (an empty one too), and
   * RESET pulses the Z80 and broadcasts a newline: every connection that
   * survives the broadcast is sent the encoded newline, the others are
   * closed and get nothing more.
   */
  lemma HandleCommandSpec(st: State, c: seq<byte>, failed: set<Conn>)
    requires Valid(st)
    ensures c != [ResetCommand] ==> HandleCommand(st, c, failed) == st
    ensures c == [ResetCommand] ==>
      var r := HandleCommand(st, c, failed);
      && r.z80 == st.z80 + [Pulse]
      && r.backbuffer == Trim(st.backbuffer + "\n")
      && r.connections == Drop(st.connections, failed)
      && r.connAddrs.Keys == st.connAddrs.Keys - failed
      && r.delivered.Keys == st.delivered.Keys
      && (forall k :: k in r.connections ==> r.delivered[k] == st.delivered[k] + Encode(Utf8("\n")))
      && (forall k :: k in st.delivered && k !in r.connections ==> r.delivered[k] == st.delivered[k])
  {
    if c == [ResetCommand] {
      SendToAllSpec(st.(z80 := st.z80 + [Pulse]), "\n", failed);
    }
  }

  lemma {:induction false} ApplyPiecesZ80(st: State, ps: seq<Piece>, failed: set<Conn>)
    requires Valid(st)
    ensures ApplyPieces(st, ps, failed).z80 == st.z80 + Z80Effects(ps)
    decreases |ps|
  {
    if ps != [] {
      var next := ApplyPiece(st, ps[0], failed);
      var e0, e1 := PieceEffect(ps[0]), Z80Effects(ps[1..]);
      assert next.z80 == st.z80 + e0 by {
        ApplyPieceZ80(st, ps[0], failed);
      }
      assert ApplyPieces(st, ps, failed).z80 == next.z80 + e1 by {
        ApplyPiecesZ80(next, ps[1..], failed);
        ApplyPiecesCons(st, ps, failed);
      }
      assert Z80Effects(ps) == e0 + e1 by {
        Z80EffectsCons(ps);
      }
      Seqs.AppendAssoc(st.z80, e0, e1);
    }
  }

  lemma ApplyPiecesCons(st: State, ps: seq<Piece>, failed: set<Conn>)
    requires Valid(st) && ps != []
    ensures ApplyPieces(st, ps, failed) == ApplyPieces(ApplyPiece(st, ps[0], failed), ps[1..], failed)
  {
  }

  lemma Z80EffectsCons(ps: seq<Piece>)
    requires ps != []
    ensures Z80Effects(ps) == PieceEffect(ps[0]) + Z80Effects(ps[1..])
  {
  }

  /**
   * Data from a connected client reaches the Z80 piece by piece: every text
   * piece is written with ENTER turned into CR LF, and every RESET command
   * pulses the reset line, in the order they were sent.
   */
  lemma ReceiveReachesZ80(st: State, c: Conn, data: seq<byte>, failed: set<Conn>)
    requires Valid(st) && c in st.connections && data != []
    ensures Receive(st, c, data, failed).z80 == st.z80 + Z80Effects(Decode(data))
  {
    ApplyPiecesZ80(st, Decode(data), failed);
  }

  /** Data without the escape byte is written to the Z80 as one chunk, with ENTER turned into CR LF. */
  lemma ReceivePlainText(st: State, c: Conn, data: seq<byte>, failed: set<Conn>)
    requires Valid(st) && c in st.connections && data != [] && Escape !in data
    ensures Receive(st, c, data, failed).z80 == st.z80 + [Write(CrLf(data))]
  {
    ReceiveReachesZ80(st, c, data, failed);
    DecodeEscapeFree(data);
  }

  /**
   * A lone 0xFF at the end of a client's data is decoded as a command with
   * an empty payload, which handle_command ignores: on its own it changes
   * nothing, and after a command only the command and the empty text
   * piece in front of it reach the Z80.
   */
  lemma TrailingEscapeIgnored(st: State, c: Conn, b: byte, failed: set<Conn>)
    requires Valid(st) && c in st.connections
    ensures Receive(st, c, [Escape], failed) == st
    ensures Receive(st, c, Command(b) + [Escape], failed).z80
      == st.z80 + [Write([])] + (if b == ResetCommand then [Pulse] else [])
  {
    DecodeTrailingEscape(b);
    assert ApplyPiece(st, Cmd([]), failed) == st;
    ApplyPiecesCons(st, [Cmd([])], failed);
    assert [Cmd([])][1..] == [];
    ReceiveReachesZ80(st, c, Command(b) + [Escape], failed);
    var ps := [Text([]), Cmd([b]), Cmd([])];
    Z80EffectsCons(ps);
    Z80EffectsCons(ps[1..]);
    Z80EffectsCons(ps[2..]);
    assert ps[1..][1..] == ps[2..] && ps[2..][1..] == [];
    assert PieceEffect(Cmd([b])) == if b == ResetCommand then [Pulse] else [] by {
      assert [b] == [ResetCommand] <==> b == ResetCommand;
    }
    assert Z80Effects(ps) == [Write([])] + PieceEffect(Cmd([b]));
    Seqs.AppendAssoc(st.z80, [Write([])], PieceEffect(Cmd([b])));
  }

  /**
   * As written, a client that sends RESET and whose own copy of the
   * broadcast newline cannot be sent makes serve_once raise KeyError: the
   * reset closes it, and the log line for the trailing empty text piece
   * looks its address up again.
   */
  lemma ResetFromFailingClientRaises(st: State, c: Conn, failed: set<Conn>)
    requires Valid(st) && c in st.connections && c in failed
    ensures ReceiveAsWritten(st, c, Command(ResetCommand), failed).1 == AddrLookupFailed
  {
    var ps := Decode(Command(ResetCommand));
    var st1 := ApplyPiece(st, ps[0], failed);
    assert st1 == st.(z80 := st.z80 + [Write([])]);
    var st2 := ApplyPiece(st1, ps[1], failed);
    HandleCommandSpec(st1, [ResetCommand], failed);
    assert c !in st2.connAddrs;
    assert ps[2..] == [Text([])];
    assert ApplyPiecesAsWritten(st2, c, ps[2..], failed) == (st2, AddrLookupFailed);
    assert ps[1..][0] == ps[1] && ps[1..][1..] == ps[2..];
    assert ApplyPiecesAsWritten(st1, c, ps[1..], failed) == ApplyPiecesAsWritten(st2, c, ps[2..], failed);
    assert ApplyPiecesAsWritten(st, c, ps, failed) == ApplyPiecesAsWritten(st1, c, ps[1..], failed);
  }

  lemma {:induction false} AsWrittenAgreesUnlessRaised(st: State, c: Conn, ps: seq<Piece>, failed: set<Conn>)
    requires Valid(st)
    ensures ApplyPiecesAsWritten(st, c, ps, failed).1 in {Served, AddrLookupFailed}
    ensures ApplyPiecesAsWritten(st, c, ps, failed).1 == Served ==>
      ApplyPiecesAsWritten(st, c, ps, failed).0 == ApplyPieces(st, ps, failed)
    decreases |ps|
  {
    if ps != [] && c in st.connAddrs {
      AsWrittenAgreesUnlessRaised(ApplyPiece(st, ps[0], failed), c, ps[1..], failed);
    }
  }

  /** Where the code as written does not raise, it does what Receive does. */
  lemma ReceiveAsWrittenAgrees(st: State, c: Conn, data: seq<byte>, failed: set<Conn>)
    requires Valid(st)
    ensures ReceiveAsWritten(st, c, data, failed).1 in {Served, AddrLookupFailed}
    ensures ReceiveAsWritten(st, c, data, failed).1 == Served ==>
      ReceiveAsWritten(st, c, data, failed).0 == Receive(st, c, data, failed)
  {
    if c in st.connections && data != [] {
      AsWrittenAgreesUnlessRaised(st, c, Decode(data), failed);
    }
  }

  /** Histories only grow: bytes delivered, operations on the Z80 and disconnections are never taken back. */
  ghost predicate Extends(a: State, b: State)
  {
    && (forall c :: c in a.delivered ==> c in b.delivered && a.delivered[c] <= b.delivered[c])
    && a.z80 <= b.z80
    && a.disconnected <= b.disconnected
  }

  lemma ExtendsTransitive(a: State, b: State, c: State)
    requires Extends(a, b) && Extends(b, c)
    ensures Extends(a, c)
  {
  }

  lemma SendToAllExtends(st: State, data: string, failed: set<Conn>)
    requires Valid(st)
    ensures Extends(st, SendToAll(st, data, failed))
  {
    SendToAllSpec(st, data, failed);
  }

  lemma {:induction false} ApplyPiecesExtends(st: State, ps: seq<Piece>, failed: set<Conn>)
    requires Valid(st)
    ensures Extends(st, ApplyPieces(st, ps, failed))
    decreases |ps|
  {
    if ps != [] {
      var next := ApplyPiece(st, ps[0], failed);
      if ps[0].Cmd? && ps[0].payload == [ResetCommand] {
        SendToAllExtends(st.(z80 := st.z80 + [Pulse]), "\n", failed);
      }
      ApplyPiecesExtends(next, ps[1..], failed);
      ExtendsTransitive(st, next, ApplyPieces(next, ps[1..], failed));
    }
  }

  /** Every step of serve_once extends the histories of the previous state. */
  lemma StepExtends(st: State, ev: Event, failed: set<Conn>)
    requires Valid(st) && Admissible(st, ev)
    ensures Extends(st, Step(st, ev, failed).0)
  {
    if st.listening {
      match ev
      case Accept(c, peer) =>
      case Z80Data(data) => SendToAllExtends(st, data, failed);
      case Recv(c, data) =>
        if c in st.connections && data != [] {
          ApplyPiecesExtends(st, Decode(data), failed);
        }
      case Broken(_) =>
    }
  }

  /** Once closed, serve_once only raises RuntimeError. */
  lemma ClosedServerRefuses(st: State, ev: Event, failed: set<Conn>)
    requires Valid(st) && Admissible(st, ev) && !st.listening
    ensures Step(st, ev, failed) == (st, ServerClosed)
  {
  }
}
