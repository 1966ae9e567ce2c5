/**
 * Z80Server (zagreus/server.py, lines 70-214) as a class whose fields the
 * methods update in place.  Each method is proved to leave the object in the
 * state the corresponding ServerModel function computes, so every property
 * proved there holds of the object.
 */
module Server {
  import opened Framing
  import opened ServerModel

  class Z80Server {
    var listening: bool
    var connections: seq<Conn>
    var connAddrs: map<Conn, string>
    var backbuffer: string
    var delivered: map<Conn, seq<byte>>
    var z80: seq<Z80Op>
    var disconnected: seq<Conn>

    /** The fields as a ServerModel state. */
    function Snapshot(): ServerModel.State
      reads this
    {
      ServerModel.State(listening, connections, connAddrs, backbuffer, delivered, z80, disconnected)
    }

    ghost predicate Valid()
      reads this
    {
      ServerModel.Valid(Snapshot())
    }

    /** __init__ (server.py:71-79): the Z80 is reset once, nobody is connected yet. */
    constructor()
      ensures Snapshot() == Initial()
      ensures Valid()
    {
      listening := true;
      connections := [];
      connAddrs := map[];
      backbuffer := "";
      delivered := map[];
      z80 := [Pulse];
      disconnected := [];
    }

    /** close_client (server.py:113-117) */
    method CloseClient(c: Conn)
      requires c in connAddrs
      modifies this
      ensures Snapshot() == ServerModel.CloseClient(old(Snapshot()), c)
    {
      connections := Remove(connections, c);
      connAddrs := connAddrs - {c};
      disconnected := disconnected + [c];
    }

    /** Calls close_client on each connection of cs, in order. */
    method CloseClients(cs: seq<Conn>)
      requires NoDup(cs) && Members(cs) <= connAddrs.Keys
      modifies this
      ensures Snapshot() == CloseEach(old(Snapshot()), cs)
    {
      var i := 0;
      while i < |cs|
        invariant 0 <= i <= |cs|
        invariant NoDup(cs[i..]) && Members(cs[i..]) <= connAddrs.Keys
        invariant CloseEach(Snapshot(), cs[i..]) == CloseEach(old(Snapshot()), cs)
      {
        CloseEachCons(Snapshot(), cs[i..]);
        assert cs[i..][1..] == cs[i + 1..];
        CloseClient(cs[i]);
        i := i + 1;
      }
    }

    /** close (server.py:105-111): stop listening, then close every client, iterating over a copy of the list. */
    method Close()
      requires Bookkept(Snapshot())
      modifies this
      ensures Snapshot() == ServerModel.Close(old(Snapshot()))
    {
      listening := false;
      var conns := connections;
      CloseClients(conns);
    }

    /**
     * send_to_all (server.py:125-136): the connections in `failed` are those
     * whose sendall raises.
     */
    method SendToAll(data: string, failed: set<Conn>)
      requires Valid()
      modifies this
      ensures Snapshot() == ServerModel.SendToAll(old(Snapshot()), data, failed)
    {
      backbuffer := backbuffer + data;
      if |backbuffer| > BackbufferMax {
        backbuffer := backbuffer[|backbuffer| - BackbufferMax..];
      }
      assert backbuffer == Trim(old(backbuffer) + data);
      var broken := SendEach(Encode(Utf8(data)), failed);
      CloseClients(broken);
    }

    /** The first loop of send_to_all: send to each connection in turn, collecting those whose send raised. */
    method SendEach(payload: seq<byte>, failed: set<Conn>) returns (broken: seq<Conn>)
      requires NoDup(connections) && Members(connections) <= delivered.Keys
      modifies this
      ensures broken == Keep(connections, failed)
      ensures Snapshot() == old(Snapshot()).(delivered := DeliverTo(old(delivered), Members(connections) - failed, payload))
    {
      broken := [];
      var i := 0;
      while i < |connections|
        invariant 0 <= i <= |connections|
        invariant Snapshot() == old(Snapshot()).(delivered := delivered)
        invariant broken == Keep(connections[..i], failed)
        invariant delivered == DeliverTo(old(delivered), Members(connections[..i]) - failed, payload)
      {
        var conn := connections[i];
        SendStep(connections, i, failed, old(delivered), payload);
        if conn !in failed {
          delivered := delivered[conn := delivered[conn] + payload];
        } else {
          broken := broken + [conn];
        }
        i := i + 1;
      }
      assert connections[..i] == connections;
    }

    /** handle_command (server.py:211-214) */
    method HandleCommand(c: seq<byte>, failed: set<Conn>)
      requires Valid()
      modifies this
      ensures Snapshot() == ServerModel.HandleCommand(old(Snapshot()), c, failed)
    {
      if c == [ResetCommand] {
        z80 := z80 + [Pulse];
        SendToAll("\n", failed);
      }
    }

    /**
     * serve_once (server.py:138-192) for one event reported by select(),
     * returning how the call ends; client data is handled as the corrected
     * ServerModel.Receive does.
     */
    method ServeOnce(ev: Event, failed: set<Conn>) returns (status: Status)
      requires Valid() && Admissible(Snapshot(), ev)
      modifies this
      ensures (Snapshot(), status) == Step(old(Snapshot()), ev, failed)
    {
      if !listening {
        return ServerClosed;
      }
      status := Served;
      match ev
      case Accept(c, peer) =>
        connections := connections + [c];
        connAddrs := connAddrs[c := AddrLabel(peer)];
        if c in failed {
          delivered := delivered[c := []];
          status := AcceptSendFailed;
        } else {
          delivered := delivered[c := Encode(Utf8(backbuffer))];
        }
      case Z80Data(data) =>
        SendToAll(data, failed);
      case Recv(c, data) =>
        if c in connections {
          if data == [] {
            CloseClientRemovesOne(Snapshot(), c);
            CloseClient(c);
          } else {
            ApplyAll(Decode(data), failed);
          }
        }
      case Broken(Listener) =>
        Close();
      case Broken(Z80) =>
        Close();
      case Broken(Client(c)) =>
        if c in connAddrs {
          CloseClientRemovesOne(Snapshot(), c);
          CloseClient(c);
        } else {
          status := AddrLookupFailed;
        }
    }

    /** The loop over decode(data) in serve_once (server.py:182-190). */
    method ApplyAll(pieces: seq<Piece>, failed: set<Conn>)
      requires Valid()
      modifies this
      ensures Snapshot() == ApplyPieces(old(Snapshot()), pieces, failed)
    {
      var i := 0;
      while i < |pieces|
        invariant 0 <= i <= |pieces|
        invariant Valid()
        invariant ApplyPieces(Snapshot(), pieces[i..], failed) == ApplyPieces(old(Snapshot()), pieces, failed)
      {
        ApplyPiecesCons(Snapshot(), pieces[i..], failed);
        assert pieces[i..][1..] == pieces[i + 1..];
        match pieces[i] {
          case Cmd(b) =>
            HandleCommand(b, failed);
          case Text(t) =>
            z80 := z80 + [Write(CrLf(t))];
        }
        i := i + 1;
      }
    }
  }
}
