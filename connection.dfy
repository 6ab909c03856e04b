/**
 * The relay board client `TcpSwitchConnection`: one persistent TCP socket,
 * connected lazily by the first message sent, with the last reply kept as
 * text for `get_status` to read.
 *
 * The socket itself is not modelled. Each operation that touches it takes the
 * outcome of its socket calls as a parameter (an oracle chosen by the network):
 * whether `socket.socket()` or `connect()` raises, whether `send()` or `recv()`
 * raises or what bytes `recv()` returns, whether `close()` raises. The ghost
 * field `io` records the socket calls made, in order.
 */
module Connection {
  import opened Wrappers
  import opened PyBytes
  import Const
  import Protocol
  import PyInt

  /** How the two calls of `connect` turn out. */
  datatype ConnectOutcome =
    | SocketRaises   // socket.socket(...) raises
    | ConnectRaises  // the socket is made, its connect(...) raises
    | Connects       // both return normally

  /** How the `send` and `recv` calls of one message turn out. */
  datatype Exchange =
    | SendRaises
    | RecvRaises
    | Reply(payload: seq<byte>)

  /** The network's answers to one `send_tcp_message`. */
  datatype Peer = Peer(connect: ConnectOutcome, exchange: Exchange)

  /** What `_socket` refers to. */
  datatype SocketRef =
    | NoSocket     // None
    | Unconnected  // a socket whose connect(...) raised
    | Established  // a socket whose connect(...) returned

  /** One call on the socket layer. */
  datatype IoEvent =
    | OpenSocket
    | ConnectTo(host: string, port: int)
    | Send(message: string)
    | Recv(size: nat)
    | Close

  /** The number of connection attempts in a trace of socket calls. */
  function CountConnects(io: seq<IoEvent>): nat {
    if io == [] then 0 else (if io[0].ConnectTo? then 1 else 0) + CountConnects(io[1..])
  }

  lemma {:induction false} CountConnectsAppend(a: seq<IoEvent>, b: seq<IoEvent>)
    ensures CountConnects(a + b) == CountConnects(a) + CountConnects(b)
  {
    if a != [] {
      assert (a + b)[0] == a[0] && (a + b)[1..] == a[1..] + b;
      CountConnectsAppend(a[1..], b);
    } else {
      assert a + b == b;
    }
  }

  /** The socket calls `connect` makes once it goes ahead. */
  function ConnectIo(outcome: ConnectOutcome, host: string, port: int): seq<IoEvent> {
    if outcome == SocketRaises then [OpenSocket] else [OpenSocket, ConnectTo(host, port)]
  }

  /** The socket calls `send_tcp_message` makes on a connected socket. */
  function ExchangeIo(message: string, exchange: Exchange): seq<IoEvent> {
    if exchange == SendRaises then [Send(message)] else [Send(message), Recv(Const.Buffer)]
  }

  /** What `_socket` refers to after `connect` goes ahead. */
  function SocketAfter(before: SocketRef, outcome: ConnectOutcome): SocketRef {
    match outcome
    case SocketRaises => before
    case ConnectRaises => Unconnected
    case Connects => Established
  }

  /** Whether `send_tcp_message` gets as far as `send`: nobody is connecting, and it is connected or connects. */
  predicate ReachesSocket(connecting: bool, connected: bool, outcome: ConnectOutcome) {
    !connecting && (connected || outcome == Connects)
  }

  /** The value `send_tcp_message` returns, given how far it gets. */
  function MessageResult(reaches: bool, exchange: Exchange): Option<string> {
    if reaches && exchange.Reply? then Some(Repr(exchange.payload)) else None
  }

  /** Every socket call `send_tcp_message` makes. */
  function MessageIo(connecting: bool, connected: bool, peer: Peer, host: string, port: int, message: string): seq<IoEvent> {
    if connecting then []
    else
      (if connected then [] else ConnectIo(peer.connect, host, port))
      + (if connected || peer.connect == Connects then ExchangeIo(message, peer.exchange) else [])
  }

  lemma MessageIoConnectsAtMostOnce(connecting: bool, connected: bool, peer: Peer, host: string, port: int, message: string)
    ensures CountConnects(MessageIo(connecting, connected, peer, host, port, message)) <= 1
    ensures connected ==> CountConnects(MessageIo(connecting, connected, peer, host, port, message)) == 0
  {
    if !connecting {
      var c := if connected then [] else ConnectIo(peer.connect, host, port);
      var e := if connected || peer.connect == Connects then ExchangeIo(message, peer.exchange) else [];
      CountConnectsAppend(c, e);
      assert CountConnects(e) == 0 by {
        if e != [] {
          assert e[1..] == [] || e[1..] == [Recv(Const.Buffer)];
          if e[1..] != [] {
            assert e[1..][1..] == [];
          }
        }
      }
      assert CountConnects(c) <= 1 by {
        if c != [] {
          assert c[1..] == [] || c[1..] == [ConnectTo(host, port)];
          if c[1..] != [] {
            assert c[1..][1..] == [];
          }
        }
      }
    }
  }

  /**
   * What `get_status` reads after a message has stored its result: off on
   * every channel unless the message reached the socket and got a reply, and,
   * for a reply listing channel states, state c at index c + 2.
   */
  lemma StatusAfterMessage(reaches: bool, exchange: Exchange, states: seq<bool>, channel: int)
    ensures !(reaches && exchange.Reply?) ==>
      Protocol.StatusAt(MessageResult(reaches, exchange), channel) == Success(false)
    ensures reaches && exchange == Reply(Protocol.Snapshot(states)) && 0 <= channel < |states| ==>
      Protocol.StatusAt(MessageResult(reaches, exchange), channel + 2) == Success(states[channel])
  {
    Protocol.SnapshotStatus(states);
  }

  class TcpSwitchConnection {
    const switchName: string
    const serverName: string
    const serverPort: int
    const momentaryDelay: int
    const channels: seq<int>
    /** The poll interval, in seconds. */
    const scanInterval: nat

    /** The last reply, as `str()` of the bytes received, or None. */
    var data: Option<string>
    var socket: SocketRef
    var connected: bool
    var connecting: bool
    ghost var io: seq<IoEvent>

    /** `_connected` is set exactly while `_socket` holds a socket that connected. */
    ghost predicate Valid()
      reads this
    {
      connected <==> socket == Established
    }

    /** Construction from a configuration whose entries are all present; no I/O. */
    constructor (name: string, host: string, port: int, delay: int, channelList: seq<int>)
      ensures Valid()
      ensures switchName == name && serverName == host && serverPort == port
      ensures momentaryDelay == delay && channels == channelList
      ensures scanInterval == Protocol.ScanIntervalSeconds(delay)
      ensures data == None && socket == NoSocket && !connected && !connecting
      ensures io == []
    {
      switchName := name;
      serverName := host;
      serverPort := port;
      momentaryDelay := delay;
      channels := channelList;
      var interval := Const.ScanInterval;
      if 0 < delay < Const.ScanInterval {
        interval := delay;
      }
      scanInterval := interval;
      data := None;
      socket := NoSocket;
      connected := false;
      connecting := false;
      io := [];
    }

    /**
     * Opens and connects a socket unless already connected or connecting.
     * Any exception is caught: it leaves `connected` false. `connecting` is
     * false on every exit, so a call that finds another caller connecting
     * makes no socket call but still clears that caller's flag.
     */
    method Connect(outcome: ConnectOutcome)
      requires Valid()
      modifies this
      ensures Valid()
      ensures !connecting
      ensures data == old(data)
      ensures old(connected) || old(connecting) ==>
        socket == old(socket) && connected == old(connected) && io == old(io)
      ensures !old(connected) && !old(connecting) ==>
        && socket == SocketAfter(old(socket), outcome)
        && (connected <==> outcome == Connects)
        && io == old(io) + ConnectIo(outcome, serverName, serverPort)
    {
      if !connected && !connecting {
        connecting := true;
        io := io + [OpenSocket];
        match outcome {
          case SocketRaises =>
            connected := false;
          case ConnectRaises =>
            socket := Unconnected;
            io := io + [ConnectTo(serverName, serverPort)];
            connected := false;
          case Connects =>
            socket := Unconnected;
            io := io + [ConnectTo(serverName, serverPort)];
            socket := Established;
            connected := true;
        }
      }
      connecting := false;
    }

    /**
     * Closes the socket if there is one; an exception from `close()`, or from
     * calling it on None, is caught. Either way the socket is dropped and the
     * client is disconnected.
     */
    method Disconnect(closeRaises: bool)
      requires Valid()
      modifies this
      ensures Valid()
      ensures socket == NoSocket && !connected
      ensures connecting == old(connecting) && data == old(data)
      ensures io == old(io) + (if old(socket) == NoSocket then [] else [Close])
    {
      if socket != NoSocket {
        io := io + [Close];
        if closeRaises {
          // the exception is logged and swallowed
        }
      }
      socket := NoSocket;
      connected := false;
    }

    /**
     * Sends `message` and returns `str()` of the bytes received, connecting
     * first if needed. Does nothing while another call is connecting. Every
     * exception is caught and yields None; a failed send or receive leaves
     * the socket and `connected` as they were.
     */
    method SendTcpMessage(message: string, peer: Peer) returns (result: Option<string>)
      requires Valid()
      modifies this
      ensures Valid()
      ensures data == old(data) && connecting == old(connecting)
      ensures result == MessageResult(ReachesSocket(old(connecting), old(connected), peer.connect), peer.exchange)
      ensures result.Some? ==> connected && !old(connecting) && peer.exchange.Reply?
      ensures result.Some? ==> socket == Established
      ensures result.Some? ==> |io| >= 2 && io[|io| - 2..] == [Send(message), Recv(Const.Buffer)]
      ensures old(connecting) ==> result == None && io == old(io)
      ensures old(connecting) || old(connected) ==> socket == old(socket) && connected == old(connected)
      ensures !old(connecting) && !old(connected) ==>
        socket == SocketAfter(old(socket), peer.connect) && (connected <==> peer.connect == Connects)
      ensures io == old(io) + MessageIo(old(connecting), old(connected), peer, serverName, serverPort, message)
      ensures CountConnects(io) <= CountConnects(old(io)) + 1
    {
      ghost var io0 := io;
      result := None;
      if !connecting {
        if !connected {
          Connect(peer.connect);
        }
        if connected {
          io := io + [Send(message)];
          match peer.exchange {
            case SendRaises =>
            case RecvRaises =>
              io := io + [Recv(Const.Buffer)];
            case Reply(payload) =>
              io := io + [Recv(Const.Buffer)];
              result := Some(Repr(payload));
          }
        }
      }
      MessageIoConnectsAtMostOnce(old(connecting), old(connected), peer, serverName, serverPort, message);
      CountConnectsAppend(io0, MessageIo(old(connecting), old(connected), peer, serverName, serverPort, message));
    }

    /** Sends the status command and keeps what comes back (None on any failure). */
    method UpdateStatus(peer: Peer)
      requires Valid()
      modifies this
      ensures Valid()
      ensures connecting == old(connecting)
      ensures data == MessageResult(ReachesSocket(old(connecting), old(connected), peer.connect), peer.exchange)
      ensures io == old(io) + MessageIo(old(connecting), old(connected), peer, serverName, serverPort, Const.StatusCommand)
      ensures !old(connecting) && !old(connected) ==>
        socket == SocketAfter(old(socket), peer.connect) && (connected <==> peer.connect == Connects)
      ensures old(connecting) || old(connected) ==> socket == old(socket) && connected == old(connected)
    {
      data := SendTcpMessage(Const.StatusCommand, peer);
    }

    /**
     * Sends the toggle command for `channel` (with the momentary delay when
     * it is positive) and keeps what comes back (None on any failure).
     */
    method Toggle(turnOn: bool, channel: int, peer: Peer)
      requires Valid()
      modifies this
      ensures Valid()
      ensures connecting == old(connecting)
      ensures data == MessageResult(ReachesSocket(old(connecting), old(connected), peer.connect), peer.exchange)
      ensures io == old(io) + MessageIo(old(connecting), old(connected), peer, serverName, serverPort,
                                        Protocol.ToggleMessage(turnOn, channel, momentaryDelay))
      ensures !old(connecting) && !old(connected) ==>
        socket == SocketAfter(old(socket), peer.connect) && (connected <==> peer.connect == Connects)
      ensures old(connecting) || old(connected) ==> socket == old(socket) && connected == old(connected)
    {
      var cmd := '2';
      var delay := "";
      if turnOn {
        cmd := '1';
      }
      if momentaryDelay > 0 {
        delay := ":" + PyInt.NatToString(momentaryDelay);
      }
      var msg := [cmd] + PyInt.IntToString(channel) + delay;
      data := SendTcpMessage(msg, peer);
    }

    /** Whether `channel` is on according to the last reply; reads only. */
    function GetStatus(channel: int): (r: Result<bool, Protocol.StatusError>)
      reads this
      ensures data.None? ==> r == Success(false)
      ensures r == Success(true) ==> data.Some? && '1' in data.value
    {
      Protocol.StatusAt(data, channel)
    }
  }
}
