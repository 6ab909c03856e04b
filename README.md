# TCP Switch client, modelled in Dafny

This project models `TcpSwitchConnection`, the client that a Home Assistant
integration uses to drive a multi-channel relay board. The board speaks a
line-less ASCII protocol over TCP:

- `00` asks for the state of every channel.
- `<1|2><channel>[:<delay>]` switches one channel on (`1`) or off (`2`).
  The `:<delay>` suffix is added only when a momentary delay is configured.

The client holds one persistent socket. The first message connects it. After
that the socket is reused until `disconnect`. Nothing retries a failed call.
Every socket failure is caught and turns the result into `None`. The client
stores `str()` of the bytes received (or `None`) in `_data`. `get_status(c)`
then reports channel `c` as on when character `c` of that text is `'1'`.

## Layout

- `wrappers.dfy`: `Option` and `Result`.
- `pyint.dfy` (`PyInt`): Python's `str()` of an integer, a decimal reader, and
  the round trip between them.
- `pybytes.dfy` (`PyBytes`): Python's `str()` of a `bytes` object, following
  CPython's `bytes.__repr__`: the `b` prefix, smart quotes, the escapes
  `\\ \' \t \n \r \xhh`. Also a reader for that text, and the round trip.
- `const.dfy` (`Const`): the integration's constants (status command `00`,
  poll interval 60 s, receive size 1024).
- `protocol.dfy` (`Protocol`): the pure parts of the client. These are the
  scan-interval rule, the toggle message with a reader for it, and the
  decoding done by `get_status`.
- `connection.dfy` (`Connection`): the class `TcpSwitchConnection`. Its fields
  are `_data`, `_socket`, `_connected` and `_connecting`. The methods
  `Connect`, `Disconnect`, `SendTcpMessage`, `UpdateStatus` and `Toggle`
  change those fields. `GetStatus` only reads them.

The socket is an oracle passed in as a parameter:

- `ConnectOutcome`: `socket.socket()` raises, or `connect()` raises, or both
  succeed.
- `Exchange`: `send()` raises, or `recv()` raises, or `recv()` returns some
  bytes.
- `closeRaises`: whether `close()` raises.

A ghost field `io` records every socket call in order. This makes "no I/O",
"one connection attempt at most" and "what was sent" statable.

## Behaviour of the code as written

The model keeps these traits of the code:

- **No retry, no per-call connection.** The connection is persistent and made
  lazily. A failed `send` or `recv` leaves `_connected` true and the socket in
  place. The next message uses the same socket again.
- **The stored reply is `str(bytes)`, not the payload.** `_data` holds text
  such as `b'100'`. So index 0 is always `b`, index 1 is always the opening
  quote, and index -1 is the closing quote. All three always read as off.
  For a reply of printable bytes, payload byte `k` sits at index `k + 2`
  (`PyBytes.ReprOfPrintable`, `Protocol.SnapshotStatus`).
- **An index outside the stored text raises `IndexError`.** `get_status` does
  not catch it, so the model returns `Failure(IndexOutOfRange)` and does not
  read the channel as off. Python's negative indices count from the end, and
  the model does the same.

## Model

| member | source | states |
|---|---|---|
| `PyInt.NatToStringRoundTrip` | custom_components/tcp_switch/connection.py:147 | the decimal rendering of the momentary delay reads back as the same number |
| `PyInt.IntToStringRoundTrip` | custom_components/tcp_switch/connection.py:149 | `str(channel)` reads back as the same channel, negatives included |
| `PyInt.IntToStringInjective` | custom_components/tcp_switch/connection.py:149 | two different channels never produce the same text on the wire |
| `PyBytes.Repr` | custom_components/tcp_switch/connection.py:125 | the stored reply always starts with `b` and a quote, and ends with that same quote, at least 3 characters in all |
| `PyBytes.ReprRoundTrip` | custom_components/tcp_switch/connection.py:125 | the stored text determines the received bytes: reading it back gives exactly the bytes `recv` returned |
| `PyBytes.ReprInjective` | custom_components/tcp_switch/connection.py:125 | different replies are stored as different text |
| `PyBytes.ReprOfPrintable` | custom_components/tcp_switch/connection.py:125 | for printable replies the stored text is `b'` + the reply + `'`, so reply byte k is character k + 2 |
| `Protocol.ScanIntervalSeconds` | custom_components/tcp_switch/connection.py:35-36 | the poll interval is below 60 s if and only if 0 < delay < 60, and then it equals the delay; it is never above 60 s, nor above a positive delay |
| `Protocol.ToggleMessageShape` | custom_components/tcp_switch/connection.py:139-149 | the toggle message starts with `1` exactly when switching on and `2` otherwise; it contains `:` if and only if the delay is positive; with no positive delay it is the action followed by `str(channel)` and nothing else; it is ASCII; it is never the status command |
| `Protocol.ToggleRoundTrip` | custom_components/tcp_switch/connection.py:139-149 | reading the toggle message back gives exactly the action, the channel and, only when positive, the delay |
| `Protocol.StatusCommandIsNoToggle` | custom_components/tcp_switch/const.py:12 | the status command `00` does not read as a toggle command |
| `Protocol.StatusAt` | custom_components/tcp_switch/connection.py:153-163 | no stored reply reads as off; with a stored reply, an index outside it is an error (both directions); on means that the stored text contains `'1'` |
| `Protocol.SnapshotStatus` | custom_components/tcp_switch/connection.py:156-161 | for a reply of `1`/`0` states, index c + 2 reads state c; indices 0, 1 and the closing quote read off; the index just past the text is an error |
| `Protocol.StatusOfPrintableReply` | custom_components/tcp_switch/connection.py:159-161 | for any reply of printable bytes, index k + 2 of the stored text reads on exactly when reply byte k is `1`; every other byte reads off |
| `Protocol.StoredReplyEdgesReadOff` | custom_components/tcp_switch/connection.py:159-161 | whatever bytes come back, indices 0, 1 and -1 of the stored text read as off |
| `Connection.StatusAfterMessage` | custom_components/tcp_switch/connection.py:132-137 | after a message that stored `None` (it never reached the socket, or send or recv raised), every channel reads off; after a snapshot reply, index c + 2 reads state c |
| `Connection.MessageIoConnectsAtMostOnce` | custom_components/tcp_switch/connection.py:114-118 | one message makes at most one connection attempt, and none when already connected (no retry) |
| `Connection.TcpSwitchConnection.constructor` | custom_components/tcp_switch/connection.py:17-36 | keeps the configuration; starts disconnected, with no data and no I/O; the scan interval follows the scan-interval rule |
| `Connection.TcpSwitchConnection.Connect` | custom_components/tcp_switch/connection.py:74-91 | when connected or connecting it makes no socket call and leaves `_socket`, `_connected` and `_data` as they were, but still clears `_connecting` (the `finally` runs on every path, so a second caller clears the first caller's busy flag); otherwise opens a socket and attempts one connection; connected exactly when both calls succeed; a raising `socket()` leaves `_socket` as it was; `_connecting` is false on every exit; the invariant "connected exactly when the socket connected" is kept |
| `Connection.TcpSwitchConnection.Disconnect` | custom_components/tcp_switch/connection.py:93-105 | always ends with no socket and not connected, whether `close()` raises or there is no socket at all; calls `close()` only on an existing socket; raises nothing |
| `Connection.TcpSwitchConnection.SendTcpMessage` | custom_components/tcp_switch/connection.py:107-132 | no I/O and `None` while connecting; connects first when not connected; returns `None` when it cannot connect or when send or recv raises; returns `str()` of the received bytes only after a send and a recv on a connected socket, which is then the established socket; makes at most one connection attempt; a failed send or recv leaves the connection state unchanged |
| `Connection.TcpSwitchConnection.UpdateStatus` | custom_components/tcp_switch/connection.py:134-137 | sends `00` and stores the message's result (`None` on any failure) in `_data` |
| `Connection.TcpSwitchConnection.Toggle` | custom_components/tcp_switch/connection.py:139-151 | sends exactly the toggle message for the action, the channel and the delay, and stores the result in `_data` |
| `Connection.TcpSwitchConnection.GetStatus` | custom_components/tcp_switch/connection.py:153-163 | reads only; `None` stored reads as off; on implies that a reply is stored and contains `'1'` |

## Left out

- Real socket I/O: `socket.socket`, `connect`, `send`, `recv` and `close` are oracle parameters. The model does not pick their outcomes.
- `recv` never returns more than 1024 bytes. The model does not bound the reply length, so it only records the requested size in the `Recv` event.
- `send` may write only part of the message, and the code ignores its return value. The model records the message handed to `send`, not the bytes that reached the wire.
- Socket identity: `_socket` is modelled as none, unconnected or established. A socket that `connect` replaces without closing it is not tracked.
- UTF-8 encoding of the message: the `Send` event records the text. `Protocol.ToggleMessageShape` proves toggle messages are ASCII, and `00` is ASCII, so each character is one byte.
- Logging and the `_host_details` string: diagnostics only.
- The timer callbacks `tcp_switch_refresh`, `tcp_switch_connect` and `tcp_switch_disconnect` (connection.py:40-57): each forwards to one method that is modelled.
- The constructor's catch-all (connection.py:59-60), which can leave a half-initialised object. The constructor takes every configuration value as a parameter, so all of them are present.
- The properties `channels`, `switch_name` and `scan_interval`: each returns a field, modelled as the constant fields `channels`, `switchName` and `scanInterval`.
- `scanInterval` is in whole seconds, not a `timedelta`.
- `switch.py` (the Home Assistant entity, config schema and polling setup) is not part of this model. It also calls `turn_on`/`turn_off`, which `TcpSwitchConnection` does not define.
- Concurrency: `_connecting` is true only inside `connect`, so another caller sees it only when calls interleave. The model checks the "busy" branches of `connect` and `send_tcp_message` as sequential code. It does not model interleavings.
- Blocking: the code sets no socket timeout, so `connect` and `recv` may never return. The oracle has no "never returns" outcome; every modelled call finishes.
- `get_status` with a channel that is not an `int` raises `TypeError`. Channels are `int` in the model.
