# TcpForward relay and command line, modelled in Dafny

TcpForward is a single-threaded TCP port forwarder built on one non-blocking
selector. Each accepted client gets a new connection to a fixed forward
address. The two sockets are recorded as each other's peer in a two-way map.
Data goes across in chunks of up to 4 MiB. While a chunk waits to be written,
reading stops on the side it came from (backpressure). An end of stream on
either side closes both sockets.

The model has five modules:

- `Relay` (relay.dfy) models class `TcpForwardServer`.
  - It is a class with the `map` registry (`peers`), the selection keys with
    their interest sets and attached buffers (`keys`), and the closed channels.
  - Each handler is a method. It takes the operating system's answer as a
    parameter: the accepted connection, `finishConnect`, the read count, or
    the room a write finds.
  - Each handler states the new state in full and preserves `Valid()`. `Valid()`
    says:
    - the registry is symmetric with no self-pairs;
    - every buffer is well formed;
    - a buffer with bytes left to write keeps its key waiting to write;
    - while a chunk waits to be written, the side it came from is not read
      (backpressure);
    - a channel still waiting to connect waits for nothing else, and its peer
      has no key yet.
  - The selector only reports an operation the key is interested in. Each
    handler therefore requires the operation it serves to be in its key's
    interest set. Only a key's own handlers remove bits from its interest set,
    so the requirement holds through one pass of the four tests.
  - `Dispatch` runs the four readiness tests of the selected-key loop in
    order. A caught exception goes to the corrected exception handler
    (see "## Findings"). The handler as written is `OnFailure`.
- `Registry` (registry.dfy) holds the two map updates the relay makes: linking
  a pair and unlinking it. Each keeps the registry symmetric.
- `CommandLine` (params.dfy) models `Params.parse`.
  - It is a loop method proved equal to a declarative outcome, `ParseSpec`.
    `ParseSpec` gives the first bad pair's error; otherwise a missing bind or
    forward port; otherwise the last value given for each field, or that
    field's default.
  - It reproduces the five exception messages. A malformed `-fp` value reports
    "bind port number format error.", the same text as a malformed `-p`
    (Params.java line 76 reuses line 57's message).
- `Decimal` (decimal.dfy) models the part of `Integer.parseInt` that `parse`
  depends on: an optional sign, ASCII digits, and the signed 32-bit range.
- `Scenarios` (scenarios.dfy) gives concrete runs that show the two findings
  below next to the corrected handler.

Sockets are channel ids. Closing a channel adds it to `closed` and drops its key.

Handlers exit in one of three ways:

- `Returned`: the handler returned normally.
- `Raised`: an IOException or CancelledKeyException, which the loop catches.
- `Escaped`: an unchecked exception that leaves `startForever`:
  - a NullPointerException when `accept` returned null (the invariant rules
    out the one at line 196: a key waiting to write always holds a buffer);
  - a ClassCastException in the catch block.

The exception handler as written looks the peer up in the loop's own local
map, which is a different object from the field. In `OnFailure` that local map
is the `shadow` parameter.

## Model

| member | source | states |
|---|---|---|
| Registry.Link | src/com/github/shenwii/TcpForwardServer.java:111-112 | the two puts add exactly the two channels, each mapped to the other, change no other entry, and keep a symmetric registry symmetric |
| Registry.Unlink | src/com/github/shenwii/TcpForwardServer.java:135-139 | removing a channel and its peer drops exactly those two keys, changes no other entry, and keeps the registry symmetric |
| Relay.TcpForwardServer.constructor | src/com/github/shenwii/TcpForwardServer.java:39-46 | a new server has an empty registry, no closed channels, and only the listener's key, which waits to accept; the invariant holds |
| Relay.TcpForwardServer.ClosePair | src/com/github/shenwii/TcpForwardServer.java:132-139 | closing a pair closes and unregisters both channels, cancels their keys, changes nothing else, and keeps every registered channel open |
| Relay.TcpForwardServer.OnAccepted | src/com/github/shenwii/TcpForwardServer.java:101-113 | an accepted client is paired with a new forward channel; only the forward channel gets a key, and it waits to connect; a null accept escapes; a failed accept or failed forward setup raises and leaves registry and keys unchanged |
| Relay.TcpForwardServer.AcceptPair | src/com/github/shenwii/TcpForwardServer.java:103-112 | the two new ids are unused; the registry becomes Link of them; the forward key waits to connect; the invariant holds |
| Relay.TcpForwardServer.OnConnected | src/com/github/shenwii/TcpForwardServer.java:121-141 | called only on a key waiting to connect; an unregistered channel is ignored; a finished connect sets this key to read only and registers the peer to read (it raises if the peer is closed); an unfinished connect closes the pair; a failing finishConnect raises with nothing changed |
| Relay.TcpForwardServer.OnRead | src/com/github/shenwii/TcpForwardServer.java:149-179 | with no pair or no peer key nothing happens; a read of n bytes attaches a flipped buffer of min(n, 4 MiB) bytes to the peer, adds write to the peer's interest and removes read from this channel's; end of stream closes the pair; a read error raises with nothing changed; a chunk the peer still has to write is never replaced, because a channel being read has a peer with nothing left to write |
| Relay.TcpForwardServer.Handoff | src/com/github/shenwii/TcpForwardServer.java:162-167 | the peer's key holds the chunk and waits to write, and this key stops reading; the backpressure invariant holds |
| Relay.TcpForwardServer.OnWrote | src/com/github/shenwii/TcpForwardServer.java:187-206 | a key waiting to write always holds a buffer, so the handler never escapes; a write moves the position by the bytes written, at most what remains; a drained buffer ends the write interest and resumes the peer's read; a write error raises; registry and closed set never change |
| Relay.TcpForwardServer.OnFailure | src/com/github/shenwii/TcpForwardServer.java:76-89 | the handler as written: the key is cancelled, and only the peer found in the local map and the channel itself are closed, so the field registry is unchanged; a failing pair member stays registered though closed; the listener's key escapes |
| Relay.TcpForwardServer.OnFailureFixed | src/com/github/shenwii/TcpForwardServer.java:76-89 | the corrected handler: a failing channel's whole pair is closed and unregistered, so every registered channel stays open; the listener keeps serving |
| Relay.TcpForwardServer.Handle | src/com/github/shenwii/TcpForwardServer.java:64-75 | a readiness test on a cancelled key raises; an operation that is not ready changes nothing; a ready one keeps the invariant, takes away no interest of the key except the one it served, and leaves every channel outside `ch`'s pair with its key and its open or closed state |
| Relay.TcpForwardServer.Dispatch | src/com/github/shenwii/TcpForwardServer.java:61-90 | one selected key, with the corrected handler: no exception gets past the catch; every registered channel stays open; the registry only gains the accepted pair (listener) or loses this channel's pair (socket); an event on an unpaired channel whose key is gone closes that channel and changes nothing else; a failure on one pair never touches the keys or the open or closed state of a channel outside it |
| Relay.TcpForwardServer.TestsFromAccept | src/com/github/shenwii/TcpForwardServer.java:64-75 | the four tests in order keep the invariant and the open registry, only link the accepted pair (listener) or unlink `ch`'s pair (socket), and touch no channel outside `ch`'s pair |
| Relay.TcpForwardServer.TestsFromConnect | src/com/github/shenwii/TcpForwardServer.java:67-75 | the connect, read and write tests: the same, and the listener's key is left alone |
| Relay.TcpForwardServer.TestsFromRead | src/com/github/shenwii/TcpForwardServer.java:70-75 | the read and write tests: the same, and the listener's key is left alone |
| Relay.AcceptKeepsInvariant | src/com/github/shenwii/TcpForwardServer.java:105-112 | pairing the next two channels and giving the forward one a key that waits to connect keeps the invariant and the open registry |
| Relay.CloseKeepsInvariant | src/com/github/shenwii/TcpForwardServer.java:132-139 | closing a channel and its peer and dropping their keys and entries keeps the invariant and the open registry |
| Scenarios.ConnectedPair | src/com/github/shenwii/TcpForwardServer.java:101-141 | after one accept and a successful connect, the pair is registered both ways and both channels wait to read |
| Scenarios.ResetLeavesPairRegistered | src/com/github/shenwii/TcpForwardServer.java:76-89 | after a read error on the client, the as-written handler leaves the pair registered and the peer open; the peer's read event then returns without reading while still interested in reading |
| Scenarios.ResetClosesPairWhenFixed | src/com/github/shenwii/TcpForwardServer.java:76-89 | the corrected handler closes both channels after the same read error and empties the registry |
| Scenarios.AcceptFailureStopsServer | src/com/github/shenwii/TcpForwardServer.java:76-78 | a failing accept makes the as-written handler escape and leaves no key |
| Scenarios.AcceptFailureKeepsServingWhenFixed | src/com/github/shenwii/TcpForwardServer.java:76-78 | with the corrected handler the listener keeps its accept key |
| Decimal.ParseInt | src/com/github/shenwii/Params.java:52 | an accepted text has an optional sign and at least one digit, and its value is within the signed 32-bit range |
| Decimal.DigitsValueOfDigits | src/com/github/shenwii/Params.java:52 | reading back a number's decimal digits gives the number |
| Decimal.ParseIntShow | src/com/github/shenwii/Params.java:52 | every 32-bit integer's decimal text parses back to it |
| Decimal.ParseIntOverflow | src/com/github/shenwii/Params.java:52 | a magnitude above 2147483647 is rejected unsigned or with `+`; with `-`, 2147483648 gives the minimum int and anything larger is rejected |
| Decimal.ParseIntRejectsNonDigit | src/com/github/shenwii/Params.java:52 | any character other than a digit (a sign allowed only first) makes the text fail |
| CommandLine.PortValue | src/com/github/shenwii/Params.java:51-58 | a port is accepted, as its own value, exactly when it parses as a 32-bit decimal in 1..65535; the format error means exactly that it does not parse, otherwise the error is the range error |
| CommandLine.PortValueShow | src/com/github/shenwii/Params.java:51-55 | every port in 1..65535, written in decimal, is accepted as itself |
| CommandLine.ResolvedStep | src/com/github/shenwii/Params.java:42-79 | one accepted pair updates exactly the field its option's setter names |
| CommandLine.Parse | src/com/github/shenwii/Params.java:38-87 | the loop's outcome equals ParseSpec: the first bad pair's error, else the missing bind port, else the missing forward port, else the last value of each field or its default |
| CommandLine.NoPairErrorFrom | src/com/github/shenwii/Params.java:40-81 | when the scan succeeds from an index, every pair from there on is accepted |
| CommandLine.PairErrorFound | src/com/github/shenwii/Params.java:40-81 | a bad pair makes the scan fail, with that pair's error when no earlier pair fails |
| CommandLine.LastValueOccurs | src/com/github/shenwii/Params.java:45 | the value kept for an option follows an occurrence of that option at a flag position |
| CommandLine.PortValueOfLastPort | src/com/github/shenwii/Params.java:51-55 | when the scan succeeds, the last value given for a port option is a valid port |
| CommandLine.ParsedPortsInRange | src/com/github/shenwii/Params.java:53-55 | a successful parse has both ports in 1..65535 |
| CommandLine.DefaultAddresses | src/com/github/shenwii/Params.java:11-19 | without -b or -fa, the addresses keep "0.0.0.0" and "127.0.0.1" |
| CommandLine.MissingValueRejected | src/com/github/shenwii/Params.java:43-44 | an option with no value after it is rejected, with the message-less exception when every earlier pair is accepted |
| CommandLine.UnknownOptionRejected | src/com/github/shenwii/Params.java:80 | a token at a flag position that names no option is rejected, with the message-less exception when every earlier pair is accepted |
| CommandLine.BadPortRejected | src/com/github/shenwii/Params.java:51-58 | a port that does not parse, or is out of range, is rejected with the format or the range message |
| CommandLine.MissingPortRejected | src/com/github/shenwii/Params.java:82-85 | omitting -p or -fp is rejected; when every pair is accepted, a missing -p gives "bind port can't be empty." and otherwise a missing -fp gives "forward port can't be empty." |
| CommandLine.LastValueFound | src/com/github/shenwii/Params.java:40-79 | an option given in a complete pair has a last value |
| CommandLine.LastValueSkips | src/com/github/shenwii/Params.java:40-46 | pairs that do not name an option leave that option's value as it was |
| CommandLine.RepeatedFlagLastWins | src/com/github/shenwii/Params.java:45 | when an option is repeated, the value given last is kept |
| CommandLine.AddressValueNotRead | src/com/github/shenwii/Params.java:40-46 | replacing an address value leaves every other option's value unchanged |
| CommandLine.AddressValueNoPairError | src/com/github/shenwii/Params.java:40-46 | replacing an address value does not change which pair fails first |
| CommandLine.AddressValueNeverAFlag | src/com/github/shenwii/Params.java:40 | arguments are consumed in pairs: an address value, even one spelled like an option, changes neither success nor any other field |

## Left out

- The selector, `select()`, the selected-key iterator and the endless outer loop of `startForever` are not modelled. `Dispatch` models one pass for one selected key. The readiness set is a parameter, required to lie within the key's interest set, as the selector guarantees.
- Sockets, byte contents, logging and `Main.java` are not modelled. `showUsage` only prints, so it is not modelled either.
- The constructor's `bind` and the listener's registration are not modelled. The listener's accept key exists from construction on, where the source registers it at the start of `startForever`.
- The forward address and port are not kept in the model. They only matter as the target of `connect`, whose result is an outcome parameter.
- Relay.TcpForwardServer.OnAccepted: when opening or registering the forward channel fails, the accepted client (and the forward channel, if opened) is left open and unregistered. The model only skips their ids and does not track them as leaked.
- A key that `keyFor` returns after its channel was closed but before the selector's next pass is not modelled. A closed channel has no key in the model.
- Unchecked exceptions other than the two named ones are not modelled. One example is an unresolvable forward address.
- Decimal.ParseInt: accepts only ASCII digits. `Integer.parseInt` also accepts other Unicode decimal digits.
- Relay.TcpForwardServer.Dispatch: calls the corrected handler `OnFailureFixed`, not the handler at lines 76-89 as written. The as-written behaviour is `OnFailure` and the `Scenarios` runs.

## Findings

| source | as written | input that shows it | evidently intended | confidence | as-written member | corrected member |
|---|---|---|---|---|---|---|
| src/com/github/shenwii/TcpForwardServer.java:53 | the catch block looks the peer up in a local map declared at line 53, which shadows the field and is never filled, so it never closes the peer and never unregisters either channel | a client whose read throws (a connection reset) after its forward connection is established | close both channels of the pair and remove both entries from the field registry | not executed | Scenarios.ResetLeavesPairRegistered | Relay.TcpForwardServer.OnFailureFixed |
| src/com/github/shenwii/TcpForwardServer.java:78 | the catch block casts the key's channel to SocketChannel, which fails for the listener's key, so an IOException from `accept` ends the server | `accept` throws on the listener (for example, too many open files) | keep the listener's key and go on accepting | not executed | Scenarios.AcceptFailureStopsServer | Relay.TcpForwardServer.OnFailureFixed |
