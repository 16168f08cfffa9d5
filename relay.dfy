/**
 * The relay engine of the forwarder (class `TcpForwardServer`): the
 * bidirectional channel registry, the selection keys with their interest
 * sets and attached buffers, and the four readiness handlers together with
 * the per-key dispatch and its exception handler.
 *
 * Sockets and the selector are abstracted: a channel is an id, closing it
 * adds it to `closed` and drops its key, and every answer the operating
 * system gives (an accepted connection, `finishConnect`, a read count, the
 * room a write finds) is a parameter of the handler that asks for it.
 */
module Relay {
  import opened Wrappers
  import opened Registry

  /** The capacity of every buffer a read allocates (4 MiB). */
  const BUFFER_SIZE: nat := 0x40_0000

  function Min(a: nat, b: nat): (m: nat)
    ensures m <= a && m <= b && (m == a || m == b)
  {
    if a <= b then a else b
  }

  /** The interest and readiness bits of a selection key. */
  datatype Op = Accept | Connect | Read | Write

  /** The counters of a ByteBuffer; the bytes themselves are never inspected. */
  datatype Buffer = Buffer(position: nat, limit: nat, capacity: nat)
  {
    predicate Valid()
    {
      position <= limit <= capacity
    }

    predicate HasRemaining()
    {
      position < limit
    }

    function Remaining(): (n: nat)
      requires Valid()
    {
      limit - position
    }

    /** A channel read or write moves the position over `n` transferred bytes. */
    function Advance(n: nat): (b: Buffer)
      requires Valid() && n <= Remaining()
      ensures b.Valid() && b.limit == limit && b.capacity == capacity
      ensures b.Remaining() == Remaining() - n
    {
      Buffer(position + n, limit, capacity)
    }

    /** `flip()`: what was filled so far becomes the range still to be drained. */
    function Flip(): (b: Buffer)
      requires Valid()
      ensures b.Valid() && b.position == 0 && b.Remaining() == position && b.capacity == capacity
    {
      Buffer(0, position, capacity)
    }
  }

  /** A selection key: its interest set and its attachment. */
  datatype Key = Key(interest: set<Op>, attachment: Option<Buffer>)

  /** How a handler leaves: normally, with an IOException or CancelledKeyException
      that the dispatch loop catches, or with an unchecked exception that leaves
      the loop and ends the server. */
  datatype Exit = Returned | Raised | Escaped

  /** What `accept` and the opening of the forward connection produce. */
  datatype AcceptOutcome =
    | Accepted        // a client is accepted and its forward connection is initiated
    | NonePending     // `accept` returns null
    | AcceptFailed    // `accept` throws
    | ForwardFailed   // the forward channel's open, connect or register throws

  /** What `finishConnect` produces. */
  datatype ConnectOutcome = Finished(connected: bool) | ConnectFailed

  /** What a read finds: some bytes (possibly none), end of stream, or an error. */
  datatype ReadOutcome = Received(available: nat) | EndOfStream | ReadFailed

  /** How many bytes the socket can take, or an error. */
  datatype WriteOutcome = Room(bytes: nat) | WriteFailed

  /** The operating system's answers to one dispatch of a selected key. */
  datatype Outcomes = Outcomes(accept: AcceptOutcome, connect: ConnectOutcome,
                               read: ReadOutcome, write: WriteOutcome)

  /** A key's attachment is a well-formed buffer of the configured size; a key
      waiting to write always has one, and a buffer with bytes left to write keeps
      its key waiting to write. A key waiting to connect waits for nothing else
      and carries no buffer. */
  predicate KeyOk(k: Key)
  {
    && (k.attachment.Some? ==> k.attachment.value.Valid() && k.attachment.value.capacity == BUFFER_SIZE)
    && (Write in k.interest ==> k.attachment.Some?)
    && (k.attachment.Some? && k.attachment.value.HasRemaining() ==> Write in k.interest)
    && (Connect in k.interest ==> k.interest == {Connect} && k.attachment == None)
  }

  /** Backpressure: while a channel waits to write a chunk, its peer is not read. */
  ghost predicate Backpressure(peers: map<Channel, Channel>, keys: map<Channel, Key>)
  {
    forall a :: a in peers && a in keys && peers[a] in keys && Write in keys[peers[a]].interest ==>
      Read !in keys[a].interest
  }

  /** While a channel waits for its connection to finish, its peer has no key. */
  ghost predicate Connecting(peers: map<Channel, Channel>, keys: map<Channel, Key>)
  {
    forall a :: a in peers && a in keys && Connect in keys[a].interest ==> peers[a] !in keys
  }

  /** The relay's invariant: the registry is symmetric and holds neither the
      listener nor an unknown channel, every key is well formed, a closed channel
      has no key, and backpressure and the connect order hold. */
  ghost predicate Invariant(server: Channel, peers: map<Channel, Channel>, keys: map<Channel, Key>,
                            closed: set<Channel>, nextId: Channel)
  {
    && Paired(peers)
    && server < nextId && server !in peers
    && (forall c :: c in peers ==> c < nextId)
    && (forall c :: c in keys ==> c < nextId && KeyOk(keys[c]))
    && (forall c :: c in closed ==> c < nextId && c !in keys)
    && Backpressure(peers, keys)
    && Connecting(peers, keys)
  }

  /** Pairing the two next channels and giving the second one a key that waits to
      connect keeps the invariant. */
  lemma AcceptKeepsInvariant(server: Channel, peers: map<Channel, Channel>, keys: map<Channel, Key>,
                             closed: set<Channel>, n: Channel)
    requires Invariant(server, peers, keys, closed, n)
    ensures n !in peers && n + 1 !in peers && n !in keys && n + 1 !in keys
    ensures Invariant(server, Link(peers, n, n + 1), keys[n + 1 := Key({Connect}, None)], closed, n + 2)
    ensures (forall a :: a in peers ==> a !in closed) ==> forall a :: a in Link(peers, n, n + 1) ==> a !in closed
  {
    var peers', keys' := Link(peers, n, n + 1), keys[n + 1 := Key({Connect}, None)];
    assert Backpressure(peers', keys');
    forall a | a in peers' && a in keys' && Connect in keys'[a].interest
      ensures peers'[a] !in keys'
    {
      if a != n + 1 {
        assert a in peers && a in keys && peers'[a] == peers[a];
      }
    }
  }

  /** Closing a registered channel and its peer, dropping their keys and their
      entries, keeps the invariant, and keeps every registered channel open. */
  lemma CloseKeepsInvariant(server: Channel, peers: map<Channel, Channel>, keys: map<Channel, Key>,
                            closed: set<Channel>, n: Channel, c: Channel)
    requires Invariant(server, peers, keys, closed, n) && c in peers
    ensures Invariant(server, Unlink(peers, c), keys - {c, peers[c]}, closed + {c, peers[c]}, n)
    ensures (forall a :: a in peers ==> a !in closed) ==>
              forall a :: a in Unlink(peers, c) ==> a !in closed + {c, peers[c]}
  {
    var peers', keys' := Unlink(peers, c), keys - {c, peers[c]};
    assert Backpressure(peers', keys') by {
      forall a | a in peers' && a in keys' && peers'[a] in keys' && Write in keys'[peers'[a]].interest
        ensures Read !in keys'[a].interest
      {
        assert a in peers && a in keys && peers[a] in keys;
      }
    }
  }

  /** The channel `m` pairs with `ch`, if any. */
  function PeerOf(m: map<Channel, Channel>, ch: Channel): (r: set<Channel>)
    ensures ch in m ==> r == {m[ch]}
    ensures ch !in m ==> r == {}
  {
    if ch in m then {m[ch]} else {}
  }

  /** From the keys and closed set `keys0`, `closed0` to `keys1`, `closed1`, every
      channel below `n` outside `pair` keeps its key, or its lack of one, and stays
      open or closed as it was. */
  ghost predicate Untouched(keys0: map<Channel, Key>, closed0: set<Channel>,
                            keys1: map<Channel, Key>, closed1: set<Channel>,
                            pair: set<Channel>, n: nat)
  {
    && (forall c :: c in keys0 && c !in pair ==> c in keys1 && keys1[c] == keys0[c])
    && (forall c :: c in keys1 && c < n && c !in pair ==> c in keys0)
    && closed1 - pair == closed0 - pair
  }

  /** Two steps that each leave a channel alone leave it alone together. */
  lemma UntouchedTrans(keys0: map<Channel, Key>, closed0: set<Channel>,
                       keys1: map<Channel, Key>, closed1: set<Channel>,
                       keys2: map<Channel, Key>, closed2: set<Channel>,
                       pair: set<Channel>, pair': set<Channel>, n: nat, n': nat)
    requires Untouched(keys0, closed0, keys1, closed1, pair, n)
    requires Untouched(keys1, closed1, keys2, closed2, pair', n')
    requires pair' <= pair && n <= n'
    ensures Untouched(keys0, closed0, keys2, closed2, pair, n)
  {
    assert closed2 - pair == (closed2 - pair') - pair;
    assert closed0 - pair == (closed1 - pair') - pair;
  }

  /** `ch` together with the channel it is paired with in `m`, if any. */
  function Around(m: map<Channel, Channel>, ch: Channel): (r: set<Channel>)
    ensures forall c :: c in r <==> c == ch || (ch in m && c == m[ch])
  {
    {ch} + PeerOf(m, ch)
  }

  class TcpForwardServer {
    /** The listening channel. */
    const server: Channel
    /** The `map` field: each paired channel to its peer. */
    var peers: map<Channel, Channel>
    /** The selector's valid keys, by channel. */
    var keys: map<Channel, Key>
    /** Channels that have been closed. */
    var closed: set<Channel>
    /** Every channel created so far has an id below this one. */
    var nextId: Channel

    ghost predicate Valid()
      reads this
    {
      Invariant(server, peers, keys, closed, nextId)
    }

    /** Every registered channel is still open. */
    ghost predicate RegistryOpen()
      reads this
    {
      forall c :: c in peers ==> c !in closed
    }

    /** The exception handler's map only holds channels that exist. */
    ghost predicate ShadowOk(shadow: map<Channel, Channel>)
      reads this
    {
      forall c :: c in shadow ==> c < nextId && shadow[c] < nextId
    }

    /** A bound listener whose key waits for connections. */
    constructor (server: Channel)
      ensures Valid() && RegistryOpen() && this.server == server && nextId == server + 1
      ensures peers == map[] && closed == {} && keys == map[server := Key({Accept}, None)]
    {
      this.server := server;
      peers := map[];
      keys := map[server := Key({Accept}, None)];
      closed := {};
      nextId := server + 1;
    }

    /** `close()`: the channel is closed and its key cancelled. */
    method Close(c: Channel)
      modifies this
      ensures closed == old(closed) + {c} && keys == old(keys) - {c}
      ensures peers == old(peers) && nextId == old(nextId)
    {
      closed := closed + {c};
      keys := keys - {c};
    }

    /** Closes a registered channel and its peer and removes both entries. */
    method ClosePair(c1: Channel)
      requires Valid() && c1 in peers
      modifies this
      ensures Valid() && nextId == old(nextId)
      ensures old(RegistryOpen()) ==> RegistryOpen()
      ensures peers == Unlink(old(peers), c1)
      ensures closed == old(closed) + {c1, old(peers)[c1]}
      ensures keys == old(keys) - {c1, old(peers)[c1]}
    {
      var c2 := peers[c1];
      CloseKeepsInvariant(server, peers, keys, closed, nextId, c1);
      Close(c2);
      peers := peers - {c2};
      Close(c1);
      peers := peers - {c1};
      assert keys == old(keys) - {c1, c2} && closed == old(closed) + {c1, c2};
    }

    /** `onAccepted`: pairs the accepted client with a new forward channel whose
        connection is initiated; only the forward channel gets a key, waiting to connect. */
    method OnAccepted(outcome: AcceptOutcome) returns (exit: Exit)
      requires Valid()
      modifies this
      ensures Valid() && closed == old(closed) && old(nextId) <= nextId
      ensures old(RegistryOpen()) ==> RegistryOpen()
      ensures outcome == Accepted ==>
        && exit == Returned
        && old(nextId) !in old(peers) && old(nextId) + 1 !in old(peers)
        && old(nextId) !in old(keys) && old(nextId) + 1 !in old(keys)
        && peers == Link(old(peers), old(nextId), old(nextId) + 1)
        && keys == old(keys)[old(nextId) + 1 := Key({Connect}, None)]
      ensures outcome != Accepted ==> peers == old(peers) && keys == old(keys)
      ensures outcome == NonePending ==> exit == Escaped
      ensures outcome == AcceptFailed || outcome == ForwardFailed ==> exit == Raised
    {
      match outcome
      case AcceptFailed =>
        exit := Raised;
      case NonePending =>
        // `client.configureBlocking` on the null `accept` result
        exit := Escaped;
      case ForwardFailed =>
        // the accepted channel (and the forward one, if opened) is left unregistered
        nextId := nextId + 2;
        exit := Raised;
      case Accepted =>
        var client, forward := AcceptPair();
        assert client == old(nextId) && forward == old(nextId) + 1;
        exit := Returned;
    }

    /** Takes the accepted client and a newly opened forward channel, registers the
        forward channel to wait for its connection, and records the two as each
        other's peer. */
    method AcceptPair() returns (client: Channel, forward: Channel)
      requires Valid()
      modifies this
      ensures Valid() && closed == old(closed) && nextId == old(nextId) + 2
      ensures old(RegistryOpen()) ==> RegistryOpen()
      ensures client == old(nextId) && forward == old(nextId) + 1
      ensures client !in old(peers) && forward !in old(peers) && client !in old(keys) && forward !in old(keys)
      ensures peers == Link(old(peers), client, forward)
      ensures keys == old(keys)[forward := Key({Connect}, None)]
    {
      client := nextId;
      forward := client + 1;
      AcceptKeepsInvariant(server, peers, keys, closed, client);
      // the two `put`s
      var peers' := Link(peers, client, client + 1);
      var keys' := keys[client + 1 := Key({Connect}, None)];
      assert Invariant(server, peers', keys', closed, client + 2);
      nextId, keys, peers := client + 2, keys', peers';
    }

    /** `onConnected`: on a finished connection both channels wait to read; an
        unfinished one tears the pair down. */
    method OnConnected(ch: Channel, outcome: ConnectOutcome) returns (exit: Exit)
      requires Valid() && ch in keys && ch != server && Connect in keys[ch].interest
      modifies this
      ensures Valid() && nextId == old(nextId)
      ensures old(RegistryOpen()) ==> RegistryOpen()
      ensures peers == old(peers) || (ch in old(peers) && peers == Unlink(old(peers), ch) && ch !in keys)
      ensures ch !in old(peers) ==> exit == Returned && unchanged(this)
      ensures ch in old(peers) && outcome == ConnectFailed ==> exit == Raised && unchanged(this)
      ensures ch in old(peers) && outcome == Finished(true) ==>
        var peer := old(peers)[ch];
        && peers == old(peers) && closed == old(closed)
        && (peer !in old(closed) ==>
              exit == Returned &&
              keys == old(keys)[ch := old(keys)[ch].(interest := {Read})][peer := Key({Read}, None)])
        && (peer in old(closed) ==>
              exit == Raised && keys == old(keys)[ch := old(keys)[ch].(interest := {Read})])
      ensures ch in old(peers) && outcome == Finished(false) ==>
        && exit == Returned
        && peers == Unlink(old(peers), ch)
        && closed == old(closed) + {ch, old(peers)[ch]}
        && keys == old(keys) - {ch, old(peers)[ch]}
    {
      if ch !in peers {
        return Returned;
      }
      var peer := peers[ch];
      match outcome
      case ConnectFailed =>
        exit := Raised;
      case Finished(connected) =>
        if connected {
          keys := keys[ch := keys[ch].(interest := {Read})];
          if peer in closed {
            // registering a closed channel throws ClosedChannelException
            return Raised;
          }
          keys := keys[peer := Key({Read}, None)];
        } else {
          ClosePair(ch);
        }
        exit := Returned;
    }

    /** `onRead`: a read of zero or more bytes hands the chunk to the peer's key,
        which starts waiting to write while this channel stops being read; end of
        stream tears the pair down. */
    method OnRead(ch: Channel, outcome: ReadOutcome) returns (exit: Exit)
      requires Valid() && ch in keys && ch != server && Read in keys[ch].interest
      modifies this
      ensures Valid() && nextId == old(nextId)
      ensures old(RegistryOpen()) ==> RegistryOpen()
      ensures peers == old(peers) || (ch in old(peers) && peers == Unlink(old(peers), ch) && ch !in keys)
      ensures ch !in old(peers) || old(peers)[ch] !in old(keys) ==> exit == Returned && unchanged(this)
      ensures ch in old(peers) && old(peers)[ch] in old(keys) && outcome == ReadFailed ==>
        exit == Raised && unchanged(this)
      ensures ch in old(peers) && old(peers)[ch] in old(keys) && outcome == EndOfStream ==>
        && exit == Returned
        && peers == Unlink(old(peers), ch)
        && closed == old(closed) + {ch, old(peers)[ch]}
        && keys == old(keys) - {ch, old(peers)[ch]}
      ensures ch in old(peers) && old(peers)[ch] in old(keys) ==>
        var b := old(keys)[old(peers)[ch]].attachment;
        b.None? || !b.value.HasRemaining()
      ensures ch in old(peers) && old(peers)[ch] in old(keys) && outcome.Received? ==>
        var peer := old(peers)[ch];
        var chunk := Buffer(0, Min(outcome.available, BUFFER_SIZE), BUFFER_SIZE);
        && exit == Returned && peers == old(peers) && closed == old(closed)
        && keys == old(keys)[peer := Key(old(keys)[peer].interest + {Write}, Some(chunk))]
                            [ch := old(keys)[ch].(interest := old(keys)[ch].interest - {Read})]
    {
      if ch !in peers {
        return Returned;
      }
      var peer := peers[ch];
      if peer !in keys {
        // `keyFor` finds no key for the peer
        return Returned;
      }
      // the peer's chunk, if any, is drained: it stopped waiting to write, or
      // this channel would not be waiting to read
      assert Write !in keys[peer].interest;
      if outcome == ReadFailed {
        return Raised;
      }
      // `allocate` and `clear()`: empty, with room for BUFFER_SIZE bytes
      var buffer := Buffer(0, BUFFER_SIZE, BUFFER_SIZE);
      var read: int := -1;
      if outcome.Received? {
        read := Min(outcome.available, BUFFER_SIZE);
        buffer := buffer.(position := read);
      }
      if read >= 0 {
        Handoff(ch, peer, buffer.Flip());
      } else {
        ClosePair(ch);
      }
      exit := Returned;
    }

    /** Attaches a freshly read chunk to the peer's key, which starts waiting to
        write, and stops reading the channel it came from. */
    method Handoff(ch: Channel, peer: Channel, chunk: Buffer)
      requires Valid() && ch in peers && peer == peers[ch] && ch in keys && peer in keys
      requires chunk.Valid() && chunk.capacity == BUFFER_SIZE
      modifies this
      ensures Valid() && nextId == old(nextId) && peers == old(peers) && closed == old(closed)
      ensures keys == old(keys)[peer := Key(old(keys)[peer].interest + {Write}, Some(chunk))]
                               [ch := old(keys)[ch].(interest := old(keys)[ch].interest - {Read})]
    {
      keys := keys[peer := keys[peer].(attachment := Some(chunk))];
      keys := keys[peer := keys[peer].(interest := keys[peer].interest + {Write})];
      keys := keys[ch := keys[ch].(interest := keys[ch].interest - {Read})];
    }

    /** `onWrote`: drains the attached chunk into the channel; only on a later
        writable event that finds it drained does the channel stop waiting to
        write and its peer resume being read. */
    method OnWrote(ch: Channel, outcome: WriteOutcome) returns (exit: Exit)
      requires Valid() && ch in keys && ch != server && Write in keys[ch].interest
      modifies this
      ensures Valid() && nextId == old(nextId) && peers == old(peers) && closed == old(closed)
      ensures ch !in old(peers) || old(peers)[ch] !in old(keys) ==> exit == Returned && unchanged(this)
      ensures old(keys)[ch].attachment.Some? && exit != Escaped
      ensures ch in old(peers) && old(peers)[ch] in old(keys) ==>
        var peer := old(peers)[ch];
        var key := old(keys)[ch];
        var b := key.attachment.value;
        && (b.HasRemaining() && outcome == WriteFailed ==> exit == Raised && unchanged(this))
        && (b.HasRemaining() && outcome.Room? ==>
              var n := Min(outcome.bytes, b.limit - b.position);
              exit == Returned &&
              keys == old(keys)[ch := key.(attachment := Some(Buffer(b.position + n, b.limit, b.capacity)))])
        && (!b.HasRemaining() ==>
              exit == Returned &&
              keys == old(keys)[ch := key.(interest := key.interest - {Write})]
                               [peer := old(keys)[peer].(interest := old(keys)[peer].interest + {Read})])
    {
      if ch !in peers {
        return Returned;
      }
      var peer := peers[ch];
      if peer !in keys {
        return Returned;
      }
      // a key waiting to write always holds a buffer, so `hasRemaining` never
      // meets a null attachment
      var buffer := keys[ch].attachment.value;
      if buffer.HasRemaining() {
        match outcome {
          case WriteFailed =>
            return Raised;
          case Room(bytes) =>
            buffer := buffer.Advance(Min(bytes, buffer.Remaining()));
            keys := keys[ch := keys[ch].(attachment := Some(buffer))];
        }
      } else {
        keys := keys[ch := keys[ch].(interest := keys[ch].interest - {Write})];
        keys := keys[peer := keys[peer].(interest := keys[peer].interest + {Read})];
      }
      exit := Returned;
    }

    /** The exception handler of the dispatch loop, as written: it cancels the key,
        then looks the peer up in `shadow`, the loop's own local map (always empty),
        never in the `map` field. On the listener's key the cast to a socket channel
        fails and the exception leaves the loop. */
    method OnFailure(ch: Channel, shadow: map<Channel, Channel>) returns (exit: Exit, shadow': map<Channel, Channel>)
      requires Valid() && ShadowOk(shadow) && ch < nextId
      modifies this
      ensures Valid() && ShadowOk(shadow')
      ensures peers == old(peers) && nextId == old(nextId)
      ensures ch == server ==> exit == Escaped && keys == old(keys) - {ch} && closed == old(closed) && shadow' == shadow
      ensures ch != server ==>
        && exit == Returned
        && closed == old(closed) + {ch} + PeerOf(shadow, ch)
        && keys == old(keys) - ({ch} + PeerOf(shadow, ch))
        && shadow' == shadow - ({ch} + PeerOf(shadow, ch))
      ensures ch != server && ch in old(peers) ==> ch in peers && ch in closed && !RegistryOpen()
      ensures shadow == map[] ==> shadow' == map[]
    {
      keys := keys - {ch};
      shadow' := shadow;
      if ch == server {
        return Escaped, shadow';
      }
      if ch in shadow' {
        var other := shadow'[ch];
        Close(other);
        shadow' := shadow' - {other};
      }
      Close(ch);
      shadow' := shadow' - {ch};
      exit := Returned;
    }

    /** The exception handler as evidently intended: the failing channel's whole pair
        is torn down through the `map` field, and a failure on the listener's key
        leaves the server serving. */
    method OnFailureFixed(ch: Channel) returns (exit: Exit)
      requires Valid() && ch < nextId
      modifies this
      ensures Valid() && exit == Returned && nextId == old(nextId)
      ensures old(RegistryOpen()) ==> RegistryOpen()
      ensures ch == server ==> unchanged(this)
      ensures ch != server && ch in old(peers) ==>
        && peers == Unlink(old(peers), ch)
        && closed == old(closed) + {ch, old(peers)[ch]}
        && keys == old(keys) - {ch, old(peers)[ch]}
      ensures ch != server && ch !in old(peers) ==>
        peers == old(peers) && closed == old(closed) + {ch} && keys == old(keys) - {ch}
      ensures Untouched(old(keys), old(closed), keys, closed, Around(old(peers), ch), old(nextId))
    {
      exit := Returned;
      if ch == server {
        return;
      }
      if ch in peers {
        ClosePair(ch);
      } else {
        Close(ch);
      }
    }

    /** One readiness test of the selected-key loop and, when it holds, its handler.
        The test itself throws CancelledKeyException once the key is cancelled. The
        selector only reports operations the key is interested in. */
    method Handle(ch: Channel, op: Op, ready: set<Op>, os: Outcomes) returns (r: Exit)
      requires Valid() && ch < nextId
      requires ch == server ==> ready <= {Accept}
      requires ch != server ==> Accept !in ready
      requires ch in keys && op in ready ==> op in keys[ch].interest
      modifies this
      ensures Valid() && old(nextId) <= nextId
      ensures old(RegistryOpen()) ==> RegistryOpen()
      ensures ch !in old(keys) ==> r == Raised && unchanged(this)
      ensures ch in old(keys) && op !in ready ==> r == Returned && unchanged(this)
      ensures ch == server && ch in old(keys) && op != Accept ==> r == Returned && unchanged(this)
      ensures r == Raised ==> peers == old(peers)
      ensures ch != server ==>
        peers == old(peers) || (ch in old(peers) && peers == Unlink(old(peers), ch) && ch !in keys)
      ensures ch == server && ch in old(keys) ==>
        ch in keys && (peers == old(peers) || peers == Link(old(peers), old(nextId), old(nextId) + 1))
      // the handler only takes away the interest it served
      ensures ch in keys ==> ch in old(keys) && old(keys)[ch].interest - {op} <= keys[ch].interest
      // channels outside `ch`'s pair keep their keys and their open or closed state
      ensures Untouched(old(keys), old(closed), keys, closed, Around(old(peers), ch), old(nextId))
    {
      if ch !in keys {
        return Raised;
      }
      if op !in ready {
        return Returned;
      }
      match op
      case Accept => r := OnAccepted(os.accept);
      case Connect => r := OnConnected(ch, os.connect);
      case Read => r := OnRead(ch, os.read);
      case Write => r := OnWrote(ch, os.write);
    }

    /** The read and then the write test of the selected-key loop, stopping at
        the first exception. */
    method TestsFromRead(ch: Channel, ready: set<Op>, os: Outcomes) returns (r: Exit)
      requires Valid() && ch < nextId
      requires ch == server ==> ready <= {Accept}
      requires ch != server ==> Accept !in ready
      requires ch in keys ==> ready - {Accept, Connect} <= keys[ch].interest
      modifies this
      ensures Valid() && old(nextId) <= nextId
      ensures old(RegistryOpen()) ==> RegistryOpen()
      ensures ch !in old(keys) ==> r == Raised && unchanged(this)
      ensures ch != server ==>
        peers == old(peers) || (ch in old(peers) && peers == Unlink(old(peers), ch) && ch !in keys)
      ensures ch == server && ch in old(keys) ==>
        ch in keys && (peers == old(peers) || peers == Link(old(peers), old(nextId), old(nextId) + 1))
      ensures Untouched(old(keys), old(closed), keys, closed, Around(old(peers), ch), old(nextId))
      ensures ch == server && ch in old(keys) ==> r == Returned && unchanged(this)
    {
      ghost var pair, n0, k0, c0 := Around(peers, ch), nextId, keys, closed;
      r := Handle(ch, Read, ready, os);
      if r == Returned {
        assert Around(peers, ch) <= pair;
        ghost var k1, c1, p1, n1 := keys, closed, Around(peers, ch), nextId;
        r := Handle(ch, Write, ready, os);
        UntouchedTrans(k0, c0, k1, c1, keys, closed, pair, p1, n0, n1);
      }
    }

    /** The connect, read and write tests of the selected-key loop, stopping at the
        first exception. */
    method TestsFromConnect(ch: Channel, ready: set<Op>, os: Outcomes) returns (r: Exit)
      requires Valid() && ch < nextId
      requires ch == server ==> ready <= {Accept}
      requires ch != server ==> Accept !in ready
      requires ch in keys ==> ready - {Accept} <= keys[ch].interest
      modifies this
      ensures Valid() && old(nextId) <= nextId
      ensures old(RegistryOpen()) ==> RegistryOpen()
      ensures ch !in old(keys) ==> r == Raised && unchanged(this)
      ensures ch != server ==>
        peers == old(peers) || (ch in old(peers) && peers == Unlink(old(peers), ch) && ch !in keys)
      ensures ch == server && ch in old(keys) ==>
        ch in keys && (peers == old(peers) || peers == Link(old(peers), old(nextId), old(nextId) + 1))
      ensures Untouched(old(keys), old(closed), keys, closed, Around(old(peers), ch), old(nextId))
      ensures ch == server && ch in old(keys) ==> r == Returned && unchanged(this)
    {
      ghost var pair, n0, k0, c0 := Around(peers, ch), nextId, keys, closed;
      r := Handle(ch, Connect, ready, os);
      if r == Returned {
        assert Around(peers, ch) <= pair;
        if ch in keys {
          forall o | o in ready - {Accept, Connect}
            ensures o in keys[ch].interest
          {
            assert ch in k0;
            assert o in k0[ch].interest;
            assert k0[ch].interest - {Connect} <= keys[ch].interest;
            assert o in k0[ch].interest - {Connect};
          }
        }
        ghost var k1, c1, p1, n1 := keys, closed, Around(peers, ch), nextId;
        r := TestsFromRead(ch, ready, os);
        UntouchedTrans(k0, c0, k1, c1, keys, closed, pair, p1, n0, n1);
      }
    }

    /** The four readiness tests of the selected-key loop in order (accept, connect,
        read, write), stopping at the first exception. */
    method TestsFromAccept(ch: Channel, ready: set<Op>, os: Outcomes) returns (r: Exit)
      requires Valid() && ch < nextId
      requires ch == server ==> ready <= {Accept}
      requires ch != server ==> Accept !in ready
      requires ch in keys ==> ready <= keys[ch].interest
      modifies this
      ensures Valid() && old(nextId) <= nextId
      ensures old(RegistryOpen()) ==> RegistryOpen()
      ensures ch !in old(keys) ==> r == Raised && unchanged(this)
      ensures ch != server ==>
        peers == old(peers) || (ch in old(peers) && peers == Unlink(old(peers), ch) && ch !in keys)
      ensures ch == server && ch in old(keys) ==>
        ch in keys && (peers == old(peers) || peers == Link(old(peers), old(nextId), old(nextId) + 1))
      ensures Untouched(old(keys), old(closed), keys, closed, Around(old(peers), ch), old(nextId))
    {
      ghost var pair, n0, k0, c0 := Around(peers, ch), nextId, keys, closed;
      r := Handle(ch, Accept, ready, os);
      if r == Returned {
        assert Around(peers, ch) <= pair;
        if ch in keys {
          forall o | o in ready - {Accept}
            ensures o in keys[ch].interest
          {
            assert o in k0[ch].interest - {Accept};
          }
        }
        ghost var k1, c1, p1, n1 := keys, closed, Around(peers, ch), nextId;
        r := TestsFromConnect(ch, ready, os);
        UntouchedTrans(k0, c0, k1, c1, keys, closed, pair, p1, n0, n1);
      }
    }

    /** One pass of the selected-key loop for `ch`: the readiness tests, and a
        caught exception handed to the corrected exception handler. */
    method Dispatch(ch: Channel, ready: set<Op>, os: Outcomes) returns (exit: Exit)
      requires Valid() && ch < nextId
      requires ch == server ==> ready <= {Accept}
      requires ch != server ==> Accept !in ready
      requires ch in keys ==> ready <= keys[ch].interest
      modifies this
      ensures Valid() && exit != Raised
      ensures old(RegistryOpen()) ==> RegistryOpen()
      ensures ch != server ==> peers == old(peers) || (ch in old(peers) && peers == Unlink(old(peers), ch))
      ensures ch == server ==> peers == old(peers) || peers == Link(old(peers), old(nextId), old(nextId) + 1)
      ensures ch != server && ch !in old(keys) && ch !in old(peers) ==>
        peers == old(peers) && keys == old(keys) && closed == old(closed) + {ch}
      // a failure on one pair never touches another pair
      ensures Untouched(old(keys), old(closed), keys, closed, Around(old(peers), ch), old(nextId))
    {
      ghost var pair, n0, k0, c0 := Around(peers, ch), nextId, keys, closed;
      var r := TestsFromAccept(ch, ready, os);
      if r == Raised {
        assert Around(peers, ch) <= pair;
        ghost var k1, c1, p1, n1 := keys, closed, Around(peers, ch), nextId;
        exit := OnFailureFixed(ch);
        UntouchedTrans(k0, c0, k1, c1, keys, closed, pair, p1, n0, n1);
      } else {
        exit := r;
      }
    }
  }
}
