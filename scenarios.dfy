/**
 * Concrete runs of the relay that show what the dispatch loop's exception
 * handler does as written, next to what the corrected handler does.
 */
module Scenarios {
  import opened Wrappers
  import opened Registry
  import opened Relay

  /** A listener (channel 0) that has accepted client 1, whose forward channel 2
      has connected: both channels wait to read. */
  method ConnectedPair() returns (s: TcpForwardServer)
    ensures fresh(s) && s.Valid() && s.RegistryOpen() && s.server == 0
    ensures s.peers == map[1 := 2, 2 := 1] && s.closed == {}
    ensures s.keys == map[0 := Key({Accept}, None), 1 := Key({Read}, None), 2 := Key({Read}, None)]
  {
    s := new TcpForwardServer(0);
    var e := s.OnAccepted(Accepted);
    assert s.peers == map[1 := 2, 2 := 1];
    e := s.OnConnected(2, Finished(true));
  }

  /** A client reset: the read on channel 1 throws and the handler runs. The
      pair stays in the registry, the forward channel 2 is never closed, and a
      later readable event on channel 2 returns early without reading, so the
      channel stays readable and is selected again on every pass. */
  method ResetLeavesPairRegistered() returns (s: TcpForwardServer, spin: Exit)
    ensures s.Valid() && s.peers == map[1 := 2, 2 := 1]
    ensures 1 in s.closed && 2 !in s.closed && 2 in s.keys && !s.RegistryOpen()
    ensures spin == Returned && Read in s.keys[2].interest
  {
    s := ConnectedPair();
    var e := s.OnRead(1, ReadFailed);
    assert e == Raised;
    var shadow;
    e, shadow := s.OnFailure(1, map[]);
    var keysBefore := s.keys;
    spin := s.OnRead(2, Received(5));
    assert s.keys == keysBefore;
  }

  /** The same reset handled by the corrected handler: both channels are
      closed and the registry is empty again. */
  method ResetClosesPairWhenFixed() returns (s: TcpForwardServer)
    ensures s.Valid() && s.RegistryOpen()
    ensures s.peers == map[] && s.closed == {1, 2} && s.keys == map[0 := Key({Accept}, None)]
  {
    s := ConnectedPair();
    var e := s.OnRead(1, ReadFailed);
    e := s.OnFailureFixed(1);
    assert Unlink(map[1 := 2, 2 := 1], 1) == map[];
  }

  /** A failing `accept` on the listener: the handler's cast of the listener's
      channel fails, the exception leaves the loop and the server stops; the
      listener's key is cancelled on the way out. */
  method AcceptFailureStopsServer() returns (s: TcpForwardServer, exit: Exit)
    ensures exit == Escaped && s.keys == map[]
  {
    s := new TcpForwardServer(0);
    var e := s.OnAccepted(AcceptFailed);
    assert e == Raised;
    var shadow;
    exit, shadow := s.OnFailure(0, map[]);
  }

  /** The same failure handled by the corrected handler: the listener keeps its
      key and goes on accepting. */
  method AcceptFailureKeepsServingWhenFixed() returns (s: TcpForwardServer, exit: Exit)
    ensures exit == Returned && s.keys == map[0 := Key({Accept}, None)]
  {
    s := new TcpForwardServer(0);
    var e := s.OnAccepted(AcceptFailed);
    exit := s.OnFailureFixed(0);
  }
}
