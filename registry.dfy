/**
 * The pairing registry of the forwarder: a map from each live socket
 * channel to the channel it is relayed to, kept in both directions.
 */
module Registry {

  /** Socket channels are opaque identities. */
  type Channel = nat

  /** The registry invariant: every registered channel's peer is registered,
      points back to it, and is a different channel. */
  ghost predicate Paired(m: map<Channel, Channel>)
  {
    forall a :: a in m ==> m[a] != a && m[a] in m && m[m[a]] == a
  }

  /** Registers `a` and `b` as each other's peer (two `put`s). */
  function Link(m: map<Channel, Channel>, a: Channel, b: Channel): (r: map<Channel, Channel>)
    requires a != b
    ensures r.Keys == m.Keys + {a, b}
    ensures r[a] == b && r[b] == a
    ensures forall c :: c in m && c != a && c != b ==> r[c] == m[c]
    ensures Paired(m) && a !in m && b !in m ==> Paired(r)
  {
    m[a := b][b := a]
  }

  /** Removes a channel and its peer (two `remove`s). */
  function Unlink(m: map<Channel, Channel>, a: Channel): (r: map<Channel, Channel>)
    requires a in m
    ensures r.Keys == m.Keys - {a, m[a]}
    ensures forall c :: c in r ==> r[c] == m[c]
    ensures Paired(m) ==> Paired(r)
  {
    m - {m[a]} - {a}
  }
}
