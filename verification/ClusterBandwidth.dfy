/** Cluster-wide byte totals from peers' latest reports. */
module ClusterBandwidth {
  import opened MapSums

  datatype PeerEntry = PeerEntry(cumulativeIn: Word, cumulativeOut: Word, lastSeen: int)

  ghost function SumIn(peers: map<nat, PeerEntry>): (total: nat) {
    MapSumNonNegative(peers, (e: PeerEntry) => e.cumulativeIn as int);
    MapSum(peers, (e: PeerEntry) => e.cumulativeIn as int)
  }

  ghost function SumOut(peers: map<nat, PeerEntry>): (total: nat) {
    MapSumNonNegative(peers, (e: PeerEntry) => e.cumulativeOut as int);
    MapSum(peers, (e: PeerEntry) => e.cumulativeOut as int)
  }

  /** A report replaces its peer's previous one in the totals. */
  lemma ReportReplaces(peers: map<nat, PeerEntry>, id: nat, e: PeerEntry)
    ensures SumIn(peers[id := e]) == SumIn(peers) - (if id in peers then peers[id].cumulativeIn as int else 0) + e.cumulativeIn as int
    ensures SumOut(peers[id := e]) == SumOut(peers) - (if id in peers then peers[id].cumulativeOut as int else 0) + e.cumulativeOut as int
  {
    MapSumInsert(peers, (e: PeerEntry) => e.cumulativeIn as int, id, e);
    MapSumInsert(peers, (e: PeerEntry) => e.cumulativeOut as int, id, e);
  }

  lemma TakeOne(peers: map<nat, PeerEntry>, rest: set<nat>, id: nat)
    requires id in rest && rest <= peers.Keys
    ensures SumIn(peers - (rest - {id})) == SumIn(peers - rest) + peers[id].cumulativeIn as int
    ensures SumOut(peers - (rest - {id})) == SumOut(peers - rest) + peers[id].cumulativeOut as int
  {
    assert peers - (rest - {id}) == (peers - rest)[id := peers[id]];
    ReportReplaces(peers - rest, id, peers[id]);
  }

  class ClusterBandwidthState {
    var peers: map<nat, PeerEntry>
    var totalBytesIn: Word
    var totalBytesOut: Word
    var peerCount: nat
    const staleTimeout: nat

    /** The published totals are the saturated sums of the peers' reports. */
    ghost predicate Valid()
      reads this
    {
      && totalBytesIn == Saturate(SumIn(peers)) && totalBytesOut == Saturate(SumOut(peers))
      && peerCount == |peers|
    }

    constructor (staleTimeout: nat)
      ensures Valid() && peers == map[] && this.staleTimeout == staleTimeout
    {
      this.staleTimeout, peers := staleTimeout, map[];
      totalBytesIn, totalBytesOut, peerCount := 0, 0, 0;
    }

    method UpdatePeer(id: nat, cumulativeIn: Word, cumulativeOut: Word, now: int)
      modifies this
      ensures Valid() && peers == old(peers)[id := PeerEntry(cumulativeIn, cumulativeOut, now)]
    {
      peers := peers[id := PeerEntry(cumulativeIn, cumulativeOut, now)];
      Recalculate();
    }

    method EvictStale(now: int)
      modifies this
      ensures Valid()
      ensures peers == map id | id in old(peers) && old(peers)[id].lastSeen > now - staleTimeout :: old(peers)[id]
    {
      peers := map id | id in peers && peers[id].lastSeen > now - staleTimeout :: peers[id];
      Recalculate();
    }

    /** Adds the reports up in whatever order the map yields them. */
    method Recalculate()
      modifies this`totalBytesIn, this`totalBytesOut, this`peerCount
      ensures Valid()
    {
      var totalIn: Word, totalOut: Word := 0, 0;
      var rest := peers.Keys;
      assert peers - rest == map[];
      while rest != {}
        invariant rest <= peers.Keys
        invariant totalIn == Saturate(SumIn(peers - rest)) && totalOut == Saturate(SumOut(peers - rest))
        decreases rest
      {
        var id :| id in rest;
        TakeOne(peers, rest, id);
        SaturateStep(SumIn(peers - rest), peers[id].cumulativeIn);
        SaturateStep(SumOut(peers - rest), peers[id].cumulativeOut);
        totalIn := SaturatingAdd(totalIn, peers[id].cumulativeIn);
        totalOut := SaturatingAdd(totalOut, peers[id].cumulativeOut);
        rest := rest - {id};
      }
      assert peers - {} == peers;
      totalBytesIn, totalBytesOut, peerCount := totalIn, totalOut, |peers|;
    }
  }
}
