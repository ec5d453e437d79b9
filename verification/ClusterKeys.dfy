/** Routing with the slots the program computes: the CRC16 of the key text. */
module ClusterKeys {
  import opened ByteStrings
  import opened ClusterRun
  import opened ClusterState
  import opened Crc16

  /** The text of a key: the prefix and the decimal key index. */
  function KeyText(prefix: Bytes, key: nat): Bytes {
    prefix + Dec(key)
  }

  /** The slots of a run are those of calc_hslot_crc16_cluster. */
  ghost predicate HashesKeys(cfg: Config, prefix: Bytes) {
    forall key: nat :: cfg.keySlot(key) == HashSlot(KeyText(prefix, key))
  }

  /** The slot of the Redis Cluster specification: the bit-by-bit CRC16 modulo 16384. */
  function SpecifiedSlot(prefix: Bytes, key: nat): (slot: nat)
    ensures slot < SLOTS
  {
    SlotNumber(CrcOf(KeyText(prefix, key)) % 16384)
  }

  lemma HashedSlot(cfg: Config, prefix: Bytes, key: nat)
    requires HashesKeys(cfg, prefix)
    ensures cfg.keySlot(key) == SpecifiedSlot(prefix, key)
  {
    hide CrcOf, KeyText;
  }

  /** While replies give one topology covering all slots, every pooled key and every SET or GET in flight is with
      the connection that the CRC16 of its text maps to. */
  lemma KeysFollowCrc(cfg: Config, prefix: Bytes, s: Cluster, events: seq<Event>)
    requires HashesKeys(cfg, prefix) && Initial(s) && Run(cfg, s, events).Some?
    requires Topologies(cfg, s, events) != [] && Stable(Topologies(cfg, s, events))
    ensures var t := Run(cfg, s, events).value;
            && |t.slotMap| == SLOTS
            && (forall p, i :: 0 <= p < |t.pools| && 0 <= i < |t.pools[p]| ==>
                  t.slotMap[SpecifiedSlot(prefix, t.pools[p][i])] == p)
            && (forall c, i ::
                  0 <= c < |t.conns| && 0 <= i < |t.conns[c].pipeline| && IsKeyed(t.conns[c].pipeline[i]) ==>
                    t.slotMap[SpecifiedSlot(prefix, t.conns[c].pipeline[i].key)] == c)
  {
    hide Run, Topologies, SpecifiedSlot, HashesKeys, Stable;
    ClusterRunRoutes(cfg, s, events);
    forall key: nat ensures cfg.keySlot(key) == SpecifiedSlot(prefix, key) {
      HashedSlot(cfg, prefix, key);
    }
  }
}
