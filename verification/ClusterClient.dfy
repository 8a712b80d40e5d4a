/** The cluster client with its own slot function. */
module ClusterClient {
  import opened Bytes
  import opened ClusterCommand
  import opened Encoding
  import opened Fragment
  import opened Merging
  import opened Sharding
  import Crc16

  /** The slot function the splitter hashes with. */
  const KEY_SLOT: SlotFn := (k: bytes) => Crc16.KeySlot(k)

  /** A multi-key command split by the CRC-16 slots of its keys gives the reply and the store of the whole command. */
  method RunKeyed(kind: Kind, verb: bytes, items: seq<Item>, store: Store) returns (s: Sent)
    requires KindOf(verb) == Some(kind) && items != [] && Plain(kind, items) && SizesFit(items)
    requires NeverStale(kind, KEY_SLOT, items)
    ensures s == Sent(Merged(Execute(kind, items, store).reply), Execute(kind, items, store).store)
  {
    s := RunCommand(KEY_SLOT, kind, verb, items, store);
  }
}
