/** The stored nodes of vnmcore/src/storage/vault_fs.rs and their serialisation as a parameter. */
module VaultFs {
  import opened Wrappers
  import opened Bytes

  const CHUNK_SIZE: nat := 30_000
  const MAX_DIRECT_SLOTS: nat := 4_000
  const MAX_INDEX_SLOTS: nat := 4_080

  datatype NodeKind = DirectoryKind | FileKind

  datatype DirEntry = DirEntry(name: string, slot: nat, kind: NodeKind)

  datatype Node =
    | Directory(entries: seq<DirEntry>)
    | File(totalSize: nat, dataSlots: seq<nat>, indexChain: Option<nat>, data: seq<byte>)
    | FileData(bytes: seq<byte>)
    | FileIndex(slotIds: seq<nat>, nextIndex: Option<nat>)

  /** MessagePack, as far as the container depends on it. */
  datatype Codec = Codec(encode: Node -> seq<byte>, decode: seq<byte> -> Option<Node>)

  ghost predicate Lawful(c: Codec) {
    forall n :: c.encode(n) != [] && c.decode(c.encode(n)) == Some(n)
  }
}
