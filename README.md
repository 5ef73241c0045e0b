# devp2p discovery dissector: frame layout

This project models `dissect_ethereum`, the Wireshark dissector for Ethereum
devp2p peer-discovery packets carried over UDP. The dissector splits a UDP
payload into labelled byte ranges:

- a 32-byte hash, a 65-byte signature and a 1-byte packet type;
- for packet type `0x01` (Ping), seven fields at hard-coded offsets;
- for any other type, one opaque data field running to the end of the buffer.

It reads only one byte, the packet type at offset 97. The bytes it skips in
a Ping are RLP length prefixes (Ethereum Yellow Paper, Appendix B). The code
assumes them and never reads or checks them.

Two modules:

- `FrameLayout` holds the data model and the reference layout. A recorded
  tree item is `Item(field, offset, extent)`. The extent is `Width(n)` or
  `ToEnd`; `ToEnd` stands for the length `-1` the dissector passes. `Layout(buf)`
  is the reference table of items for a buffer. `PingPrefixes` is the table of
  skipped prefix bytes named in the source comments. The module's lemmas are
  the layout's properties.
- `PacketEthereum` holds `Dissect`, the dissector itself. It keeps a running
  `offset` advanced step by step, appends one item per field, and returns the
  captured length. Its postcondition equates the result with `Layout(buf)`.

The captured buffer is a `seq<byte>`, and its length is the captured length
that the dissector returns. The dissector's `offset` is a C `gint`. Offsets in
the model never exceed 121, so no wrap-around can occur and `nat` is used.

## Model

| member | source | states |
|---|---|---|
| `PacketEthereum.Dissect` | packet-ethereum.c:23-65 | The items recorded with the running offset are exactly the reference layout for the buffer's length and type byte. The root protocol item spans the whole buffer. The return value is the captured length. Each item starts no earlier than the end of the one before it. |
| `FrameLayout.EnvelopeFixed` | packet-ethereum.c:28-35 | For every type, the first three subtree items are the hash at [0,32), the signature at [32,97) and the type byte at [97,98). The protocol item runs from 0 to the end. |
| `FrameLayout.BranchOnType` | packet-ethereum.c:37-62 | The Ping path is taken exactly when byte 97 is `0x01`, and then the table of seven Ping fields follows the envelope. For any other type, a single data item from 98 to the end follows the envelope. |
| `FrameLayout.LayoutDependsOnLengthAndType` | packet-ethereum.c:37-61 | Two buffers of equal length with the same byte 97 get the same layout, so no skipped or field byte influences it. |
| `FrameLayout.LayoutChained` | packet-ethereum.c:24-59 | In every layout, each item has a positive fixed width and ends at or before the start of the next item; only the last item runs to the end. |
| `FrameLayout.ChainedOrdered` | packet-ethereum.c:24-59 | Any sequence of items produced with a growing offset has strictly increasing offsets, each item ends before every later one starts, and no byte belongs to two items. |
| `FrameLayout.LayoutOrderedAndDisjoint` | packet-ethereum.c:28-61 | Layout items come in strictly increasing offset order and are pairwise disjoint. Each lies inside the buffer and inside the protocol item. |
| `FrameLayout.PingCoverage` | packet-ethereum.c:40-59 | For a Ping, a byte of the buffer belongs to some item if and only if it is not a skipped prefix byte (98, 100-101, 106, 109, 112-113, 118). |
| `FrameLayout.OtherTypeTiles` | packet-ethereum.c:31-61 | For any type other than Ping, every byte of the buffer belongs to exactly one item. |
| `FrameLayout.PrefixesAnnounceWidths` | packet-ethereum.c:41-56 | Each skipped run ending in an RLP short-string prefix `0x80 + L` (`0x84`, `0x82`) is followed by a Ping field of width L. This is the width the code hard-codes. |
| `FrameLayout.ListHeaderSpans` | packet-ethereum.c:41-59 | The assumed list headers give these spans. The outer list `0xdc` ends at byte 127. The sender list `0xcb` ends exactly at the end of the sender TCP port. The recipient list `0xc9` ends one byte into the expiration item. |

## Left out

- Tree-truncation exceptions: reading past the captured data raises an exception inside the dissector library. The model instead requires `Dissectable(buf)`: at least 98 bytes, and at least 121 when the type is `0x01`.
- Column and tree display calls (`col_set_str`, `col_clear`, `proto_item_add_subtree`, field encodings): these are display only. The model keeps just the (field, offset, extent) each `proto_tree_add_item` call records.
- `proto_register_ethereum` (packet-ethereum.c:67-161): a static table of field names, display types and filter names, with no behaviour.
- `proto_reg_handoff_ethereum` (packet-ethereum.c:163-168): registration for UDP port 30303, which is dispatch plumbing.
- RLP decoding, Pong, FindNode and Neighbors handling, request/response correlation and frame-length gating: `dissect_ethereum` does none of these.
- The distinction between captured and reported length: the buffer is the captured bytes.

## Notes

The expiration item starts at 121 and runs to the end of the buffer.
`ListHeaderSpans` shows that, with the prefixes the comments assume, byte 121
is still inside the recipient endpoint list. In a packet built like that,
byte 121 is the recipient TCP port (an empty string, `0x80`). The expiration
item therefore also covers that byte and the expiration's own `0x84` prefix.
The code has no recipient TCP port field. The model records this layout as
written.
