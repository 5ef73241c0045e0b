/**
 The dissector entry point for devp2p discovery packets. It walks the payload
 with a running offset, records one tree item per field and returns the
 captured length.
 */
module PacketEthereum {
  import opened FrameLayout

  /**
   Records the items of one payload. The offset only grows: after each item it
   is that item's start plus its width, and the length-prefix bytes of a Ping
   are stepped over without being read. Only the type byte is read.
   */
  method Dissect(buf: seq<byte>) returns (d: Dissection)
    requires Dissectable(buf)
    ensures d == Layout(buf)
    ensures d.consumed == |buf|
    ensures Chained(d.tree)
  {
    var offset: nat := 0;
    var root := Item(Protocol, 0, ToEnd);
    var tree: seq<Item> := [];
    tree := tree + [Item(Hash, offset, Width(32))];
    offset := offset + 32;
    tree := tree + [Item(Signature, offset, Width(65))];
    offset := offset + 65;
    tree := tree + [Item(PacketType, offset, Width(1))];
    var value := buf[offset];
    offset := offset + 1;
    if value == PING {
      offset := offset + 1;  // outer list header 0xdc
      tree := tree + [Item(PingVersion, offset, Width(1))];
      offset := offset + 1;
      offset := offset + 2;  // sender list header 0xcb, address prefix 0x84
      tree := tree + [Item(PingSenderIp, offset, Width(4))];
      offset := offset + 4;
      offset := offset + 1;  // port prefix 0x82
      tree := tree + [Item(PingSenderUdpPort, offset, Width(2))];
      offset := offset + 2;
      offset := offset + 1;  // port prefix 0x82
      tree := tree + [Item(PingSenderTcpPort, offset, Width(2))];
      offset := offset + 2;
      offset := offset + 2;  // recipient list header 0xc9, address prefix 0x84
      tree := tree + [Item(PingRecipientIp, offset, Width(4))];
      offset := offset + 4;
      offset := offset + 1;  // port prefix 0x82
      tree := tree + [Item(PingRecipientUdpPort, offset, Width(2))];
      offset := offset + 2;
      tree := tree + [Item(PingExpiration, offset, ToEnd)];
    } else {
      tree := tree + [Item(Data, offset, ToEnd)];
    }
    d := Dissection(root, tree, |buf|);
    LayoutChained(buf);
  }
}
