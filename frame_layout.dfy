/**
 The fixed-offset layout that the devp2p discovery dissector gives a UDP payload:
 a 32-byte hash, a 65-byte signature, a 1-byte packet type, and then either the
 hard-coded Ping fields (type 0x01) or one opaque data field running to the end
 of the buffer. A tree item is recorded as (field, offset, extent), where the
 extent is a width in bytes or "to the end of the buffer" (length -1 in the
 dissector API).
 */
module FrameLayout {

  type byte = x: int | 0 <= x < 0x100

  /** The packet type that selects the Ping layout. */
  const PING: byte := 0x01

  /** Offset of the packet-type byte: right after the hash and the signature. */
  const TYPE_OFFSET: nat := 97

  /** The header fields registered by the dissector, plus the protocol item itself. */
  datatype Field =
    | Protocol
    | Hash
    | Signature
    | PacketType
    | Data
    | PingVersion
    | PingSenderIp
    | PingSenderUdpPort
    | PingSenderTcpPort
    | PingRecipientIp
    | PingRecipientUdpPort
    | PingExpiration

  /** A fixed number of bytes, or everything from the offset to the end of the buffer. */
  datatype Extent = Width(n: nat) | ToEnd

  /** What one call that adds a tree item records. */
  datatype Item = Item(field: Field, offset: nat, extent: Extent)

  /**
   The outcome of one dissection: the protocol item spanning the whole buffer,
   the items of its subtree in the order they were added, and the number of
   bytes the dissector reports to have consumed.
   */
  datatype Dissection = Dissection(root: Item, tree: seq<Item>, consumed: nat)

  /** A run of length-prefix bytes that the Ping layout steps over without reading. */
  datatype Prefix = Prefix(offset: nat, bytes: seq<byte>)

  /**
   The buffers the dissector can handle without reading past the captured data:
   the type byte must exist, and a Ping must hold every fixed-width Ping field.
   */
  predicate Dissectable(buf: seq<byte>)
  {
    |buf| > TYPE_OFFSET && (buf[TYPE_OFFSET] == PING ==> |buf| >= 121)
  }

  /** One past the last byte of an item, in a buffer of n bytes. */
  function Limit(it: Item, n: nat): nat
  {
    match it.extent
    case Width(w) => it.offset + w
    case ToEnd => n
  }

  /** Byte k of a buffer of n bytes belongs to the item. */
  predicate Covers(it: Item, n: nat, k: nat)
  {
    it.offset <= k < Limit(it, n)
  }

  /**
   b is added after a, the way a running offset produces items: a has a
   positive fixed width and b starts no earlier than a's end.
   */
  predicate Follows(a: Item, b: Item)
  {
    a.extent.Width? && a.extent.n > 0 && a.offset + a.extent.n <= b.offset
  }

  /** Every item follows the one added just before it. */
  predicate Chained(items: seq<Item>)
  {
    forall i :: 0 < i < |items| ==> Follows(items[i - 1], items[i])
  }

  /** The envelope common to every packet type. */
  const Envelope: seq<Item> := [
    Item(Hash, 0, Width(32)),
    Item(Signature, 32, Width(65)),
    Item(PacketType, TYPE_OFFSET, Width(1))
  ]

  /** The Ping fields at their hard-coded offsets (IPv4 addresses, both sender ports). */
  const PingFields: seq<Item> := [
    Item(PingVersion, 99, Width(1)),
    Item(PingSenderIp, 102, Width(4)),
    Item(PingSenderUdpPort, 107, Width(2)),
    Item(PingSenderTcpPort, 110, Width(2)),
    Item(PingRecipientIp, 114, Width(4)),
    Item(PingRecipientUdpPort, 119, Width(2)),
    Item(PingExpiration, 121, ToEnd)
  ]

  /**
   The length prefixes a Ping is assumed to carry at the bytes the layout skips:
   the outer list header, the sender endpoint list header with the address
   prefix, the two port prefixes, the recipient endpoint list header with the
   address prefix, and the recipient port prefix.
   */
  const PingPrefixes: seq<Prefix> := [
    Prefix(98, [0xdc]),
    Prefix(100, [0xcb, 0x84]),
    Prefix(106, [0x82]),
    Prefix(109, [0x82]),
    Prefix(112, [0xc9, 0x84]),
    Prefix(118, [0x82])
  ]

  /** Byte k lies in one of the skipped prefixes. */
  predicate Skipped(k: nat)
  {
    exists i :: 0 <= i < |PingPrefixes| && PingPrefixes[i].offset <= k < PingPrefixes[i].offset + |PingPrefixes[i].bytes|
  }

  /**
   The reference layout: which items a dissection of buf records. It looks at
   nothing of buf but its length and its type byte.
   */
  function Layout(buf: seq<byte>): Dissection
    requires Dissectable(buf)
  {
    var body := if buf[TYPE_OFFSET] == PING then PingFields else [Item(Data, TYPE_OFFSET + 1, ToEnd)];
    Dissection(Item(Protocol, 0, ToEnd), Envelope + body, |buf|)
  }

  // ---------------------------------------------------------------------------
  // Items added one after another never overlap and come out in offset order.

  lemma {:induction false} ChainedOrdered(items: seq<Item>, n: nat)
    requires Chained(items)
    ensures forall i, j :: 0 <= i < j < |items| ==>
              items[i].offset < items[j].offset && Limit(items[i], n) <= items[j].offset
    ensures forall i, j, k :: 0 <= i < j < |items| && Covers(items[i], n, k) ==> !Covers(items[j], n, k)
  {
    if |items| > 1 {
      var rest := items[1..];
      assert Chained(rest) by {
        forall i | 0 < i < |rest| ensures Follows(rest[i - 1], rest[i]) {
          assert rest[i - 1] == items[i] && rest[i] == items[i + 1];
        }
      }
      ChainedOrdered(rest, n);
      forall i, j | 0 <= i < j < |items|
        ensures items[i].offset < items[j].offset && Limit(items[i], n) <= items[j].offset
      {
        if i == 0 {
          assert Follows(items[0], items[1]);
          if j > 1 {
            assert rest[0] == items[1] && rest[j - 1] == items[j];
          }
        } else {
          assert rest[i - 1] == items[i] && rest[j - 1] == items[j];
        }
      }
    }
  }

  // ---------------------------------------------------------------------------
  // Properties of the reference layout.

  /** Whatever the type, the hash, the signature and the type byte sit at the same place. */
  lemma EnvelopeFixed(buf: seq<byte>)
    requires Dissectable(buf)
    ensures var d := Layout(buf);
      |d.tree| >= 3 &&
      d.tree[0] == Item(Hash, 0, Width(32)) &&
      d.tree[1] == Item(Signature, 32, Width(65)) &&
      d.tree[2] == Item(PacketType, 97, Width(1))
    ensures Layout(buf).root == Item(Protocol, 0, ToEnd)
  {
  }

  /**
   Only type byte 0x01 yields the Ping fields; every other type yields a single
   data field from offset 98 to the end of the buffer.
   */
  lemma BranchOnType(buf: seq<byte>)
    requires Dissectable(buf)
    ensures buf[97] == PING <==> Layout(buf).tree[3].field == PingVersion
    ensures buf[97] == PING ==> Layout(buf).tree[3..] == PingFields
    ensures buf[97] != PING ==> Layout(buf).tree[3..] == [Item(Data, 98, ToEnd)]
  {
  }

  /** The layout depends on nothing but the buffer length and the type byte. */
  lemma LayoutDependsOnLengthAndType(a: seq<byte>, b: seq<byte>)
    requires Dissectable(a) && Dissectable(b)
    requires |a| == |b| && a[97] == b[97]
    ensures Layout(a) == Layout(b)
  {
  }

  /** The items of a dissection are added with a running offset. */
  lemma LayoutChained(buf: seq<byte>)
    requires Dissectable(buf)
    ensures Chained(Layout(buf).tree)
  {
  }

  /**
   The items are pairwise disjoint, in strictly increasing offset order, and
   each lies inside the buffer and inside the protocol item.
   */
  lemma {:induction false} LayoutOrderedAndDisjoint(buf: seq<byte>)
    requires Dissectable(buf)
    ensures var d := Layout(buf); var n := |buf|;
      forall i, j :: 0 <= i < j < |d.tree| ==> d.tree[i].offset < d.tree[j].offset
    ensures var d := Layout(buf); var n := |buf|;
      forall i, j, k :: 0 <= i < j < |d.tree| && Covers(d.tree[i], n, k) ==> !Covers(d.tree[j], n, k)
    ensures var d := Layout(buf); var n := |buf|;
      forall i :: 0 <= i < |d.tree| ==> d.tree[i].offset <= Limit(d.tree[i], n) <= n
    ensures var d := Layout(buf); var n := |buf|;
      forall i, k :: 0 <= i < |d.tree| && Covers(d.tree[i], n, k) ==> Covers(d.root, n, k)
  {
    LayoutChained(buf);
    ChainedOrdered(Layout(buf).tree, |buf|);
  }

  /**
   For a Ping, a byte of the buffer belongs to some item exactly when it is not
   one of the skipped prefix bytes (98, 100-101, 106, 109, 112-113, 118).
   */
  lemma PingCoverage(buf: seq<byte>, k: nat)
    requires Dissectable(buf) && buf[97] == PING
    requires k < |buf|
    ensures (exists i :: 0 <= i < |Layout(buf).tree| && Covers(Layout(buf).tree[i], |buf|, k)) <==> !Skipped(k)
  {
    var t, n := Layout(buf).tree, |buf|;
    if Skipped(k) {
      var p :| 0 <= p < |PingPrefixes| && PingPrefixes[p].offset <= k < PingPrefixes[p].offset + |PingPrefixes[p].bytes|;
      assert forall i :: 0 <= i < |t| ==> !Covers(t[i], n, k);
    } else {
      // Mentioning each prefix lets the negated existential rule out its bytes.
      assert PingPrefixes[0].offset == 98 && PingPrefixes[1].offset == 100 && PingPrefixes[2].offset == 106;
      assert PingPrefixes[3].offset == 109 && PingPrefixes[4].offset == 112 && PingPrefixes[5].offset == 118;
      var i :=
        if k < 32 then 0 else if k < 97 then 1 else if k < 98 then 2
        else if k < 100 then 3 else if k < 106 then 4 else if k < 109 then 5
        else if k < 112 then 6 else if k < 118 then 7 else if k < 121 then 8 else 9;
      assert Covers(t[i], n, k);
    }
  }

  /**
   For any other type, the items tile the buffer: every byte belongs to
   exactly one item.
   */
  lemma OtherTypeTiles(buf: seq<byte>, k: nat)
    requires Dissectable(buf) && buf[97] != PING
    requires k < |buf|
    ensures var t := Layout(buf).tree;
      exists i :: 0 <= i < |t| && Covers(t[i], |buf|, k) &&
        forall j :: 0 <= j < |t| && j != i ==> !Covers(t[j], |buf|, k)
  {
    var t, n := Layout(buf).tree, |buf|;
    var i := if k < 32 then 0 else if k < 97 then 1 else if k < 98 then 2 else 3;
    assert Covers(t[i], n, k);
    forall j | 0 <= j < |t| && j != i ensures !Covers(t[j], n, k) {
    }
  }

  /**
   Each skipped prefix that ends in an RLP short-string prefix (0x80 + L)
   announces exactly the width L of the Ping field that starts right after it,
   so the hard-coded widths are the ones these prefixes encode.
   */
  lemma PrefixesAnnounceWidths()
    ensures forall p :: 0 <= p < |PingPrefixes| ==>
      var q := PingPrefixes[p];
      var last := q.bytes[|q.bytes| - 1];
      0x80 <= last <= 0xb7 ==>
        exists i :: 0 <= i < |PingFields| &&
          PingFields[i].offset == q.offset + |q.bytes| && PingFields[i].extent == Width(last - 0x80)
  {
    assert PingFields[1].offset == 102 && PingFields[2].offset == 107 && PingFields[3].offset == 110;
    assert PingFields[4].offset == 114 && PingFields[5].offset == 119;
  }

  /** One past the last payload byte of a short RLP list whose header byte is at p.offset. */
  function ListEnd(p: Prefix): nat
    requires |p.bytes| > 0 && 0xc0 <= p.bytes[0] <= 0xf7
  {
    p.offset + 1 + (p.bytes[0] - 0xc0)
  }

  /**
   What the list headers among the skipped bytes announce. The outer list
   (0xdc) ends at byte 127, so a Ping carrying exactly these prefixes is 127
   bytes long. The sender endpoint list (0xcb) ends exactly where the sender
   TCP port ends. The recipient endpoint list (0xc9) ends one byte past the
   recipient UDP port, inside the expiration item: the layout has no recipient
   TCP port, so that byte and the expiration's own prefix are labelled as part
   of the expiration.
   */
  lemma ListHeaderSpans(n: nat)
    ensures ListEnd(PingPrefixes[0]) == 127
    ensures ListEnd(PingPrefixes[1]) == Limit(PingFields[3], n) && PingFields[3].field == PingSenderTcpPort
    ensures ListEnd(PingPrefixes[4]) == Limit(PingFields[5], n) + 1
    ensures PingFields[5].field == PingRecipientUdpPort && PingFields[6] == Item(PingExpiration, Limit(PingFields[5], n), ToEnd)
  {
  }
}
