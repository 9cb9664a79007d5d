/**
 * Node identifiers of the rpl-hckim example (examples/rpl-hckim/node-info.c):
 * the lookup of a node's id from its IoT-LAB uid in the node table, and the
 * OST node id carried in the last two bytes of a link-layer or IPv6 address.
 */
module NodeInfo {
  import opened TschTypes

  /** The uid column of the node table: row i describes node i + 1. */
  function UidColumn(nodes: array2<uint16>): (uids: seq<uint16>)
    requires nodes.Length1 == 3
    reads nodes
    ensures |uids| == nodes.Length0
    ensures forall i :: 0 <= i < nodes.Length0 ==> uids[i] == nodes[i, 1]
  {
    seq(nodes.Length0, i requires 0 <= i < nodes.Length0 reads nodes => nodes[i, 1])
  }

  /**
   * The node id of a uid: one more than the index of the first row holding
   * it, 0 when no row does.
   */
  function IdOfUid(uids: seq<uint16>, uid: uint16): (id: nat)
    ensures id <= |uids|
    ensures id == 0 <==> uid !in uids
    ensures id > 0 ==> uids[id - 1] == uid && uid !in uids[..id - 1]
  {
    if |uids| == 0 then 0
    else
      var rest := IdOfUid(uids[..|uids| - 1], uid);
      if rest > 0 then
        assert uids[..|uids| - 1][..rest - 1] == uids[..rest - 1];
        rest
      else if uids[|uids| - 1] == uid then
        |uids|
      else
        assert uids == uids[..|uids| - 1] + [uids[|uids| - 1]];
        0
  }

  /** iotlab_node_id_from_uid: a linear search over the table's rows with an early return. */
  method NodeIdFromUid(nodes: array2<uint16>, uid: uint16) returns (id: uint16)
    requires nodes.Length1 == 3 && nodes.Length0 < 0x1_0000
    ensures id as nat == IdOfUid(UidColumn(nodes), uid)
  {
    ghost var uids := UidColumn(nodes);
    var i: uint16 := 0;
    while (i as int) < nodes.Length0
      invariant i as int <= nodes.Length0
      invariant uid !in uids[..i]
    {
      if nodes[i, 1] == uid {
        assert uids[..i + 1] == uids[..i] + [uid];
        SearchFinds(uids, uid, i as nat);
        return i + 1;
      }
      assert uids[..i + 1] == uids[..i] + [uids[i]];
      i := i + 1;
    }
    assert uids[..i] == uids;
    return 0;
  }

  /** The first row holding the uid determines the id. */
  lemma SearchFinds(uids: seq<uint16>, uid: uint16, i: nat)
    requires i < |uids| && uids[i] == uid && uid !in uids[..i]
    ensures IdOfUid(uids, uid) == i + 1
  {
    assert uids[i] in uids;
    var id := IdOfUid(uids, uid);
    assert id - 1 <= i by {
      assert forall k :: 0 <= k < id - 1 ==> uids[..id - 1][k] == uids[k];
    }
    assert i <= id - 1 by {
      assert forall k :: 0 <= k < i ==> uids[..i][k] == uids[k];
    }
  }

  /** Every node id the lookup returns names a row of the table, and ids of distinct uids differ. */
  lemma {:induction false} IdsAreDistinct(uids: seq<uint16>, a: uint16, b: uint16)
    requires a != b && a in uids && b in uids
    ensures 1 <= IdOfUid(uids, a) <= |uids| && 1 <= IdOfUid(uids, b) <= |uids|
    ensures IdOfUid(uids, a) != IdOfUid(uids, b)
  {
  }

  /** An IPv6 address as its 16 bytes. */
  type IpAddr = a: seq<uint8> | |a| == 16 witness seq(16, _ => 0)

  /** ost_node_id_from_linkaddr: the last two bytes of the link-layer address, big-endian. */
  function NodeIdFromLinkAddr(addr: LinkAddr): (id: uint16)
    ensures id as int / 256 == addr[6] as int && id as int % 256 == addr[7] as int
  {
    addr[6] as uint16 * 256 + addr[7] as uint16
  }

  /** ost_node_id_from_ipaddr: the last two bytes of the IPv6 address, big-endian. */
  function NodeIdFromIpAddr(addr: IpAddr): (id: uint16)
    ensures id as int / 256 == addr[14] as int && id as int % 256 == addr[15] as int
  {
    addr[14] as uint16 * 256 + addr[15] as uint16
  }

  /** A link-layer address whose last two bytes are the node id, as the rpl-hckim nodes are numbered. */
  function LinkAddrOfNodeId(prefix: seq<uint8>, id: uint16): (addr: LinkAddr)
    requires |prefix| == 6
    ensures addr[..6] == prefix
  {
    prefix + [(id / 256) as uint8, (id % 256) as uint8]
  }

  /** Reading the node id back from such an address gives the id. */
  lemma LinkAddrIdRoundTrip(prefix: seq<uint8>, id: uint16)
    requires |prefix| == 6
    ensures NodeIdFromLinkAddr(LinkAddrOfNodeId(prefix, id)) == id
  {
  }

  /**
   * The IPv6 address whose interface identifier is formed from the 8-byte
   * link-layer address (section 6 of RFC 4944: the address with its U/L bit
   * inverted).
   */
  function IpAddrFromLinkAddr(prefix: seq<uint8>, ll: LinkAddr): (ip: IpAddr)
    requires |prefix| == 8
    ensures ip[..8] == prefix && ip[9..] == ll[1..]
  {
    var first := if (ll[0] as int / 2) % 2 == 1 then ll[0] - 2 else ll[0] + 2;
    prefix + [first] + ll[1..]
  }

  /** The id of a node's IPv6 address and of its link-layer address agree. */
  lemma IpAndLinkIdsAgree(prefix: seq<uint8>, ll: LinkAddr)
    requires |prefix| == 8
    ensures NodeIdFromIpAddr(IpAddrFromLinkAddr(prefix, ll)) == NodeIdFromLinkAddr(ll)
  {
    var ip := IpAddrFromLinkAddr(prefix, ll);
    assert ip[14] == ll[6] && ip[15] == ll[7];
  }
}
