// How a Konserve blob becomes a DynamoDB item and back.
module Blob {
  import opened Octets
  import opened Wrappers

  const HEADER_BYTES := 20
  const MAXIMUM_ITEM_BYTES := 380 * 1024

  datatype Item = Item(key: string, header: seq<Byte>, meta: seq<Byte>, value: seq<Byte>)

  // A four-byte big-endian integer in two's complement.
  function SignedBigEndian(b: seq<Byte>): int
    requires |b| == 4
  {
    var v := b[0] as int * 0x1_000000 + b[1] as int * 0x1_0000 + b[2] as int * 0x100 + b[3] as int;
    if b[0] < 128 then v else v - 0x1_0000_0000
  }

  function BlobItem(name: string, content: seq<Byte>): Option<Item> {
    if |content| < HEADER_BYTES || content[0] != 1 then None
    else
      var metaSize := SignedBigEndian(content[4..8]);
      var split := HEADER_BYTES + metaSize;
      if metaSize < 0 || split > |content| || |content| + |name| + 18 > MAXIMUM_ITEM_BYTES then None
      else Some(Item(name, content[..HEADER_BYTES], content[HEADER_BYTES..split], content[split..]))
  }

  // The order in which a download joins the attributes of an item.
  function Join(item: Item): seq<Byte> {
    item.header + item.meta + item.value
  }

  // The four bytes of a signed integer in big-endian order.
  function BigEndian(n: int): (b: seq<Byte>)
    ensures |b| == 4
  {
    var u := n % 0x1_0000_0000;
    [u / 0x100_0000, u / 0x1_0000 % 0x100, u / 0x100 % 0x100, u % 0x100]
  }

  // Reading the bytes of a 32-bit integer gives it back, and only its own bytes do.
  lemma {:induction false} SignedOfBigEndian(n: int)
    requires -0x8000_0000 <= n < 0x8000_0000
    ensures SignedBigEndian(BigEndian(n)) == n
  {
    var u := n % 0x1_0000_0000;
    var a, b, c, d := u / 0x100_0000, u / 0x1_0000 % 0x100, u / 0x100 % 0x100, u % 0x100;
    assert u / 0x1_0000 == u / 0x100 / 0x100 && u / 0x100_0000 == u / 0x100 / 0x100 / 0x100;
    assert u == a * 0x100_0000 + b * 0x1_0000 + c * 0x100 + d;
  }

  lemma {:induction false} BigEndianOfSigned(b: seq<Byte>)
    requires |b| == 4
    ensures -0x8000_0000 <= SignedBigEndian(b) < 0x8000_0000 && BigEndian(SignedBigEndian(b)) == b
  {
    var w, x, y, z := b[0] as int, b[1] as int, b[2] as int, b[3] as int;
    var v := w * 0x100_0000 + x * 0x1_0000 + y * 0x100 + z;
    assert SignedBigEndian(b) % 0x1_0000_0000 == v;
    assert v / 0x100 == w * 0x1_0000 + x * 0x100 + y;
    assert v / 0x1_0000 == v / 0x100 / 0x100 == w * 0x100 + x;
    assert v / 0x100_0000 == v / 0x1_0000 / 0x100 == w;
    assert b == [w, x, y, z];
  }

  lemma {:induction false} LengthField(b: seq<Byte>, n: nat)
    requires |b| == 4
    ensures b == BigEndian(n) && n < 0x8000_0000 <==> SignedBigEndian(b) == n
  {
    BigEndianOfSigned(b);
    if n < 0x8000_0000 {
      SignedOfBigEndian(n);
    }
  }

  predicate WellFormed(item: Item) {
    && |item.header| == 20
    && item.header[0] == 1
    && item.header[4..8] == BigEndian(|item.meta|)
    && |Join(item)| + |item.key| + 18 <= 389120
  }

  lemma {:induction false} JoinParts(item: Item)
    requires |item.header| == HEADER_BYTES
    ensures var c, split := Join(item), HEADER_BYTES + |item.meta|;
            && c[..HEADER_BYTES] == item.header
            && c[4..8] == item.header[4..8]
            && c[HEADER_BYTES..split] == item.meta
            && c[split..] == item.value
  {
    var c := Join(item);
    assert c == item.header + (item.meta + item.value);
    assert c[HEADER_BYTES..] == item.meta + item.value;
    assert forall i :: 0 <= i < 4 ==> c[4..8][i] == item.header[4..8][i];
  }

  // Splitting a file gives an item exactly when the item is well formed, bears the
  // name of the file and joins to its contents.
  lemma {:induction false} BlobItemIsInverseOfJoin(name: string, content: seq<Byte>, item: Item)
    ensures BlobItem(name, content) == Some(item)
            <==> WellFormed(item) && item.key == name && Join(item) == content
  {
    hide SignedBigEndian, BigEndian;
    if BlobItem(name, content) == Some(item) {
      var split := HEADER_BYTES + SignedBigEndian(content[4..8]);
      LengthField(content[4..8], |item.meta|);
      assert content == content[..HEADER_BYTES] + content[HEADER_BYTES..split] + content[split..];
      assert content[..HEADER_BYTES][4..8] == content[4..8];
    }
    if WellFormed(item) && item.key == name && Join(item) == content {
      JoinParts(item);
      LengthField(content[4..8], |item.meta|);
    }
  }
}
