/**
 * The abstract ASN.1 values the modelled code builds and takes apart, and the DER codec of the
 * ASN.1 library, which is not part of this model: it is passed in as a pair of functions, and the
 * lemmas that need it to round-trip say so in their preconditions.
 */
module Asn1 {
  import opened Wrappers

  /** An octet. */
  newtype byte = x: int | 0 <= x < 256

  /**
   * The characters of bytes, one per byte (ISO-8859-1): how `Base64Coder.decode(byte[])` and
   * `new String(byte[])` read octets as text.
   */
  function Latin1(b: seq<byte>): (r: seq<char>)
    ensures |r| == |b| && forall i :: 0 <= i < |b| ==> r[i] == (b[i] as int) as char
  {
    seq(|b|, i requires 0 <= i < |b| => (b[i] as int) as char)
  }

  /** The ASN.1 node kinds the core uses (DERSequence, DERTaggedObject, DERObjectIdentifier, ...). */
  datatype Node =
    | Seq(items: seq<Node>)
    | Tagged(tag: nat, inner: Node)
    | Oid(id: string)
    | Utf8(text: string)
    | Octets(bytes: seq<byte>)
    | Int(value: int)
    | IA5(text: string)
    | BitString(bits: seq<byte>)
    | Null

  /** What one `ASN1InputStream.readObject` call yields. */
  datatype ReadOutcome =
    | Parsed(node: Node, rest: seq<byte>)  // the next object and the bytes after it
    | AtEnd                                // the stream is exhausted: `readObject` returns null
    | Malformed                            // the stream does not start with an encoding: an exception

  /** DER encoding of one node, and the reading of the next object from a byte stream. */
  datatype DerCodec = DerCodec(encode: Node -> seq<byte>, readObject: seq<byte> -> ReadOutcome)

  /**
   * The codec reads back what it writes: an encoding followed by anything is read as its node,
   * leaving the rest of the stream, and an empty stream is at its end.
   */
  ghost predicate Sound(c: DerCodec) {
    c.readObject([]) == AtEnd &&
    forall t, rest :: c.readObject(c.encode(t) + rest) == Parsed(t, rest)
  }

  /** A stream holding one encoding: its node, and nothing after it. */
  lemma ReadSingle(c: DerCodec, t: Node)
    requires Sound(c)
    ensures c.readObject(c.encode(t)) == Parsed(t, [])
  {
    assert c.encode(t) + [] == c.encode(t);
  }
}
