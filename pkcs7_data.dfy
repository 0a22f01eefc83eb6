/**
 * The `data` content type of PKCS #7 (RFC 2315 section 8): an OCTET STRING held by a
 * mutable object whose octet string may be Java `null`.
 */
module Pkcs7Data {
  import opened Wrappers
  import opened Asn1

  /** `ASN1Registry.NID_pkcs7_data`, OpenSSL's numeric identifier of the `data` content type. */
  const NidPkcs7Data: int := 21

  /** The error of `fromASN1` on content that is not an OCTET STRING: the failing cast. */
  datatype CastError = NotAnOctetString

  /** `asASN1`: the octet string, or an empty one in place of a missing one. */
  function ContentNode(data: Option<seq<byte>>): (n: Node)
    ensures n.Octets?
    ensures data.Some? ==> n.bytes == data.value
    ensures data.None? ==> n.bytes == []
  {
    if data.None? then Octets([]) else Octets(data.value)
  }

  /** `toString`: the octets inside `#<Data ` and `>`; a missing octet string is the `NullPointerException`. */
  function Describe(data: Option<seq<byte>>): (r: Option<string>)
    ensures r.Some? <==> data.Some?
    ensures r.Some? ==> |r.value| == |data.value| + 8 && r.value[..7] == "#<Data " &&
                        r.value[7..|r.value| - 1] == Latin1(data.value) && r.value[|r.value| - 1] == '>'
  {
    if data.None? then None else Some("#<Data " + Latin1(data.value) + ">")
  }

  class DataContent {
    var data: Option<seq<byte>>

    /** `new PKCS7DataData()`: an empty octet string. */
    constructor Empty()
      ensures data == Some([])
    {
      data := Some([]);
    }

    /** `new PKCS7DataData(data)`, where `data` may be `null`. */
    constructor (d: Option<seq<byte>>)
      ensures data == d
    {
      data := d;
    }

    /** `getType`. */
    function GetType(): (t: int)
      ensures t == NidPkcs7Data
    {
      NidPkcs7Data
    }

    /** `isData`: this content is always data. */
    function IsData(): (b: bool)
      ensures b
    {
      true
    }

    /** `setData`; `getData` is the field. */
    method SetData(d: Option<seq<byte>>)
      modifies this
      ensures data == d
    {
      data := d;
    }

    /** `asASN1`. */
    function AsAsn1(): (n: Node)
      reads this
      ensures n == ContentNode(data)
    {
      ContentNode(data)
    }

    /** `toString`. */
    function ToString(): (r: Option<string>)
      reads this
      ensures r == Describe(data)
    {
      Describe(data)
    }

    /** `fromASN1`: no content is empty data; an OCTET STRING is kept as it is. */
    static method FromAsn1(content: Option<Node>) returns (r: Result<DataContent, CastError>)
      ensures content.None? ==> r.Ok? && fresh(r.value) && r.value.data == Some([])
      ensures content.Some? && content.value.Octets? ==> r.Ok? && fresh(r.value) && r.value.data == Some(content.value.bytes)
      ensures content.Some? && !content.value.Octets? ==> r == Err(NotAnOctetString)
    {
      if content.None? {
        var d := new DataContent.Empty();
        return Ok(d);
      }
      if !content.value.Octets? {
        return Err(NotAnOctetString);
      }
      var d := new DataContent(Some(content.value.bytes));
      r := Ok(d);
    }
  }

  /**
   * What `asASN1` writes, read back by `fromASN1`, is the data again, a missing octet string
   * coming back as an empty one; and reading back what was read changes nothing more.
   */
  lemma ContentRoundTrip(data: Option<seq<byte>>)
    ensures ContentNode(Some(ContentNode(data).bytes)) == ContentNode(data)
    ensures data.Some? ==> Some(ContentNode(data).bytes) == data
    ensures data.None? ==> ContentNode(data) == ContentNode(Some([]))
  {
  }

  /** The description keeps every octet in order, so different data is described differently. */
  lemma DescribeInjective(a: seq<byte>, b: seq<byte>)
    requires Describe(Some(a)) == Describe(Some(b))
    ensures a == b
  {
    var ra, rb := Describe(Some(a)).value, Describe(Some(b)).value;
    assert Latin1(a) == ra[7..|ra| - 1] == Latin1(b);
    forall i | 0 <= i < |a| ensures a[i] == b[i] {
      assert Latin1(a)[i] == Latin1(b)[i];
    }
  }
}
