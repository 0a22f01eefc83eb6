/**
 * The auxiliary trust record OpenSSL appends to a TRUSTED CERTIFICATE: `writeX509Aux` emits its
 * fields in a fixed order, each only when non-empty or present, and `readAuxCertificate` takes
 * them back in the same order, advancing past an item only when its type (and tag) match.
 */
module PemAux {
  import opened Wrappers
  import opened Asn1
  import opened PemLines

  /** `X509Aux`: trusted and rejected usages (OIDs), an alias, a key id and other objects. */
  datatype X509Aux = X509Aux(
    trust: seq<string>,
    reject: seq<string>,
    alias: Option<string>,
    keyid: Option<seq<byte>>,
    other: seq<Node>)

  /** The record with no fields set, as `new X509Aux()` makes it. */
  const EmptyAux := X509Aux([], [], None, None, [])

  /** Object identifiers as `DERObjectIdentifier` nodes. */
  function Oids(ids: seq<string>): (r: seq<Node>)
    ensures |r| == |ids| && forall i :: 0 <= i < |ids| ==> r[i] == Oid(ids[i])
  {
    seq(|ids|, i requires 0 <= i < |ids| => Oid(ids[i]))
  }

  /** The items of the `DERSequence` `writeX509Aux` builds, in the order it adds them. */
  function AuxItems(aux: X509Aux): seq<Node> {
    (if |aux.trust| > 0 then [Seq(Oids(aux.trust))] else []) +
    (if |aux.reject| > 0 then [Tagged(0, Seq(Oids(aux.reject)))] else []) +
    (if aux.alias.Some? then [Utf8(aux.alias.value)] else []) +
    (if aux.keyid.Some? then [Octets(aux.keyid.value)] else []) +
    (if |aux.other| > 0 then [Tagged(1, Seq(aux.other))] else [])
  }

  /** The identifiers of a sequence whose items must all be object identifiers (a cast each). */
  function OidIds(ns: seq<Node>): (r: Result<seq<string>, PemError>)
    ensures r.Ok? <==> forall i :: 0 <= i < |ns| ==> ns[i].Oid?
    ensures r.Ok? ==> |r.value| == |ns| && forall i :: 0 <= i < |ns| ==> r.value[i] == ns[i].id
    ensures r.Err? ==> r.error == BadDer
  {
    if forall i :: 0 <= i < |ns| ==> ns[i].Oid? then
      Ok(seq(|ns|, i requires 0 <= i < |ns| => ns[i].id))
    else Err(BadDer)
  }

  /** The items of an explicitly tagged sequence; any other inner object fails the cast. */
  function TaggedItems(n: Node): Result<seq<Node>, PemError>
    requires n.Tagged?
  {
    if n.inner.Seq? then Ok(n.inner.items) else Err(BadDer)
  }

  /**
   * The optional fields, each read from the items that remain (`aux.getObjectAt(ix)` onwards).
   * A field is taken, and the items advanced past it, only when the next item has its type.
   */
  function TakeTrust(xs: seq<Node>): (Result<seq<string>, PemError>, seq<Node>) {
    if |xs| > 0 && xs[0].Seq? then (OidIds(xs[0].items), xs[1..]) else (Ok([]), xs)
  }

  function TakeReject(xs: seq<Node>): (Result<seq<string>, PemError>, seq<Node>) {
    if |xs| > 0 && xs[0].Tagged? && xs[0].tag == 0 then
      var inner := TaggedItems(xs[0]);
      (if inner.Err? then Err(inner.error) else OidIds(inner.value), xs[1..])
    else (Ok([]), xs)
  }

  function TakeAlias(xs: seq<Node>): (Option<string>, seq<Node>) {
    if |xs| > 0 && xs[0].Utf8? then (Some(xs[0].text), xs[1..]) else (None, xs)
  }

  function TakeKeyid(xs: seq<Node>): (Option<seq<byte>>, seq<Node>) {
    if |xs| > 0 && xs[0].Octets? then (Some(xs[0].bytes), xs[1..]) else (None, xs)
  }

  function TakeOther(xs: seq<Node>): Result<seq<Node>, PemError> {
    if |xs| > 0 && xs[0].Tagged? && xs[0].tag == 1 then TaggedItems(xs[0]) else Ok([])
  }

  /**
   * The record the aux-reading code of `readAuxCertificate` builds from the items of the second
   * object: the fields in order, the first failing cast deciding the error.
   */
  function AuxOf(items: seq<Node>): Result<X509Aux, PemError> {
    var (trust, r1) := TakeTrust(items);
    var (reject, r2) := TakeReject(r1);
    var (alias, r3) := TakeAlias(r2);
    var (keyid, r4) := TakeKeyid(r3);
    var other := TakeOther(r4);
    if trust.Err? then Err(trust.error)
    else if reject.Err? then Err(reject.error)
    else if other.Err? then Err(other.error)
    else Ok(X509Aux(trust.value, reject.value, alias, keyid, other.value))
  }

  /** The loop that collects the identifiers of one sequence. */
  method CollectOids(ns: seq<Node>) returns (r: Result<seq<string>, PemError>)
    ensures r == OidIds(ns)
  {
    var ids: seq<string> := [];
    for i := 0 to |ns|
      invariant |ids| == i && forall j :: 0 <= j < i ==> ns[j].Oid? && ids[j] == ns[j].id
    {
      if !ns[i].Oid? {
        return Err(BadDer);
      }
      ids := ids + [ns[i].id];
    }
    assert ids == OidIds(ns).value;
    r := Ok(ids);
  }

  /** The aux-reading code itself: the index `ix` moves past each field that is present. */
  method ReadAuxFields(items: seq<Node>) returns (r: Result<X509Aux, PemError>)
    ensures r == AuxOf(items)
  {
    var trust: seq<string> := [];
    var reject: seq<string> := [];
    var alias: Option<string> := None;
    var keyid: Option<seq<byte>> := None;
    var other: seq<Node> := [];
    var ix := 0;
    if |items| > ix && items[ix].Seq? {
      var t := CollectOids(items[ix].items);
      ix := ix + 1;
      if t.Err? {
        return Err(t.error);
      }
      trust := t.value;
    }
    assert TakeTrust(items) == (Ok(trust), items[ix..]);
    ghost var r1 := items[ix..];
    if |items| > ix && items[ix].Tagged? && items[ix].tag == 0 {
      if !items[ix].inner.Seq? {
        assert TakeReject(r1).0 == Err(BadDer);
        return Err(BadDer);
      }
      var t := CollectOids(items[ix].inner.items);
      ix := ix + 1;
      if t.Err? {
        assert TakeReject(r1).0 == Err(t.error);
        return Err(t.error);
      }
      reject := t.value;
    }
    assert TakeReject(r1) == (Ok(reject), items[ix..]);
    ghost var r2 := items[ix..];
    if |items| > ix && items[ix].Utf8? {
      alias := Some(items[ix].text);
      ix := ix + 1;
    }
    assert TakeAlias(r2) == (alias, items[ix..]);
    ghost var r3 := items[ix..];
    if |items| > ix && items[ix].Octets? {
      keyid := Some(items[ix].bytes);
      ix := ix + 1;
    }
    assert TakeKeyid(r3) == (keyid, items[ix..]);
    ghost var r4 := items[ix..];
    if |items| > ix && items[ix].Tagged? && items[ix].tag == 1 {
      if !items[ix].inner.Seq? {
        assert TakeOther(r4) == Err(BadDer);
        return Err(BadDer);
      }
      other := items[ix].inner.items;
      ix := ix + 1;
    }
    assert TakeOther(r4) == Ok(other);
    r := Ok(X509Aux(trust, reject, alias, keyid, other));
  }

  /** The identifiers written as a sequence are read back. */
  lemma OidIdsOids(ids: seq<string>)
    ensures OidIds(Oids(ids)) == Ok(ids)
  {
    assert OidIds(Oids(ids)).value == ids;
  }

  /** Whether a list of items starts with an item of the given kind; `false` when empty. */
  predicate HeadIs(xs: seq<Node>, kind: int) {
    |xs| > 0 && (
      (kind == 0 && xs[0].Seq?) ||
      (kind == 1 && xs[0].Tagged? && xs[0].tag == 0) ||
      (kind == 2 && xs[0].Utf8?) ||
      (kind == 3 && xs[0].Octets?) ||
      (kind == 4 && xs[0].Tagged? && xs[0].tag == 1))
  }

  /** The written fields from field `kind` on (0 trust, 1 reject, 2 alias, 3 key id, 4 other). */
  function ItemsFrom(aux: X509Aux, kind: nat): seq<Node>
    decreases 5 - kind
  {
    if kind >= 5 then []
    else
      var field :=
        if kind == 0 then (if |aux.trust| > 0 then [Seq(Oids(aux.trust))] else [])
        else if kind == 1 then (if |aux.reject| > 0 then [Tagged(0, Seq(Oids(aux.reject)))] else [])
        else if kind == 2 then (if aux.alias.Some? then [Utf8(aux.alias.value)] else [])
        else if kind == 3 then (if aux.keyid.Some? then [Octets(aux.keyid.value)] else [])
        else (if |aux.other| > 0 then [Tagged(1, Seq(aux.other))] else []);
      field + ItemsFrom(aux, kind + 1)
  }

  /** The written fields after field `kind` never start with an item of that kind. */
  lemma {:induction false} LaterFieldsDiffer(aux: X509Aux, kind: nat, later: nat)
    requires kind < later
    ensures !HeadIs(ItemsFrom(aux, later), kind)
    decreases 5 - later
  {
    if later < 5 {
      var rest := ItemsFrom(aux, later);
      LaterFieldsDiffer(aux, kind, later + 1);
      if |rest| > 0 && rest != ItemsFrom(aux, later + 1) {
        assert rest[0] == ItemsFrom(aux, later)[0];
      }
    }
  }

  /** The writer's items are the fields from the first one on. */
  lemma AuxItemsFrom(aux: X509Aux)
    ensures AuxItems(aux) == ItemsFrom(aux, 0)
  {
    assert ItemsFrom(aux, 5) == [];
    assert ItemsFrom(aux, 4) == (if |aux.other| > 0 then [Tagged(1, Seq(aux.other))] else []);
  }

  /**
   * Reading back what `writeX509Aux` wrote restores all five fields: each present field is
   * found where the absent ones before it leave the index, and each absent field is skipped
   * because the next written item has another type.
   */
  lemma AuxRoundTrip(aux: X509Aux)
    ensures AuxOf(AuxItems(aux)) == Ok(aux)
  {
    AuxItemsFrom(aux);
    TakeTrustWritten(aux);
    TakeRejectWritten(aux);
    TakeAliasWritten(aux);
    TakeKeyidWritten(aux);
    TakeOtherWritten(aux);
  }

  lemma TakeTrustWritten(aux: X509Aux)
    ensures TakeTrust(ItemsFrom(aux, 0)) == (Ok(aux.trust), ItemsFrom(aux, 1))
  {
    var i0, i1 := ItemsFrom(aux, 0), ItemsFrom(aux, 1);
    OidIdsOids(aux.trust);
    assert i0 == (if |aux.trust| > 0 then [Seq(Oids(aux.trust))] else []) + i1;
    if |aux.trust| > 0 {
      assert i0[0] == Seq(Oids(aux.trust)) && i0[1..] == i1;
    } else {
      LaterFieldsDiffer(aux, 0, 1);
      assert aux.trust == [] && i0 == i1;
    }
  }

  lemma TakeRejectWritten(aux: X509Aux)
    ensures TakeReject(ItemsFrom(aux, 1)) == (Ok(aux.reject), ItemsFrom(aux, 2))
  {
    var i1, i2 := ItemsFrom(aux, 1), ItemsFrom(aux, 2);
    OidIdsOids(aux.reject);
    assert i1 == (if |aux.reject| > 0 then [Tagged(0, Seq(Oids(aux.reject)))] else []) + i2;
    if |aux.reject| > 0 {
      assert i1[0] == Tagged(0, Seq(Oids(aux.reject))) && i1[1..] == i2;
      assert TaggedItems(i1[0]) == Ok(Oids(aux.reject));
    } else {
      LaterFieldsDiffer(aux, 1, 2);
      assert aux.reject == [] && i1 == i2;
    }
  }

  lemma TakeAliasWritten(aux: X509Aux)
    ensures TakeAlias(ItemsFrom(aux, 2)) == (aux.alias, ItemsFrom(aux, 3))
  {
    var i2, i3 := ItemsFrom(aux, 2), ItemsFrom(aux, 3);
    assert i2 == (if aux.alias.Some? then [Utf8(aux.alias.value)] else []) + i3;
    if aux.alias.Some? {
      assert i2[0] == Utf8(aux.alias.value) && i2[1..] == i3;
    } else {
      LaterFieldsDiffer(aux, 2, 3);
      assert i2 == i3;
    }
  }

  lemma TakeKeyidWritten(aux: X509Aux)
    ensures TakeKeyid(ItemsFrom(aux, 3)) == (aux.keyid, ItemsFrom(aux, 4))
  {
    var i3, i4 := ItemsFrom(aux, 3), ItemsFrom(aux, 4);
    assert i3 == (if aux.keyid.Some? then [Octets(aux.keyid.value)] else []) + i4;
    if aux.keyid.Some? {
      assert i3[0] == Octets(aux.keyid.value) && i3[1..] == i4;
    } else {
      LaterFieldsDiffer(aux, 3, 4);
      assert i3 == i4;
    }
  }

  lemma TakeOtherWritten(aux: X509Aux)
    ensures TakeOther(ItemsFrom(aux, 4)) == Ok(aux.other)
  {
    var i4 := ItemsFrom(aux, 4);
    assert i4 == (if |aux.other| > 0 then [Tagged(1, Seq(aux.other))] else []) + ItemsFrom(aux, 5);
    if |aux.other| == 0 {
      assert aux.other == [];
    }
  }

  /** The empty record is written as an empty sequence, which reads back as the empty record. */
  lemma EmptyAuxRoundTrip()
    ensures AuxItems(EmptyAux) == [] && AuxOf([]) == Ok(EmptyAux)
  {
  }
}
