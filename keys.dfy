/**
  Ring-signature key encodings and key sets of the groups pallet.

  Ristretto points are a type parameter `P`; point compression,
  multiplication of the base point and scalar multiplication are passed in as
  functions, so the model fixes only how the pallet arranges their results.
 */
module Keys {
  import opened Wrappers
  import opened Field

  /** The length of a compressed Ristretto point. */
  const SIZE: nat := 32

  type Bytes32 = b: seq<Byte> | |b| == SIZE witness seq(32, _ => 0)

  datatype CompressedRistretto = CompressedRistretto(bytes: Bytes32)

  datatype RingPublicKey = RingPublicKey(point: CompressedRistretto)

  /** `CompressedRistretto::as_bytes` of the wrapped point. */
  function AsBytes(key: RingPublicKey): (r: seq<Byte>)
    ensures |r| == SIZE
  {
    key.point.bytes
  }

  /** `RingPublicKey::new`: wraps the 32 bytes, which `as_bytes` gives back. */
  function New(bytes: Bytes32): (key: RingPublicKey)
    ensures AsBytes(key) == bytes
  {
    RingPublicKey(CompressedRistretto(bytes))
  }

  /** `RingPublicKey::from_bytes`: `None` unless exactly 32 bytes are given. */
  function FromBytes(bytes: seq<Byte>): (r: Option<RingPublicKey>)
    ensures r.None? <==> |bytes| != SIZE
    ensures r.Some? ==> AsBytes(r.value) == bytes
  {
    if |bytes| != SIZE then None else Some(New(bytes))
  }

  /** Every key comes back from its own bytes. */
  lemma FromAsBytes(key: RingPublicKey)
    ensures FromBytes(AsBytes(key)) == Some(key)
  {
  }

  // ---------------------------------------------------------------------------
  // SCALE encoding

  datatype DecodeError = NotEnoughData

  /** `Encode`: the 32 bytes of the point, with no length prefix. */
  function Encode(key: RingPublicKey): (r: seq<Byte>)
    ensures |r| == SIZE && r == AsBytes(key)
  {
    key.point.bytes
  }

  /** `Decode`: read a fixed 32-byte array from the input and wrap it; the rest of the input is left unread. */
  function Decode(input: seq<Byte>): (r: Result<(RingPublicKey, seq<Byte>), DecodeError>)
    ensures r.Ok? <==> |input| >= SIZE
    ensures r.Ok? ==> Encode(r.value.0) + r.value.1 == input && |r.value.1| == |input| - SIZE
  {
    if |input| < SIZE then Err(NotEnoughData)
    else
      assert input[..SIZE] + input[SIZE..] == input;
      Ok((RingPublicKey(CompressedRistretto(input[..SIZE])), input[SIZE..]))
  }

  /** Decoding an encoded key, followed by anything, gives the key back and leaves the rest unread. */
  lemma DecodeEncode(key: RingPublicKey, rest: seq<Byte>)
    ensures Decode(Encode(key) + rest) == Ok((key, rest))
  {
    var input := Encode(key) + rest;
    assert input[..SIZE] == key.point.bytes;
    assert input[SIZE..] == rest;
  }

  // ---------------------------------------------------------------------------
  // Distinctness and the set of distinct elements

  ghost predicate Distinct<T>(s: seq<T>)
  {
    forall i, j :: 0 <= i < j < |s| ==> s[i] != s[j]
  }

  function Elements<T(==)>(s: seq<T>): set<T>
  {
    set x | x in s
  }

  lemma ElementsSnoc<T>(s: seq<T>, x: T)
    ensures Elements(s + [x]) == Elements(s) + {x}
  {
  }

  /** A sequence has as many distinct elements as it has positions exactly when no two positions hold equal values. */
  lemma {:induction false} DistinctIffNoCollapse<T>(s: seq<T>)
    ensures |Elements(s)| <= |s|
    ensures Distinct(s) <==> |Elements(s)| == |s|
  {
    if |s| > 0 {
      var init, last := s[..|s| - 1], s[|s| - 1];
      assert s == init + [last];
      DistinctIffNoCollapse(init);
      ElementsSnoc(init, last);
      if last in init {
        var k :| 0 <= k < |init| && init[k] == last;
        assert s[k] == s[|s| - 1];
        assert Elements(s) == Elements(init);
      } else {
        assert Distinct(s) <==> Distinct(init);
      }
    }
  }

  // ---------------------------------------------------------------------------
  // Public key sets

  datatype PublicSet<P> = PublicSet(points: seq<P>)

  function Len<P>(set_: PublicSet<P>): nat
  {
    |set_.points|
  }

  /** `to_keys`: the compressed points, in order. */
  function ToKeys<P>(set_: PublicSet<P>, compress: P -> CompressedRistretto): (r: seq<CompressedRistretto>)
    ensures |r| == Len(set_)
  {
    seq(|set_.points|, i requires 0 <= i < |set_.points| => compress(set_.points[i]))
  }

  /** The compressed byte strings of the points. */
  function Encodings<P>(set_: PublicSet<P>, compress: P -> CompressedRistretto): (r: seq<Bytes32>)
    ensures |r| == Len(set_)
  {
    seq(|set_.points|, i requires 0 <= i < |set_.points| => compress(set_.points[i]).bytes)
  }

  /** Two compressed points are equal exactly when their bytes are. */
  lemma EncodingsDistinct<P>(set_: PublicSet<P>, compress: P -> CompressedRistretto)
    ensures Distinct(Encodings(set_, compress)) <==>
      forall i, j :: 0 <= i < j < Len(set_) ==> compress(set_.points[i]) != compress(set_.points[j])
  {
    var encodings := Encodings(set_, compress);
    forall i, j | 0 <= i < j < Len(set_)
      ensures encodings[i] == encodings[j] <==> compress(set_.points[i]) == compress(set_.points[j])
    {
    }
  }

  /**
    `duplicates_exist`: the set of distinct compressed encodings is smaller
    than the key set exactly when two different positions compress to the
    same bytes.
   */
  function DuplicatesExist<P>(set_: PublicSet<P>, compress: P -> CompressedRistretto): (r: bool)
    ensures r <==> exists i, j :: 0 <= i < j < Len(set_) && compress(set_.points[i]) == compress(set_.points[j])
  {
    var encodings := Encodings(set_, compress);
    DistinctIffNoCollapse(encodings);
    EncodingsDistinct(set_, compress);
    Len(set_) != |Elements(encodings)|
  }

  /** Writing the last key over the first of a set of two or more keys creates a duplicate. */
  lemma CopyLastCreatesDuplicate<P>(set_: PublicSet<P>, compress: P -> CompressedRistretto)
    requires Len(set_) >= 2
    ensures DuplicatesExist(PublicSet(set_.points[0 := set_.points[Len(set_) - 1]]), compress)
  {
    var copied := PublicSet(set_.points[0 := set_.points[Len(set_) - 1]]);
    assert compress(copied.points[0]) == compress(copied.points[Len(set_) - 1]);
  }

  /** `to_bytes`: the compressed points, 32 bytes each, concatenated in order. */
  function ToBytes<P>(set_: PublicSet<P>, compress: P -> CompressedRistretto): (r: seq<Byte>)
    ensures |r| == SIZE * Len(set_)
    decreases |set_.points|
  {
    if |set_.points| == 0 then []
    else compress(set_.points[0]).bytes + ToBytes(PublicSet(set_.points[1..]), compress)
  }

  /** Bytes `[32 i, 32 i + 32)` of `to_bytes` are the i-th key of `to_keys`. */
  lemma {:induction false} ToBytesLayout<P>(set_: PublicSet<P>, compress: P -> CompressedRistretto, i: nat)
    requires i < Len(set_)
    ensures ToBytes(set_, compress)[SIZE * i..SIZE * i + SIZE] == ToKeys(set_, compress)[i].bytes
    decreases i
  {
    var head := compress(set_.points[0]).bytes;
    var tail := PublicSet(set_.points[1..]);
    assert ToBytes(set_, compress) == head + ToBytes(tail, compress);
    if i > 0 {
      ToBytesLayout(tail, compress, i - 1);
      assert SIZE * i == SIZE + SIZE * (i - 1);
      assert ToKeys(tail, compress)[i - 1] == ToKeys(set_, compress)[i];
    }
  }

  // ---------------------------------------------------------------------------
  // Private key sets

  datatype PrivateSet = PrivateSet(keys: seq<Scalar>)

  function PrivateLen(set_: PrivateSet): nat
  {
    |set_.keys|
  }

  /** `to_public_set`: each private key times the base point, in order. */
  function ToPublicSet<P>(set_: PrivateSet, mulBase: Scalar -> P): (r: PublicSet<P>)
    ensures Len(r) == PrivateLen(set_)
  {
    PublicSet(seq(|set_.keys|, i requires 0 <= i < |set_.keys| => mulBase(set_.keys[i])))
  }

  /** `compute_key_images`: each private key times the signer's base point, compressed, in order. */
  function ComputeKeyImages<P>(set_: PrivateSet, basepoint: P, scalarMul: (Scalar, P) -> P, compress: P -> CompressedRistretto)
    : (r: seq<CompressedRistretto>)
    ensures |r| == PrivateLen(set_)
  {
    seq(|set_.keys|, i requires 0 <= i < |set_.keys| => compress(scalarMul(set_.keys[i], basepoint)))
  }

  /** Public key i is private key i times the base point, and depends on no other key. */
  lemma PublicKeyAt<P>(set_: PrivateSet, other: PrivateSet, mulBase: Scalar -> P, i: nat)
    requires i < PrivateLen(set_) && i < PrivateLen(other)
    ensures ToPublicSet(set_, mulBase).points[i] == mulBase(set_.keys[i])
    ensures set_.keys[i] == other.keys[i] ==> ToPublicSet(set_, mulBase).points[i] == ToPublicSet(other, mulBase).points[i]
  {
  }

  /** Mapping keys commutes with splitting the set: the map keeps order. */
  lemma ToPublicSetConcat<P>(a: PrivateSet, b: PrivateSet, mulBase: Scalar -> P)
    ensures ToPublicSet(PrivateSet(a.keys + b.keys), mulBase).points ==
      ToPublicSet(a, mulBase).points + ToPublicSet(b, mulBase).points
  {
  }

  /** The same for key images. */
  lemma KeyImagesConcat<P>(a: PrivateSet, b: PrivateSet, basepoint: P, scalarMul: (Scalar, P) -> P, compress: P -> CompressedRistretto)
    ensures ComputeKeyImages(PrivateSet(a.keys + b.keys), basepoint, scalarMul, compress) ==
      ComputeKeyImages(a, basepoint, scalarMul, compress) + ComputeKeyImages(b, basepoint, scalarMul, compress)
  {
  }

  /**
    Key images are the compressed public keys of the same private keys, taken
    with respect to the signer's base point instead of the group base point.
   */
  lemma KeyImagesAreKeysOverBasepoint<P>(set_: PrivateSet, basepoint: P, scalarMul: (Scalar, P) -> P, compress: P -> CompressedRistretto)
    ensures ComputeKeyImages(set_, basepoint, scalarMul, compress) ==
      ToKeys(ToPublicSet(set_, x => scalarMul(x, basepoint)), compress)
  {
  }

  /** Distinct private keys under an injective key derivation give a set without duplicates. */
  lemma FreshSetHasNoDuplicates<P>(set_: PrivateSet, mulBase: Scalar -> P, compress: P -> CompressedRistretto)
    requires Distinct(set_.keys)
    requires forall x, y :: compress(mulBase(x)) == compress(mulBase(y)) ==> x == y
    ensures !DuplicatesExist(ToPublicSet(set_, mulBase), compress)
  {
  }
}
