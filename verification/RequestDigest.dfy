/**
 * The byte string that is hashed for an image request
 * (bentod/src/runners.rs, `ImageSync::object_fence` and `digest_field`).
 *
 * A length is written in `width` bytes, most significant first. The source
 * writes the machine's word, which is `LENGTH_BYTES` wide on a 64-bit machine;
 * everything here holds at every width that the lengths fit.
 */
module RequestDigest {
  import opened Options

  type Byte = b: int | 0 <= b < 256

  /** Text as its UTF-8 bytes. */
  type Text = seq<Byte>

  datatype Request = Request(name: Text, url: Text, have: Option<Text>)

  const LENGTH_BYTES: nat := 8

  function Pow256(k: nat): (p: nat)
    ensures p > 0
  {
    if k == 0 then 1 else 256 * Pow256(k - 1)
  }

  function BigEndian(n: nat, k: nat): (s: seq<Byte>)
    requires n < Pow256(k)
    ensures |s| == k
    decreases k
  {
    if k == 0 then [] else BigEndian(n / 256, k - 1) + [n % 256]
  }

  function FromBigEndian(s: seq<Byte>): nat
    decreases |s|
  {
    if s == [] then 0 else FromBigEndian(s[..|s| - 1]) * 256 + s[|s| - 1]
  }

  lemma {:induction false} BigEndianReadsBack(n: nat, k: nat)
    requires n < Pow256(k)
    ensures FromBigEndian(BigEndian(n, k)) == n
    decreases k
  {
    if k > 0 {
      var s := BigEndian(n, k);
      assert s[..k - 1] == BigEndian(n / 256, k - 1);
      BigEndianReadsBack(n / 256, k - 1);
    }
  }

  predicate FitsText(t: Text, width: nat) { |t| < Pow256(width) }

  predicate Fits(r: Request, width: nat) {
    FitsText(r.name, width) && FitsText(r.url, width) && (r.have.Some? ==> FitsText(r.have.value, width))
  }

  function Field(t: Text, width: nat): seq<Byte>
    requires FitsText(t, width)
  {
    BigEndian(|t|, width) + t
  }

  /** The optional version: a tag, and the field if there is one. */
  function Choice(have: Option<Text>, width: nat): seq<Byte>
    requires have.Some? ==> FitsText(have.value, width)
  {
    match have
    case Some(t) => [1] + Field(t, width)
    case None => [0]
  }

  function Encode(r: Request, width: nat): seq<Byte>
    requires Fits(r, width)
  {
    Field(r.name, width) + Field(r.url, width) + Choice(r.have, width)
  }

  lemma Regroup(a: seq<Byte>, b: seq<Byte>, c: seq<Byte>)
    ensures (a + b) + c == a + (b + c)
  {
  }

  class Hasher {
    const width: nat
    /** Everything given to the hasher so far. */
    var input: seq<Byte>

    constructor (width: nat)
      ensures this.width == width && input == []
    {
      this.width := width;
      input := [];
    }

    method Update(bytes: seq<Byte>)
      modifies this
      ensures input == old(input) + bytes
    {
      input := input + bytes;
    }

    method DigestField(t: Text)
      requires FitsText(t, width)
      modifies this
      ensures input == old(input) + Field(t, width)
    {
      Update(BigEndian(|t|, width));
      Update(t);
      Regroup(old(input), BigEndian(|t|, width), t);
    }

    method DigestChoice(have: Option<Text>)
      requires have.Some? ==> FitsText(have.value, width)
      modifies this
      ensures input == old(input) + Choice(have, width)
    {
      match have {
        case Some(t) =>
          Update([1]);
          DigestField(t);
          Regroup(old(input), [1], Field(t, width));
        case None =>
          Update([0]);
      }
    }

    method DigestRequest(r: Request)
      requires input == [] && Fits(r, width)
      modifies this
      ensures input == Encode(r, width)
    {
      DigestField(r.name);
      DigestField(r.url);
      DigestChoice(r.have);
    }
  }

  // ------------------------------------------------------------------
  // Reading it back
  // ------------------------------------------------------------------

  /** One length-prefixed field and what follows it. */
  function TakeField(s: seq<Byte>, width: nat): Option<(Text, seq<Byte>)> {
    if |s| < width then None
    else
      var n := FromBigEndian(s[..width]);
      if |s| < width + n then None
      else Some((s[width..width + n], s[width + n..]))
  }

  /** The option tag, the version it announces, and what follows. */
  function TakeChoice(s: seq<Byte>, width: nat): Option<(Option<Text>, seq<Byte>)> {
    if s == [] then None
    else if s[0] == 0 then Some((None, s[1..]))
    else if s[0] == 1 then
      var have := TakeField(s[1..], width);
      if have.None? then None else Some((Some(have.value.0), have.value.1))
    else None
  }

  /** One request and what follows it. */
  function Decode(s: seq<Byte>, width: nat): Option<(Request, seq<Byte>)> {
    var name := TakeField(s, width);
    if name.None? then None
    else
      var url := TakeField(name.value.1, width);
      if url.None? then None
      else
        var have := TakeChoice(url.value.1, width);
        if have.None? then None
        else Some((Request(name.value.0, url.value.0, have.value.0), have.value.1))
  }

  lemma FieldReadsBack(t: Text, rest: seq<Byte>, width: nat)
    requires FitsText(t, width)
    ensures TakeField(Field(t, width) + rest, width) == Some((t, rest))
  {
    var s := Field(t, width) + rest;
    assert s[..width] == BigEndian(|t|, width);
    BigEndianReadsBack(|t|, width);
    assert s[width..width + |t|] == t;
    assert s[width + |t|..] == rest;
  }

  lemma ChoiceReadsBack(have: Option<Text>, rest: seq<Byte>, width: nat)
    requires have.Some? ==> FitsText(have.value, width)
    ensures TakeChoice(Choice(have, width) + rest, width) == Some((have, rest))
  {
    var tail := Choice(have, width) + rest;
    if have.Some? {
      assert tail[1..] == Field(have.value, width) + rest;
      FieldReadsBack(have.value, rest, width);
    } else {
      assert tail[1..] == rest;
    }
  }

  /** Every request is read back exactly, whatever comes after it. */
  lemma RequestReadsBack(r: Request, rest: seq<Byte>, width: nat)
    requires Fits(r, width)
    ensures Decode(Encode(r, width) + rest, width) == Some((r, rest))
  {
    var name, url, have := Field(r.name, width), Field(r.url, width), Choice(r.have, width);
    Regroup(name + url, have, rest);
    Regroup(name, url, have + rest);
    FieldReadsBack(r.name, url + (have + rest), width);
    FieldReadsBack(r.url, have + rest, width);
    ChoiceReadsBack(r.have, rest, width);
  }

  /**
   * Two requests never feed the hasher the same bytes, and neither is a
   * prefix of the other: a field cannot be read as part of its neighbour.
   */
  lemma RequestsAreUniquelyDecodable(a: Request, b: Request, x: seq<Byte>, y: seq<Byte>, width: nat)
    requires Fits(a, width) && Fits(b, width)
    requires Encode(a, width) + x == Encode(b, width) + y
    ensures a == b && x == y
  {
    RequestReadsBack(a, x, width);
    RequestReadsBack(b, y, width);
  }

  /** On a 64-bit machine every text shorter than an address space fits. */
  lemma SourceLengthsFit(t: Text)
    ensures FitsText(t, LENGTH_BYTES) <==> |t| < 0x1_0000_0000_0000_0000
  {
    assert Pow256(2) == 0x1_0000;
    assert Pow256(4) == 0x1_0000_0000;
    assert Pow256(6) == 0x1_0000_0000_0000;
  }

  predicate IsAddressable(r: Request) {
    && |r.name| < 0x1_0000_0000_0000_0000 && |r.url| < 0x1_0000_0000_0000_0000
    && (r.have.Some? ==> |r.have.value| < 0x1_0000_0000_0000_0000)
  }

  lemma AddressableFits(r: Request)
    requires IsAddressable(r)
    ensures Fits(r, LENGTH_BYTES)
  {
    SourceLengthsFit(r.name);
    SourceLengthsFit(r.url);
    if r.have.Some? {
      SourceLengthsFit(r.have.value);
    }
  }

  /** The bytes that are hashed on a 64-bit machine. */
  function SourceBytes(r: Request): seq<Byte>
    requires IsAddressable(r)
  {
    AddressableFits(r);
    Encode(r, LENGTH_BYTES)
  }

  /** On a 64-bit machine no two requests that fit in memory are hashed alike, nor is one hashed as the start of another. */
  lemma SourceRequestsAreUniquelyDecodable(a: Request, b: Request, x: seq<Byte>, y: seq<Byte>)
    requires IsAddressable(a) && IsAddressable(b) && SourceBytes(a) + x == SourceBytes(b) + y
    ensures a == b && x == y
  {
    AddressableFits(a);
    AddressableFits(b);
    RequestsAreUniquelyDecodable(a, b, x, y, LENGTH_BYTES);
  }
}
