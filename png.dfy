// PNG data as src/nanoemoji/png.py holds it: bytes that must open with the
// PNG signature, with an image size that is decoded once and cached.
module Png {
  import opened Wrappers

  type Byte = bv8

  /** The PNG file signature, 137 80 78 71 13 10 26 10. */
  const Signature: seq<Byte> := [0x89, 0x50, 0x4E, 0x47, 0x0D, 0x0A, 0x1A, 0x0A]

  /** self[:8]: at most the first eight bytes. */
  function Header(data: seq<Byte>): (r: seq<Byte>)
    ensures |r| == if |data| < 8 then |data| else 8
    ensures r == data[..|r|]
  {
    if |data| < 8 then data else data[..8]
  }

  /** The check of PNG.__new__: the data itself, or ValueError when it does
      not open with the signature. */
  function Check(data: seq<Byte>): (r: Result<seq<Byte>>)
    ensures r.Ok? <==> |data| >= 8 && data[..8] == Signature
    ensures r.Ok? ==> r.value == data
    ensures r.Err? ==> r.error == ValueError
  {
    if Header(data) == Signature then Ok(data) else Err(ValueError)
  }

  /** Data shorter than the signature is always rejected. */
  lemma ShortRejected(data: seq<Byte>)
    requires |data| < 8
    ensures Check(data) == Err(ValueError)
  {
    assert |Header(data)| != |Signature|;
  }

  /** Whatever follows the signature is accepted unchanged. */
  lemma SignatureAccepted(rest: seq<Byte>)
    ensures Check(Signature + rest) == Ok(Signature + rest)
  {
    assert (Signature + rest)[..8] == Signature;
  }

  /** The start of an XML document is not a PNG. */
  lemma XmlRejected()
    ensures Check([0x3C, 0x3F, 0x78, 0x6D, 0x6C]) == Err(ValueError)
  {
    ShortRejected([0x3C, 0x3F, 0x78, 0x6D, 0x6C]);
  }

  class PngData {
    /** The bytes the object is equal to. */
    const data: seq<Byte>
    /** self._size: None until the size is first asked for. */
    var size: Option<(int, int)>

    ghost predicate Valid()
      reads this
    {
      Check(data).Ok?
    }

    constructor (data: seq<Byte>)
      requires Check(data).Ok?
      ensures this.data == data && size == None && Valid()
    {
      this.data := data;
      size := None;
    }

    /** The size property: decode the image the first time, then answer
        from the cache. Decoding is the parameter `decode`. */
    method Size(decode: seq<Byte> -> (int, int)) returns (s: (int, int))
      modifies this
      ensures old(size).Some? ==> s == old(size).value && size == old(size)
      ensures old(size).None? ==> s == decode(data) && size == Some(s)
    {
      if size.None? {
        size := Some(decode(data));
      }
      s := size.value;
    }
  }

  /** PNG(data): a new, valid PNG with no cached size, or the ValueError of
      a bad signature. */
  method NewPng(data: seq<Byte>) returns (r: Result<PngData>)
    ensures r.Ok? <==> |data| >= 8 && data[..8] == Signature
    ensures r.Ok? ==> fresh(r.value) && r.value.Valid() && r.value.data == data && r.value.size == None
    ensures r.Err? ==> r.error == ValueError
  {
    var checked := Check(data);
    if checked.Err? {
      return Err(checked.error);
    }
    var png := new PngData(checked.value);
    return Ok(png);
  }
}
