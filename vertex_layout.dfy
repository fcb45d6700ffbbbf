/**
 * The vertex attribute layout of the renderer (src/renderer/VertexBufferLayout.h):
 * attributes are pushed one after another and the stride accumulates their
 * byte sizes in an `unsigned int`, so it wraps modulo 2^32.
 */
module VertexLayout {
  import opened CTypes

  const GL_UNSIGNED_BYTE: u32 := 0x1401
  const GL_UNSIGNED_INT: u32 := 0x1405
  const GL_FLOAT: u32 := 0x1406
  const GL_FALSE: byte := 0
  const GL_TRUE: byte := 1

  /** VertexBufferElement: attribute type, component count and normalization flag. */
  datatype Element = Element(kind: u32, count: u32, normalized: byte)

  /**
   * GetSizeOfType: bytes per component of the three supported types, and 0
   * for any other type (the debug assertion before that return is not part of
   * this model).
   */
  function SizeOfType(kind: u32): (r: u32)
    ensures r != 0 <==> kind in {GL_FLOAT, GL_UNSIGNED_INT, GL_UNSIGNED_BYTE}
    ensures r == 4 <==> kind == GL_FLOAT || kind == GL_UNSIGNED_INT
    ensures r <= 4
  {
    if kind == GL_FLOAT then 4
    else if kind == GL_UNSIGNED_INT then 4
    else if kind == GL_UNSIGNED_BYTE then 1
    else 0
  }

  /** The true byte size of a list of attributes, without wrap-around. */
  function ByteSize(elements: seq<Element>): (r: nat)
    ensures (forall k :: 0 <= k < |elements| ==> elements[k].count == 0) ==> r == 0
  {
    if elements == [] then 0
    else elements[0].count * SizeOfType(elements[0].kind) + ByteSize(elements[1..])
  }

  lemma {:induction false} ByteSizeAppend(elements: seq<Element>, e: Element)
    ensures ByteSize(elements + [e]) == ByteSize(elements) + e.count * SizeOfType(e.kind)
  {
    if elements != [] {
      assert (elements + [e])[1..] == elements[1..] + [e];
      ByteSizeAppend(elements[1..], e);
    }
  }

  /** The stride is the byte size of all pushed attributes, as an `unsigned int`. */
  function StrideOf(elements: seq<Element>): u32
  {
    ByteSize(elements) % U32_MODULUS
  }

  /** `stride += count * size` on unsigned ints computes the same stride as summing first. */
  lemma {:induction false} StrideOfAppend(elements: seq<Element>, e: Element)
    ensures StrideOf(elements + [e]) == (StrideOf(elements) + e.count * SizeOfType(e.kind)) % U32_MODULUS
  {
    ByteSizeAppend(elements, e);
    WrapThenAdd(ByteSize(elements), e.count * SizeOfType(e.kind));
  }

  /** Wrapping the running sum before each addition changes nothing modulo 2^32. */
  lemma {:induction false} WrapThenAdd(a: nat, b: nat)
    ensures (a + b) % U32_MODULUS == (a % U32_MODULUS + b) % U32_MODULUS
  {
    var q := a / U32_MODULUS;
    var m := a % U32_MODULUS;
    assert a == q * U32_MODULUS + m;
    assert a + b == q * U32_MODULUS + (m + b);
  }

  class VertexBufferLayout {
    var elements: seq<Element>
    var stride: u32

    /** The stride always matches the pushed elements. */
    predicate Valid()
      reads this
    {
      stride == StrideOf(elements)
    }

    constructor ()
      ensures Valid() && elements == [] && stride == 0
    {
      elements := [];
      stride := 0;
    }

    /** The step every supported Push specialization performs. */
    method PushElement(e: Element)
      requires Valid()
      modifies this
      ensures Valid()
      ensures elements == old(elements) + [e]
      ensures stride == (old(stride) + e.count * SizeOfType(e.kind)) % U32_MODULUS
    {
      StrideOfAppend(elements, e);
      elements := elements + [e];
      stride := (stride + e.count * SizeOfType(e.kind)) % U32_MODULUS;
    }

    /** Push<float>: one GL_FLOAT attribute, not normalized, 4 bytes per component. */
    method PushFloat(count: u32)
      requires Valid()
      modifies this
      ensures Valid()
      ensures elements == old(elements) + [Element(GL_FLOAT, count, GL_FALSE)]
      ensures stride == (old(stride) + 4 * count) % U32_MODULUS
    {
      PushElement(Element(GL_FLOAT, count, GL_FALSE));
    }

    /** Push<unsigned int>: one GL_UNSIGNED_INT attribute, not normalized, 4 bytes per component. */
    method PushUnsignedInt(count: u32)
      requires Valid()
      modifies this
      ensures Valid()
      ensures elements == old(elements) + [Element(GL_UNSIGNED_INT, count, GL_FALSE)]
      ensures stride == (old(stride) + 4 * count) % U32_MODULUS
    {
      PushElement(Element(GL_UNSIGNED_INT, count, GL_FALSE));
    }

    /** Push<unsigned char>: one GL_UNSIGNED_BYTE attribute, normalized, 1 byte per component. */
    method PushUnsignedByte(count: u32)
      requires Valid()
      modifies this
      ensures Valid()
      ensures elements == old(elements) + [Element(GL_UNSIGNED_BYTE, count, GL_TRUE)]
      ensures stride == (old(stride) + count) % U32_MODULUS
    {
      PushElement(Element(GL_UNSIGNED_BYTE, count, GL_TRUE));
    }

    /**
     * The generic Push for any other type: the runtime_error it builds is never
     * thrown, so the layout is left as it was.
     */
    method PushUnsupported(count: u32)
      modifies this
      ensures elements == old(elements) && stride == old(stride)
    {
    }

    function GetElements(): seq<Element>
      reads this
    {
      elements
    }

    function GetStride(): (r: u32)
      reads this
      requires Valid()
      ensures r == ByteSize(elements) % U32_MODULUS
    {
      stride
    }
  }
}
