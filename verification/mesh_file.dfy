/**
 * The mesh-to-STL encoder and the format-conversion decision of
 * src/entity/file.ts.
 *
 * JavaScript numbers are opaque here: they are a type parameter `N`. Reading
 * `normals[i]` past the end of an array yields `undefined`, modelled as
 * `None`. `DataView.setFloat32` stores the binary32 bit pattern of the value
 * it is given (NaN for `undefined`); that rounding is not modelled and is
 * supplied by the caller as `f32`.
 */
module MeshFile {
  import opened Common

  /*
   * Little-endian words, as `DataView.setUint32(offset, value, true)`
   * writes them and `getUint32(offset, true)` reads them back.
   */

  function LittleEndian32(w: bv32): (b: seq<Byte>)
    ensures |b| == 4
  {
    [(w & 0xFF) as Byte, ((w >> 8) & 0xFF) as Byte, ((w >> 16) & 0xFF) as Byte, ((w >> 24) & 0xFF) as Byte]
  }

  /** Reading back the four bytes `setUint32` stored yields the word written. */
  lemma LittleEndian32RoundTrip(w: bv32)
    ensures Uint32At(LittleEndian32(w), 0) == w
  {
  }

  function Uint32At(b: seq<Byte>, i: nat): bv32
    requires i + 4 <= |b|
  {
    Word(b[i], b[i + 1], b[i + 2], b[i + 3])
  }

  /** The 32-bit word whose little-endian bytes are b0, b1, b2, b3. */
  function Word(b0: Byte, b1: Byte, b2: Byte, b3: Byte): bv32
  {
    (b0 as bv32) | ((b1 as bv32) << 8) | ((b2 as bv32) << 16) | ((b3 as bv32) << 24)
  }

  /** ECMAScript ToUint32 of a non-negative integer, as `setUint32` applies it. */
  function ToUint32(n: nat): bv32
  {
    (n % 0x1_0000_0000) as bv32
  }

  /** `s[i]` in JavaScript: `undefined` (None) past the end. */
  function JsIndex<N>(s: seq<N>, i: nat): Option<N>
  {
    if i < |s| then Some(s[i]) else None
  }

  /**
   * Number of faces the encoder's loop fills: the faces `face` with
   * `face < normals.length / 3` in real division, i.e. the ceiling of n / 3.
   */
  function FacesFilled(n: nat): nat
  {
    (n + 2) / 3
  }

  /**
   * The value written into four-byte slot `k` (0..11) of face `face`: three
   * normal components, then three vertices of three coordinates each.
   */
  function Slot<N>(normals: seq<N>, vertices: seq<N>, face: nat, k: nat): Option<N>
    requires k < 12
  {
    if k < 3 then JsIndex(normals, 3 * face + k) else JsIndex(vertices, 9 * face + (k - 3))
  }

  /** The first `k` slots of one face, four bytes each. */
  function FaceFloats<N>(normals: seq<N>, vertices: seq<N>, f32: Option<N> -> bv32, face: nat, k: nat): (b: seq<Byte>)
    requires k <= 12
    ensures |b| == 4 * k
  {
    seq(4 * k, i requires 0 <= i < 4 * k => LittleEndian32(f32(Slot(normals, vertices, face, i / 4)))[i % 4])
  }

  lemma FaceFloatsStep<N>(normals: seq<N>, vertices: seq<N>, f32: Option<N> -> bv32, face: nat, k: nat)
    requires k < 12
    ensures FaceFloats(normals, vertices, f32, face, k + 1)
            == FaceFloats(normals, vertices, f32, face, k) + LittleEndian32(f32(Slot(normals, vertices, face, k)))
  {
    var longer := FaceFloats(normals, vertices, f32, face, k + 1);
    var word := LittleEndian32(f32(Slot(normals, vertices, face, k)));
    forall i | 4 * k <= i < 4 * k + 4
      ensures longer[i] == word[i - 4 * k]
    {
      assert i / 4 == k && i % 4 == i - 4 * k;
    }
  }

  /** One 50-byte facet record: twelve float32 slots and a zero attribute count. */
  function FaceRecord<N>(normals: seq<N>, vertices: seq<N>, f32: Option<N> -> bv32, face: nat): (b: seq<Byte>)
    ensures |b| == 50
  {
    FaceFloats(normals, vertices, f32, face, 12) + [0, 0]
  }

  /** The records of faces 0 .. count - 1, back to back. */
  function Faces<N>(normals: seq<N>, vertices: seq<N>, f32: Option<N> -> bv32, count: nat): (b: seq<Byte>)
    ensures |b| == 50 * count
  {
    if count == 0 then []
    else Faces(normals, vertices, f32, count - 1) + FaceRecord(normals, vertices, f32, count - 1)
  }

  function Zeros(n: nat): (b: seq<Byte>)
    ensures |b| == n
    ensures forall i :: 0 <= i < n ==> b[i] == 0
  {
    seq(n, _ => 0)
  }

  lemma FacesFilledAtMost(n: nat)
    ensures FacesFilled(n) <= n
    ensures n % 3 == 0 ==> FacesFilled(n) == n / 3
  {
  }

  /**
   * A binary STL buffer: an 80-byte zero header, a little-endian count at
   * offset 80, the facet records from offset 84, then zero padding.
   */
  function Layout(count: bv32, records: seq<Byte>, padding: nat): (img: seq<Byte>)
    ensures |img| == 84 + |records| + padding
  {
    Zeros(80) + LittleEndian32(count) + records + Zeros(padding)
  }

  /**
   * The buffer `meshToSTL` returns, as written: 84 + 50 * normals.length
   * bytes, `normals.length` as the count at offset 80, and the first
   * ceil(normals.length / 3) facet records filled.
   */
  function StlImage<N>(normals: seq<N>, vertices: seq<N>, f32: Option<N> -> bv32): (img: seq<Byte>)
    ensures |img| == 84 + 50 * |normals|
  {
    var n := |normals|;
    FacesFilledAtMost(n);
    Layout(ToUint32(n), Faces(normals, vertices, f32, FacesFilled(n)), 50 * (n - FacesFilled(n)))
  }

  /**
   * The binary STL layout with the facet count the format asks for: one
   * record per filled face and that number of faces at offset 80.
   */
  function FacetImage<N>(normals: seq<N>, vertices: seq<N>, f32: Option<N> -> bv32): (img: seq<Byte>)
    ensures |img| == 84 + 50 * FacesFilled(|normals|)
  {
    var faces := FacesFilled(|normals|);
    Layout(ToUint32(faces), Faces(normals, vertices, f32, faces), 0)
  }

  /** `DataView.setUint32(offset, w, true)`; `setFloat32` stores `f32(x)` the same way. */
  method SetUint32(buffer: array<Byte>, offset: nat, w: bv32)
    requires offset + 4 <= buffer.Length
    modifies buffer
    ensures buffer[..] == old(buffer[..])[..offset] + LittleEndian32(w) + old(buffer[..])[offset + 4..]
  {
    var bytes := LittleEndian32(w);
    buffer[offset] := bytes[0];
    buffer[offset + 1] := bytes[1];
    buffer[offset + 2] := bytes[2];
    buffer[offset + 3] := bytes[3];
  }

  lemma LoopBound(face: nat, n: nat)
    ensures (face as real) < (n as real) / 3.0 <==> face < FacesFilled(n)
  {
  }

  /** Storing slot `k` over the untouched bytes extends the written prefix of the face by one word. */
  lemma SlotStep<N>(before: seq<Byte>, binaryOffset: nat, normals: seq<N>, vertices: seq<N>,
                    f32: Option<N> -> bv32, face: nat, k: nat)
    requires k < 12 && binaryOffset + 48 <= |before|
    ensures var current := before[..binaryOffset] + FaceFloats(normals, vertices, f32, face, k) + before[binaryOffset + 4 * k..];
            current[..binaryOffset + 4 * k] + LittleEndian32(f32(Slot(normals, vertices, face, k)))
            + current[binaryOffset + 4 * k + 4..]
            == before[..binaryOffset] + FaceFloats(normals, vertices, f32, face, k + 1) + before[binaryOffset + 4 * (k + 1)..]
  {
    var done := before[..binaryOffset] + FaceFloats(normals, vertices, f32, face, k);
    var current := done + before[binaryOffset + 4 * k..];
    assert current[..binaryOffset + 4 * k] == done;
    assert current[binaryOffset + 4 * k + 4..] == before[binaryOffset + 4 * (k + 1)..];
    FaceFloatsStep(normals, vertices, f32, face, k);
  }

  /** Writing face `face`'s slots into the zeroed tail extends the filled prefix by one record. */
  lemma FaceStep<N>(header: seq<Byte>, normals: seq<N>, vertices: seq<N>, f32: Option<N> -> bv32, face: nat, length: nat)
    requires |header| == 84 && 84 + 50 * (face + 1) <= length
    ensures var before := header + Faces(normals, vertices, f32, face) + Zeros(length - (84 + 50 * face));
            before[..84 + 50 * face] + FaceFloats(normals, vertices, f32, face, 12) + before[84 + 50 * face + 48..]
            == header + Faces(normals, vertices, f32, face + 1) + Zeros(length - (84 + 50 * (face + 1)))
  {
    var done := header + Faces(normals, vertices, f32, face);
    var rest := Zeros(length - (84 + 50 * face));
    assert (done + rest)[..84 + 50 * face] == done;
    assert (done + rest)[84 + 50 * face + 48..] == rest[48..] == [0, 0] + Zeros(length - (84 + 50 * (face + 1)));
  }

  /**
   * The twelve `setFloat32` calls of one iteration of `meshToSTL`'s loop:
   * slot k of face `face` goes to binaryOffset + 4 * k.
   */
  method WriteSlots<N>(buffer: array<Byte>, binaryOffset: nat, normals: seq<N>, vertices: seq<N>,
                       f32: Option<N> -> bv32, face: nat)
    requires binaryOffset + 48 <= buffer.Length
    modifies buffer
    ensures buffer[..] == old(buffer[..])[..binaryOffset] + FaceFloats(normals, vertices, f32, face, 12)
                          + old(buffer[..])[binaryOffset + 48..]
  {
    ghost var before := buffer[..];
    var normalOffset := 3 * face;
    var verticeOffset := 9 * face;
    var k := 0;
    while k < 12
      invariant 0 <= k <= 12
      invariant buffer[..] == before[..binaryOffset] + FaceFloats(normals, vertices, f32, face, k)
                              + before[binaryOffset + 4 * k..]
    {
      var value := if k < 3 then JsIndex(normals, normalOffset + k) else JsIndex(vertices, verticeOffset + (k - 3));
      assert value == Slot(normals, vertices, face, k);
      SetUint32(buffer, binaryOffset + 4 * k, f32(value));
      SlotStep(before, binaryOffset, normals, vertices, f32, face, k);
      k := k + 1;
    }
  }

  /**
   * One iteration of `meshToSTL`'s loop, at binaryOffset = 84 + 50 * face:
   * over the zeroed tail it appends the face's record.
   */
  method WriteFace<N>(buffer: array<Byte>, ghost header: seq<Byte>, normals: seq<N>, vertices: seq<N>,
                      f32: Option<N> -> bv32, face: nat)
    requires |header| == 84 && 84 + 50 * (face + 1) <= buffer.Length
    requires buffer[..] == header + Faces(normals, vertices, f32, face) + Zeros(buffer.Length - (84 + 50 * face))
    modifies buffer
    ensures buffer[..] == header + Faces(normals, vertices, f32, face + 1) + Zeros(buffer.Length - (84 + 50 * (face + 1)))
  {
    var binaryOffset := 84 + 50 * face;
    WriteSlots(buffer, binaryOffset, normals, vertices, f32, face);
    FaceStep(header, normals, vertices, f32, face, buffer.Length);
  }

  /**
   * The `for (face ...)` loop of `meshToSTL`: it runs while
   * `face < normals.length / 3` and fills one facet record per iteration.
   */
  method WriteFaces<N>(buffer: array<Byte>, normals: seq<N>, vertices: seq<N>, f32: Option<N> -> bv32)
    requires 84 + 50 * FacesFilled(|normals|) <= buffer.Length
    requires forall i :: 84 <= i < buffer.Length ==> buffer[i] == 0
    modifies buffer
    ensures buffer[..] == old(buffer[..84]) + Faces(normals, vertices, f32, FacesFilled(|normals|))
                          + Zeros(buffer.Length - (84 + 50 * FacesFilled(|normals|)))
  {
    ghost var header := buffer[..84];
    assert buffer[..] == header + Faces(normals, vertices, f32, 0) + Zeros(buffer.Length - 84);
    var face := 0;
    LoopBound(face, |normals|);
    while (face as real) < (|normals| as real) / 3.0
      invariant 0 <= face <= FacesFilled(|normals|)
      invariant buffer[..] == header + Faces(normals, vertices, f32, face) + Zeros(buffer.Length - (84 + 50 * face))
      decreases FacesFilled(|normals|) - face
    {
      LoopBound(face, |normals|);
      WriteFace(buffer, header, normals, vertices, f32, face);
      face := face + 1;
      LoopBound(face, |normals|);
    }
    assert face == FacesFilled(|normals|);
  }

  /** Storing the count at offset 80 of a zeroed buffer gives the header of `Layout`. */
  lemma ZeroHeader(zeros: seq<Byte>, count: bv32)
    requires 84 <= |zeros| && zeros == Zeros(|zeros|)
    ensures (zeros[..80] + LittleEndian32(count) + zeros[84..])[..84] == Zeros(80) + LittleEndian32(count)
    ensures forall i :: 84 <= i < |zeros| ==> (zeros[..80] + LittleEndian32(count) + zeros[84..])[i] == 0
  {
    assert zeros[..80] == Zeros(80);
  }

  /** `meshToSTL(normals, vertices)`. */
  method MeshToStl<N>(normals: seq<N>, vertices: seq<N>, f32: Option<N> -> bv32) returns (stl: seq<Byte>)
    ensures stl == StlImage(normals, vertices, f32)
  {
    var length := 84 + 50 * |normals|;
    var buffer := new Byte[length](_ => 0);
    assert buffer[..] == Zeros(length);
    SetUint32(buffer, 80, ToUint32(|normals|));
    FacesFilledAtMost(|normals|);
    WriteFaces(buffer, normals, vertices, f32);
    stl := buffer[..];
    ZeroHeader(Zeros(length), ToUint32(|normals|));
  }

  /**
   * The encoder with the facet count of the binary STL format: the buffer
   * holds exactly the filled facets and offset 80 holds their number.
   */
  method MeshToStlFacets<N>(normals: seq<N>, vertices: seq<N>, f32: Option<N> -> bv32) returns (stl: seq<Byte>)
    ensures stl == FacetImage(normals, vertices, f32)
  {
    var faces := (|normals| + 2) / 3;
    var buffer := new Byte[84 + 50 * faces](_ => 0);
    assert buffer[..] == Zeros(84 + 50 * faces);
    SetUint32(buffer, 80, ToUint32(faces));
    WriteFaces(buffer, normals, vertices, f32);
    stl := buffer[..];
    ZeroHeader(Zeros(84 + 50 * faces), ToUint32(faces));
  }

  /* Reading the buffers back. */

  lemma Uint32AtSame(a: seq<Byte>, i: nat, b: seq<Byte>, j: nat)
    requires i + 4 <= |a| && j + 4 <= |b|
    requires a[i] == b[j] && a[i + 1] == b[j + 1] && a[i + 2] == b[j + 2] && a[i + 3] == b[j + 3]
    ensures Uint32At(a, i) == Uint32At(b, j)
  {
  }

  /** Where each part of a layout sits. */
  lemma LayoutAt(count: bv32, records: seq<Byte>, padding: nat)
    ensures var img := Layout(count, records, padding);
            && (forall i :: 0 <= i < 80 ==> img[i] == 0)
            && Uint32At(img, 80) == count
            && (forall i :: 0 <= i < |records| ==> img[84 + i] == records[i])
            && (forall i :: 84 + |records| <= i < |img| ==> img[i] == 0)
  {
    var img := Layout(count, records, padding);
    var word := LittleEndian32(count);
    Uint32AtSame(img, 80, word, 0);
    LittleEndian32RoundTrip(count);
  }

  /** Byte `j` of face `face`'s record inside the concatenated records. */
  lemma {:induction false} FacesAt<N>(normals: seq<N>, vertices: seq<N>, f32: Option<N> -> bv32, count: nat, face: nat, j: nat)
    requires face < count && j < 50
    ensures Faces(normals, vertices, f32, count)[50 * face + j] == FaceRecord(normals, vertices, f32, face)[j]
  {
    if face < count - 1 {
      FacesAt(normals, vertices, f32, count - 1, face, j);
    }
  }

  /** Slot `k` of a face record decodes to the value stored for it. */
  lemma FaceFloatsWord<N>(normals: seq<N>, vertices: seq<N>, f32: Option<N> -> bv32, face: nat, count: nat, k: nat)
    requires k < count <= 12
    ensures Uint32At(FaceFloats(normals, vertices, f32, face, count), 4 * k) == f32(Slot(normals, vertices, face, k))
  {
    var all := FaceFloats(normals, vertices, f32, face, count);
    var w := f32(Slot(normals, vertices, face, k));
    var word := LittleEndian32(w);
    forall t | 0 <= t < 4
      ensures all[4 * k + t] == word[t]
    {
      assert (4 * k + t) / 4 == k && (4 * k + t) % 4 == t;
    }
    Uint32AtSame(all, 4 * k, word, 0);
    LittleEndian32RoundTrip(w);
  }

  /** A word inside the records reads the same once the records sit at offset 84. */
  lemma LayoutWord(count: bv32, records: seq<Byte>, padding: nat, i: nat)
    requires i + 4 <= |records|
    ensures Uint32At(Layout(count, records, padding), 84 + i) == Uint32At(records, i)
  {
    var img := Layout(count, records, padding);
    LayoutRecord(count, records, padding, i);
    LayoutRecord(count, records, padding, i + 1);
    LayoutRecord(count, records, padding, i + 2);
    LayoutRecord(count, records, padding, i + 3);
    Uint32AtSame(img, 84 + i, records, i);
  }

  /** Byte `i` of the records sits at offset 84 + i. */
  lemma LayoutRecord(count: bv32, records: seq<Byte>, padding: nat, i: nat)
    requires i < |records|
    ensures Layout(count, records, padding)[84 + i] == records[i]
  {
    var head := Zeros(80) + LittleEndian32(count);
    assert Layout(count, records, padding) == head + records + Zeros(padding);
  }

  /** Slot `k` of face `face` inside the concatenated records. */
  lemma RecordsWord<N>(normals: seq<N>, vertices: seq<N>, f32: Option<N> -> bv32, faces: nat, face: nat, k: nat)
    requires face < faces && k < 12
    ensures 50 * face + 4 * k + 4 <= |Faces(normals, vertices, f32, faces)|
    ensures Uint32At(Faces(normals, vertices, f32, faces), 50 * face + 4 * k) == f32(Slot(normals, vertices, face, k))
  {
    var records := Faces(normals, vertices, f32, faces);
    var floats := FaceFloats(normals, vertices, f32, face, 12);
    FacesAt(normals, vertices, f32, faces, face, 4 * k);
    FacesAt(normals, vertices, f32, faces, face, 4 * k + 1);
    FacesAt(normals, vertices, f32, faces, face, 4 * k + 2);
    FacesAt(normals, vertices, f32, faces, face, 4 * k + 3);
    Uint32AtSame(records, 50 * face + 4 * k, floats, 4 * k);
    FaceFloatsWord(normals, vertices, f32, face, 12, k);
  }

  /** The twelve slots of every filled face decode to its normal and its three vertices. */
  lemma LayoutSlot<N>(normals: seq<N>, vertices: seq<N>, f32: Option<N> -> bv32, count: bv32, faces: nat, padding: nat,
                      face: nat, k: nat)
    requires face < faces && k < 12
    ensures var img := Layout(count, Faces(normals, vertices, f32, faces), padding);
            && 84 + 50 * face + 48 <= |img|
            && Uint32At(img, 84 + 50 * face + 4 * k) == f32(Slot(normals, vertices, face, k))
  {
    RecordsWord(normals, vertices, f32, faces, face, k);
    LayoutWord(count, Faces(normals, vertices, f32, faces), padding, 50 * face + 4 * k);
  }

  /**
   * The header of `meshToSTL`'s buffer is zero and offset 80 holds
   * `normals.length` (not `normals.length / 3`).
   */
  lemma StlHeaderAndCount<N>(normals: seq<N>, vertices: seq<N>, f32: Option<N> -> bv32)
    ensures var img := StlImage(normals, vertices, f32);
            && (forall i :: 0 <= i < 80 ==> img[i] == 0)
            && Uint32At(img, 80) == ToUint32(|normals|)
  {
    var n := |normals|;
    LayoutAt(ToUint32(n), Faces(normals, vertices, f32, FacesFilled(n)), 50 * (n - FacesFilled(n)));
  }

  /**
   * For each face the loop visits, the slots at 84 + 50 * face + 4 * k hold
   * normals[3 * face .. 3 * face + 2] and then vertices[9 * face .. 9 * face + 8].
   */
  lemma StlFacetSlot<N>(normals: seq<N>, vertices: seq<N>, f32: Option<N> -> bv32, face: nat, k: nat)
    requires face < FacesFilled(|normals|) && k < 12
    ensures var img := StlImage(normals, vertices, f32);
            && 84 + 50 * face + 48 <= |img|
            && Uint32At(img, 84 + 50 * face + 4 * k)
               == f32(if k < 3 then JsIndex(normals, 3 * face + k) else JsIndex(vertices, 9 * face + k - 3))
  {
    var n := |normals|;
    FacesFilledAtMost(n);
    LayoutSlot(normals, vertices, f32, ToUint32(n), FacesFilled(n), 50 * (n - FacesFilled(n)), face, k);
  }

  /** The two attribute bytes of every filled face stay zero. */
  lemma StlAttributeBytesZero<N>(normals: seq<N>, vertices: seq<N>, f32: Option<N> -> bv32, face: nat)
    requires face < FacesFilled(|normals|)
    ensures var img := StlImage(normals, vertices, f32);
            && 84 + 50 * face + 50 <= |img|
            && img[84 + 50 * face + 48] == 0 && img[84 + 50 * face + 49] == 0
  {
    var n := |normals|;
    var records := Faces(normals, vertices, f32, FacesFilled(n));
    FacesFilledAtMost(n);
    LayoutRecord(ToUint32(n), records, 50 * (n - FacesFilled(n)), 50 * face + 48);
    LayoutRecord(ToUint32(n), records, 50 * (n - FacesFilled(n)), 50 * face + 49);
    FacesAt(normals, vertices, f32, FacesFilled(n), face, 48);
    FacesAt(normals, vertices, f32, FacesFilled(n), face, 49);
  }

  /** Everything past the last filled face stays zero. */
  lemma StlTailZero<N>(normals: seq<N>, vertices: seq<N>, f32: Option<N> -> bv32)
    ensures var img := StlImage(normals, vertices, f32);
            forall i :: 84 + 50 * FacesFilled(|normals|) <= i < |img| ==> img[i] == 0
  {
    var n := |normals|;
    FacesFilledAtMost(n);
    LayoutAt(ToUint32(n), Faces(normals, vertices, f32, FacesFilled(n)), 50 * (n - FacesFilled(n)));
  }

  /**
   * The offset arithmetic behind the loop: the 48 written bytes of each
   * visited face lie inside the buffer, and those of distinct faces do not
   * overlap. That one face's stores leave every other byte alone is the frame
   * in `WriteSlots`' postcondition; this lemma says the regions it frames
   * never meet.
   */
  lemma FaceRegionsDisjoint(n: nat, face1: nat, face2: nat)
    requires face1 < FacesFilled(n) && face2 < FacesFilled(n) && face1 != face2
    ensures 84 + 50 * face1 + 48 <= 84 + 50 * n
    ensures 84 + 50 * face1 + 48 <= 84 + 50 * face2 || 84 + 50 * face2 + 48 <= 84 + 50 * face1
  {
  }

  /**
   * With whole faces and enough vertices (the doc comment's "3x the length of
   * the normals"), every slot reads a defined array element.
   */
  lemma StlReadsInRange<N>(normals: seq<N>, vertices: seq<N>, face: nat, k: nat)
    requires |normals| % 3 == 0 && |vertices| >= 3 * |normals|
    requires face < FacesFilled(|normals|) && k < 12
    ensures Slot(normals, vertices, face, k)
            == Some(if k < 3 then normals[3 * face + k] else vertices[9 * face + k - 3])
  {
    FacesFilledAtMost(|normals|);
  }

  /**
   * When normals.length is not a multiple of three the loop still visits the
   * partial face and reads past the end: with four components, face 1 reads
   * normals[4], which is undefined.
   */
  lemma StlPartialFaceReadsUndefined<N>(normals: seq<N>, vertices: seq<N>)
    requires |normals| == 4
    ensures FacesFilled(|normals|) == 2
    ensures Slot(normals, vertices, 1, 1) == None
  {
  }

  /**
   * The count and size `meshToSTL` writes for the one-face mesh: 234 bytes
   * and a count of 3, while the mesh has one face.
   */
  lemma StlCountIsComponentCount<N>(normals: seq<N>, vertices: seq<N>, f32: Option<N> -> bv32)
    requires |normals| == 3 && |vertices| == 9
    ensures var img := StlImage(normals, vertices, f32);
            && FacesFilled(|normals|) == 1
            && |img| == 234
            && Uint32At(img, 80) == 3
            && forall i :: 134 <= i < 234 ==> img[i] == 0
  {
    StlHeaderAndCount(normals, vertices, f32);
    StlTailZero(normals, vertices, f32);
  }

  /**
   * The corrected layout reads back consistently: offset 80 holds the number
   * of faces and the buffer is exactly 84 + 50 bytes per counted facet.
   */
  lemma FacetImageRoundTrip<N>(normals: seq<N>, vertices: seq<N>, f32: Option<N> -> bv32)
    ensures var img := FacetImage(normals, vertices, f32);
            && Uint32At(img, 80) == ToUint32(FacesFilled(|normals|))
            && |img| == 84 + 50 * FacesFilled(|normals|)
  {
    var faces := FacesFilled(|normals|);
    LayoutAt(ToUint32(faces), Faces(normals, vertices, f32, faces), 0);
  }

  /** The corrected layout keeps each face's slots where `meshToSTL` puts them. */
  lemma FacetImageSlot<N>(normals: seq<N>, vertices: seq<N>, f32: Option<N> -> bv32, face: nat, k: nat)
    requires face < FacesFilled(|normals|) && k < 12
    ensures var img := FacetImage(normals, vertices, f32);
            && 84 + 50 * face + 48 <= |img|
            && Uint32At(img, 84 + 50 * face + 4 * k) == Uint32At(StlImage(normals, vertices, f32), 84 + 50 * face + 4 * k)
  {
    var n := |normals|;
    StlFacetSlot(normals, vertices, f32, face, k);
    LayoutSlot(normals, vertices, f32, ToUint32(FacesFilled(n)), FacesFilled(n), 0, face, k);
  }

  /*
   * `convert`: the STL bypass, the format lookup in the loader's table, and
   * the mesh-count handling. The loader module and its parser are external;
   * they enter as a `Loader` value.
   */

  /** One entry of the loader's `FileFormats` table. */
  datatype Format = Format(name: string, extensions: seq<string>)

  /** A parsed mesh, after `Array.from` has turned its typed arrays into plain arrays. */
  datatype Mesh<N> = Mesh(normals: seq<N>, vertices: seq<N>)

  /**
   * The outcome of `import('unified-3d-loader')`: either the import threw, or
   * it gave the format table (in `Object.values` order) and the parser's
   * `load` for this file and format. `load` gives `None` when the promise
   * rejects: the parser fails, or the first mesh lacks its normal or vertex
   * array, so that `Array.from` throws.
   */
  datatype Loader<N> =
    | ImportFailed
    | Imported(formats: seq<Format>, load: (seq<Byte>, Format) -> Option<seq<Mesh<N>>>)

  /** The three `Error` values `convert` returns. */
  datatype ConvertError =
    | LoaderImportFailed
    | NoMeshes
    | UnsupportedExtension(extension: string)

  /**
   * How `convert` settles: it resolves with a result, noting whether it
   * registered the progress listener and called `load` (the only way it ever
   * reports progress), or it rejects because parsing did.
   */
  datatype Conversion =
    | Resolved(result: Result<seq<Byte>, ConvertError>, parsed: bool)
    | Rejected

  /** `Object.values(FileFormats).find(f => f.extensions.includes(extension))`. */
  function FindFormat(formats: seq<Format>, extension: string): (r: Option<Format>)
    ensures r.None? <==> forall i :: 0 <= i < |formats| ==> extension !in formats[i].extensions
    ensures r.Some? ==> exists i :: 0 <= i < |formats| && formats[i] == r.value
                                    && extension in r.value.extensions
                                    && forall j :: 0 <= j < i ==> extension !in formats[j].extensions
  {
    if formats == [] then None
    else if extension in formats[0].extensions then Some(formats[0])
    else
      var r := FindFormat(formats[1..], extension);
      assert forall i :: 1 <= i < |formats| ==> formats[i] == formats[1..][i - 1];
      r
  }

  /**
   * `convert(file, extension, progress)`. The mesh is encoded as `StlImage`,
   * the buffer `MeshToStl` is proved to return.
   */
  function Convert<N>(file: seq<Byte>, extension: string, loader: Loader<N>, f32: Option<N> -> bv32): (c: Conversion)
    // the import is attempted before anything else, even for "stl"
    ensures loader.ImportFailed? ==> c == Resolved(Err(LoaderImportFailed), false)
    // STL input is passed through untouched and nothing is parsed
    ensures loader.Imported? && extension == "stl" ==> c == Resolved(Ok(file), false)
    // no format lists the extension: an error, without parsing
    ensures loader.Imported? && extension != "stl"
            && (forall i :: 0 <= i < |loader.formats| ==> extension !in loader.formats[i].extensions)
            ==> c == Resolved(Err(UnsupportedExtension(extension)), false)
    // parsing happens exactly when some format lists a non-STL extension
    ensures (c.Rejected? || c.parsed) <==>
              (loader.Imported? && extension != "stl"
               && exists i :: 0 <= i < |loader.formats| && extension in loader.formats[i].extensions)
    // a rejected parse rejects; zero meshes is an error; otherwise the first mesh alone is encoded
    ensures (c.Rejected? || c.parsed) ==>
              var meshes := loader.load(file, FindFormat(loader.formats, extension).value);
              && (meshes.None? <==> c.Rejected?)
              && (meshes.Some? && |meshes.value| == 0 ==> c == Resolved(Err(NoMeshes), true))
              && (meshes.Some? && |meshes.value| > 0 ==>
                    c == Resolved(Ok(StlImage(meshes.value[0].normals, meshes.value[0].vertices, f32)), true))
  {
    match loader
    case ImportFailed => Resolved(Err(LoaderImportFailed), false)
    case Imported(formats, load) =>
      var format := FindFormat(formats, extension);
      if extension == "stl" then Resolved(Ok(file), false)
      else if format.Some? then
        match load(file, format.value)
        case None => Rejected
        case Some(meshes) =>
          if |meshes| == 0 then Resolved(Err(NoMeshes), true)
          else Resolved(Ok(StlImage(meshes[0].normals, meshes[0].vertices, f32)), true)
      else Resolved(Err(UnsupportedExtension(extension)), false)
  }

  /**
   * A successful non-STL conversion is the `meshToSTL` buffer of the first
   * mesh: 84 + 50 * normals.length bytes with normals.length at offset 80,
   * whatever the later meshes hold.
   */
  lemma ConvertedMeshLayout<N>(file: seq<Byte>, extension: string, loader: Loader<N>, f32: Option<N> -> bv32)
    requires Convert(file, extension, loader, f32).Resolved?
    requires Convert(file, extension, loader, f32).parsed
    requires Convert(file, extension, loader, f32).result.Ok?
    ensures var meshes := loader.load(file, FindFormat(loader.formats, extension).value);
            var bytes := Convert(file, extension, loader, f32).result.value;
            && meshes.Some? && |meshes.value| > 0
            && |bytes| == 84 + 50 * |meshes.value[0].normals|
            && Uint32At(bytes, 80) == ToUint32(|meshes.value[0].normals|)
  {
    var meshes := loader.load(file, FindFormat(loader.formats, extension).value).value;
    StlHeaderAndCount(meshes[0].normals, meshes[0].vertices, f32);
  }
}
