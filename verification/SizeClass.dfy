/** Size classes of the slab allocator and the lookup table built from them. */
module SizeClass {
  const SLAB_MAX_SIZE: nat := 1024
  const NUM_SIZE_CLASSES: nat := 22
  const PAGE_SIZE: nat := 4096

  const SIZE_CLASSES: seq<nat> := [
    8, 16, 24, 32, 48, 64,
    80, 96, 112, 128,
    160, 192, 224, 256,
    320, 384, 448, 512,
    640, 768, 896, 1024]

  function ClassToSize(class_: nat): (size: nat)
    requires class_ < NUM_SIZE_CLASSES
    ensures 8 <= size <= SLAB_MAX_SIZE && size % 8 == 0
  {
    SIZE_CLASSES[class_]
  }

  function SlotsPerPage(class_: nat): (n: nat)
    requires class_ < NUM_SIZE_CLASSES
    ensures 4 <= n <= 512 && n * ClassToSize(class_) <= PAGE_SIZE < (n + 1) * ClassToSize(class_)
  {
    PAGE_SIZE / ClassToSize(class_)
  }

  /** Class c is the smallest one that holds `size` bytes; there is none beyond the last. */
  ghost predicate SmallestFit(size: nat, c: nat) {
    && c <= NUM_SIZE_CLASSES
    && (forall d :: 0 <= d < c ==> SIZE_CLASSES[d] < size)
    && (c < NUM_SIZE_CLASSES ==> size <= SIZE_CLASSES[c])
  }

  /** The lookup table, filled size by size with a linear search over the classes. */
  method BuildLut() returns (lut: array<nat>)
    ensures fresh(lut) && lut.Length == SLAB_MAX_SIZE + 1
    ensures forall size :: 0 <= size <= SLAB_MAX_SIZE ==> lut[size] < NUM_SIZE_CLASSES && SmallestFit(size, lut[size])
  {
    lut := new nat[SLAB_MAX_SIZE + 1](_ => 0);
    var size := 0;
    while size <= SLAB_MAX_SIZE
      invariant size <= SLAB_MAX_SIZE + 1
      invariant forall s :: 0 <= s < size ==> lut[s] < NUM_SIZE_CLASSES && SmallestFit(s, lut[s])
    {
      var classIdx := FindClass(size);
      assert SIZE_CLASSES[21] == SLAB_MAX_SIZE;
      lut[size] := classIdx;
      size := size + 1;
    }
  }

  /** The inner loop of the table construction. */
  method FindClass(size: nat) returns (classIdx: nat)
    ensures SmallestFit(size, classIdx)
  {
    classIdx := 0;
    while classIdx < NUM_SIZE_CLASSES
      invariant classIdx <= NUM_SIZE_CLASSES
      invariant forall d :: 0 <= d < classIdx ==> SIZE_CLASSES[d] < size
    {
      if SIZE_CLASSES[classIdx] >= size {
        break;
      }
      classIdx := classIdx + 1;
    }
  }

  /** The lookup as a function: the one class `SmallestFit` allows. */
  function SizeToClass(size: nat): (c: nat)
    requires size <= SLAB_MAX_SIZE
    ensures c < NUM_SIZE_CLASSES && SmallestFit(size, c)
  {
    assert SIZE_CLASSES[21] == SLAB_MAX_SIZE;
    ClassFrom(size, 0)
  }

  function ClassFrom(size: nat, c: nat): (r: nat)
    requires size <= SLAB_MAX_SIZE && c < NUM_SIZE_CLASSES
    requires forall d :: 0 <= d < c ==> SIZE_CLASSES[d] < size
    ensures r < NUM_SIZE_CLASSES && SmallestFit(size, r)
    decreases NUM_SIZE_CLASSES - c
  {
    if SIZE_CLASSES[c] >= size then c
    else
      assert c != 21;
      ClassFrom(size, c + 1)
  }

  lemma SmallestFitUnique(size: nat, c: nat, d: nat)
    requires SmallestFit(size, c) && SmallestFit(size, d)
    ensures c == d
  {
  }
}
