/** Size classes of the slab allocator. */
module SlabClasses {
  const CLASSES: nat := 16
  const BASE: nat := 64
  const ARENA: nat := 16 * 1024 * 1024

  function Pow2(n: nat): (p: nat)
    ensures p > 0
  {
    if n == 0 then 1 else 2 * Pow2(n - 1)
  }

  /** `slab_class_size` */
  function ClassSize(cls: nat): (s: nat)
    ensures s >= BASE
  {
    BASE * Pow2(cls)
  }

  function ClassFrom(sz: nat, cls: nat): (r: nat)
    requires cls < CLASSES
    ensures cls <= r < CLASSES
    decreases CLASSES - cls
  {
    if ClassSize(cls) < sz && cls < CLASSES - 1 then ClassFrom(sz, cls + 1) else cls
  }

  /** `slab_class_for`: specified by what the method below computes. */
  function ClassFor(sz: nat): (r: nat)
    ensures r < CLASSES
  {
    ClassFrom(sz, 0)
  }

  method SlabClassFor(sz: nat) returns (cls: nat)
    ensures cls == ClassFor(sz)
  {
    if sz <= BASE { return 0; }
    cls := 0;
    var s := BASE;
    while s < sz && cls < CLASSES - 1
      invariant cls < CLASSES && s == ClassSize(cls)
      invariant ClassFor(sz) == ClassFrom(sz, cls)
    {
      s := s * 2;
      cls := cls + 1;
    }
  }

  lemma {:induction false} ClassSizeMonotone(a: nat, b: nat)
    requires a < b
    ensures 2 * ClassSize(a) <= ClassSize(b)
  {
    if a + 1 < b { ClassSizeMonotone(a, b - 1); }
  }

  lemma {:induction false} ClassFromLeast(sz: nat, cls: nat)
    requires cls < CLASSES
    ensures sz <= ClassSize(CLASSES - 1) ==> sz <= ClassSize(ClassFrom(sz, cls))
    ensures forall c | cls <= c < ClassFrom(sz, cls) :: ClassSize(c) < sz
    decreases CLASSES - cls
  {
    if ClassSize(cls) < sz && cls < CLASSES - 1 { ClassFromLeast(sz, cls + 1); }
  }

  /** A size that some class holds is given the smallest class that holds it. */
  lemma ClassForIsSmallestFit(sz: nat)
    requires sz <= ClassSize(CLASSES - 1)
    ensures sz <= ClassSize(ClassFor(sz))
    ensures forall c | 0 <= c < ClassFor(sz) :: ClassSize(c) < sz
  {
    ClassFromLeast(sz, 0);
  }

  lemma ClassSizes()
    ensures ClassSize(10) == 65536
    ensures ClassSize(CLASSES - 1) == 0x20_0000
  {
    assert Pow2(5) == 32;
    assert Pow2(10) == 32 * Pow2(5);
    assert Pow2(15) == 32 * Pow2(10);
  }

  /** The stored length of a value: `uint16_t` clamped. */
  const MAX_VAL_LEN: nat := 65535

  function ClampLen(n: nat): (r: nat)
    ensures r <= n && r <= MAX_VAL_LEN
  {
    if n > MAX_VAL_LEN then MAX_VAL_LEN else n
  }

  lemma {:induction false} ClassFromIs(sz: nat, c: nat, k: nat)
    requires k <= c < CLASSES && sz <= ClassSize(c)
    requires c > 0 ==> ClassSize(c - 1) < sz
    ensures ClassFrom(sz, k) == c
    decreases c - k
  {
    if k < c {
      if k < c - 1 { ClassSizeMonotone(k, c - 1); }
      ClassFromIs(sz, c, k + 1);
    }
  }

  /**
   * `entry_free_resources` recomputes the class from the clamped length.  That
   * is the class the block was taken from exactly when the value has at most
   * 65536 bytes.
   */
  lemma RecoveredClassIff(len: nat)
    requires len <= ClassSize(CLASSES - 1)
    ensures ClassFor(ClampLen(len)) == ClassFor(len) <==> len <= 65536
    ensures ClassFor(ClampLen(len)) <= ClassFor(len)
  {
    ClassSizes();
    if len > 65535 {
      ClassSizeMonotone(9, 10);
      assert ClassSize(9) == 32768 by { assert ClassSize(10) == 2 * ClassSize(9); }
      ClassFromIs(65535, 10, 0);
      if len == 65536 {
        ClassFromIs(65536, 10, 0);
      } else {
        ClassForIsSmallestFit(len);
        var r := ClassFor(len);
        if r < 10 { ClassSizeMonotone(r, 10); }
      }
    }
  }
}
