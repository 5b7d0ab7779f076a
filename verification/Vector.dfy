/** The byte vector that collects stack arguments (dyncall_vector.c, dyncall_vector.h). */
module Vector {
  import opened Bytes

  /** Value of a vector: its memory, the capacity `dcVecAppend` respects, and its size.
      The memory may be longer than the capacity (the armhf VM allocates 16 extra bytes). */
  datatype Vec = Vec(mem: seq<byte>, total: nat, size: nat) {
    ghost predicate Valid() {
      total <= |mem|
    }
  }

  /** An append that does not fit is dropped without a trace. */
  function VecAppend(v: Vec, b: seq<byte>): (r: Vec)
    requires v.Valid()
    ensures r.Valid() && |r.mem| == |v.mem| && r.total == v.total
  {
    if v.size + |b| <= v.total then v.(mem := Store(v.mem, v.size, b), size := v.size + |b|) else v
  }

  /** Skipping only moves the size; the bytes skipped keep whatever they held. */
  function VecSkip(v: Vec, n: nat): Vec {
    v.(size := v.size + n)
  }

  /** `w` still holds everything `v` holds below its size. */
  ghost predicate Extends(v: Vec, w: Vec) {
    v.size <= w.size && w.total == v.total && |w.mem| == |v.mem| && Agree(v.mem, w.mem, v.size)
  }

  lemma AppendExtends(v: Vec, b: seq<byte>)
    requires v.Valid() && v.size <= v.total
    ensures Extends(v, VecAppend(v, b))
    ensures if v.size + |b| <= v.total then Load(VecAppend(v, b).mem, v.size, |b|) == b else VecAppend(v, b) == v
  {
    if v.size + |b| <= v.total {
      StoreLoad(v.mem, v.size, b);
    }
  }

  lemma ExtendsTransitive(u: Vec, v: Vec, w: Vec)
    requires Extends(u, v) && Extends(v, w)
    ensures Extends(u, w)
  {
    AgreeShorter(v.mem, w.mem, v.size, u.size);
    AgreeTransitive(u.mem, v.mem, w.mem, u.size);
  }

  lemma ExtendsLoad(v: Vec, w: Vec, at: nat, n: nat)
    requires Extends(v, w) && at + n <= v.size
    ensures Load(w.mem, at, n) == Load(v.mem, at, n)
  {
    AgreeLoad(v.mem, w.mem, v.size, at, n);
  }

  /** `memcpy(mem + at, b, |b|)`. */
  method CopyTo(mem: array<byte>, at: nat, b: seq<byte>)
    requires at + |b| <= mem.Length
    modifies mem
    ensures mem[..] == Store(old(mem[..]), at, b)
  {
    var i := 0;
    while i < |b|
      invariant 0 <= i <= |b|
      invariant forall k :: 0 <= k < mem.Length ==>
                  mem[k] == if at <= k < at + i then b[k - at] else old(mem[k])
    {
      mem[at + i] := b[i];
      i := i + 1;
    }
  }

  class DCVec {
    const mem: array<byte>
    const mTotal: nat
    var mSize: nat

    ghost predicate Valid() {
      mTotal <= mem.Length
    }

    function View(): (v: Vec)
      requires Valid()
      reads this, mem
      ensures v.Valid()
    {
      Vec(mem[..], mTotal, mSize)
    }

    /** `dcVecInit` on a fresh block with `spare` bytes beyond the capacity. */
    constructor (total: nat, spare: nat)
      ensures Valid() && fresh(mem) && mTotal == total && mSize == 0
      ensures |View().mem| == total + spare
    {
      mem := new byte[total + spare];
      mTotal := total;
      mSize := 0;
    }

    method Resize(size: nat)
      requires Valid()
      modifies this
      ensures Valid() && View() == old(View()).(size := size)
    {
      mSize := size;
    }

    method Skip(n: nat)
      requires Valid()
      modifies this
      ensures Valid() && View() == VecSkip(old(View()), n)
    {
      mSize := mSize + n;
    }

    /** The store through `dcVecAt`. */
    method PutAt(at: nat, b: seq<byte>)
      requires Valid() && at + |b| <= mem.Length
      modifies mem
      ensures Valid() && View() == old(View()).(mem := Store(old(View()).mem, at, b))
    {
      CopyTo(mem, at, b);
    }

    method Append(b: seq<byte>)
      requires Valid()
      modifies this, mem
      ensures Valid() && View() == VecAppend(old(View()), b)
    {
      var newSize := mSize + |b|;
      if newSize <= mTotal {
        PutAt(mSize, b);
        mSize := newSize;
      }
    }
  }
}
