/** What the classifier looks at.  Its loops visit leaves of the aggregate and, for a nested field that
    starts inside the eightbyte, leaves of elements that are not there; the class it computes is that of
    all leaves visited.  This says for every aggregate whether it is the specified one. */
module ClassifySeen {
  import opened Aggregate
  import opened Classify
  import opened ClassifyOrder
  import opened ClassifySpec
  import opened ClassifyWindow
  import opened Arithmetic

  /** The loop goes into the elements of the field. */
  predicate Entered(f: Field, index: nat, offset: nat) {
    f.typ.Sub? && f.size != 0 && !Outside(f, offset, 8 * index) && !Misaligned(f.alignment, offset)
  }

  /** A field's own leaf. */
  function Own(f: Field, offset: nat): Leaf {
    Leaf(offset, f.size * f.arrayLen, f.alignment, ScalarClass(f.typ))
  }

  /** The leaves visited for an aggregate at `base`, which is negative for some elements before an array. */
  function Seen(ag: Aggr, index: nat, base: int): seq<Leaf>
    decreases ag, 1, 0
  {
    SeenFields(ag, index, base, 0)
  }

  function SeenFields(ag: Aggr, index: nat, base: int, i: nat): seq<Leaf>
    requires i <= |ag.fields|
    decreases ag, 0, |ag.fields| - i
  {
    if i == |ag.fields| then []
    else SeenField(ag.fields[i], index, base + ag.fields[i].offset) + SeenFields(ag, index, base, i + 1)
  }

  /** A negative offset is a huge one to the program, which takes the field to be outside. */
  function SeenField(f: Field, index: nat, offset: int): seq<Leaf>
    decreases f, 3, 0
  {
    if offset < 0 then []
    else
      [Own(f, offset)] + if Entered(f, index, offset)
                         then SeenElements(f.typ.sub, index, offset, f.size, WindowStart(8 * index, offset, f.size),
                                           WindowEnd(8 * index, offset, f.size, f.arrayLen))
                         else []
  }

  function SeenElements(sub: Aggr, index: nat, offset: nat, size: nat, j: int, k: int): seq<Leaf>
    decreases sub, 2, if j < k then k - j else 0
  {
    if j >= k then []
    else Seen(sub, index, ToInt(ToSize(offset + size * j))) + SeenElements(sub, index, offset, size, j + 1, k)
  }

  // ----- the class is that of the leaves visited -----

  /** Positions stay far from where unsigned numbers wrap. */
  predicate Reachable(base: int, size: nat) {
    -TWO32 / 2 <= base < TWO32 / 2 && size <= TWO32 / 2
  }

  /** The class of an eightbyte is that of all leaves the loops visit. */
  lemma {:induction false} ClassOfSeen(ag: Aggr, index: nat, base: int)
    requires WellFormed(ag) && index < 2 && Reachable(base, ag.size)
    ensures CodeClass(ag, index, base) == Expected(Seen(ag, index, base), 8 * index)
    decreases ag, 1, 0
  {
    ClassOfSeenFields(ag, index, base, 0, NONE);
  }

  lemma {:induction false} ClassOfSeenFields(ag: Aggr, index: nat, base: int, i: nat, clz: Class)
    requires WellFormed(ag) && index < 2 && Reachable(base, ag.size) && i <= |ag.fields|
    ensures CodeFields(ag, index, base, i, clz) == Merge(clz, Expected(SeenFields(ag, index, base, i), 8 * index))
    decreases ag, 0, |ag.fields| - i + 1
  {
    if i < |ag.fields| {
      var f, q := ag.fields[i], 8 * index;
      var one, rest := SeenField(f, index, base + f.offset), SeenFields(ag, index, base, i + 1);
      ClassOfTurn(ag, f, index, base);
      ClassOfSeenFields(ag, index, base, i + 1, Merge(clz, Expected(one, q)));
      LoopTurn(ag, index, base, i, clz);
      ExpectedConcat(one, rest, q);
      MergeIsJoin(clz, Expected(one, q), Expected(rest, q));
    }
  }

  lemma {:induction false} ClassOfTurn(ag: Aggr, f: Field, index: nat, base: int)
    requires WellFormed(ag) && index < 2 && Reachable(base, ag.size) && f in ag.fields
    ensures FieldClass(f, index, ToSize(base + f.offset)) == Expected(SeenField(f, index, base + f.offset), 8 * index)
    decreases ag, 0, 0
  {
    MulMono(f.size, 1, f.arrayLen);
    ClassOfSeenField(f, index, base + f.offset);
  }

  lemma {:induction false} ClassOfSeenField(f: Field, index: nat, offset: int)
    requires f.size == TypeSize(f.typ) && (f.typ.Sub? ==> WellFormed(f.typ.sub)) && f.arrayLen > 0
    requires index < 2 && -TWO32 <= offset && offset + f.size * f.arrayLen <= TWO32
    requires f.typ.Sub? ==> f.size <= TWO32 / 2
    ensures FieldClass(f, index, ToSize(offset)) == Expected(SeenField(f, index, offset), 8 * index)
    decreases f, 3, 0
  {
    if offset < 0 {
      assert ToSize(offset) == TWO64 + offset;
    } else {
      OwnLeaf(f, 8 * index, offset);
      if Entered(f, index, offset) {
        var j, k := WindowStart(8 * index, offset, f.size), WindowEnd(8 * index, offset, f.size, f.arrayLen);
        ClassOfSeenElements(f.typ.sub, index, offset, f.size, j, k, NONE);
        ExpectedConcat([Own(f, offset)], SeenElements(f.typ.sub, index, offset, f.size, j, k), 8 * index);
      } else {
        assert SeenField(f, index, offset) == [Own(f, offset)];
      }
    }
  }

  /** It decides for a field the loop does not go into. */
  lemma OwnLeaf(f: Field, q: nat, offset: nat)
    requires offset + f.size * f.arrayLen <= TWO32
    ensures Expected([Own(f, offset)], q) ==
              if Outside(f, offset, q) then NONE else if Misaligned(f.alignment, offset) then MEMORY else ScalarClass(f.typ)
  {
    var own := [Own(f, offset)];
    assert own[0] in own && forall l <- own :: l == own[0];
  }

  lemma {:induction false} ClassOfSeenElements(sub: Aggr, index: nat, offset: nat, size: nat, j: int, k: int, clz: Class)
    requires WellFormed(sub) && index < 2 && sub.size <= TWO32 / 2
    ensures CodeElements(sub, index, offset, size, j, k, clz)
            == Merge(clz, Expected(SeenElements(sub, index, offset, size, j, k), 8 * index))
    decreases sub, 2, if j < k then k - j else 0
  {
    if j < k {
      var at := ToInt(ToSize(offset + size * j));
      var element, rest := Seen(sub, index, at), SeenElements(sub, index, offset, size, j + 1, k);
      ClassOfSeen(sub, index, at);
      ClassOfSeenElements(sub, index, offset, size, j + 1, k, Merge(clz, CodeClass(sub, index, at)));
      ExpectedConcat(element, rest, 8 * index);
      MergeIsJoin(clz, Expected(element, 8 * index), Expected(rest, 8 * index));
    }
  }

  // ----- when it is the specified one -----

  /** What one leaf calls for. */
  ghost function Call(l: Leaf, q: nat): Class {
    Expected([l], q)
  }

  lemma CallIs(l: Leaf, q: nat)
    ensures Call(l, q) == if !Overlaps(l, q) then NONE
                          else if Misaligned(l.alignment, l.offset) then MEMORY
                          else if l.cls == MEMORY then NONE else l.cls
  {
    assert l in [l] && forall x <- [l] :: x == l;
  }

  /** Some leaf calls for `c`. */
  ghost predicate Shown(leaves: seq<Leaf>, q: nat, c: Class) {
    exists l <- leaves :: Call(l, q) == c
  }

  /** A leaf of the specified class is visited, if there is one, and no leaf that is not there calls for a
      higher class. */
  ghost predicate Right(ag: Aggr, index: nat, base: nat) {
    var leaves, seen, q := Leaves(ag, base), Seen(ag, index, base), 8 * index;
    && (Expected(leaves, q) == NONE || Shown(seen, q, Expected(leaves, q)))
    && forall l <- seen :: l !in leaves ==> Below(Call(l, q), Expected(leaves, q))
  }

  lemma HighestCall(leaves: seq<Leaf>, q: nat)
    ensures forall l <- leaves :: Below(Call(l, q), Expected(leaves, q))
    ensures Expected(leaves, q) != NONE ==> Shown(leaves, q, Expected(leaves, q))
  {
    forall l | l in leaves
      ensures Below(Call(l, q), Expected(leaves, q))
    {
      CallIs(l, q);
    }
    if Expected(leaves, q) != NONE {
      var l := Deciding(leaves, q);
      CallIs(l, q);
    }
  }

  lemma Deciding(leaves: seq<Leaf>, q: nat) returns (l: Leaf)
    requires Expected(leaves, q) != NONE
    ensures l in leaves && Overlaps(l, q)
    ensures if Expected(leaves, q) == MEMORY then Misaligned(l.alignment, l.offset)
            else l.cls == Expected(leaves, q) && !Misaligned(l.alignment, l.offset)
  {
    if Expected(leaves, q) == MEMORY {
      l :| l in leaves && Overlaps(l, q) && Misaligned(l.alignment, l.offset);
    } else {
      l :| l in leaves && Overlaps(l, q) && l.cls == Expected(leaves, q);
    }
  }

  /** The class of an eightbyte is the specified one exactly if the leaves visited are right. */
  lemma CodeMeetsSpecIff(ag: Aggr, index: nat, base: nat)
    requires WellFormed(ag) && index < 2 && Reachable(base, ag.size)
    ensures CodeClass(ag, index, base) == Expected(Leaves(ag, base), 8 * index) <==> Right(ag, index, base)
  {
    var leaves, seen, q := Leaves(ag, base), Seen(ag, index, base), 8 * index;
    ClassOfSeen(ag, index, base);
    HighestCall(leaves, q);
    HighestCall(seen, q);
    RightIff(leaves, seen, q);
  }

  lemma RightIff(leaves: seq<Leaf>, seen: seq<Leaf>, q: nat)
    ensures Expected(seen, q) == Expected(leaves, q) <==>
              && (Expected(leaves, q) == NONE || Shown(seen, q, Expected(leaves, q)))
              && forall l <- seen :: l !in leaves ==> Below(Call(l, q), Expected(leaves, q))
  {
    HighestCall(leaves, q);
    HighestCall(seen, q);
    var w, s := Expected(leaves, q), Expected(seen, q);
    if (w == NONE || Shown(seen, q, w)) && forall l <- seen :: l !in leaves ==> Below(Call(l, q), w) {
      assert Below(w, s);
      if s != NONE {
        var l :| l in seen && Call(l, q) == s;
        assert Below(s, w);
      }
      MergeIsJoin(s, w, s);
    }
  }

  // ----- elements before the array -----

  lemma {:induction false} FieldSeen(ag: Aggr, index: nat, base: int, i: nat, k: nat, l: Leaf)
    requires i <= k < |ag.fields| && l in SeenField(ag.fields[k], index, base + ag.fields[k].offset)
    ensures l in SeenFields(ag, index, base, i)
    decreases k - i
  {
    if i < k {
      FieldSeen(ag, index, base, i + 1, k, l);
    }
  }

  lemma {:induction false} ElementSeen(sub: Aggr, index: nat, offset: nat, size: nat, j: int, k: int, e: int, l: Leaf)
    requires j <= e < k && l in Seen(sub, index, ToInt(ToSize(offset + size * e)))
    ensures l in SeenElements(sub, index, offset, size, j, k)
    decreases e - j
  {
    if j < e {
      ElementSeen(sub, index, offset, size, j + 1, k, e, l);
    }
  }

  /** Field `f` holds aggregates, starts inside the eightbyte, and has its elements visited. */
  predicate LateField(f: Field, index: nat, offset: nat) {
    Entered(f, index, offset) && Late(8 * index, offset, f.size, f.arrayLen) && Visited(f.size)
  }

  /** The element just before such a field is always visited, so that its fields show, as far as they are
      not before the start of memory. */
  lemma PhantomSeen(ag: Aggr, index: nat, base: nat, f: Field, g: Field)
    requires f in ag.fields && LateField(f, index, base + f.offset) && g in f.typ.sub.fields
    requires f.size <= base + f.offset + g.offset
    ensures Own(g, base + f.offset + g.offset - f.size) in Seen(ag, index, base)
  {
    var l := Own(g, base + f.offset + g.offset - f.size);
    OwnSeen(g, index, base + f.offset + g.offset - f.size);
    MemberSeen(f.typ.sub, index, base + f.offset - f.size, g, l);
    BeforeSeen(f, index, base + f.offset, l);
    MemberSeen(ag, index, base, f, l);
  }

  lemma MemberSeen(ag: Aggr, index: nat, base: int, f: Field, l: Leaf)
    requires f in ag.fields && l in SeenField(f, index, base + f.offset)
    ensures l in Seen(ag, index, base)
  {
    var k :| 0 <= k < |ag.fields| && ag.fields[k] == f;
    FieldSeen(ag, index, base, 0, k, l);
  }

  lemma OwnSeen(f: Field, index: nat, offset: nat)
    ensures Own(f, offset) in SeenField(f, index, offset)
  {
    assert SeenField(f, index, offset)[0] == Own(f, offset);
  }

  lemma BeforeSeen(f: Field, index: nat, offset: nat, l: Leaf)
    requires LateField(f, index, offset) && l in Seen(f.typ.sub, index, offset - f.size)
    ensures l in SeenField(f, index, offset)
  {
    var j, k := WindowStart(8 * index, offset, f.size), WindowEnd(8 * index, offset, f.size, f.arrayLen);
    MulMono(f.size, 1, f.arrayLen);
    LateVisited(8 * index, offset, f.size, f.arrayLen, 0);
    JustBefore(offset, f.size);
    ElementSeen(f.typ.sub, index, offset, f.size, j, k, -1, l);
  }

  lemma JustBefore(offset: nat, size: nat)
    requires offset < 16 && size < 16
    ensures ToInt(ToSize(offset + size * -1)) == offset - size
  {
    assert size * -1 == 0 - size;
    if offset < size {
      assert ToSize(offset - size) == TWO64 + (offset - size);
    }
  }

  /** So the class is wrong if one of them, seen there, calls for a higher class than is specified. */
  lemma PhantomWrong(ag: Aggr, index: nat, base: nat, f: Field, g: Field)
    requires WellFormed(ag) && index < 2 && Reachable(base, ag.size)
    requires f in ag.fields && LateField(f, index, base + f.offset) && g in f.typ.sub.fields
    requires f.size <= base + f.offset + g.offset
    requires !Below(Call(Own(g, base + f.offset + g.offset - f.size), 8 * index), Expected(Leaves(ag, base), 8 * index))
    ensures CodeClass(ag, index, base) != Expected(Leaves(ag, base), 8 * index)
  {
    PhantomSeen(ag, index, base, f, g);
    CodeMeetsSpecIff(ag, index, base);
    HighestCall(Leaves(ag, base), 8 * index);
  }
}
