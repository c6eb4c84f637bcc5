// The element type chosen for a list of Python integers: bestIntegerType and the loop
// over it, which castPyToAny and setAttributeAsPy both contain.

module IntegerTyping {
  // In the order of Types::ReferenceType that the loop relies on
  datatype IntType = INT32 | UINT32 | INT64 | UINT64 {
    function Rank(): nat {
      match this
      case INT32 => 0
      case UINT32 => 1
      case INT64 => 2
      case UINT64 => 3
    }

    predicate Holds(v: int) {
      match this
      case INT32 => -TWO_TO_THE_31 <= v < TWO_TO_THE_31
      case UINT32 => 0 <= v < TWO_TO_THE_32
      case INT64 => -TWO_TO_THE_63 <= v < TWO_TO_THE_63
      case UINT64 => 0 <= v < TWO_TO_THE_64
    }
  }

  const TWO_TO_THE_31: int := 0x8000_0000
  const TWO_TO_THE_32: int := 0x1_0000_0000
  const TWO_TO_THE_63: int := 0x8000_0000_0000_0000
  const TWO_TO_THE_64: int := 0x1_0000_0000_0000_0000

  function BestIntegerType(v: int): IntType {
    var overflow := !(-TWO_TO_THE_63 <= v < TWO_TO_THE_63);
    if overflow then UINT64
    else if v < 0 then
      if v < -TWO_TO_THE_31 then INT64 else INT32
    else if v > TWO_TO_THE_32 - 1 then INT64
    else if v <= TWO_TO_THE_31 - 1 then INT32
    else UINT32
  }

  ghost predicate HoldsAll(t: IntType, list: seq<int>) {
    forall i :: 0 <= i < |list| ==> t.Holds(list[i])
  }

  // t is the largest of the element types, and INT32 for an empty list.
  ghost predicate IsBroadest(t: IntType, list: seq<int>) {
    && (forall i :: 0 <= i < |list| ==> BestIntegerType(list[i]).Rank() <= t.Rank())
    && (t == INT32 || exists i :: 0 <= i < |list| && BestIntegerType(list[i]) == t)
  }

  // Leaving the loop early at UINT64 does not change its result.
  method BroadestType(list: seq<int>) returns (broadest: IntType)
    ensures IsBroadest(broadest, list)
    ensures HoldsAll(broadest, list) <==> TypeFits(list)
  {
    broadest := INT32;
    for i := 0 to |list|
      invariant IsBroadest(broadest, list[..i])
      invariant broadest != UINT64
    {
      var t := BestIntegerType(list[i]);
      assert list[..i + 1] == list[..i] + [list[i]];
      if t.Rank() > broadest.Rank() {
        broadest := t;
        assert list[..i + 1][i] == list[i];
        if broadest == UINT64 {
          assert BestIntegerType(list[i]) == UINT64;
          ChosenTypeFits(list, broadest);
          return;
        }
      } else if broadest != INT32 {
        var j :| 0 <= j < |list[..i]| && BestIntegerType(list[..i][j]) == broadest;
        assert list[..i + 1][j] == list[..i][j];
      }
    }
    assert list[..|list|] == list;
    ChosenTypeFits(list, broadest);
  }

  ghost predicate Any(list: seq<int>, low: int, high: int) {
    exists i :: 0 <= i < |list| && low <= list[i] < high
  }

  // Every element fits into 64 bits, and if one is negative, none needs the 64th bit and
  // none needs UINT32 unless another one needs INT64 anyway.
  ghost predicate TypeFits(list: seq<int>) {
    && (forall i :: 0 <= i < |list| ==> -TWO_TO_THE_63 <= list[i] < TWO_TO_THE_64)
    && (Any(list, -TWO_TO_THE_63, 0) ==>
          && !Any(list, TWO_TO_THE_63, TWO_TO_THE_64)
          && (Any(list, TWO_TO_THE_31, TWO_TO_THE_32) ==>
                Any(list, -TWO_TO_THE_63, -TWO_TO_THE_31) || Any(list, TWO_TO_THE_32, TWO_TO_THE_63)))
  }

  // The chosen type holds all elements exactly under that condition.
  lemma ChosenTypeFits(list: seq<int>, t: IntType)
    requires IsBroadest(t, list)
    ensures HoldsAll(t, list) <==> TypeFits(list)
  {
    if HoldsAll(t, list) {
      if i, j :| 0 <= i < |list| && 0 <= j < |list| && list[i] < 0 && list[j] >= TWO_TO_THE_31 {
        assert t.Holds(list[i]) && t.Holds(list[j]);
        assert t == INT64;
        var k :| 0 <= k < |list| && BestIntegerType(list[k]) == t;
        assert t.Holds(list[k]);
      }
    }
    if TypeFits(list) {
      forall i | 0 <= i < |list|
        ensures t.Holds(list[i])
      {
        assert BestIntegerType(list[i]).Rank() <= t.Rank();
        if list[i] < 0 {
          assert Any(list, -TWO_TO_THE_63, 0);
          UnsignedNeedsReason(list, t);
        }
      }
    }
  }

  lemma UnsignedNeedsReason(list: seq<int>, t: IntType)
    requires IsBroadest(t, list) && TypeFits(list) && Any(list, -TWO_TO_THE_63, 0)
    ensures t == INT32 || t == INT64
  {
    if t != INT32 {
      var k :| 0 <= k < |list| && BestIntegerType(list[k]) == t;
    }
  }

  // No type of lower rank holds all elements: a chosen type that fits is the narrowest.
  lemma ChosenTypeIsLowest(list: seq<int>, t: IntType, other: IntType)
    requires IsBroadest(t, list) && HoldsAll(other, list)
    ensures t.Rank() <= other.Rank()
  {
    if t != INT32 {
      var k :| 0 <= k < |list| && BestIntegerType(list[k]) == t;
      assert other.Holds(list[k]);
    }
  }

  // The list alone determines the chosen type.
  lemma ChosenTypeIsUnique(list: seq<int>, t: IntType, u: IntType)
    requires IsBroadest(t, list) && IsBroadest(u, list)
    ensures t == u
  {
    if t != INT32 {
      var i :| 0 <= i < |list| && BestIntegerType(list[i]) == t;
      assert BestIntegerType(list[i]).Rank() <= u.Rank();
    }
    if u != INT32 {
      var j :| 0 <= j < |list| && BestIntegerType(list[j]) == u;
      assert BestIntegerType(list[j]).Rank() <= t.Rank();
    }
  }

  // The loop misses a type that would fit exactly for lists that mix negative elements
  // with some that need UINT32, and have nothing that needs INT64 by itself.
  lemma MissedTypes(list: seq<int>, t: IntType)
    requires IsBroadest(t, list)
    ensures (exists other: IntType :: HoldsAll(other, list)) && !HoldsAll(t, list)
            <==> && (forall i :: 0 <= i < |list| ==> -TWO_TO_THE_31 <= list[i] < TWO_TO_THE_32)
                 && Any(list, -TWO_TO_THE_31, 0) && Any(list, TWO_TO_THE_31, TWO_TO_THE_32)
  {
    ChosenTypeFits(list, t);
    if other: IntType :| HoldsAll(other, list) && !HoldsAll(t, list) {
      forall i | 0 <= i < |list|
        ensures -TWO_TO_THE_63 <= list[i] < TWO_TO_THE_64
        ensures other.Holds(list[i])
      {}
      var i :| 0 <= i < |list| && -TWO_TO_THE_63 <= list[i] < 0;
      assert other.Holds(list[i]);
    }
    if (forall i :: 0 <= i < |list| ==> -TWO_TO_THE_31 <= list[i] < TWO_TO_THE_32) {
      assert HoldsAll(INT64, list);
      if Any(list, -TWO_TO_THE_31, 0) && Any(list, TWO_TO_THE_31, TWO_TO_THE_32) {
        var i :| 0 <= i < |list| && -TWO_TO_THE_31 <= list[i] < 0;
        assert Any(list, -TWO_TO_THE_63, 0);
      }
    }
  }

  // The smallest such list: INT64 holds both elements, the chosen UINT32 does not.
  lemma MissedTypeExample()
    ensures var list := [-1, TWO_TO_THE_31];
            && IsBroadest(UINT32, list)
            && HoldsAll(INT64, list) && !HoldsAll(UINT32, list)
  {
    var list := [-1, TWO_TO_THE_31];
    assert BestIntegerType(list[0]) == INT32 && BestIntegerType(list[1]) == UINT32;
  }
}
