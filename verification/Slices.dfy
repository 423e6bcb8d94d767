/** Parts of sequences: what lies at a position, and how parts are put together. */
module Slices {
  /** The part lies in the data at the position. */
  predicate At<T(==)>(data: seq<T>, p: nat, part: seq<T>) {
    p + |part| <= |data| && data[p..p + |part|] == part
  }

  lemma AtParts<T>(data: seq<T>, p: nat, a: seq<T>, b: seq<T>)
    ensures At(data, p, a + b) <==> At(data, p, a) && At(data, p + |a|, b)
  {
    if At(data, p, a) && At(data, p + |a|, b) {
      assert data[p..p + |a + b|] == data[p..p + |a|] + data[p + |a|..p + |a| + |b|];
    }
    if At(data, p, a + b) {
      assert data[p..p + |a|] == data[p..p + |a + b|][..|a|];
      assert data[p + |a|..p + |a| + |b|] == data[p..p + |a + b|][|a|..];
    }
  }

  lemma AtIndex<T>(data: seq<T>, p: nat, part: seq<T>, i: nat)
    requires At(data, p, part) && i < |part|
    ensures p + i < |data| && data[p + i] == part[i]
  {
    assert data[p..p + |part|][i] == part[i];
  }

  lemma Regroup<T>(a: seq<T>, b: seq<T>, c: seq<T>, d: seq<T>)
    ensures a + b + c + d == a + (b + (c + d))
    ensures c == [] ==> a + b + d == a + (b + (c + d))
  {
  }

  lemma SliceOfSlice<T>(s: seq<T>, start: nat, length: nat, offset: nat, count: nat)
    requires start + length <= |s| && offset + count <= length
    ensures s[start..start + length][offset..offset + count] == s[start + offset..start + offset + count]
  {
    var part, other := s[start..start + length][offset..offset + count], s[start + offset..start + offset + count];
    assert |part| == |other| && forall i :: 0 <= i < count ==> part[i] == other[i];
  }
}
