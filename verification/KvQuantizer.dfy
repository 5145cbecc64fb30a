/**
 The grouped symmetric INT4 and INT8 codecs for transferred KV, over exact reals: each
 group of values is scaled so that its largest magnitude becomes the largest code.
 */
module KvQuantizer {
  import opened Basics

  const INT4_LIMIT: nat := 7
  const INT8_LIMIT: nat := 127

  // ----- one group

  function Abs(x: real): real {
    if x < 0.0 then 0.0 - x else x
  }

  /** Rounds to the nearest integer, and a half to the even one. */
  function Rint(x: real): int {
    var below := x.Floor;
    var part := x - below as real;
    if part < 0.5 then below
    else if part > 0.5 then below + 1
    else if below % 2 == 0 then below
    else below + 1
  }

  function Clip(x: int, limit: nat): int {
    if x < 0 - limit then 0 - limit else if x > limit then limit else x
  }

  /** The largest magnitude of a group. */
  function Peak(group: seq<real>): real {
    if group == [] then 0.0
    else
      var n := |group| - 1;
      var rest := Peak(group[..n]);
      if Abs(group[n]) > rest then Abs(group[n]) else rest
  }

  lemma {:induction false} PeakBounds(group: seq<real>, j: nat)
    requires j < |group|
    ensures Abs(group[j]) <= Peak(group)
  {
    var n := |group| - 1;
    if j < n {
      PeakBounds(group[..n], j);
    }
  }

  lemma {:induction false} PeakIsTaken(group: seq<real>) returns (j: nat)
    requires Peak(group) > 0.0
    ensures j < |group| && Abs(group[j]) == Peak(group)
  {
    var n := |group| - 1;
    if Abs(group[n]) > Peak(group[..n]) {
      j := n;
    } else {
      j := PeakIsTaken(group[..n]);
    }
  }

  lemma {:induction false} PeakIsNotNegative(group: seq<real>)
    ensures Peak(group) >= 0.0
  {
    if group != [] {
      PeakBounds(group, 0);
    }
  }

  /** `x` in units of `s`. */
  function Steps(x: real, s: real): real
    requires s > 0.0
  {
    x / s
  }

  function Worth(c: real, s: real): real {
    c * s
  }

  lemma WorthOfSteps(x: real, s: real)
    requires s > 0.0
    ensures Worth(Steps(x, s), s) == x
  {
  }

  lemma StepsOfWorth(c: real, s: real)
    requires s > 0.0
    ensures Steps(Worth(c, s), s) == c
  {
  }

  lemma WorthMonotone(a: real, b: real, s: real)
    requires s > 0.0
    ensures a <= b <==> Worth(a, s) <= Worth(b, s)
  {
    assert Worth(b, s) - Worth(a, s) == (b - a) * s;
  }

  lemma WorthOfDifference(a: real, b: real, s: real)
    ensures Worth(a - b, s) == Worth(a, s) - Worth(b, s)
    ensures Worth(0.0 - a, s) == 0.0 - Worth(a, s)
    ensures Worth(0.5, s) == s / 2.0 && Worth(-0.5, s) == 0.0 - s / 2.0 && Worth(0.0, s) == 0.0
  {
  }

  /** The value of one step of the code; 1 for a group of zeros. */
  function Scale(group: seq<real>, limit: nat): (s: real)
    requires limit > 0
    ensures s > 0.0
    ensures Peak(group) > 0.0 ==> Worth(limit as real, s) == Peak(group)
  {
    PeakIsNotNegative(group);
    if Peak(group) == 0.0 then 1.0
    else
      WorthOfSteps(Peak(group), limit as real);
      Steps(Peak(group), limit as real)
  }

  function Code(x: real, scale: real, limit: nat): int
    requires scale > 0.0
  {
    Clip(Rint(Steps(x, scale)), limit)
  }

  /** No integer is nearer, and of two that are as near it is the even one. */
  lemma RintIsNear(x: real)
    ensures -0.5 <= Rint(x) as real - x <= 0.5
    ensures Rint(x) as real - x == 0.5 || Rint(x) as real - x == -0.5 ==> Rint(x) % 2 == 0
  {
  }

  lemma RintStays(x: real, limit: nat)
    requires 0.0 - limit as real <= x <= limit as real
    ensures 0 - limit <= Rint(x) <= limit
  {
    RintIsNear(x);
  }

  lemma RintOfInteger(n: int)
    ensures Rint(n as real) == n
  {
  }

  /** Within a group the clipping never bites: the scale takes every value into range. */
  lemma CodeIsRint(group: seq<real>, j: nat, limit: nat)
    requires j < |group| && limit > 0
    ensures var s := Scale(group, limit); Code(group[j], s, limit) == Rint(Steps(group[j], s))
  {
    hide Steps, Worth, Rint, Scale, Peak;
    var s, x, top := Scale(group, limit), group[j], limit as real;
    PeakBounds(group, j);
    PeakIsNotNegative(group);
    WorthOfSteps(x, s);
    WorthOfDifference(top, 0.0, s);
    WorthMonotone(0.0, top, s);
    WorthMonotone(Steps(x, s), top, s);
    WorthMonotone(0.0 - top, Steps(x, s), s);
    RintStays(Steps(x, s), limit);
  }

  /** A decoded value is at most half a step away from the original. */
  lemma CodeIsNear(group: seq<real>, j: nat, limit: nat)
    requires j < |group| && limit > 0
    ensures var s := Scale(group, limit); Abs(Worth(Code(group[j], s, limit) as real, s) - group[j]) <= s / 2.0
  {
    CodeIsRint(group, j, limit);
    hide Steps, Worth, Rint, Scale, Peak, Code;
    var s, x := Scale(group, limit), group[j];
    var q := Steps(x, s);
    var c := Rint(q) as real;
    RintIsNear(q);
    WorthOfSteps(x, s);
    WorthOfDifference(c, q, s);
    WorthMonotone(c - q, 0.5, s);
    WorthMonotone(-0.5, c - q, s);
  }

  /** The codes of a group, taken back to values. */
  function Snapped(group: seq<real>, limit: nat): (r: seq<real>)
    requires limit > 0
    ensures |r| == |group|
  {
    var s := Scale(group, limit);
    seq(|group|, j requires 0 <= j < |group| => Worth(Code(group[j], s, limit) as real, s))
  }

  /** The largest magnitude of a group survives exactly. */
  lemma PeakIsExact(group: seq<real>, j: nat, limit: nat)
    requires j < |group| && limit > 0 && Abs(group[j]) == Peak(group) > 0.0
    ensures Snapped(group, limit)[j] == group[j]
  {
    CodeIsRint(group, j, limit);
    hide Steps, Worth, Rint, Scale, Peak, Code;
    var s, x, top := Scale(group, limit), group[j], limit as real;
    var sign: int := if x < 0.0 then 0 - limit else limit;
    WorthOfDifference(top, 0.0, s);
    assert x == Worth(sign as real, s);
    StepsOfWorth(sign as real, s);
    RintOfInteger(sign);
  }

  /** A group of zeros is given the scale 1, and decodes to zeros. */
  lemma ZerosStay(group: seq<real>, j: nat, limit: nat)
    requires j < |group| && limit > 0 && forall i :: 0 <= i < |group| ==> group[i] == 0.0
    ensures Scale(group, limit) == 1.0 && Snapped(group, limit)[j] == 0.0
  {
    if Peak(group) > 0.0 {
      var i := PeakIsTaken(group);
    }
    PeakIsNotNegative(group);
    SnappedIs(group, j, limit);
  }

  lemma SnappedIs(group: seq<real>, j: nat, limit: nat)
    requires j < |group| && limit > 0
    ensures var s := Scale(group, limit);
            && Snapped(group, limit)[j] == Worth(Code(group[j], s, limit) as real, s)
            && 0 - limit <= Code(group[j], s, limit) <= limit
            && (Peak(group) == 0.0 ==> Code(group[j], s, limit) == 0)
  {
    PeakBounds(group, j);
    hide Worth, Rint, Peak, Steps;
    if Peak(group) == 0.0 {
      CodeIsRint(group, j, limit);
      StepsOfZero(Scale(group, limit));
      RintOfInteger(0);
    }
  }

  lemma StepsOfZero(s: real)
    requires s > 0.0
    ensures Steps(0.0, s) == 0.0
  {
  }

  lemma SnappedBelow(group: seq<real>, j: nat, limit: nat)
    requires j < |group| && limit > 0
    ensures Abs(Snapped(group, limit)[j]) <= Peak(group)
  {
    SnappedIs(group, j, limit);
    PeakIsNotNegative(group);
    hide Steps, Worth, Rint, Peak, Code, Snapped, Scale;
    var s := Scale(group, limit);
    var c := Code(group[j], s, limit);
    if Peak(group) > 0.0 {
      WorthWithin(c, limit, s, Peak(group));
    } else {
      WorthOfDifference(0.0, 0.0, s);
    }
  }

  lemma WorthWithin(c: int, limit: nat, s: real, peak: real)
    requires 0 - limit <= c <= limit && s > 0.0 && Worth(limit as real, s) == peak
    ensures Abs(Worth(c as real, s)) <= peak
  {
    hide Worth;
    var top := limit as real;
    assert 0.0 - top <= c as real <= top;
    WorthOfDifference(top, 0.0, s);
    WorthMonotone(c as real, top, s);
    WorthMonotone(0.0 - top, c as real, s);
  }

  lemma SamePeak(group: seq<real>, limit: nat)
    requires limit > 0
    ensures Peak(Snapped(group, limit)) == Peak(group)
  {
    hide Snapped, Peak;
    var again := Snapped(group, limit);
    PeakIsNotNegative(group);
    PeakIsNotNegative(again);
    if Peak(again) > 0.0 {
      var j := PeakIsTaken(again);
      SnappedBelow(group, j, limit);
    }
    if Peak(group) > 0.0 {
      var j := PeakIsTaken(group);
      PeakIsExact(group, j, limit);
      PeakBounds(again, j);
    }
  }

  /** Decoding a group and encoding it again gives its scale and its codes. */
  lemma SnappedIsStable(group: seq<real>, limit: nat)
    requires limit > 0
    ensures Scale(Snapped(group, limit), limit) == Scale(group, limit)
    ensures forall j :: 0 <= j < |group| ==>
              Code(Snapped(group, limit)[j], Scale(group, limit), limit) == Code(group[j], Scale(group, limit), limit)
  {
    SamePeak(group, limit);
    hide Steps, Worth, Rint, Peak;
    var s := Scale(group, limit);
    forall j | 0 <= j < |group| ensures Code(Snapped(group, limit)[j], s, limit) == Code(group[j], s, limit) {
      var c := Code(group[j], s, limit);
      StepsOfWorth(c as real, s);
      RintOfInteger(c);
    }
  }

  // ----- a flat tensor in groups

  function GroupCount(size: nat, groupSize: nat): nat
    requires groupSize > 0
  {
    (size + groupSize - 1) / groupSize
  }

  lemma GroupsCover(size: nat, groupSize: nat)
    requires groupSize > 0
    ensures size <= Times(GroupCount(size, groupSize), groupSize) < size + groupSize
  {
    var n := GroupCount(size, groupSize);
    assert size + groupSize - 1 == n * groupSize + (size + groupSize - 1) % groupSize;
  }

  /** The tensor, filled up with zeros to whole groups. */
  function Padded(x: seq<real>, groupSize: nat): (p: seq<real>)
    requires groupSize > 0
    ensures |p| == Times(GroupCount(|x|, groupSize), groupSize) >= |x|
  {
    GroupsCover(|x|, groupSize);
    x + seq(Times(GroupCount(|x|, groupSize), groupSize) - |x|, _ => 0.0)
  }

  /** The group of an element. */
  function GroupIndex(i: nat, groupSize: nat): nat
    requires groupSize > 0
  {
    i / groupSize
  }

  lemma InGroup(i: nat, n: nat, groupSize: nat)
    requires groupSize > 0 && i < Times(n, groupSize)
    ensures GroupIndex(i, groupSize) < n && Times(GroupIndex(i, groupSize), groupSize) <= i < Times(GroupIndex(i, groupSize), groupSize) + groupSize
    ensures Times(GroupIndex(i, groupSize), groupSize) + groupSize <= Times(n, groupSize)
  {
    var k := i / groupSize;
    assert i == k * groupSize + i % groupSize;
    if n <= k {
      MulMonotone(n, k, groupSize);
    } else {
      MulMonotone(k + 1, n, groupSize);
      assert (k + 1) * groupSize == k * groupSize + groupSize;
    }
  }

  lemma GroupFits(k: nat, n: nat, groupSize: nat)
    requires k < n
    ensures Times(k, groupSize) + groupSize <= Times(n, groupSize)
  {
    MulMonotone(k + 1, n, groupSize);
    assert (k + 1) * groupSize == k * groupSize + groupSize;
  }

  lemma GroupOf(k: nat, j: nat, groupSize: nat)
    requires j < groupSize
    ensures GroupIndex(Times(k, groupSize) + j, groupSize) == k
  {
    var i := k * groupSize + j;
    var q := i / groupSize;
    assert i == q * groupSize + i % groupSize;
    assert (q + 1) * groupSize == q * groupSize + groupSize;
    assert (k + 1) * groupSize == k * groupSize + groupSize;
    if q < k {
      MulMonotone(q + 1, k, groupSize);
    } else if k < q {
      MulMonotone(k + 1, q, groupSize);
    }
  }

  function Group(p: seq<real>, k: nat, groupSize: nat): seq<real>
    requires Times(k, groupSize) + groupSize <= |p|
  {
    p[Times(k, groupSize)..Times(k, groupSize) + groupSize]
  }

  function Scales(p: seq<real>, n: nat, groupSize: nat, limit: nat): (scales: seq<real>)
    requires |p| == Times(n, groupSize) && limit > 0
    ensures |scales| == n && forall k :: 0 <= k < n ==> scales[k] > 0.0
  {
    seq(n, k requires 0 <= k < n => GroupFits(k, n, groupSize); Scale(Group(p, k, groupSize), limit))
  }

  function Codes(p: seq<real>, n: nat, groupSize: nat, limit: nat): (codes: seq<int>)
    requires groupSize > 0 && |p| == Times(n, groupSize) && limit > 0
    ensures |codes| == |p| && forall i :: 0 <= i < |p| ==> 0 - limit <= codes[i] <= limit
  {
    var scales := Scales(p, n, groupSize, limit);
    seq(|p|, i requires 0 <= i < |p| => InGroup(i, n, groupSize); Code(p[i], scales[GroupIndex(i, groupSize)], limit))
  }

  /** The first `size` values that the codes stand for. */
  function Values(codes: seq<int>, scales: seq<real>, groupSize: nat, size: nat): (r: seq<real>)
    requires groupSize > 0 && size <= Times(|scales|, groupSize) <= |codes|
    ensures |r| == size
  {
    seq(size, i requires 0 <= i < size => InGroup(i, |scales|, groupSize); Worth(codes[i] as real, scales[GroupIndex(i, groupSize)]))
  }

  function Encoded(x: seq<real>, groupSize: nat, limit: nat): (e: (seq<int>, seq<real>))
    requires groupSize > 0 && limit > 0
    ensures |e.0| == Times(|e.1|, groupSize) >= |x| && |e.1| == GroupCount(|x|, groupSize)
    ensures forall i :: 0 <= i < |e.0| ==> 0 - limit <= e.0[i] <= limit
  {
    var p, n := Padded(x, groupSize), GroupCount(|x|, groupSize);
    (Codes(p, n, groupSize, limit), Scales(p, n, groupSize, limit))
  }

  function Decoded(e: (seq<int>, seq<real>), groupSize: nat, size: nat): (r: seq<real>)
    requires groupSize > 0 && size <= Times(|e.1|, groupSize) <= |e.0|
    ensures |r| == size
  {
    Values(e.0, e.1, groupSize, size)
  }

  /** Every element of a decoded tensor is within half a step of its group. */
  lemma DecodedIsNear(x: seq<real>, groupSize: nat, limit: nat, i: nat)
    requires groupSize > 0 && limit > 0 && i < |x|
    ensures GroupIndex(i, groupSize) < |Encoded(x, groupSize, limit).1|
    ensures var e := Encoded(x, groupSize, limit);
            Abs(Decoded(e, groupSize, |x|)[i] - x[i]) <= e.1[GroupIndex(i, groupSize)] / 2.0
  {
    hide Encoded, Decoded, Code, Scale, Worth, Times, Abs, Group, GroupCount, Padded, GroupIndex;
    IsWorth(x, groupSize, limit, i);
    var k := GroupIndex(i, groupSize);
    var group, j := Group(Padded(x, groupSize), k, groupSize), i - Times(k, groupSize);
    CodeIsNear(group, j, limit);
  }

  lemma IsWorth(x: seq<real>, groupSize: nat, limit: nat, i: nat)
    requires groupSize > 0 && limit > 0 && i < |x|
    ensures var k, n := GroupIndex(i, groupSize), GroupCount(|x|, groupSize);
            && k < n && Times(k, groupSize) <= i && Times(k, groupSize) + groupSize <= Times(n, groupSize)
            && var group, j := Group(Padded(x, groupSize), k, groupSize), i - Times(k, groupSize);
            && j < |group| && group[j] == x[i]
            && Encoded(x, groupSize, limit).1[k] == Scale(group, limit)
            && Decoded(Encoded(x, groupSize, limit), groupSize, |x|)[i] == Worth(Code(group[j], Scale(group, limit), limit) as real, Scale(group, limit))
  {
    hide Code, Scale, Worth, Times, GroupCount, GroupIndex;
    GroupsCover(|x|, groupSize);
    InGroup(i, GroupCount(|x|, groupSize), groupSize);
  }

  /** A magnitude is at most `top`, and some are that and come back as they were. */
  ghost predicate Tops(x: seq<real>, r: seq<real>, groupSize: nat, k: nat, top: real)
    requires groupSize > 0 && |r| == |x|
  {
    && (forall i :: 0 <= i < |x| && GroupIndex(i, groupSize) == k ==> Abs(x[i]) <= top)
    && exists i :: 0 <= i < |x| && GroupIndex(i, groupSize) == k && Abs(x[i]) == top && r[i] == x[i]
  }

  /**
   The scale of a group is its own: the largest level stands for the largest of the
   tensor's elements in the group, whatever fills the group up, and 1 is the scale of
   zeros only.
   */
  lemma ScaleIsOwn(x: seq<real>, groupSize: nat, limit: nat, k: nat)
    requires groupSize > 0 && limit > 0 && k < GroupCount(|x|, groupSize)
    ensures var e := Encoded(x, groupSize, limit);
            || Tops(x, Decoded(e, groupSize, |x|), groupSize, k, Worth(limit as real, e.1[k]))
            || (e.1[k] == 1.0 && forall i :: 0 <= i < |x| && GroupIndex(i, groupSize) == k ==> x[i] == 0.0)
  {
    hide Scale, Worth, Times, Code, GroupCount, GroupIndex, Snapped, Peak;
    var e := Encoded(x, groupSize, limit);
    GroupFits(k, GroupCount(|x|, groupSize), groupSize);
    var group := Group(Padded(x, groupSize), k, groupSize);
    forall i | 0 <= i < |x| && GroupIndex(i, groupSize) == k ensures Abs(x[i]) <= Peak(group) {
      IsWorth(x, groupSize, limit, i);
      PeakBounds(group, i - Times(k, groupSize));
    }
    PeakIsNotNegative(group);
    if Peak(group) > 0.0 {
      var j := PeakIsTaken(group);
      var i := Times(k, groupSize) + j;
      GroupOf(k, j, groupSize);
      assert group[j] == Padded(x, groupSize)[i] && i < |x|;
      IsWorth(x, groupSize, limit, i);
      SnappedIs(group, j, limit);
      PeakIsExact(group, j, limit);
    } else {
      assert Scale(group, limit) == 1.0 by {
        forall j | 0 <= j < |group| ensures group[j] == 0.0 {
          PeakBounds(group, j);
        }
        ZerosStay(group, 0, limit);
      }
    }
  }

  /** What the padded tensor becomes, element by element. */
  lemma PaddedAgain(x: seq<real>, groupSize: nat, limit: nat, i: nat)
    requires groupSize > 0 && limit > 0 && i < |Padded(x, groupSize)|
    ensures GroupIndex(i, groupSize) < |Encoded(x, groupSize, limit).1|
    ensures var e := Encoded(x, groupSize, limit);
            var y := Padded(Decoded(e, groupSize, |x|), groupSize);
            |y| == |e.0| && y[i] == Worth(e.0[i] as real, e.1[GroupIndex(i, groupSize)])
  {
    hide Scale, Worth, Times, Steps, Rint, GroupCount, GroupIndex;
    var n := GroupCount(|x|, groupSize);
    InGroup(i, n, groupSize);
    if i >= |x| {
      var s := Encoded(x, groupSize, limit).1[GroupIndex(i, groupSize)];
      WorthOfDifference(0.0, 0.0, s);
      StepsOfWorth(0.0, s);
      RintOfInteger(0);
    }
  }

  lemma GroupAgain(x: seq<real>, groupSize: nat, limit: nat, k: nat)
    requires groupSize > 0 && limit > 0 && k < GroupCount(|x|, groupSize)
    ensures Times(k, groupSize) + groupSize <= |Padded(x, groupSize)|
    ensures Group(Padded(Decoded(Encoded(x, groupSize, limit), groupSize, |x|), groupSize), k, groupSize)
            == Snapped(Group(Padded(x, groupSize), k, groupSize), limit)
  {
    hide Scale, Worth, Times, Code, GroupCount, GroupIndex;
    var n := GroupCount(|x|, groupSize);
    GroupFits(k, n, groupSize);
    var y := Padded(Decoded(Encoded(x, groupSize, limit), groupSize, |x|), groupSize);
    var group := Group(Padded(x, groupSize), k, groupSize);
    forall j | 0 <= j < groupSize ensures Group(y, k, groupSize)[j] == Snapped(group, limit)[j] {
      var i := Times(k, groupSize) + j;
      GroupOf(k, j, groupSize);
      PaddedAgain(x, groupSize, limit, i);
    }
  }

  /** Encoding a decoded tensor gives the same codes and scales, at any length and group size. */
  lemma EncodedIsStable(x: seq<real>, groupSize: nat, limit: nat)
    requires groupSize > 0 && limit > 0
    ensures Encoded(Decoded(Encoded(x, groupSize, limit), groupSize, |x|), groupSize, limit) == Encoded(x, groupSize, limit)
  {
    hide Scale, Worth, Times, Code, GroupCount, Snapped, GroupIndex;
    var e := Encoded(x, groupSize, limit);
    var p, y, n := Padded(x, groupSize), Padded(Decoded(e, groupSize, |x|), groupSize), GroupCount(|x|, groupSize);
    var e' := Encoded(Decoded(e, groupSize, |x|), groupSize, limit);
    forall k | 0 <= k < n ensures e'.1[k] == e.1[k] {
      GroupAgain(x, groupSize, limit, k);
      SnappedIsStable(Group(p, k, groupSize), limit);
    }
    assert e'.1 == e.1;
    forall i | 0 <= i < |p| ensures e'.0[i] == e.0[i] {
      InGroup(i, n, groupSize);
      var k := GroupIndex(i, groupSize);
      GroupAgain(x, groupSize, limit, k);
      SnappedIsStable(Group(p, k, groupSize), limit);
      var j := i - Times(k, groupSize);
      assert Group(y, k, groupSize)[j] == y[i] && Group(p, k, groupSize)[j] == p[i];
    }
    assert e'.0 == e.0;
  }

  // ----- nibbles

  function Nibble(code: int): bv8
    requires -8 <= code <= 7
  {
    (code + 8) as bv8
  }

  lemma NibbleValue(code: int)
    requires -8 <= code <= 7
    ensures Nibble(code) < 16 && Nibble(code) as int == code + 8
  {
  }

  function Joined(low: bv8, high: bv8): bv8 {
    low | (high << 4)
  }

  lemma JoinedSplits(low: bv8, high: bv8)
    requires low < 16 && high < 16
    ensures Joined(low, high) & 0x0F == low && (Joined(low, high) >> 4) & 0x0F == high
  {
  }

  /** Two codes to a byte, an odd last one next to a zero code. */
  function Packed(codes: seq<int>): (packed: seq<bv8>)
    requires forall i :: 0 <= i < |codes| ==> -8 <= codes[i] <= 7
    ensures |packed| == (|codes| + 1) / 2
  {
    seq((|codes| + 1) / 2, i requires 0 <= i < (|codes| + 1) / 2 =>
      Joined(Nibble(codes[2 * i]), if 2 * i + 1 < |codes| then Nibble(codes[2 * i + 1]) else 8))
  }

  function Low(b: bv8): int {
    (b & 0x0F) as int - 8
  }

  function High(b: bv8): int {
    ((b >> 4) & 0x0F) as int - 8
  }

  function Unpacked(packed: seq<bv8>): seq<int> {
    seq(2 * |packed|, i requires 0 <= i < 2 * |packed| => if i % 2 == 0 then Low(packed[i / 2]) else High(packed[i / 2]))
  }

  /** Unpacking inverts packing at every length; an odd length comes back with a zero behind it. */
  lemma UnpackedIsBack(codes: seq<int>)
    requires forall i :: 0 <= i < |codes| ==> -8 <= codes[i] <= 7
    ensures Unpacked(Packed(codes)) == if |codes| % 2 == 0 then codes else codes + [0]
  {
    hide Nibble, Joined, Low, High, Packed;
    var back := Unpacked(Packed(codes));
    forall i | 0 <= i < |back| ensures back[i] == if i < |codes| then codes[i] else 0 {
      PairIsBack(codes, i / 2);
    }
  }

  lemma PairIsBack(codes: seq<int>, i: nat)
    requires forall i :: 0 <= i < |codes| ==> -8 <= codes[i] <= 7
    requires i < (|codes| + 1) / 2
    ensures Low(Packed(codes)[i]) == codes[2 * i]
    ensures High(Packed(codes)[i]) == if 2 * i + 1 < |codes| then codes[2 * i + 1] else 0
  {
    hide Nibble, Joined;
    NibbleValue(codes[2 * i]);
    if 2 * i + 1 < |codes| {
      NibbleValue(codes[2 * i + 1]);
      JoinedSplits(Nibble(codes[2 * i]), Nibble(codes[2 * i + 1]));
    } else {
      JoinedSplits(Nibble(codes[2 * i]), 8);
    }
  }

  datatype Int4Tensor = Int4Tensor(packed: seq<bv8>, scales: seq<real>, size: nat, groupSize: nat)

  function Int4Of(x: seq<real>, groupSize: nat): Int4Tensor
    requires groupSize > 0
  {
    var e := Encoded(x, groupSize, INT4_LIMIT);
    Int4Tensor(Packed(e.0), e.1, |x|, groupSize)
  }

  predicate WellFormed(t: Int4Tensor) {
    t.groupSize > 0 && t.size <= Times(|t.scales|, t.groupSize) <= 2 * |t.packed|
  }

  function Restored(t: Int4Tensor): (r: seq<real>)
    requires WellFormed(t)
    ensures |r| == t.size
  {
    Values(Unpacked(t.packed), t.scales, t.groupSize, t.size)
  }

  /** The packed form loses nothing of the codes. */
  lemma RestoredIsDecoded(x: seq<real>, groupSize: nat)
    requires groupSize > 0
    ensures WellFormed(Int4Of(x, groupSize))
    ensures Restored(Int4Of(x, groupSize)) == Decoded(Encoded(x, groupSize, INT4_LIMIT), groupSize, |x|)
  {
    hide Code, Scale, Worth, Times, Packed, Unpacked, GroupIndex;
    var e := Encoded(x, groupSize, INT4_LIMIT);
    UnpackedIsBack(e.0);
    var t := Int4Of(x, groupSize);
    assert |Unpacked(Packed(e.0))| == 2 * |Packed(e.0)| by {
      assert |Packed(e.0)| == (|e.0| + 1) / 2;
    }
    forall i | 0 <= i < |x| ensures Restored(t)[i] == Decoded(e, groupSize, |x|)[i] {
      InGroup(i, |e.1|, groupSize);
    }
  }

  /** `r` is the tensor `x` up to half a step of each element's group. */
  ghost predicate Near(r: seq<real>, x: seq<real>, scales: seq<real>, groupSize: nat) {
    && |r| == |x| && groupSize > 0
    && forall i :: 0 <= i < |x| ==> GroupIndex(i, groupSize) < |scales| && Abs(r[i] - x[i]) <= scales[GroupIndex(i, groupSize)] / 2.0
  }

  /** The INT4 transfer form of any tensor: half a step of error at most, and stable from then on. */
  lemma Int4RoundTrip(x: seq<real>, groupSize: nat)
    requires groupSize > 0
    ensures WellFormed(Int4Of(x, groupSize))
    ensures Near(Restored(Int4Of(x, groupSize)), x, Int4Of(x, groupSize).scales, groupSize)
    ensures Int4Of(Restored(Int4Of(x, groupSize)), groupSize) == Int4Of(x, groupSize)
  {
    RestoredIsDecoded(x, groupSize);
    EncodedIsStable(x, groupSize, INT4_LIMIT);
    IsNear(x, groupSize, INT4_LIMIT);
    hide Encoded, Decoded, Restored, Near, Packed, WellFormed;
  }

  /** The same of any number of levels; the INT8 form is this with 127 of them. */
  lemma IsNear(x: seq<real>, groupSize: nat, limit: nat)
    requires groupSize > 0 && limit > 0
    ensures Near(Decoded(Encoded(x, groupSize, limit), groupSize, |x|), x, Encoded(x, groupSize, limit).1, groupSize)
  {
    hide Encoded, Decoded, Abs;
    forall i | 0 <= i < |x|
      ensures var e := Encoded(x, groupSize, limit);
              GroupIndex(i, groupSize) < |e.1| && Abs(Decoded(e, groupSize, |x|)[i] - x[i]) <= e.1[GroupIndex(i, groupSize)] / 2.0
    {
      DecodedIsNear(x, groupSize, limit, i);
    }
  }

  // ----- the codecs

  method QuantizeInt4(x: seq<real>, groupSize: int) returns (r: Result<Int4Tensor>)
    ensures r == if groupSize <= 0 then Err(ValueError) else Ok(Int4Of(x, groupSize))
  {
    if groupSize <= 0 {
      return Err(ValueError);
    }
    var n := GroupCount(|x|, groupSize);
    GroupsCover(|x|, groupSize);
    var padded := new real[Times(n, groupSize)](_ => 0.0);
    forall i | 0 <= i < |x| {
      padded[i] := x[i];
    }
    assert padded[..] == Padded(x, groupSize);
    var scales := Scales(padded[..], n, groupSize, INT4_LIMIT);
    var codes := Codes(padded[..], n, groupSize, INT4_LIMIT);
    var unsigned := seq(|codes|, i requires 0 <= i < |codes| => Nibble(codes[i]));
    if |unsigned| % 2 == 1 {
      unsigned := unsigned + [8];
    }
    var packed := seq(|unsigned| / 2, i requires 0 <= i < |unsigned| / 2 => Joined(unsigned[2 * i], unsigned[2 * i + 1]));
    assert packed == Packed(codes);
    r := Ok(Int4Tensor(packed, scales, |x|, groupSize));
  }

  method DequantizeInt4(t: Int4Tensor) returns (r: seq<real>)
    requires WellFormed(t)
    ensures r == Restored(t)
  {
    var values := new int[2 * |t.packed|];
    for i := 0 to |t.packed|
      invariant forall j :: 0 <= j < 2 * i ==> values[j] == Unpacked(t.packed)[j]
    {
      values[2 * i], values[2 * i + 1] := Low(t.packed[i]), High(t.packed[i]);
    }
    assert values[..] == Unpacked(t.packed);
    r := Values(values[..], t.scales, t.groupSize, t.size);
  }
}
