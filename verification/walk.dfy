/**
 * The walk entity: a catalogue record copied into an immutable object that
 * carries a process-wide numeric index, a derived distance in kilometres and
 * a lazily computed, cached total ascent.
 */
module Walks {
  import opened Optional

  /** A catalogue entry as delivered to the constructor. */
  datatype RawWalk = RawWalk(
    description: Option<string>,
    name: Option<string>,
    author: Option<string>,
    tags: Option<seq<string>>,
    filename: string,
    heights: seq<real>,
    length: real,
    polyline: string)

  /**
   * A constructed walk. `ascentCache` is the private memo slot of the
   * `ascent` getter; `None` means it has not been read yet.
   */
  datatype Walk = Walk(
    description: Option<string>,
    name: Option<string>,
    filename: string,
    author: Option<string>,
    tags: Option<seq<string>>,
    heights: seq<real>,
    length: real,
    polyline: string,
    index: nat,
    ascentCache: Option<real>)

  // ---------------------------------------------------------------------------
  // Ascent
  // ---------------------------------------------------------------------------

  /** The positive part of a change: rises count, descents count as zero. */
  function Pos(d: real): real {
    if d > 0.0 then d else 0.0
  }

  /**
   * Accumulator of the ascent fold. `prev == None` stands for the `+Infinity`
   * seed: `next - Infinity` is `-Infinity`, so the gain is 0.
   */
  datatype AscentAcc = AscentAcc(prev: Option<real>, ascent: real)

  /** One reducer step: the gain of `next` over the previous sample. */
  function AscentStep(acc: AscentAcc, next: real): (r: AscentAcc)
    ensures r.prev == Some(next)
    ensures acc.prev.None? ==> r.ascent == acc.ascent
    ensures acc.prev.Some? ==> r.ascent == acc.ascent + Pos(next - acc.prev.value)
  {
    match acc.prev
    case None => AscentAcc(Some(next), acc.ascent)  // max(0, next - Infinity) == 0
    case Some(p) => AscentAcc(Some(next), acc.ascent + Pos(next - p))
  }

  /** The ascent step applied to each sample in turn, from the left. */
  function FoldAscent(acc: AscentAcc, heights: seq<real>): (r: AscentAcc)
    ensures r.ascent >= acc.ascent
    ensures |heights| == 0 ==> r == acc
    ensures |heights| > 0 ==> r.prev == Some(heights[|heights| - 1])
    decreases |heights|
  {
    if |heights| == 0 then acc
    else FoldAscent(AscentStep(acc, heights[0]), heights[1..])
  }

  /** Total ascent: the fold seeded with `+Infinity` and 0, projected on the gain. */
  function GetAscent(heights: seq<real>): (r: real)
    ensures r >= 0.0
    ensures |heights| <= 1 ==> r == 0.0
  {
    FoldAscent(AscentAcc(None, 0.0), heights).ascent
  }

  /**
   * Reference definition of ascent, independent of the fold: the sum over
   * consecutive pairs of the positive part of the rise.
   */
  function Rise(heights: seq<real>): real
    decreases |heights|
  {
    if |heights| < 2 then 0.0
    else Pos(heights[1] - heights[0]) + Rise(heights[1..])
  }

  /** After the first sample, the fold adds exactly `Rise` of the rest. */
  lemma {:induction false} FoldFromSample(p: real, a: real, heights: seq<real>)
    ensures FoldAscent(AscentAcc(Some(p), a), heights).ascent == a + Rise([p] + heights)
    decreases |heights|
  {
    if |heights| == 0 {
      assert Rise([p]) == 0.0;
    } else {
      var h := heights[0];
      FoldFromSample(h, a + Pos(h - p), heights[1..]);
      assert [h] + heights[1..] == heights;
      assert ([p] + heights)[1..] == heights;
    }
  }

  /** The fold computes the reference ascent, for every height series. */
  lemma AscentIsRise(heights: seq<real>)
    ensures GetAscent(heights) == Rise(heights)
  {
    if |heights| > 0 {
      FoldFromSample(heights[0], 0.0, heights[1..]);
      assert [heights[0]] + heights[1..] == heights;
    }
  }

  predicate NonDecreasing(heights: seq<real>) {
    forall i :: 0 < i < |heights| ==> heights[i - 1] <= heights[i]
  }

  predicate NonIncreasing(heights: seq<real>) {
    forall i :: 0 < i < |heights| ==> heights[i - 1] >= heights[i]
  }

  lemma {:induction false} RiseNonDecreasing(heights: seq<real>)
    requires |heights| > 0
    requires NonDecreasing(heights)
    ensures Rise(heights) == heights[|heights| - 1] - heights[0]
    decreases |heights|
  {
    if |heights| >= 2 {
      assert heights[0] <= heights[1];
      RiseNonDecreasing(heights[1..]);
    }
  }

  lemma {:induction false} RiseNonIncreasing(heights: seq<real>)
    requires NonIncreasing(heights)
    ensures Rise(heights) == 0.0
    decreases |heights|
  {
    if |heights| >= 2 {
      assert heights[0] >= heights[1];
      RiseNonIncreasing(heights[1..]);
    }
  }

  lemma {:induction false} RiseAtLeastNet(heights: seq<real>)
    requires |heights| > 0
    ensures Rise(heights) >= heights[|heights| - 1] - heights[0]
    decreases |heights|
  {
    if |heights| >= 2 {
      RiseAtLeastNet(heights[1..]);
    }
  }

  /** On a climb that never descends, the ascent is the net height gain. */
  lemma AscentOfNonDecreasing(heights: seq<real>)
    requires |heights| > 0
    requires NonDecreasing(heights)
    ensures GetAscent(heights) == heights[|heights| - 1] - heights[0]
  {
    AscentIsRise(heights);
    RiseNonDecreasing(heights);
  }

  /** A series that never rises has no ascent. */
  lemma AscentOfNonIncreasing(heights: seq<real>)
    requires NonIncreasing(heights)
    ensures GetAscent(heights) == 0.0
  {
    AscentIsRise(heights);
    RiseNonIncreasing(heights);
  }

  /** Ascent is never below the net gain from the first to the last sample. */
  lemma AscentAtLeastNetGain(heights: seq<real>)
    requires |heights| > 0
    ensures GetAscent(heights) >= heights[|heights| - 1] - heights[0]
  {
    AscentIsRise(heights);
    RiseAtLeastNet(heights);
  }

  // ---------------------------------------------------------------------------
  // Construction and the index counter
  // ---------------------------------------------------------------------------

  /** The class-wide counter; it starts at 0 when the program loads. */
  const InitialCounter: nat := 0

  /** Every field the constructor copies agrees with the raw record. */
  predicate CopiedFrom(w: Walk, raw: RawWalk) {
    && w.description == raw.description
    && w.name == raw.name
    && w.filename == raw.filename
    && w.author == raw.author
    && w.heights == raw.heights
    && w.length == raw.length
    && w.polyline == raw.polyline
  }

  /** The memo slot is empty or holds the ascent of the walk's own heights. */
  predicate CacheValid(w: Walk) {
    w.ascentCache.None? || w.ascentCache.value == GetAscent(w.heights)
  }

  /** A constructed walk together with the counter value after construction. */
  datatype Constructed = Constructed(walk: Walk, counter: nat)

  /**
   * `new Walk(raw)`: copy the fields, bump the counter, then take the new
   * counter value as the index. `tags` is never assigned.
   */
  function Construct(counter: nat, raw: RawWalk): (r: Constructed)
    ensures CopiedFrom(r.walk, raw)
    ensures r.walk.tags.None?
    ensures r.counter > counter && r.walk.index == r.counter
    ensures r.counter == counter + 1
    ensures r.walk.ascentCache.None? && CacheValid(r.walk)
  {
    var next := counter + 1;
    Constructed(
      Walk(raw.description, raw.name, raw.filename, raw.author, None,
           raw.heights, raw.length, raw.polyline, next, None),
      next)
  }

  /** Indices strictly increase along the sequence. */
  predicate StrictlyIncreasing(walks: seq<Walk>) {
    forall i, j :: 0 <= i < j < |walks| ==> walks[i].index < walks[j].index
  }

  /**
   * Construct one walk per raw record, in order, threading the counter.
   * The walks get the consecutive indices `counter + 1 ..`, so they never
   * repeat an index handed out before (all of which are at most `counter`).
   */
  method ConstructAll(counter: nat, raws: seq<RawWalk>) returns (walks: seq<Walk>, counter': nat)
    ensures |walks| == |raws|
    ensures counter' == counter + |raws|
    ensures forall i :: 0 <= i < |walks| ==> walks[i].index == counter + i + 1
    ensures forall i :: 0 <= i < |walks| ==> counter < walks[i].index <= counter'
    ensures forall i :: 0 <= i < |walks| ==> CopiedFrom(walks[i], raws[i]) && walks[i].tags.None?
    ensures StrictlyIncreasing(walks)
  {
    walks := [];
    counter' := counter;
    var k := 0;
    while k < |raws|
      invariant 0 <= k <= |raws|
      invariant |walks| == k
      invariant counter' == counter + k
      invariant forall i :: 0 <= i < k ==> walks[i].index == counter + i + 1
      invariant forall i :: 0 <= i < k ==> CopiedFrom(walks[i], raws[i]) && walks[i].tags.None?
    {
      var c := Construct(counter', raws[k]);
      walks := walks + [c.walk];
      counter' := c.counter;
      k := k + 1;
    }
  }

  /** The first walk of the program run gets index 1. */
  lemma FirstIndexIsOne(raw: RawWalk)
    ensures Construct(InitialCounter, raw).walk.index == 1
  {
  }

  // ---------------------------------------------------------------------------
  // Derived properties
  // ---------------------------------------------------------------------------

  /** Distance in kilometres: the length in metres scaled down by 1000. */
  function Distance(w: Walk): (km: real)
    ensures km * 1000.0 == w.length
    ensures w.length >= 0.0 ==> km >= 0.0
  {
    w.length / 1000.0
  }

  /** Result of reading the `ascent` getter: the value, the walk afterwards, and whether it recomputed. */
  datatype AscentRead = AscentRead(value: real, walk: Walk, computed: bool)

  /** The memoized `ascent` getter: compute the ascent on the first read, then keep returning the stored value. */
  function ReadAscent(w: Walk): (r: AscentRead)
    requires CacheValid(w)
    ensures r.value == GetAscent(w.heights)
    ensures r.computed <==> w.ascentCache.None?
    ensures r.walk == w.(ascentCache := Some(r.value))
    ensures CacheValid(r.walk)
  {
    match w.ascentCache
    case Some(a) => AscentRead(a, w, false)
    case None =>
      var a := GetAscent(w.heights);
      AscentRead(a, w.(ascentCache := Some(a)), true)
  }

  /** A second read returns the same value, does not recompute and changes nothing. */
  lemma AscentMemoized(w: Walk)
    requires CacheValid(w)
    ensures var first := ReadAscent(w);
            var second := ReadAscent(first.walk);
            && second.value == first.value
            && !second.computed
            && second.walk == first.walk
  {
  }
}
