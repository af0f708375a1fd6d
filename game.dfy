/** The client's pillar editing and picking: digging one step out of a pillar
    (modelled as the code is written, including its defects), the lookup of
    the section at a height, and the search skeleton of the ray pick. */
module Game {
  import opened World

  // ---------------------------------------------------------------------
  // Digging

  /** Index of the first section whose top is at or above step `u`, or |s|
      when there is none. */
  function ScanIndex(s: seq<PillarSection>, u: int): (i: nat)
    ensures i <= |s|
    ensures forall k :: 0 <= k < i ==> s[k].top < u
    ensures i < |s| ==> s[i].top >= u
  {
    if |s| == 0 then 0
    else if s[0].top >= u then 0
    else 1 + ScanIndex(s[1..], u)
  }

  /** `sec` with its top set to `u`, or nothing when that leaves it with
      bottom == top. At a section's top step this lowers the top; in the
      split branch it raises the top of the section below the scanned one. */
  function WithTop(sec: PillarSection, u: HeightType): seq<PillarSection>
  {
    if sec.bottom == u then [] else [sec.(top := u)]
  }

  /** The section list remove_hexagon_at leaves after digging at step `u`,
      case by case, with i the scan index:
      - no section reaches u: the list is unchanged;
      - section i ends exactly one step above u: section i's top drops to u;
      - otherwise, for i == 0: the inserted copy is emptied and removed again,
        so the list is unchanged;
      - otherwise, for i > 0: section i - 1's top, which lies below u, is
        raised to u, and a copy of section i starting at u sits in front of
        section i. */
  function Dug(s: seq<PillarSection>, u: HeightType): (r: seq<PillarSection>)
    ensures |s| - 1 <= |r| <= |s| + 1
  {
    var i := ScanIndex(s, u);
    if i == |s| then s
    else if s[i].top == u + 1 then s[..i] + WithTop(s[i], u) + s[i + 1..]
    else if i == 0 then s
    else s[..i - 1] + WithTop(s[i - 1], u) + [PillarSection(s[i].ground, u, s[i].top)] + s[i..]
  }

  /** The body of remove_hexagon_at once the pillar is found: scans for the
      first section reaching u and edits the list as the source does.
      `found` is false, and the list is returned unchanged, when no section
      reaches u. */
  method DigSections(sections: seq<PillarSection>, u: HeightType)
    returns (edited: seq<PillarSection>, found: bool)
    ensures found <==> ScanIndex(sections, u) < |sections|
    ensures edited == Dug(sections, u)
    ensures !found ==> edited == sections
  {
    edited := sections;
    var i := 0;
    while i < |edited| && edited[i].top < u
      invariant 0 <= i <= ScanIndex(sections, u)
    {
      i := i + 1;
    }
    assert i == ScanIndex(sections, u);
    if |edited| > i {
      if edited[i].top != u + 1 {
        var sec := PillarSection(edited[i].ground, u, edited[i].top);
        edited := edited[..i] + [sec] + edited[i..];
        if i > 0 {
          i := i - 1;
          DugEditsHigher(sections, u, i + 1);
        } else {
          DugEditsLowest(sections, u);
        }
      } else {
        DugEditsTop(sections, u, i);
      }
      assert Dug(sections, u) == SetTopAndDrop(edited, i, u);
      ghost var before := edited;
      edited := edited[i := edited[i].(top := u)];
      if edited[i].top == edited[i].bottom {
        edited := edited[..i] + edited[i + 1..];
      }
      assert edited == SetTopAndDrop(before, i, u);
      found := true;
    } else {
      found := false;
    }
  }

  /** Digs out the step at height `u` of the pillar at `index`, editing its
      section list in place; `recalculated` reports whether the chunk is
      rebuilt afterwards. */
  method RemoveHexagonAt(world: World, index: AxialPoint, u: HeightType) returns (recalculated: bool)
    modifies world
    ensures index !in old(world.pillars) ==> world.pillars == old(world.pillars) && !recalculated
    ensures index in old(world.pillars) ==>
      var p := old(world.pillars)[index];
      world.pillars == old(world.pillars)[index := p.(sections := Dug(p.sections, u))] &&
      (recalculated <==> ScanIndex(p.sections, u) < |p.sections|)
    ensures !recalculated ==> world.pillars == old(world.pillars)
  {
    if index !in world.pillars {
      return false;
    }
    var pillar := world.pillars[index];
    var sections, found := DigSections(pillar.sections, u);
    if !found {
      return false;
    }
    world.pillars := world.pillars[index := pillar.(sections := sections)];
    recalculated := true;
  }

  /** The shared tail of DigSections: section j's top is set to u, and the
      section is removed when that leaves it empty. */
  function SetTopAndDrop(t: seq<PillarSection>, j: nat, u: HeightType): seq<PillarSection>
    requires j < |t|
  {
    var e := t[j := t[j].(top := u)];
    if e[j].top == e[j].bottom then e[..j] + e[j + 1..] else e
  }

  /** The three edit paths of DigSections, step by step, end in Dug. */
  lemma DugEditsTop(s: seq<PillarSection>, u: HeightType, i: nat)
    requires i == ScanIndex(s, u) && i < |s| && s[i].top == u + 1
    ensures Dug(s, u) == SetTopAndDrop(s, i, u)
  {
    var t := s[i := s[i].(top := u)];
    if t[i].top == t[i].bottom {
      assert t[..i] + t[i + 1..] == s[..i] + WithTop(s[i], u) + s[i + 1..];
    } else {
      assert t == s[..i] + WithTop(s[i], u) + s[i + 1..];
    }
  }

  lemma DugEditsLowest(s: seq<PillarSection>, u: HeightType)
    requires ScanIndex(s, u) == 0 < |s| && s[0].top != u + 1
    ensures Dug(s, u) == SetTopAndDrop(s[..0] + [PillarSection(s[0].ground, u, s[0].top)] + s[0..], 0, u)
  {
    var t := s[..0] + [PillarSection(s[0].ground, u, s[0].top)] + s[0..];
    var e := t[0 := t[0].(top := u)];
    assert e[0].top == e[0].bottom;
    assert e[..0] + e[0 + 1..] == s;
  }

  lemma DugEditsHigher(s: seq<PillarSection>, u: HeightType, i: nat)
    requires i == ScanIndex(s, u) && 0 < i < |s| && s[i].top != u + 1
    ensures Dug(s, u) == SetTopAndDrop(s[..i] + [PillarSection(s[i].ground, u, s[i].top)] + s[i..], i - 1, u)
  {
    assert s[..i] == s[..i - 1] + [s[i - 1]];
    SetTopThenDrop(s[..i - 1], s[i - 1], PillarSection(s[i].ground, u, s[i].top), s[i..], u);
    DugHigher(s, u, i);
  }

  /** Dug in the split case above the lowest section. */
  lemma DugHigher(s: seq<PillarSection>, u: HeightType, i: nat)
    requires i == ScanIndex(s, u) && 0 < i < |s| && s[i].top != u + 1
    ensures Dug(s, u) == s[..i - 1] + WithTop(s[i - 1], u) + [PillarSection(s[i].ground, u, s[i].top)] + s[i..]
  {
  }

  /** Setting the top of the element after `a` to u, then removing it when
      it became empty, leaves `a + WithTop(x, u) + ...`. */
  lemma SetTopThenDrop(a: seq<PillarSection>, x: PillarSection, sec: PillarSection,
                      b: seq<PillarSection>, u: HeightType)
    ensures var t := a + [x] + [sec] + b;
      var e := t[|a| := t[|a|].(top := u)];
      (if e[|a|].top == e[|a|].bottom then e[..|a|] + e[|a| + 1..] else e) ==
      a + WithTop(x, u) + [sec] + b
  {
    var t := a + [x] + [sec] + b;
    var e := t[|a| := t[|a|].(top := u)];
    assert e == a + [x.(top := u)] + [sec] + b;
    if e[|a|].top == e[|a|].bottom {
      assert e[..|a|] == a;
      assert e[|a| + 1..] == [sec] + b;
    }
  }

  // ---------------------------------------------------------------------
  // Finding the section at a height

  /** Height `z` (in steps) lies strictly inside `sec`. */
  predicate Contains(sec: PillarSection, z: real)
  {
    sec.bottom as real < z < sec.top as real
  }

  /** The first section in list order that strictly contains `z`, or None. */
  function SectionAt(s: seq<PillarSection>, z: real): (r: Option<PillarSection>)
    ensures r.None? <==> forall k :: 0 <= k < |s| ==> !Contains(s[k], z)
    ensures r.Some? ==> exists k :: 0 <= k < |s| && s[k] == r.value && Contains(s[k], z) &&
                                    forall m :: 0 <= m < k ==> !Contains(s[m], z)
  {
    if |s| == 0 then None
    else if Contains(s[0], z) then Some(s[0])
    else
      var r := SectionAt(s[1..], z);
      assert forall k :: 1 <= k < |s| ==> s[k] == s[1..][k - 1];
      r
  }

  // ---------------------------------------------------------------------
  // Ray pick

  /** Snaps a height in steps to the step grid the way `h -= h % STEP` does
      on f32: Rust's `%` truncates, so the result is rounded toward zero. */
  function SnapToStep(z: real): (k: int)
    ensures 0.0 <= z ==> k as real <= z < k as real + 1.0
    ensures z < 0.0 ==> k as real - 1.0 < z <= k as real
  {
    if z >= 0.0 then z.Floor else -((-z).Floor)
  }

  /** One sample of the ray march: the hex column under the sampled point
      and the sampled height, in steps. */
  datatype Sample = Sample(index: AxialPoint, z: real)

  /** The picked column and the snapped height that hit it. */
  datatype Target = Target(index: AxialPoint, height: int)

  /** The sample's pillar is loaded and one of its sections strictly
      contains the sample's snapped height. */
  predicate HitAt(pillars: map<AxialPoint, HexPillar>, sample: Sample)
  {
    sample.index in pillars &&
    SectionAt(pillars[sample.index].sections, SnapToStep(sample.z) as real).Some?
  }

  /** Sample k is the first sample, in ray order, that hits. */
  predicate FirstHitAt(pillars: map<AxialPoint, HexPillar>, samples: seq<Sample>, k: int)
  {
    0 <= k < |samples| && HitAt(pillars, samples[k]) &&
    forall m :: 0 <= m < k ==> !HitAt(pillars, samples[m])
  }

  /** Marches over the samples in ray order and returns the first hit;
      samples whose pillar is not loaded are passed over. */
  method PillarSectionLookingAt(world: World, samples: seq<Sample>) returns (r: Option<Target>)
    ensures r.None? <==> forall k :: 0 <= k < |samples| ==> !HitAt(world.pillars, samples[k])
    ensures r.Some? ==> exists k :: FirstHitAt(world.pillars, samples, k) &&
                                    r.value == Target(samples[k].index, SnapToStep(samples[k].z))
  {
    var n := 0;
    while n < |samples|
      invariant 0 <= n <= |samples|
      invariant forall m :: 0 <= m < n ==> !HitAt(world.pillars, samples[m])
    {
      var sample := samples[n];
      var height := SnapToStep(sample.z);
      var finalPos := match world.PillarAt(sample.index) {
        case Some(p) => SectionAt(p.sections, height as real)
        case None => None
      };
      if finalPos.Some? {
        return Some(Target(sample.index, height));
      }
      n := n + 1;
    }
    return None;
  }

  // ---------------------------------------------------------------------
  // Properties of the dig as written

  /** When no section reaches the dig height, the pillar is left as it is. */
  lemma DugNotFound(s: seq<PillarSection>, u: HeightType)
    requires forall k :: 0 <= k < |s| ==> s[k].top < u
    ensures ScanIndex(s, u) == |s| && Dug(s, u) == s
  {
  }

  /** Digging at a section's top step changes only that section: its top
      drops to u, and it disappears when that empties it. */
  lemma DugAtSectionTop(s: seq<PillarSection>, u: HeightType, i: nat)
    requires i == ScanIndex(s, u) && i < |s| && s[i].top == u + 1
    ensures s[i].bottom == u ==>
              (|Dug(s, u)| == |s| - 1 &&
               forall k :: 0 <= k < |s| - 1 ==> Dug(s, u)[k] == s[if k < i then k else k + 1])
    ensures s[i].bottom != u ==>
              (|Dug(s, u)| == |s| && Dug(s, u)[i] == s[i].(top := u) &&
               forall k :: 0 <= k < |s| && k != i ==> Dug(s, u)[k] == s[k])
  {
    var r := Dug(s, u);
    assert r == s[..i] + WithTop(s[i], u) + s[i + 1..];
  }

  /** Digging inside the first section that reaches u, below its top step,
      leaves the list as it was when that section is the lowest one. */
  lemma DugSplitLowestIsNoop(s: seq<PillarSection>, u: HeightType)
    requires ScanIndex(s, u) == 0 < |s| && s[0].top != u + 1
    ensures Dug(s, u) == s
  {
  }

  /** Digging inside a higher section, below its top step, raises the
      previous section's top, which lies below u, to u (dropping that section
      if this empties it) and adds a copy of the dug section, with its
      material and top, starting at u. */
  lemma DugSplitHigher(s: seq<PillarSection>, u: HeightType, i: nat)
    requires i == ScanIndex(s, u) && 0 < i < |s| && s[i].top != u + 1
    ensures s[i - 1].top < u
    ensures var r := Dug(s, u);
      var kept := if s[i - 1].bottom == u then 0 else 1;
      |r| == |s| + kept &&
      (forall k :: 0 <= k < i - 1 ==> r[k] == s[k]) &&
      (kept == 1 ==> r[i - 1] == s[i - 1].(top := u)) &&
      r[i - 1 + kept] == PillarSection(s[i].ground, u, s[i].top) &&
      (forall k :: i <= k < |s| ==> r[k + kept] == s[k])
  {
    DugHigher(s, u, i);
    SplitPositions(s, u, i, Dug(s, u));
  }

  /** Positions in the split result, stated without Dug. */
  lemma SplitPositions(s: seq<PillarSection>, u: HeightType, i: nat, r: seq<PillarSection>)
    requires 0 < i < |s|
    requires r == s[..i - 1] + WithTop(s[i - 1], u) + [PillarSection(s[i].ground, u, s[i].top)] + s[i..]
    ensures var kept := if s[i - 1].bottom == u then 0 else 1;
      |r| == |s| + kept &&
      (forall k :: 0 <= k < i - 1 ==> r[k] == s[k]) &&
      (kept == 1 ==> r[i - 1] == s[i - 1].(top := u)) &&
      r[i - 1 + kept] == PillarSection(s[i].ground, u, s[i].top) &&
      (forall k :: i <= k < |s| ==> r[k + kept] == s[k])
  {
    var a, b := s[..i - 1], s[i..];
    var sec := PillarSection(s[i].ground, u, s[i].top);
    if s[i - 1].bottom == u {
      assert r == a + [sec] + b;
    } else {
      assert r == a + [s[i - 1].(top := u)] + [sec] + b;
    }
  }

  /** On a well-formed list, every split of a section above the lowest one
      leaves two sections that overlap, so the list is no longer well formed. */
  lemma DugSplitBreaksOrder(s: seq<PillarSection>, u: HeightType, i: nat)
    requires WellFormed(s)
    requires i == ScanIndex(s, u) && 0 < i < |s| && s[i].top != u + 1
    ensures !WellFormed(Dug(s, u))
  {
    var r := Dug(s, u);
    var j := if s[i - 1].bottom == u then i - 1 else i;
    assert r[j] == PillarSection(s[i].ground, u, s[i].top);
    assert r[j + 1] == s[i];
    assert !(r[j].top <= r[j + 1].bottom);
  }

  /** The split of a section above the lowest one makes every step from the
      previous section's bottom up to u solid: the air between that section
      and u is filled with its material. */
  lemma DugSplitFillsAir(s: seq<PillarSection>, u: HeightType, i: nat)
    requires i == ScanIndex(s, u) && 0 < i < |s| && s[i].top != u + 1
    ensures s[i - 1].top < u
    ensures forall h :: s[i - 1].bottom <= h < u ==> Covers(Dug(s, u), h)
  {
    var r := Dug(s, u);
    DugSplitHigher(s, u, i);
    forall h | s[i - 1].bottom <= h < u
      ensures Covers(r, h)
    {
      assert r[i - 1] == s[i - 1].(top := u);
      assert r[i - 1].bottom <= h < r[i - 1].top;
    }
  }

  /** The trace [(0,10), (20,50)] dug at 30 gives [(0,30), (30,50), (20,50)]:
      the sections overlap, and the air at step 15 has become solid. */
  lemma DugSplitExample()
    ensures var s := [PillarSection(Dirt, 0, 10), PillarSection(Dirt, 20, 50)];
      WellFormed(s) &&
      Dug(s, 30) == [PillarSection(Dirt, 0, 30), PillarSection(Dirt, 30, 50), PillarSection(Dirt, 20, 50)] &&
      !WellFormed(Dug(s, 30)) &&
      !Covers(s, 15) && Covers(Dug(s, 30), 15)
  {
    var s := [PillarSection(Dirt, 0, 10), PillarSection(Dirt, 20, 50)];
    assert ScanIndex(s, 30) == 1;
    DugSplitBreaksOrder(s, 30, 1);
    DugSplitFillsAir(s, 30, 1);
  }

  /** Digging the air step just above a section: for [(0,10), (20,30)] dug at
      30 the scan stops at (20,30), whose top equals 30, and the split gives
      [(0,30), (30,30), (20,30)], with a zero-height section and the air
      [10, 20) filled. */
  lemma DugAirAboveTopExample()
    ensures var s := [PillarSection(Dirt, 0, 10), PillarSection(Dirt, 20, 30)];
      !Covers(s, 30) && ScanIndex(s, 30) == 1 &&
      Dug(s, 30) == [PillarSection(Dirt, 0, 30), PillarSection(Dirt, 30, 30), PillarSection(Dirt, 20, 30)] &&
      !Covers(s, 15) && Covers(Dug(s, 30), 15)
  {
    var s := [PillarSection(Dirt, 0, 10), PillarSection(Dirt, 20, 30)];
    assert ScanIndex(s, 30) == 1;
    DugSplitFillsAir(s, 30, 1);
  }
}
