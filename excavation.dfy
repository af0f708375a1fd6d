/** Digging one step out of a pillar as it is evidently meant to work: the
    step [u, u + 1) is taken out of the section that holds it, splitting that
    section when the step lies strictly inside it, and nothing happens when
    the step is air. Set beside the dig as written (Game.Dug), which the
    lemmas here compare it with. */
module Excavation {
  import opened World
  import Game

  /** Result of an excavation: the new section list, or NotFound when there
      is no material at the step. */
  datatype Outcome = Removed(sections: seq<PillarSection>) | NotFound

  /** What is left of `sec` once the step at u is taken out: the part below
      u and the part above u + 1, each only when it is non-empty. */
  function Pieces(sec: PillarSection, u: HeightType): seq<PillarSection>
  {
    (if sec.bottom < u then [PillarSection(sec.ground, sec.bottom, u)] else []) +
    (if u + 1 < sec.top then [PillarSection(sec.ground, u + 1, sec.top)] else [])
  }

  /** Takes the step at u out of the first section that reaches above u, if
      that section holds the step. It succeeds only where the step is solid,
      and changes the section count by at most one. */
  function Excavate(s: seq<PillarSection>, u: HeightType): (r: Outcome)
    ensures r.Removed? ==> Covers(s, u)
    ensures r.Removed? ==> |s| - 1 <= |r.sections| <= |s| + 1
  {
    var i := Game.ScanIndex(s, u + 1);
    if i == |s| || s[i].bottom > u then NotFound
    else Removed(s[..i] + Pieces(s[i], u) + s[i + 1..])
  }

  /** Replacing section i of a well-formed list by well-formed pieces that lie
      within it keeps the list well formed. */
  lemma SpliceKeepsWellFormed(s: seq<PillarSection>, i: nat, p: seq<PillarSection>)
    requires WellFormed(s) && i < |s| && WellFormed(p)
    requires forall x :: 0 <= x < |p| ==> s[i].bottom <= p[x].bottom && p[x].top <= s[i].top
    ensures WellFormed(s[..i] + p + s[i + 1..])
  {
    var r := s[..i] + p + s[i + 1..];
    assert forall x :: 0 <= x < i ==> r[x] == s[x];
    assert forall x :: i <= x < i + |p| ==> r[x] == p[x - i];
    assert forall x :: i + |p| <= x < |r| ==> r[x] == s[x - |p| + 1];
  }

  /** Well-formed pieces, within the section they come from. */
  lemma PiecesWithin(sec: PillarSection, u: HeightType)
    requires sec.bottom <= u < sec.top
    ensures var p := Pieces(sec, u);
      WellFormed(p) &&
      (forall x :: 0 <= x < |p| ==> sec.bottom <= p[x].bottom && p[x].top <= sec.top) &&
      (forall h :: Covers(p, h) <==> sec.bottom <= h < sec.top && h != u)
  {
    var p := Pieces(sec, u);
    forall h | sec.bottom <= h < sec.top && h != u
      ensures Covers(p, h)
    {
      if h < u {
        assert p[0].bottom <= h < p[0].top;
      } else {
        var x := if sec.bottom < u then 1 else 0;
        assert p[x].bottom <= h < p[x].top;
      }
    }
  }

  /** In a well-formed list, the section found by the scan is the only one
      that can hold step u. */
  lemma OnlyScannedSectionHolds(s: seq<PillarSection>, u: HeightType, k: nat)
    requires WellFormed(s) && k < |s| && s[k].bottom <= u < s[k].top
    ensures k == Game.ScanIndex(s, u + 1)
  {
  }

  /** On a well-formed list the excavation succeeds exactly when the step at
      u is solid. */
  lemma {:induction false} ExcavateFindsSolidStep(s: seq<PillarSection>, u: HeightType)
    requires WellFormed(s)
    ensures Excavate(s, u).Removed? <==> Covers(s, u)
  {
    var i := Game.ScanIndex(s, u + 1);
    if Excavate(s, u).Removed? {
      assert s[i].bottom <= u < s[i].top;
    }
    if Covers(s, u) {
      var k :| 0 <= k < |s| && s[k].bottom <= u < s[k].top;
      OnlyScannedSectionHolds(s, u, k);
    }
  }

  /** A successful excavation keeps the list well formed and takes out
      exactly the step at u: every other step stays as solid or as empty as
      it was. */
  lemma {:induction false} ExcavateRemovesOneStep(s: seq<PillarSection>, u: HeightType)
    requires WellFormed(s) && Excavate(s, u).Removed?
    ensures WellFormed(Excavate(s, u).sections)
    ensures forall h :: Covers(Excavate(s, u).sections, h) <==> Covers(s, h) && h != u
  {
    var i := Game.ScanIndex(s, u + 1);
    var p := Pieces(s[i], u);
    PiecesWithin(s[i], u);
    SpliceKeepsWellFormed(s, i, p);
    forall h
      ensures Covers(Excavate(s, u).sections, h) <==> Covers(s, h) && h != u
    {
      SpliceCovers(s, i, u, h);
    }
  }

  /** Step h is solid after the splice exactly when it was solid before and
      is not the excavated step. */
  lemma SpliceCovers(s: seq<PillarSection>, i: nat, u: HeightType, h: int)
    requires WellFormed(s) && i < |s| && s[i].bottom <= u < s[i].top
    ensures var r := s[..i] + Pieces(s[i], u) + s[i + 1..];
      Covers(r, h) <==> Covers(s, h) && h != u
  {
    var r := s[..i] + Pieces(s[i], u) + s[i + 1..];
    if Covers(r, h) {
      SpliceCoversOnlyOld(s, i, u, h);
    }
    if Covers(s, h) && h != u {
      SpliceKeepsOld(s, i, u, h);
    }
  }

  lemma SpliceCoversOnlyOld(s: seq<PillarSection>, i: nat, u: HeightType, h: int)
    requires WellFormed(s) && i < |s| && s[i].bottom <= u < s[i].top
    requires Covers(s[..i] + Pieces(s[i], u) + s[i + 1..], h)
    ensures Covers(s, h) && h != u
  {
    var p := Pieces(s[i], u);
    var r := s[..i] + p + s[i + 1..];
    PiecesWithin(s[i], u);
    var x :| 0 <= x < |r| && r[x].bottom <= h < r[x].top;
    if x < i {
      assert r[x] == s[x];
      assert s[x].top <= s[i].bottom;
      assert s[x].bottom <= h < s[x].top;
    } else if x < i + |p| {
      assert r[x] == p[x - i];
      assert Covers(p, h);
      assert s[i].bottom <= h < s[i].top;
    } else {
      var k := x - |p| + 1;
      assert r[x] == s[k];
      assert s[i].top <= s[k].bottom;
      assert s[k].bottom <= h < s[k].top;
    }
  }

  lemma SpliceKeepsOld(s: seq<PillarSection>, i: nat, u: HeightType, h: int)
    requires i < |s| && s[i].bottom <= u < s[i].top
    requires Covers(s, h) && h != u
    ensures Covers(s[..i] + Pieces(s[i], u) + s[i + 1..], h)
  {
    var p := Pieces(s[i], u);
    var r := s[..i] + p + s[i + 1..];
    var k :| 0 <= k < |s| && s[k].bottom <= h < s[k].top;
    if k < i {
      assert r[k] == s[k];
      assert r[k].bottom <= h < r[k].top;
    } else if k == i {
      PiecesWithin(s[i], u);
      assert Covers(p, h);
      var x :| 0 <= x < |p| && p[x].bottom <= h < p[x].top;
      assert r[i + x] == p[x];
      assert r[i + x].bottom <= h < r[i + x].top;
    } else {
      assert r[k + |p| - 1] == s[k];
      assert r[k + |p| - 1].bottom <= h < r[k + |p| - 1].top;
    }
  }

  /** Excavating the same step twice: the second call finds nothing. */
  lemma ExcavateTwiceNotFound(s: seq<PillarSection>, u: HeightType)
    requires WellFormed(s) && Excavate(s, u).Removed?
    ensures Excavate(Excavate(s, u).sections, u) == NotFound
  {
    ExcavateRemovesOneStep(s, u);
    ExcavateFindsSolidStep(Excavate(s, u).sections, u);
  }

  /** Digging the same step twice as written: [(0,10), (20,30)] dug at 29
      gives [(0,10), (20,29)], as intended; dug at 29 again, the scan stops at
      (20,29), whose top equals 29, so a recalculation is requested and the
      split gives [(0,29), (29,29), (20,29)], making air step 15 solid. The
      intended second dig finds nothing. */
  lemma DugTwiceExample()
    ensures var s := [PillarSection(Dirt, 0, 10), PillarSection(Dirt, 20, 30)];
      var once := [PillarSection(Dirt, 0, 10), PillarSection(Dirt, 20, 29)];
      Game.Dug(s, 29) == once && Excavate(s, 29) == Removed(once) &&
      Game.ScanIndex(once, 29) < |once| &&
      Game.Dug(once, 29) == [PillarSection(Dirt, 0, 29), PillarSection(Dirt, 29, 29), PillarSection(Dirt, 20, 29)] &&
      !Covers(once, 15) && Covers(Game.Dug(once, 29), 15) &&
      Excavate(once, 29) == NotFound
  {
    var s := [PillarSection(Dirt, 0, 10), PillarSection(Dirt, 20, 30)];
    var once := [PillarSection(Dirt, 0, 10), PillarSection(Dirt, 20, 29)];
    assert Game.ScanIndex(s, 29) == 1;
    assert Game.ScanIndex(s, 30) == 1;
    assert Game.ScanIndex(once, 29) == 1;
    assert Game.ScanIndex(once, 30) == 2;
    Game.DugSplitFillsAir(once, 29, 1);
  }

  /** Digging inside the lowest section through RemoveHexagonAt: the world is
      left as it was, yet a chunk recalculation is reported. */
  method DigLowestStillRecalculates(world: World, index: AxialPoint) returns (recalculated: bool)
    requires index in world.pillars && world.pillars[index].sections == [PillarSection(Dirt, 0, 100)]
    modifies world
    ensures recalculated && world.pillars == old(world.pillars)
  {
    DugLowestExample();
    recalculated := Game.RemoveHexagonAt(world, index, 55);
    assert old(world.pillars)[index].(sections := [PillarSection(Dirt, 0, 100)]) == old(world.pillars)[index];
  }

  /** Where the dig as written takes no split (the section found ends one
      step above u), it does what the excavation is meant to do. */
  lemma DugAgreesAtSectionTop(s: seq<PillarSection>, u: HeightType)
    requires WellFormed(s)
    requires Game.ScanIndex(s, u) < |s| && s[Game.ScanIndex(s, u)].top == u + 1
    ensures Excavate(s, u) == Removed(Game.Dug(s, u))
  {
    var i := Game.ScanIndex(s, u);
    assert s[i].bottom < s[i].top;
    OnlyScannedSectionHolds(s, u, i);
    assert Pieces(s[i], u) == Game.WithTop(s[i], u);
  }

  /** As written, digging strictly inside the lowest section that reaches u
      leaves the step solid, although a chunk rebuild is still requested;
      the excavation takes the step out. */
  lemma DugLeavesLowestStep(s: seq<PillarSection>, u: HeightType)
    requires WellFormed(s)
    requires Game.ScanIndex(s, u) == 0 < |s| && s[0].bottom <= u < s[0].top && s[0].top != u + 1
    ensures Game.Dug(s, u) == s && Covers(Game.Dug(s, u), u)
    ensures Excavate(s, u).Removed? && !Covers(Excavate(s, u).sections, u)
  {
    ExcavateFindsSolidStep(s, u);
    ExcavateRemovesOneStep(s, u);
  }

  /** A single section [0, 100) dug at 55: as written nothing changes; the
      excavation leaves [0, 55) and [56, 100). */
  lemma DugLowestExample()
    ensures var s := [PillarSection(Dirt, 0, 100)];
      Game.Dug(s, 55) == s &&
      Excavate(s, 55) == Removed([PillarSection(Dirt, 0, 55), PillarSection(Dirt, 56, 100)])
  {
    var s := [PillarSection(Dirt, 0, 100)];
    assert Game.ScanIndex(s, 55) == 0;
    assert Game.ScanIndex(s, 56) == 0;
  }

  /** The excavation keeps the split trace [(0,10), (20,50)] dug at 30 well
      formed: [(0,10), (20,30), (31,50)]. */
  lemma ExcavateSplitExample()
    ensures var s := [PillarSection(Dirt, 0, 10), PillarSection(Dirt, 20, 50)];
      Excavate(s, 30) ==
        Removed([PillarSection(Dirt, 0, 10), PillarSection(Dirt, 20, 30), PillarSection(Dirt, 31, 50)])
  {
    var s := [PillarSection(Dirt, 0, 10), PillarSection(Dirt, 20, 50)];
    assert Game.ScanIndex(s, 31) == 1;
  }

  /** A height picked by the ray lies strictly inside a section. On a
      well-formed list the as-written scan at that height and the intended
      scan (one step higher) both stop at that section, so the `>=` of the
      scan makes no difference for a picked height. */
  lemma PickHeightScansToHolder(s: seq<PillarSection>, h: HeightType, k: nat)
    requires WellFormed(s) && k < |s| && Game.Contains(s[k], h as real)
    ensures Game.ScanIndex(s, h) == k && Game.ScanIndex(s, h + 1) == k
  {
  }

  /** The scan stops at a section whose top equals the dig height: for
      [(0,10), (10,20)] dug at 10 it picks the section below the step, so as
      written nothing changes although step 10 is solid; the excavation
      leaves [(0,10), (11,20)]. */
  lemma DugScanExample()
    ensures var s := [PillarSection(Dirt, 0, 10), PillarSection(Dirt, 10, 20)];
      Game.ScanIndex(s, 10) == 0 && Game.Dug(s, 10) == s && Covers(s, 10) &&
      Excavate(s, 10) == Removed([PillarSection(Dirt, 0, 10), PillarSection(Dirt, 11, 20)])
  {
    var s := [PillarSection(Dirt, 0, 10), PillarSection(Dirt, 10, 20)];
    assert s[1].bottom <= 10 < s[1].top;
    assert Game.ScanIndex(s, 11) == 1;
  }
}
