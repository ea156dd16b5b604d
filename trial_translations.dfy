/** make_trial_translations and is_new_unique_translation: the candidate
    rigid translations that bring one atom onto a compatible prim site,
    deduplicated by the prim's internal translations and lattice vectors. */
module TrialTranslations {
  import opened Geometry

  /** xtal::is_integer(v, tol): whether every component of v is within tol of
      an integer. Its definition is not part of this model. */
  type IntegerTest = (Vec3, real) -> bool

  /** xtal::make_internal_translations(factor_group, tol): the translations of
      the factor group that map the prim onto itself. Its definition is not
      part of this model. */
  type InternalTranslations = (seq<SymOp>, real) -> seq<Vec3>

  /** x and y differ by a prim lattice vector: the fractional coordinates
      L^-1 (x - y) pass the integer test with the lattice tolerance. */
  predicate SameModLattice(isInteger: IntegerTest, primLattice: Lattice, x: Vec3, y: Vec3) {
    isInteger(MatVec(primLattice.invLatColumnMat, Sub(x, y)), primLattice.tol)
  }

  // ---------------------------------------------------------------------
  // is_new_unique_translation
  // ---------------------------------------------------------------------

  /** The inner search over current unique translations for x. */
  function AnyEquivalentTo(isInteger: IntegerTest, primLattice: Lattice, x: Vec3, current: seq<Vec3>): bool {
    if current == [] then false
    else SameModLattice(isInteger, primLattice, x, current[0]) ||
         AnyEquivalentTo(isInteger, primLattice, x, current[1..])
  }

  /** The outer search over internal translations t: whether test + t is
      equivalent to some current unique translation. */
  function AnyEquivalent(isInteger: IntegerTest, primLattice: Lattice, test: Vec3,
                         internal: seq<Vec3>, current: seq<Vec3>): bool {
    if internal == [] then false
    else AnyEquivalentTo(isInteger, primLattice, Add(test, internal[0]), current) ||
         AnyEquivalent(isInteger, primLattice, test, internal[1..], current)
  }

  /** is_new_unique_translation */
  function IsNewUniqueTranslation(isInteger: IntegerTest, primLattice: Lattice, test: Vec3,
                                  internal: seq<Vec3>, current: seq<Vec3>): (isNew: bool)
    ensures |internal| == 1 || current == [] ==> isNew
  {
    AnyEquivalentCorrect(isInteger, primLattice, test, internal, current);
    if |internal| == 1 then true
    else !AnyEquivalent(isInteger, primLattice, test, internal, current)
  }

  /** The inner search finds x exactly when x equals some current
      translation modulo the prim lattice. */
  lemma {:induction false} AnyEquivalentToCorrect(isInteger: IntegerTest, primLattice: Lattice, x: Vec3,
                                                  current: seq<Vec3>)
    ensures AnyEquivalentTo(isInteger, primLattice, x, current) <==>
              exists j :: 0 <= j < |current| && SameModLattice(isInteger, primLattice, x, current[j])
  {
    if current != [] {
      AnyEquivalentToCorrect(isInteger, primLattice, x, current[1..]);
      assert forall j :: 1 <= j < |current| ==> current[j] == current[1..][j - 1];
    }
  }

  /** The outer search succeeds exactly when test + t equals some current
      translation modulo the prim lattice, for some internal translation t. */
  lemma {:induction false} AnyEquivalentCorrect(isInteger: IntegerTest, primLattice: Lattice, test: Vec3,
                                                internal: seq<Vec3>, current: seq<Vec3>)
    ensures AnyEquivalent(isInteger, primLattice, test, internal, current) <==>
              exists i, j :: 0 <= i < |internal| && 0 <= j < |current| &&
                SameModLattice(isInteger, primLattice, Add(test, internal[i]), current[j])
  {
    if internal != [] {
      AnyEquivalentToCorrect(isInteger, primLattice, Add(test, internal[0]), current);
      AnyEquivalentCorrect(isInteger, primLattice, test, internal[1..], current);
      assert forall i :: 1 <= i < |internal| ==> internal[i] == internal[1..][i - 1];
    }
  }

  /** is_new_unique_translation accepts every translation when there is a
      single internal translation or no current translation; otherwise it
      rejects exactly the translations that, moved by some internal
      translation, equal a current one modulo the prim lattice. */
  lemma IsNewUniqueTranslationCorrect(isInteger: IntegerTest, primLattice: Lattice, test: Vec3,
                                      internal: seq<Vec3>, current: seq<Vec3>)
    ensures |internal| == 1 ==> IsNewUniqueTranslation(isInteger, primLattice, test, internal, current)
    ensures current == [] ==> IsNewUniqueTranslation(isInteger, primLattice, test, internal, current)
    ensures |internal| != 1 ==>
              (!IsNewUniqueTranslation(isInteger, primLattice, test, internal, current) <==>
                 exists i, j :: 0 <= i < |internal| && 0 <= j < |current| &&
                   SameModLattice(isInteger, primLattice, Add(test, internal[i]), current[j]))
  {
    AnyEquivalentCorrect(isInteger, primLattice, test, internal, current);
  }

  // ---------------------------------------------------------------------
  // Compatible sites and the choice of atom
  // ---------------------------------------------------------------------

  predicate SitesIn(sites: seq<nat>, n: nat) {
    forall k :: 0 <= k < |sites| ==> sites[k] < n
  }

  predicate Increasing(s: seq<nat>) {
    forall k, k' :: 0 <= k < k' < |s| ==> s[k] < s[k']
  }

  /** The prim sites whose allowed types include t, in increasing order. */
  function CompatibleSites(primAllowed: seq<seq<string>>, t: string): (sites: seq<nat>)
    ensures |sites| <= |primAllowed|
    ensures SitesIn(sites, |primAllowed|)
  {
    CompatibleSitesBelow(primAllowed, t, |primAllowed|)
  }

  /** The prim sites below n whose allowed types include t, in increasing
      order: the sites the scan has accepted after n steps. */
  function CompatibleSitesBelow(primAllowed: seq<seq<string>>, t: string, n: nat): (sites: seq<nat>)
    requires n <= |primAllowed|
    ensures |sites| <= n
    ensures SitesIn(sites, n)
  {
    if n == 0 then []
    else
      var prev := CompatibleSitesBelow(primAllowed, t, n - 1);
      if t in primAllowed[n - 1] then prev + [n - 1] else prev
  }

  lemma {:induction false} CompatibleSitesBelowCorrect(primAllowed: seq<seq<string>>, t: string, n: nat)
    requires n <= |primAllowed|
    ensures forall k :: 0 <= k < |CompatibleSitesBelow(primAllowed, t, n)| ==>
              t in primAllowed[CompatibleSitesBelow(primAllowed, t, n)[k]]
    ensures forall b :: 0 <= b < n && t in primAllowed[b] ==> b in CompatibleSitesBelow(primAllowed, t, n)
    ensures Increasing(CompatibleSitesBelow(primAllowed, t, n))
  {
    if n > 0 {
      var prev := CompatibleSitesBelow(primAllowed, t, n - 1);
      CompatibleSitesBelowCorrect(primAllowed, t, n - 1);
      if t in primAllowed[n - 1] {
        var sites := prev + [n - 1];
        assert CompatibleSitesBelow(primAllowed, t, n) == sites;
        assert forall k :: 0 <= k < |prev| ==> sites[k] == prev[k];
      }
    }
  }

  /** CompatibleSites lists, in increasing order, exactly the sites whose
      allowed types include t. */
  lemma CompatibleSitesCorrect(primAllowed: seq<seq<string>>, t: string)
    ensures forall k :: 0 <= k < |CompatibleSites(primAllowed, t)| ==>
              t in primAllowed[CompatibleSites(primAllowed, t)[k]]
    ensures forall b :: 0 <= b < |primAllowed| && t in primAllowed[b] ==> b in CompatibleSites(primAllowed, t)
    ensures Increasing(CompatibleSites(primAllowed, t))
  {
    CompatibleSitesBelowCorrect(primAllowed, t, |primAllowed|);
  }

  /** N_allowed_sites for an atom of type t. */
  function AllowedSiteCount(primAllowed: seq<seq<string>>, t: string): nat {
    |CompatibleSites(primAllowed, t)|
  }

  /** The type t appears in no prim site's allowed list. */
  predicate Unplaceable(primAllowed: seq<seq<string>>, t: string) {
    forall b :: 0 <= b < |primAllowed| ==> t !in primAllowed[b]
  }

  lemma ZeroCountIffUnplaceable(primAllowed: seq<seq<string>>, t: string)
    ensures AllowedSiteCount(primAllowed, t) == 0 <==> Unplaceable(primAllowed, t)
  {
    var sites := CompatibleSites(primAllowed, t);
    CompatibleSitesCorrect(primAllowed, t);
    if |sites| > 0 {
      assert t in primAllowed[sites[0]];
    }
  }

  function AllowedSiteCounts(primAllowed: seq<seq<string>>, atomType: seq<string>): (counts: seq<nat>)
    ensures |counts| == |atomType|
    ensures forall i :: 0 <= i < |atomType| ==> counts[i] == AllowedSiteCount(primAllowed, atomType[i])
  {
    seq(|atomType|, i requires 0 <= i < |atomType| => AllowedSiteCount(primAllowed, atomType[i]))
  }

  /** The first index below n holding the smallest of counts[0..n): ties go
      to the earliest index, as the strict comparison
      N_allowed_sites < min_N_allowed_sites does. */
  function FirstMinIndex(counts: seq<nat>, n: nat): (k: nat)
    requires 0 < n <= |counts|
    ensures k < n
    ensures forall i :: 0 <= i < n ==> counts[k] <= counts[i]
    ensures forall i :: 0 <= i < k ==> counts[k] < counts[i]
  {
    if n == 1 then 0
    else
      var k' := FirstMinIndex(counts, n - 1);
      if counts[n - 1] < counts[k'] then n - 1 else k'
  }

  /** best_atom_index */
  function BestAtomIndex(primAllowed: seq<seq<string>>, atomType: seq<string>): (best: nat)
    requires |atomType| > 0
    ensures best < |atomType|
  {
    FirstMinIndex(AllowedSiteCounts(primAllowed, atomType), |atomType|)
  }

  // ---------------------------------------------------------------------
  // Unique translations
  // ---------------------------------------------------------------------

  /** The translations site[b] - atomPos for the listed sites b. */
  function TranslationsTo(siteCoords: seq<Vec3>, atomPos: Vec3, sites: seq<nat>): seq<Vec3>
    requires SitesIn(sites, |siteCoords|)
  {
    seq(|sites|, k requires 0 <= k < |sites| => Sub(siteCoords[sites[k]], atomPos))
  }

  lemma TranslationsToSnoc(siteCoords: seq<Vec3>, atomPos: Vec3, sites: seq<nat>, b: nat)
    requires SitesIn(sites, |siteCoords|) && b < |siteCoords|
    ensures SitesIn(sites + [b], |siteCoords|)
    ensures TranslationsTo(siteCoords, atomPos, sites + [b])
         == TranslationsTo(siteCoords, atomPos, sites) + [Sub(siteCoords[b], atomPos)]
  {
  }

  /** What stays fixed while the collecting loop runs for one atom: the
      integer test, the prim lattice, the internal translations, the prim
      site positions and allowed types, and the atom's type t and position. */
  datatype Scan = Scan(isInteger: IntegerTest, primLattice: Lattice, internal: seq<Vec3>,
                       siteCoords: seq<Vec3>, primAllowed: seq<seq<string>>,
                       t: string, atomPos: Vec3)
  {
    /** One position per prim site. */
    predicate Valid() {
      |siteCoords| == |primAllowed|
    }

    /** The translations from the atom to the listed sites. */
    function Translations(sites: seq<nat>): seq<Vec3>
      requires SitesIn(sites, |siteCoords|)
    {
      TranslationsTo(siteCoords, atomPos, sites)
    }
  }

  /** Every listed site is a prim site allowing t. */
  predicate AllCompatible(primAllowed: seq<seq<string>>, t: string, sites: seq<nat>) {
    forall k :: 0 <= k < |sites| ==> sites[k] < |primAllowed| && t in primAllowed[sites[k]]
  }

  /** The prim sites below n whose translations the collecting loop has kept
      after n steps: site b is kept when it allows t and
      is_new_unique_translation accepts site[b] - atomPos against the
      translations kept before it. */
  function UniqueSitesBelow(sc: Scan, n: nat): (chosen: seq<nat>)
    requires sc.Valid() && n <= |sc.primAllowed|
    ensures SitesIn(chosen, n)
    ensures |chosen| <= |CompatibleSitesBelow(sc.primAllowed, sc.t, n)|
  {
    if n == 0 then []
    else
      var prev := UniqueSitesBelow(sc, n - 1);
      var b := n - 1;
      if sc.t in sc.primAllowed[b] &&
         IsNewUniqueTranslation(sc.isInteger, sc.primLattice, Sub(sc.siteCoords[b], sc.atomPos), sc.internal,
                                sc.Translations(prev))
      then prev + [b] else prev
  }

  /** The sites whose translations the collecting loop keeps: prim sites,
      no more of them than there are sites allowing t. */
  function UniqueSites(sc: Scan): (chosen: seq<nat>)
    requires sc.Valid()
    ensures SitesIn(chosen, |sc.primAllowed|)
    ensures |chosen| <= AllowedSiteCount(sc.primAllowed, sc.t)
  {
    UniqueSitesBelow(sc, |sc.primAllowed|)
  }

  /** Only sites allowing t are kept, in increasing order. */
  lemma {:induction false} UniqueSitesBelowCompatible(sc: Scan, n: nat)
    requires sc.Valid() && n <= |sc.primAllowed|
    ensures AllCompatible(sc.primAllowed, sc.t, UniqueSitesBelow(sc, n))
    ensures Increasing(UniqueSitesBelow(sc, n))
  {
    if n > 0 {
      UniqueSitesBelowCompatible(sc, n - 1);
    }
  }

  /** Some site is kept as soon as some site allows t. */
  lemma {:induction false} UniqueSitesBelowNonEmpty(sc: Scan, n: nat)
    requires sc.Valid() && n <= |sc.primAllowed|
    requires CompatibleSitesBelow(sc.primAllowed, sc.t, n) != []
    ensures UniqueSitesBelow(sc, n) != []
  {
    if CompatibleSitesBelow(sc.primAllowed, sc.t, n - 1) != [] {
      UniqueSitesBelowNonEmpty(sc, n - 1);
    } else {
      assert UniqueSitesBelow(sc, n - 1) == [] && sc.Translations([]) == [];
    }
  }

  /** With a single internal translation every site allowing t is kept. */
  lemma {:induction false} UniqueSitesBelowSingleInternal(sc: Scan, n: nat)
    requires sc.Valid() && n <= |sc.primAllowed| && |sc.internal| == 1
    ensures UniqueSitesBelow(sc, n) == CompatibleSitesBelow(sc.primAllowed, sc.t, n)
  {
    if n > 0 {
      UniqueSitesBelowSingleInternal(sc, n - 1);
    }
  }

  /** With several internal translations, no kept translation moved by an
      internal translation coincides modulo the prim lattice with a
      translation kept before it. */
  lemma {:induction false} UniqueSitesBelowInequivalent(sc: Scan, n: nat, k: nat, k': nat, i: nat)
    requires sc.Valid() && n <= |sc.primAllowed|
    requires |sc.internal| != 1 && i < |sc.internal|
    requires k < k' < |UniqueSitesBelow(sc, n)|
    ensures !SameModLattice(sc.isInteger, sc.primLattice,
               Add(sc.Translations(UniqueSitesBelow(sc, n))[k'], sc.internal[i]),
               sc.Translations(UniqueSitesBelow(sc, n))[k])
  {
    var prev := UniqueSitesBelow(sc, n - 1);
    var b := n - 1;
    var prevTs := sc.Translations(prev);
    var ts := sc.Translations(UniqueSitesBelow(sc, n));
    if UniqueSitesBelow(sc, n) == prev {
      UniqueSitesBelowInequivalent(sc, n - 1, k, k', i);
    } else {
      assert UniqueSitesBelow(sc, n) == prev + [b];
      TranslationsToSnoc(sc.siteCoords, sc.atomPos, prev, b);
      assert ts[k] == prevTs[k];
      if k' == |prev| {
        assert ts[k'] == Sub(sc.siteCoords[b], sc.atomPos);
        IsNewUniqueTranslationCorrect(sc.isInteger, sc.primLattice, ts[k'], sc.internal, prevTs);
      } else {
        assert ts[k'] == prevTs[k'];
        UniqueSitesBelowInequivalent(sc, n - 1, k, k', i);
      }
    }
  }

  /** An equivalent found in a list is still found after a push_back. */
  lemma AnyEquivalentSnoc(isInteger: IntegerTest, primLattice: Lattice, test: Vec3,
                          internal: seq<Vec3>, current: seq<Vec3>, y: Vec3)
    requires AnyEquivalent(isInteger, primLattice, test, internal, current)
    ensures AnyEquivalent(isInteger, primLattice, test, internal, current + [y])
  {
    AnyEquivalentCorrect(isInteger, primLattice, test, internal, current);
    var i, j :| 0 <= i < |internal| && 0 <= j < |current| &&
      SameModLattice(isInteger, primLattice, Add(test, internal[i]), current[j]);
    assert (current + [y])[j] == current[j];
    AnyEquivalentCorrect(isInteger, primLattice, test, internal, current + [y]);
  }

  /** Every site allowing t that is left out is, after some internal
      translation, equal modulo the prim lattice to a kept translation:
      deduplication loses no alignment up to symmetry. */
  lemma {:induction false} UniqueSitesBelowComplete(sc: Scan, n: nat, b: nat)
    requires sc.Valid() && b < n <= |sc.primAllowed|
    requires sc.t in sc.primAllowed[b] && b !in UniqueSitesBelow(sc, n)
    ensures AnyEquivalent(sc.isInteger, sc.primLattice, Sub(sc.siteCoords[b], sc.atomPos), sc.internal,
                          sc.Translations(UniqueSitesBelow(sc, n)))
  {
    var prev := UniqueSitesBelow(sc, n - 1);
    if UniqueSitesBelow(sc, n) == prev {
      if b < n - 1 {
        UniqueSitesBelowComplete(sc, n - 1, b);
      }
    } else {
      assert UniqueSitesBelow(sc, n) == prev + [n - 1];
      assert b != n - 1 && b !in prev;
      UniqueSitesBelowComplete(sc, n - 1, b);
      TranslationsToSnoc(sc.siteCoords, sc.atomPos, prev, n - 1);
      AnyEquivalentSnoc(sc.isInteger, sc.primLattice, Sub(sc.siteCoords[b], sc.atomPos), sc.internal,
                        sc.Translations(prev), Sub(sc.siteCoords[n - 1], sc.atomPos));
    }
  }

  // ---------------------------------------------------------------------
  // make_trial_translations
  // ---------------------------------------------------------------------

  /** Every atom's type is allowed on at least one prim site. */
  predicate AllPlaceable(primAllowed: seq<seq<string>>, atomType: seq<string>) {
    forall i :: 0 <= i < |atomType| ==> AllowedSiteCount(primAllowed, atomType[i]) > 0
  }

  /** The inputs of make_trial_translations, with the internal translations
      already made from the factor group. */
  datatype TrialInputs = TrialInputs(isInteger: IntegerTest, primLattice: Lattice, internal: seq<Vec3>,
                                     atomCoords: seq<Vec3>, atomType: seq<string>,
                                     siteCoords: seq<Vec3>, primAllowed: seq<seq<string>>)
  {
    /** One position per atom and one per prim site. */
    predicate Valid() {
      |atomCoords| == |atomType| && |siteCoords| == |primAllowed|
    }

    /** best_atom_index */
    function Best(): nat
      requires |atomType| > 0
    {
      BestAtomIndex(primAllowed, atomType)
    }

    /** The collecting loop's fixed inputs for the chosen atom. */
    function BestScan(): (sc: Scan)
      requires Valid() && |atomType| > 0
      ensures sc.Valid() && sc.t == atomType[Best()]
    {
      Scan(isInteger, primLattice, internal, siteCoords, primAllowed, atomType[Best()], atomCoords[Best()])
    }
  }

  /** The translations make_trial_translations returns: none when some atom
      fits no prim site; otherwise the unique translations from the chosen
      atom to its compatible sites, at most one per prim site. */
  function TrialTranslationsSpec(ti: TrialInputs): (r: seq<Vec3>)
    requires ti.Valid()
    ensures |r| <= |ti.primAllowed|
  {
    if |ti.atomType| == 0 then []
    else if !AllPlaceable(ti.primAllowed, ti.atomType) then []
    else
      var sc := ti.BestScan();
      sc.Translations(UniqueSites(sc))
  }

  /** The chosen atom has the fewest compatible prim sites, and every atom
      before it has strictly more. */
  lemma BestAtomIsFirstMinimal(primAllowed: seq<seq<string>>, atomType: seq<string>, i: nat)
    requires i < |atomType|
    ensures AllowedSiteCount(primAllowed, atomType[BestAtomIndex(primAllowed, atomType)])
         <= AllowedSiteCount(primAllowed, atomType[i])
    ensures i < BestAtomIndex(primAllowed, atomType) ==>
              (AllowedSiteCount(primAllowed, atomType[BestAtomIndex(primAllowed, atomType)])
                 < AllowedSiteCount(primAllowed, atomType[i]))
  {
    var counts := AllowedSiteCounts(primAllowed, atomType);
    var best := BestAtomIndex(primAllowed, atomType);
    assert counts[best] <= counts[i];
  }

  /** There are no trial translations exactly when there are no atoms or
      some atom's type is allowed on no prim site. */
  lemma TrialTranslationsEmpty(ti: TrialInputs)
    requires ti.Valid()
    ensures TrialTranslationsSpec(ti) == [] <==> |ti.atomType| == 0 || !AllPlaceable(ti.primAllowed, ti.atomType)
    ensures !AllPlaceable(ti.primAllowed, ti.atomType) <==>
              exists i :: 0 <= i < |ti.atomType| && Unplaceable(ti.primAllowed, ti.atomType[i])
  {
    forall i | 0 <= i < |ti.atomType|
      ensures AllowedSiteCount(ti.primAllowed, ti.atomType[i]) == 0 <==> Unplaceable(ti.primAllowed, ti.atomType[i])
    {
      ZeroCountIffUnplaceable(ti.primAllowed, ti.atomType[i]);
    }
    if |ti.atomType| > 0 && AllPlaceable(ti.primAllowed, ti.atomType) {
      UniqueSitesBelowNonEmpty(ti.BestScan(), |ti.primAllowed|);
    }
  }

  /** Each trial translation carries the chosen atom exactly onto a prim site
      that allows its type, and there are at most as many translations as
      such sites. */
  lemma TrialTranslationsAlign(ti: TrialInputs, k: nat)
    requires ti.Valid() && k < |TrialTranslationsSpec(ti)|
    ensures |ti.atomType| > 0
    ensures |TrialTranslationsSpec(ti)| <= AllowedSiteCount(ti.primAllowed, ti.atomType[ti.Best()])
    ensures exists b :: 0 <= b < |ti.primAllowed| && ti.atomType[ti.Best()] in ti.primAllowed[b] &&
              Add(ti.atomCoords[ti.Best()], TrialTranslationsSpec(ti)[k]) == ti.siteCoords[b]
  {
    var sc := ti.BestScan();
    var chosen := UniqueSites(sc);
    UniqueSitesBelowCompatible(sc, |ti.primAllowed|);
    AddSubCancel(sc.atomPos, ti.siteCoords[chosen[k]]);
  }

  /** The translations are the translations to the kept sites, which come in
      increasing order. */
  lemma TrialTranslationsOrdered(ti: TrialInputs)
    requires ti.Valid() && |ti.atomType| > 0 && AllPlaceable(ti.primAllowed, ti.atomType)
    ensures Increasing(UniqueSites(ti.BestScan()))
    ensures TrialTranslationsSpec(ti) == ti.BestScan().Translations(UniqueSites(ti.BestScan()))
  {
    UniqueSitesBelowCompatible(ti.BestScan(), |ti.primAllowed|);
  }

  /** With a single internal translation (a prim with no translational
      symmetry beyond its lattice) there is one trial translation per
      compatible prim site of the chosen atom, each onto that site. */
  lemma TrialTranslationsSingleInternal(ti: TrialInputs)
    requires ti.Valid() && |ti.internal| == 1
    requires |ti.atomType| > 0 && AllPlaceable(ti.primAllowed, ti.atomType)
    ensures TrialTranslationsSpec(ti)
         == ti.BestScan().Translations(CompatibleSites(ti.primAllowed, ti.atomType[ti.Best()]))
    ensures |TrialTranslationsSpec(ti)| == AllowedSiteCount(ti.primAllowed, ti.atomType[ti.Best()])
  {
    UniqueSitesBelowSingleInternal(ti.BestScan(), |ti.primAllowed|);
  }

  /** No trial translation, moved by an internal translation, is equal modulo
      the prim lattice to an earlier one. */
  lemma TrialTranslationsUnique(ti: TrialInputs, k: nat, k': nat, i: nat)
    requires ti.Valid() && |ti.internal| != 1 && i < |ti.internal|
    requires k < k' < |TrialTranslationsSpec(ti)|
    ensures !SameModLattice(ti.isInteger, ti.primLattice,
                            Add(TrialTranslationsSpec(ti)[k'], ti.internal[i]), TrialTranslationsSpec(ti)[k])
  {
    UniqueSitesBelowInequivalent(ti.BestScan(), |ti.primAllowed|, k, k', i);
  }

  /** Every prim site compatible with the chosen atom is reached: either some
      trial translation carries the atom onto it, or the translation onto it,
      moved by an internal translation, equals a trial translation modulo the
      prim lattice. */
  lemma TrialTranslationsComplete(ti: TrialInputs, b: nat)
    requires ti.Valid() && |ti.atomType| > 0 && b < |ti.primAllowed|
    requires ti.atomType[ti.Best()] in ti.primAllowed[b]
    ensures var r := TrialTranslationsSpec(ti);
            var toB := Sub(ti.siteCoords[b], ti.atomCoords[ti.Best()]);
            || (exists k :: 0 <= k < |r| && r[k] == toB)
            || (exists i, k :: 0 <= i < |ti.internal| && 0 <= k < |r| &&
                  SameModLattice(ti.isInteger, ti.primLattice, Add(toB, ti.internal[i]), r[k]))
  {
    var sc := ti.BestScan();
    CompatibleSitesCorrect(ti.primAllowed, sc.t);
    assert b in CompatibleSites(ti.primAllowed, sc.t);
    assert AllPlaceable(ti.primAllowed, ti.atomType) by {
      forall i | 0 <= i < |ti.atomType|
        ensures AllowedSiteCount(ti.primAllowed, ti.atomType[i]) > 0
      {
        BestAtomIsFirstMinimal(ti.primAllowed, ti.atomType, i);
      }
    }
    var chosen := UniqueSites(sc);
    var r := TrialTranslationsSpec(ti);
    assert r == sc.Translations(chosen);
    if b in chosen {
      var k :| 0 <= k < |chosen| && chosen[k] == b;
      assert r[k] == Sub(ti.siteCoords[b], sc.atomPos);
    } else {
      UniqueSitesBelowComplete(sc, |ti.primAllowed|, b);
      AnyEquivalentCorrect(ti.isInteger, ti.primLattice, Sub(ti.siteCoords[b], sc.atomPos), ti.internal, r);
    }
  }

  /** The two-site example: prim sites allowing {"A"} and {"A", "Va"}, an "A"
      atom on site 0 and a "Va" atom on site 1. The vacancy fits one site
      and "A" fits two, so the vacancy is chosen and the only trial
      translation is zero, whatever the internal translations. */
  lemma TwoSiteExample(isInteger: IntegerTest, primLattice: Lattice, internal: seq<Vec3>, s0: Vec3, s1: Vec3)
    ensures TrialTranslationsSpec(TrialInputs(isInteger, primLattice, internal, [s0, s1], ["A", "Va"],
                                              [s0, s1], [["A"], ["A", "Va"]])) == [Zero]
  {
    var allowed := [["A"], ["A", "Va"]];
    var types := ["A", "Va"];
    var ti := TrialInputs(isInteger, primLattice, internal, [s0, s1], types, [s0, s1], allowed);
    assert "Va" !in allowed[0] && "Va" in allowed[1] && "A" in allowed[0] && "A" in allowed[1];
    assert CompatibleSitesBelow(allowed, "Va", 1) == [];
    assert CompatibleSites(allowed, "Va") == [1];
    assert CompatibleSitesBelow(allowed, "A", 1) == [0];
    assert CompatibleSites(allowed, "A") == [0, 1];
    assert AllPlaceable(allowed, types);
    var counts := AllowedSiteCounts(allowed, types);
    assert counts[0] == 2 && counts[1] == 1;
    assert ti.Best() == 1;
    var sc := ti.BestScan();
    assert sc == Scan(isInteger, primLattice, internal, [s0, s1], allowed, "Va", s1);
    assert UniqueSitesBelow(sc, 1) == [];
    assert UniqueSites(sc) == [1];
    assert Sub(s1, s1) == Zero;
  }

  /** The count N_allowed_sites of prim sites allowing type t. */
  method CountAllowedSites(primAllowed: seq<seq<string>>, t: string) returns (nAllowed: nat)
    ensures nAllowed == AllowedSiteCount(primAllowed, t)
  {
    nAllowed := 0;
    var b := 0;
    while b < |primAllowed|
      invariant 0 <= b <= |primAllowed|
      invariant nAllowed == |CompatibleSitesBelow(primAllowed, t, b)|
    {
      if t in primAllowed[b] {
        nAllowed := nAllowed + 1;
      }
      b := b + 1;
    }
  }

  /** The second loop of make_trial_translations: the unique translations
      from the atom at pos, of type t, to the compatible prim sites. */
  method CollectUniqueTranslations(sc: Scan) returns (trial: seq<Vec3>)
    requires sc.Valid()
    ensures trial == sc.Translations(UniqueSites(sc))
  {
    trial := [];
    var b := 0;
    while b < |sc.primAllowed|
      invariant 0 <= b <= |sc.primAllowed|
      invariant trial == sc.Translations(UniqueSitesBelow(sc, b))
    {
      if sc.t !in sc.primAllowed[b] {
        b := b + 1;
        continue;
      }
      var testTranslation := Sub(sc.siteCoords[b], sc.atomPos);
      TranslationsToSnoc(sc.siteCoords, sc.atomPos, UniqueSitesBelow(sc, b), b);
      if IsNewUniqueTranslation(sc.isInteger, sc.primLattice, testTranslation, sc.internal, trial) {
        trial := trial + [testTranslation];
      }
      b := b + 1;
    }
  }

  /** The first loop of make_trial_translations: whether every atom's type
      is allowed on some prim site (the loop returns early at the first atom
      that fits none) and the chosen atom, the first with the fewest
      compatible sites. */
  method ChooseBestAtom(primAllowed: seq<seq<string>>, atomType: seq<string>)
    returns (placeable: bool, best: nat)
    ensures placeable <==> AllPlaceable(primAllowed, atomType)
    ensures placeable && |atomType| > 0 ==> best == BestAtomIndex(primAllowed, atomType)
  {
    ghost var counts := AllowedSiteCounts(primAllowed, atomType);
    var nAtom := |atomType|;
    best := 0;
    var minAllowed := |primAllowed| + 1;
    var a := 0;
    while a != nAtom
      invariant 0 <= a <= nAtom
      invariant forall i :: 0 <= i < a ==> counts[i] > 0
      invariant a == 0 ==> best == 0 && minAllowed == |primAllowed| + 1
      invariant a > 0 ==> best == FirstMinIndex(counts, a) && minAllowed == counts[best]
    {
      var nAllowed := CountAllowedSites(primAllowed, atomType[a]);
      assert nAllowed == counts[a] <= |primAllowed|;
      if nAllowed == 0 {
        return false, 0;
      }
      assert a > 0 ==> FirstMinIndex(counts, a + 1) ==
                         if counts[a] < counts[FirstMinIndex(counts, a)] then a else FirstMinIndex(counts, a);
      if nAllowed < minAllowed {
        best := a;
        minAllowed := nAllowed;
      }
      a := a + 1;
    }
    placeable := true;
  }

  /** mapping_impl::make_trial_translations. The source reads
      atom_type[best_atom_index] even when there are no atoms; the
      precondition excludes exactly the inputs where that read happens. */
  method MakeTrialTranslations(isInteger: IntegerTest, makeInternal: InternalTranslations,
                               atomCoords: seq<Vec3>, atomType: seq<string>, primLattice: Lattice,
                               siteCoords: seq<Vec3>, primAllowed: seq<seq<string>>,
                               primFactorGroup: seq<SymOp>)
    returns (trial: seq<Vec3>)
    requires |atomCoords| == |atomType| && |siteCoords| == |primAllowed|
    requires |atomType| > 0 || |primAllowed| == 0
    ensures trial == TrialTranslationsSpec(TrialInputs(isInteger, primLattice,
                                                       makeInternal(primFactorGroup, primLattice.tol),
                                                       atomCoords, atomType, siteCoords, primAllowed))
  {
    var internal := makeInternal(primFactorGroup, primLattice.tol);
    var placeable, best := ChooseBestAtom(primAllowed, atomType);
    if !placeable {
      return [];
    }
    if |atomType| == 0 {
      // no atoms and no prim sites: the collecting loop does not run
      return [];
    }
    trial := CollectUniqueTranslations(Scan(isInteger, primLattice, internal, siteCoords, primAllowed,
                                            atomType[best], atomCoords[best]));
  }
}
