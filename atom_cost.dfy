/** The default atom-mapping cost, make_atom_mapping_cost: the cost of
    putting one atom on one site, given the site-to-atom displacement. */
module AtomCost {
  import opened Geometry

  /** xtal::is_vacancy, whose definition is not part of this model. */
  type VacancyTest = string -> bool

  /** The signature of AtomMappingCostFunction:
      (displacement, atom type, types allowed on the site, infinity) -> cost. */
  type CostFunction = (Vec3, string, seq<string>, real) -> real

  /** Whether some type allowed on the site is a vacancy: the search over
      allowed_atom_types that returns early at the first vacancy. */
  function HasVacancy(isVacancy: VacancyTest, allowed: seq<string>): (b: bool)
    ensures b <==> exists k :: 0 <= k < |allowed| && isVacancy(allowed[k])
  {
    if allowed == [] then false
    else isVacancy(allowed[0]) || HasVacancy(isVacancy, allowed[1..])
  }

  /** Whether a site with the given allowed types may hold an atom of type t:
      a vacancy needs a vacancy among the allowed types, any other type must
      itself be listed. */
  predicate Permits(isVacancy: VacancyTest, allowed: seq<string>, t: string) {
    if isVacancy(t) then exists k :: 0 <= k < |allowed| && isVacancy(allowed[k])
    else t in allowed
  }

  /** make_atom_mapping_cost */
  function MakeAtomMappingCost(isVacancy: VacancyTest, displacement: Vec3, atomType: string,
                               allowed: seq<string>, infinity: real): (cost: real)
    ensures isVacancy(atomType) && (exists k :: 0 <= k < |allowed| && isVacancy(allowed[k]))
            ==> cost == 0.0
    ensures isVacancy(atomType) && (forall k :: 0 <= k < |allowed| ==> !isVacancy(allowed[k]))
            ==> cost == infinity
    ensures !isVacancy(atomType) && atomType !in allowed ==> cost == infinity
    ensures !isVacancy(atomType) && atomType in allowed ==> cost == Dot(displacement, displacement)
  {
    if isVacancy(atomType) then
      if HasVacancy(isVacancy, allowed) then 0.0 else infinity
    else if atomType !in allowed then infinity
    else Dot(displacement, displacement)
  }

  /** make_atom_mapping_cost as a value of type CostFunction, the default
      cost of AtomMappingSearchData. */
  function DefaultCost(isVacancy: VacancyTest): CostFunction {
    (d: Vec3, t: string, allowed: seq<string>, infinity: real) =>
      MakeAtomMappingCost(isVacancy, d, t, allowed, infinity)
  }

  /** The cost separates feasible from infeasible pairs: an atom the site does
      not permit costs exactly infinity; a permitted vacancy costs 0 and a
      permitted real atom its squared displacement, which is never negative. */
  lemma CostMatchesPermits(isVacancy: VacancyTest, d: Vec3, t: string, allowed: seq<string>, infinity: real)
    ensures !Permits(isVacancy, allowed, t) ==> MakeAtomMappingCost(isVacancy, d, t, allowed, infinity) == infinity
    ensures Permits(isVacancy, allowed, t) ==>
              MakeAtomMappingCost(isVacancy, d, t, allowed, infinity) ==
                (if isVacancy(t) then 0.0 else Dot(d, d))
    ensures Permits(isVacancy, allowed, t) ==> MakeAtomMappingCost(isVacancy, d, t, allowed, infinity) >= 0.0
  {
    DotSelfNonnegative(d);
  }

  /** The cost has exactly three possible values, and is never negative when
      infinity is not. */
  lemma CostOutcomes(isVacancy: VacancyTest, d: Vec3, t: string, allowed: seq<string>, infinity: real)
    ensures MakeAtomMappingCost(isVacancy, d, t, allowed, infinity) in {0.0, infinity, Dot(d, d)}
    ensures infinity >= 0.0 ==> MakeAtomMappingCost(isVacancy, d, t, allowed, infinity) >= 0.0
  {
    DotSelfNonnegative(d);
  }

  /** The cost of a vacancy does not depend on the displacement. */
  lemma VacancyCostIgnoresDisplacement(isVacancy: VacancyTest, d1: Vec3, d2: Vec3, t: string,
                                       allowed: seq<string>, infinity: real)
    requires isVacancy(t)
    ensures MakeAtomMappingCost(isVacancy, d1, t, allowed, infinity)
         == MakeAtomMappingCost(isVacancy, d2, t, allowed, infinity)
  {
  }
}
