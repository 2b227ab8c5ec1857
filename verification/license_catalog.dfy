/** The catalogue of Microsoft license SKUs: for each type, the types it
    directly requires and the types it may not be held together with, and
    the two checks the validator runs against a target's held licenses. */
module LicenseCatalog {

  /** The eight SKUs of `MicrosoftLicenseType`. */
  datatype LicenseType =
    | AadPremiumP2
    | AadPremiumP1
    | O365BusinessPremium
    | O365BusinessEssentials
    | M365BusinessPremium
    | M365BusinessStandard
    | M365E5
    | M365E3

  /** The SKU identifier, as it appears in messages. */
  function Name(t: LicenseType): string {
    match t
    case AadPremiumP2 => "AAD_PREMIUM_P2"
    case AadPremiumP1 => "AAD_PREMIUM_P1"
    case O365BusinessPremium => "O365_BUSINESS_PREMIUM"
    case O365BusinessEssentials => "O365_BUSINESS_ESSENTIALS"
    case M365BusinessPremium => "M365_BUSINESS_PREMIUM"
    case M365BusinessStandard => "M365_BUSINESS_STANDARD"
    case M365E5 => "M365_E5"
    case M365E3 => "M365_E3"
  }

  /** The `licenseDependencies` table: direct prerequisites. */
  function Dependencies(t: LicenseType): seq<LicenseType> {
    match t
    case AadPremiumP2 => [AadPremiumP1]
    case AadPremiumP1 => []
    case O365BusinessPremium => [O365BusinessEssentials]
    case O365BusinessEssentials => []
    case M365BusinessPremium => [M365BusinessStandard]
    case M365BusinessStandard => []
    case M365E5 => [M365E3]
    case M365E3 => []
  }

  /** The `licenseConflicts` table, as authored (not symmetric). */
  function Conflicts(t: LicenseType): seq<LicenseType> {
    match t
    case M365E5 => [M365BusinessPremium, O365BusinessPremium]
    case M365E3 => [M365BusinessPremium, O365BusinessPremium]
    case M365BusinessPremium => [M365E5, M365E3]
    case O365BusinessPremium => [M365E5, M365E3]
    case AadPremiumP2 => [AadPremiumP1]
    case AadPremiumP1 => []
    case M365BusinessStandard => []
    case O365BusinessEssentials => []
  }

  /** `required.every(dep => held.includes(dep))`. */
  function EveryIncluded(required: seq<LicenseType>, held: seq<LicenseType>): (ok: bool)
    ensures ok <==> forall d :: d in required ==> d in held
  {
    if required == [] then true
    else required[0] in held && EveryIncluded(required[1..], held)
  }

  /** `candidates.some(c => held.includes(c))`. */
  function SomeIncluded(candidates: seq<LicenseType>, held: seq<LicenseType>): (found: bool)
    ensures found <==> exists c :: c in candidates && c in held
  {
    if candidates == [] then false
    else candidates[0] in held || SomeIncluded(candidates[1..], held)
  }

  /** `checkDependencies`: every direct prerequisite of `t` is held; nothing
      transitive is consulted. */
  function CheckDependencies(t: LicenseType, held: seq<LicenseType>): (ok: bool)
    ensures ok <==> forall d :: d in Dependencies(t) ==> d in held
  {
    EveryIncluded(Dependencies(t), held)
  }

  /** `checkConflicts`: no type listed as a conflict of `t` is held. Only the
      row of `t` is consulted, not the rows of the held types. */
  function CheckConflicts(t: LicenseType, held: seq<LicenseType>): (ok: bool)
    ensures ok <==> forall c :: c in Conflicts(t) ==> c !in held
  {
    !SomeIncluded(Conflicts(t), held)
  }

  // ------------------------------------------------ facts about the tables

  /** AAD_PREMIUM_P1 is both the prerequisite and a conflict of
      AAD_PREMIUM_P2, so no held list lets AAD_PREMIUM_P2 pass both checks. */
  lemma PremiumP2NeverPasses(held: seq<LicenseType>)
    ensures !(CheckDependencies(AadPremiumP2, held) && CheckConflicts(AadPremiumP2, held))
  {
    assert AadPremiumP1 in Dependencies(AadPremiumP2);
    assert AadPremiumP1 in Conflicts(AadPremiumP2);
  }

  /** The authored conflict relation is symmetric except for the single
      entry AAD_PREMIUM_P2 -> AAD_PREMIUM_P1, which has no reverse. */
  lemma ConflictsSymmetricButOne(a: LicenseType, b: LicenseType)
    ensures b in Conflicts(a) && a !in Conflicts(b) <==> a == AadPremiumP2 && b == AadPremiumP1
  {
  }

  /** The asymmetry is observable: a holder of AAD_PREMIUM_P2 may be granted
      AAD_PREMIUM_P1, while a holder of AAD_PREMIUM_P1 is refused
      AAD_PREMIUM_P2. */
  lemma ConflictCheckIsOneSided()
    ensures CheckConflicts(AadPremiumP1, [AadPremiumP2])
    ensures !CheckConflicts(AadPremiumP2, [AadPremiumP1])
  {
    assert AadPremiumP1 in Conflicts(AadPremiumP2);
  }

  /** No type lists itself as a prerequisite or a conflict. */
  lemma NoSelfReference(t: LicenseType)
    ensures t !in Dependencies(t) && t !in Conflicts(t)
  {
  }

  /** Every prerequisite has no prerequisites of its own. */
  lemma PrerequisitesAreRoots(t: LicenseType, d: LicenseType)
    requires d in Dependencies(t)
    ensures Dependencies(d) == []
  {
  }

  /** Holding more licenses never breaks the dependency check and never
      repairs the conflict check. */
  lemma {:induction false} ChecksAreMonotone(t: LicenseType, held: seq<LicenseType>, more: seq<LicenseType>)
    requires forall x :: x in held ==> x in more
    ensures CheckDependencies(t, held) ==> CheckDependencies(t, more)
    ensures CheckConflicts(t, more) ==> CheckConflicts(t, held)
  {
  }

  /** Both checks see only which types are held: order and duplicates in the
      held list do not matter. */
  lemma ChecksDependOnMembershipOnly(t: LicenseType, h1: seq<LicenseType>, h2: seq<LicenseType>)
    requires forall x :: x in h1 <==> x in h2
    ensures CheckDependencies(t, h1) == CheckDependencies(t, h2)
    ensures CheckConflicts(t, h1) == CheckConflicts(t, h2)
  {
  }

  /** A type without prerequisites passes the dependency check for a target
      that holds nothing. */
  lemma NoPrerequisitesPassOnEmpty(t: LicenseType)
    requires Dependencies(t) == []
    ensures CheckDependencies(t, [])
  {
  }

  // ------------------------------------- direct versus transitive checking

  /** The prerequisites reachable from `t` through chains of at most `n`
      prerequisite links. */
  function Reachable(t: LicenseType, n: nat): set<LicenseType>
    decreases n, 0
  {
    if n == 0 then {} else ReachableFromAll(Dependencies(t), n - 1)
  }

  /** The types in `ds` together with what they reach in at most `n` links. */
  function ReachableFromAll(ds: seq<LicenseType>, n: nat): set<LicenseType>
    decreases n, 1, |ds|
  {
    if ds == [] then {} else {ds[0]} + Reachable(ds[0], n) + ReachableFromAll(ds[1..], n)
  }

  /** A transitive dependency check: every prerequisite reachable in at most
      `n` links is held. */
  predicate CheckDependenciesWithin(t: LicenseType, held: seq<LicenseType>, n: nat) {
    forall d :: d in Reachable(t, n) ==> d in held
  }

  /** For this catalogue every reachable prerequisite is a direct one. */
  lemma {:induction false} ReachableIsDirect(t: LicenseType, n: nat)
    requires n >= 1
    ensures Reachable(t, n) == set d | d in Dependencies(t)
  {
    var ds := Dependencies(t);
    if ds != [] {
      assert ds == [ds[0]];
      PrerequisitesAreRoots(t, ds[0]);
      if n - 1 > 0 {
        assert Reachable(ds[0], n - 1) == ReachableFromAll([], n - 2);
      }
      assert ReachableFromAll(ds[1..], n - 1) == {};
    }
  }

  /** Hence the direct check the source performs agrees with the transitive
      check at every depth. */
  lemma DirectCheckIsTransitive(t: LicenseType, held: seq<LicenseType>, n: nat)
    requires n >= 1
    ensures CheckDependencies(t, held) == CheckDependenciesWithin(t, held, n)
  {
    ReachableIsDirect(t, n);
  }
}
