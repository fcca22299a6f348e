/**
 * The fixed table of the geographic recategorisation: host locations, spelled
 * exactly, listed under six tiers from Milan outward.
 */
module LocationTable {
  import opened Wrappers
  import opened Frame

  /** The keys of Level 1, Milan (most local). */
  const MILAN_LEVEL: set<string> := {"Milan"}

  /** The keys of Level 2, Lombardy (regional). */
  const LOMBARDY_LEVEL: set<string> := {"Lombardy"}

  /** The keys of Level 3, Northern Italy (macro-regional). */
  const NORTHERN_ITALY_LEVEL: set<string> := {
    "Piedmont",
    "Liguria",
    "Veneto",
    "Friuli-Venezia Giulia",
    "Trentino-Alto Adige",
    "Valle d'Aosta",
    "Aosta Valley",
    "Emilia-Romagna"
  }

  /** The keys of Level 4, Central/Southern Italy. */
  const CENTRAL_SOUTHERN_ITALY_LEVEL: set<string> := {
    "Lazio",
    "Tuscany",
    "Campania",
    "Sicily",
    "Apulia",
    "Calabria",
    "Marche",
    "Sardinia",
    "Abruzzo",
    "Umbria",
    "Basilicata",
    "Unknown_Italy"
  }

  /** The keys of Level 5, Europe (EU and close). */
  const EUROPE_LEVEL: set<string> := {
    "Switzerland",
    "France",
    "Germany",
    "Spain",
    "Austria",
    "Netherlands",
    "Portugal",
    "Denmark",
    "Belgium",
    "Luxembourg",
    "Monaco",
    "Cyprus",
    "Albania",
    "Andorra",
    "Ukraine",
    "Montenegro",
    "San Marino",
    "Malta",
    "Sweden",
    "Ireland",
    "Turkey",
    "Serbia"
  }

  /** The keys of Level 6, Extra-EU (rest of the world). */
  const EXTRA_EU_LEVEL: set<string> := {
    "United States",
    "United Kingdom",
    "Mexico",
    "United Arab Emirates",
    "Australia",
    "Brazil",
    "Indonesia",
    "Colombia",
    "Morocco",
    "Guinea-Bissau",
    "Philippines",
    "South Africa",
    "Russia",
    "Taiwan",
    "New Zealand",
    "Singapore",
    "Thailand",
    "Argentina",
    "Costa Rica",
    "Hong Kong",
    "Guadeloupe",
    "Nepal",
    "Ghana",
    "Egypt",
    "Dominican Republic"
  }

  /** The six tiers, most local first. */
  const CATEGORY_ORDER: seq<string> := [
    "Milan",
    "Lombardy",
    "Northern Italy",
    "Central/Southern Italy",
    "Europe",
    "Extra-EU"
  ]

  /** The locations the hierarchy lists under tier `CATEGORY_ORDER[i]`. */
  function LevelKeys(i: nat): set<string>
    requires i < 6
  {
    if i == 0 then MILAN_LEVEL
    else if i == 1 then LOMBARDY_LEVEL
    else if i == 2 then NORTHERN_ITALY_LEVEL
    else if i == 3 then CENTRAL_SOUTHERN_ITALY_LEVEL
    else if i == 4 then EUROPE_LEVEL
    else EXTRA_EU_LEVEL
  }

  /** The tier of the first level from `i` on that lists `location`, if any. */
  function TierFrom(location: string, i: nat): Option<string>
    requires i <= 6
    decreases 6 - i
  {
    if i == 6 then None
    else if location in LevelKeys(i) then Some(CATEGORY_ORDER[i])
    else TierFrom(location, i + 1)
  }

  /** `LOCATION_HIERARCHY.get(location)`: the tier the table gives a location, `None` when it is not a key. */
  function Hierarchy(location: string): Option<string> {
    TierFrom(location, 0)
  }

  /** No location is listed twice: the six levels are pairwise disjoint, taken from the outermost inward. */
  lemma AbroadNotEuropean(s: string)
    requires s in EXTRA_EU_LEVEL
    ensures s !in EUROPE_LEVEL
  {
  }

  lemma AbroadNotItalian(s: string)
    requires s in EXTRA_EU_LEVEL
    ensures s !in MILAN_LEVEL && s !in LOMBARDY_LEVEL && s !in NORTHERN_ITALY_LEVEL && s !in CENTRAL_SOUTHERN_ITALY_LEVEL
  {
  }

  lemma EuropeanNotItalian(s: string)
    requires s in EUROPE_LEVEL
    ensures s !in MILAN_LEVEL && s !in LOMBARDY_LEVEL && s !in NORTHERN_ITALY_LEVEL && s !in CENTRAL_SOUTHERN_ITALY_LEVEL
  {
  }

  lemma SouthNotNorth(s: string)
    requires s in CENTRAL_SOUTHERN_ITALY_LEVEL
    ensures s !in MILAN_LEVEL && s !in LOMBARDY_LEVEL && s !in NORTHERN_ITALY_LEVEL
  {
  }

  lemma NorthNotLocal(s: string)
    requires s in NORTHERN_ITALY_LEVEL
    ensures s !in MILAN_LEVEL && s !in LOMBARDY_LEVEL
  {
  }

  /** A location listed at level `b` is listed at no earlier level `a`. */
  lemma LevelsDisjoint(s: string, a: nat, b: nat)
    requires a < b < |CATEGORY_ORDER| && s in LevelKeys(b)
    ensures s !in LevelKeys(a)
  {
    if b == 5 {
      AbroadNotEuropean(s);
      AbroadNotItalian(s);
    } else if b == 4 {
      EuropeanNotItalian(s);
    } else if b == 3 {
      SouthNotNorth(s);
    } else if b == 2 {
      NorthNotLocal(s);
    }
  }

  /** A location listed at level `j` resolves to tier `j` from every earlier starting level. */
  lemma {:induction false} TierFromLevel(s: string, i: nat, j: nat)
    requires i <= j < |CATEGORY_ORDER| && s in LevelKeys(j)
    ensures TierFrom(s, i) == Some(CATEGORY_ORDER[j])
    decreases j - i
  {
    if i < j {
      LevelsDisjoint(s, i, j);
      TierFromLevel(s, i + 1, j);
    }
  }

  /** A location that no level from `i` on lists is found at none of them. */
  lemma {:induction false} UnlistedFrom(s: string, i: nat)
    requires i <= 6
    requires forall j :: i <= j < 6 ==> s !in LevelKeys(j)
    ensures TierFrom(s, i) == None
    decreases 6 - i
  {
    if i < 6 {
      UnlistedFrom(s, i + 1);
    }
  }

  /** The hierarchy is exactly its six level lists: a location is a key iff some level lists it, and it maps to that level's tier. */
  lemma HierarchyByLevel(location: string)
    ensures Hierarchy(location).Some? <==> exists j :: 0 <= j < |CATEGORY_ORDER| && location in LevelKeys(j)
    ensures forall j :: 0 <= j < |CATEGORY_ORDER| && location in LevelKeys(j) ==> Hierarchy(location) == Some(CATEGORY_ORDER[j])
  {
    forall j | 0 <= j < |CATEGORY_ORDER| && location in LevelKeys(j) ensures Hierarchy(location) == Some(CATEGORY_ORDER[j]) {
      TierFromLevel(location, 0, j);
    }
    if forall j :: 0 <= j < 6 ==> location !in LevelKeys(j) {
      UnlistedFrom(location, 0);
    }
  }

  /** "Milan" and "Lombardy" are keys naming their own tier. */
  lemma LocalTiersListed()
    ensures Hierarchy("Milan") == Some("Milan")
    ensures Hierarchy("Lombardy") == Some("Lombardy")
  {
    TierFromLevel("Milan", 0, 0);
    TierFromLevel("Lombardy", 0, 1);
  }

  /** Strings spelled as no key: the tier names below the region, "Unknown", and two near misses. */
  const NOT_LISTED: set<string> := {"Northern Italy", "Central/Southern Italy", "Europe", "Extra-EU", "Unknown", "milan", "Atlantis"}

  lemma NotListedInItaly(s: string)
    requires s in NOT_LISTED
    ensures s !in MILAN_LEVEL && s !in LOMBARDY_LEVEL && s !in NORTHERN_ITALY_LEVEL && s !in CENTRAL_SOUTHERN_ITALY_LEVEL
  {
  }

  lemma NotListedInEurope(s: string)
    requires s in NOT_LISTED
    ensures s !in EUROPE_LEVEL
  {
  }

  lemma NotListedAbroad(s: string)
    requires s in NOT_LISTED
    ensures s !in EXTRA_EU_LEVEL
  {
  }

  /** None of `NOT_LISTED` is a key of the hierarchy. */
  lemma NotListedIsNoKey(s: string)
    requires s in NOT_LISTED
    ensures Hierarchy(s) == None
  {
    NotListedInItaly(s);
    NotListedInEurope(s);
    NotListedAbroad(s);
    UnlistedFrom(s, 0);
  }

  /** The tier names below the region, and "Unknown", are not keys of the hierarchy. */
  lemma TierNamesUnlisted()
    ensures Hierarchy("Northern Italy") == None
    ensures Hierarchy("Central/Southern Italy") == None
    ensures Hierarchy("Europe") == None
    ensures Hierarchy("Extra-EU") == None
    ensures Hierarchy("Unknown") == None
  {
    NotListedIsNoKey("Northern Italy");
    NotListedIsNoKey("Central/Southern Italy");
    NotListedIsNoKey("Europe");
    NotListedIsNoKey("Extra-EU");
    NotListedIsNoKey("Unknown");
  }

  /** A tier found from level `i` on is one of the tiers from `i` on. */
  lemma {:induction false} TierFromRange(location: string, i: nat)
    requires i <= 6
    ensures TierFrom(location, i).Some? ==> TierFrom(location, i).value in CATEGORY_ORDER[i..]
    decreases 6 - i
  {
    if i < 6 && location !in LevelKeys(i) {
      TierFromRange(location, i + 1);
      assert CATEGORY_ORDER[i + 1..] == CATEGORY_ORDER[i..][1..];
    }
  }

  /** One key per tier, each resolved to its own tier. */
  lemma TierWitnesses()
    ensures Hierarchy("Piedmont") == Some("Northern Italy")
    ensures Hierarchy("Lazio") == Some("Central/Southern Italy")
    ensures Hierarchy("Switzerland") == Some("Europe")
    ensures Hierarchy("United States") == Some("Extra-EU")
  {
    TierFromLevel("Piedmont", 0, 2);
    TierFromLevel("Lazio", 0, 3);
    TierFromLevel("Switzerland", 0, 4);
    TierFromLevel("United States", 0, 5);
  }

  /** Every value of the hierarchy is a tier, every tier is used, and the tiers are distinct and exclude "Unknown". */
  lemma HierarchyRange()
    ensures forall k :: Hierarchy(k).Some? ==> Hierarchy(k).value in CATEGORY_ORDER
    ensures forall j :: 0 <= j < |CATEGORY_ORDER| ==> exists k :: Hierarchy(k) == Some(CATEGORY_ORDER[j])
    ensures Distinct(CATEGORY_ORDER)
    ensures "Unknown" !in CATEGORY_ORDER
  {
    forall k ensures Hierarchy(k).Some? ==> Hierarchy(k).value in CATEGORY_ORDER {
      TierFromRange(k, 0);
    }
    LocalTiersListed();
    TierWitnesses();
  }
}
