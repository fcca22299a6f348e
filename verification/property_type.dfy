/**
 * The property-type recategorisation: a constant table from the listing's
 * free-text property type to one of six coarse classes. The table is written
 * here as its six groups of keys, one group per class.
 */
module PropertyType {
  import opened Wrappers

  /** The keys mapped to "Apartment/Condo": rental units, condos, lofts and serviced apartments, whole or by the room. */
  const APARTMENT_CONDO: set<string> := {
    "Entire rental unit",
    "Entire condo",
    "Entire condominium",
    "Entire loft",
    "Entire serviced apartment",
    "Private room in rental unit",
    "Private room in condo",
    "Private room in condominium",
    "Private room in loft",
    "Private room in serviced apartment",
    "Private room in apartment",
    "Shared room in rental unit",
    "Shared room in condo",
    "Shared room in condominium",
    "Shared room in loft",
    "Shared room in apartment",
    "Room in aparthotel",
    "Room in serviced apartment",
    "Entire residential home"
  }

  /** The keys mapped to "House": single-family homes, townhouses and villas, whole or by the room. */
  const HOUSE: set<string> := {
    "Entire home",
    "Entire house",
    "Entire vacation home",
    "Entire villa",
    "Entire townhouse",
    "Entire cottage",
    "Entire chalet",
    "Entire bungalow",
    "Entire cabin",
    "Private room in home",
    "Private room in house",
    "Private room in villa",
    "Private room in townhouse",
    "Private room in vacation home",
    "Private room in cottage",
    "Private room in chalet",
    "Private room in bungalow",
    "Private room in cabin",
    "Shared room in home",
    "Shared room in house",
    "Shared room in villa",
    "Shared room in vacation home",
    "Shared room in cottage"
  }

  /** The keys mapped to "Guest/Hotel": guesthouses, hotels, hostels and B&Bs. The last one, "Room in boutique hotel or B&B", sits among the ambiguous entries of the dictionary but maps here. */
  const GUEST_HOTEL: set<string> := {
    "Entire guesthouse",
    "Entire guest suite",
    "Entire bed and breakfast",
    "Private room in bed and breakfast",
    "Private room in guesthouse",
    "Private room in guest suite",
    "Private room in hostel",
    "Private room in casa particular",
    "Private room in minsu",
    "Private room in ryokan",
    "Room in hotel",
    "Room in boutique hotel",
    "Room in bed and breakfast",
    "Room in hostel",
    "Casa particular",
    "Shared room in bed and breakfast",
    "Shared room in hostel",
    "Shared room in hotel",
    "Shared room in guesthouse",
    "Room in boutique hotel or B&B"
  }

  /** The keys mapped to "Unique": boats, campers, caves, castles and other unusual stays. */
  const UNIQUE: set<string> := {
    "Tiny home",
    "Entire tiny home",
    "Private room in tiny home",
    "Camper/RV",
    "Private room in camper/rv",
    "Boat",
    "Houseboat",
    "Yacht",
    "Private room in boat",
    "Shipping container",
    "Treehouse",
    "Private room in treehouse",
    "Cave",
    "Private room in cave",
    "Castle",
    "Private room in castle",
    "Tent",
    "Yurt",
    "Dome",
    "Windmill",
    "Lighthouse",
    "Train",
    "Plane",
    "Tower",
    "Earth house",
    "Cycladic house",
    "Dammuso",
    "Riad",
    "Private room in farm stay",
    "Farm stay",
    "Private room in nature lodge",
    "Nature lodge"
  }

  /** The keys mapped to "Ambiguous": descriptions too vague to place. */
  const AMBIGUOUS: set<string> := {
    "Entire home/apt",
    "Entire place",
    "Private room",
    "Shared room"
  }

  /** The keys mapped to "Other": the explicit fallback entries, including the empty string. */
  const FALLBACK: set<string> := {
    "Other",
    ""
  }

  /** The six classes, in the order the groups are listed. */
  const CLASS_ORDER: seq<string> := ["Apartment/Condo", "House", "Guest/Hotel", "Unique", "Ambiguous", "Other"]

  /** The six classes the table maps onto. */
  const PROPERTY_CLASSES: set<string> := {"Apartment/Condo", "House", "Guest/Hotel", "Unique", "Ambiguous", "Other"}

  /** The property types the table maps to class `CLASS_ORDER[i]`. */
  function GroupKeys(i: nat): set<string>
    requires i < 6
  {
    if i == 0 then APARTMENT_CONDO
    else if i == 1 then HOUSE
    else if i == 2 then GUEST_HOTEL
    else if i == 3 then UNIQUE
    else if i == 4 then AMBIGUOUS
    else FALLBACK
  }

  /** The class of the first group from `i` on that lists `propertyType`, if any. */
  function ClassFrom(propertyType: string, i: nat): Option<string>
    requires i <= 6
    decreases 6 - i
  {
    if i == 6 then None
    else if propertyType in GroupKeys(i) then Some(CLASS_ORDER[i])
    else ClassFrom(propertyType, i + 1)
  }

  /** `property_type_dict.get(propertyType)`: the class of a listed type, `None` when it is not a key. */
  function PropertyTypeClass(propertyType: string): Option<string> {
    ClassFrom(propertyType, 0)
  }

  /** No property type is listed twice: the groups are pairwise disjoint, taken from the last group backwards. */
  lemma FallbackNotEarlier(s: string)
    requires s in FALLBACK
    ensures s !in APARTMENT_CONDO && s !in HOUSE && s !in GUEST_HOTEL && s !in UNIQUE && s !in AMBIGUOUS
  {
  }

  lemma AmbiguousNotEarlier(s: string)
    requires s in AMBIGUOUS
    ensures s !in APARTMENT_CONDO && s !in HOUSE && s !in GUEST_HOTEL && s !in UNIQUE
  {
  }

  lemma UniqueNotApartmentOrHouse(s: string)
    requires s in UNIQUE
    ensures s !in APARTMENT_CONDO && s !in HOUSE
  {
  }

  lemma UniqueNotGuest(s: string)
    requires s in UNIQUE
    ensures s !in GUEST_HOTEL
  {
  }

  lemma GuestNotEarlier(s: string)
    requires s in GUEST_HOTEL
    ensures s !in APARTMENT_CONDO && s !in HOUSE
  {
  }

  lemma HouseNotApartment(s: string)
    requires s in HOUSE
    ensures s !in APARTMENT_CONDO
  {
  }

  /** A type listed in group `b` is listed in no earlier group `a`. */
  lemma GroupsDisjoint(s: string, a: nat, b: nat)
    requires a < b < 6 && s in GroupKeys(b)
    ensures s !in GroupKeys(a)
  {
    if b == 5 {
      FallbackNotEarlier(s);
    } else if b == 4 {
      AmbiguousNotEarlier(s);
    } else if b == 3 {
      UniqueNotApartmentOrHouse(s);
      UniqueNotGuest(s);
    } else if b == 2 {
      GuestNotEarlier(s);
    } else if b == 1 {
      HouseNotApartment(s);
    }
  }

  /** A type listed in group `j` resolves to class `j` from every earlier starting group. */
  lemma {:induction false} ClassFromGroup(s: string, i: nat, j: nat)
    requires i <= j < 6 && s in GroupKeys(j)
    ensures ClassFrom(s, i) == Some(CLASS_ORDER[j])
    decreases j - i
  {
    if i < j {
      GroupsDisjoint(s, i, j);
      ClassFromGroup(s, i + 1, j);
    }
  }

  /** A type that no group from `i` on lists is found in none of them. */
  lemma {:induction false} UngroupedFrom(s: string, i: nat)
    requires i <= 6
    requires forall j :: i <= j < 6 ==> s !in GroupKeys(j)
    ensures ClassFrom(s, i) == None
    decreases 6 - i
  {
    if i < 6 {
      UngroupedFrom(s, i + 1);
    }
  }

  /** The table is exactly its six groups: a type is a key iff some group lists it, and it maps to that group's class. */
  lemma DictByClass(propertyType: string)
    ensures PropertyTypeClass(propertyType).Some? <==> exists j :: 0 <= j < 6 && propertyType in GroupKeys(j)
    ensures forall j :: 0 <= j < 6 && propertyType in GroupKeys(j) ==> PropertyTypeClass(propertyType) == Some(CLASS_ORDER[j])
  {
    forall j | 0 <= j < 6 && propertyType in GroupKeys(j) ensures PropertyTypeClass(propertyType) == Some(CLASS_ORDER[j]) {
      ClassFromGroup(propertyType, 0, j);
    }
    if forall j :: 0 <= j < 6 ==> propertyType !in GroupKeys(j) {
      UngroupedFrom(propertyType, 0);
    }
  }

  /** A class found from group `i` on is one of the classes from `i` on. */
  lemma {:induction false} ClassFromRange(propertyType: string, i: nat)
    requires i <= 6
    ensures ClassFrom(propertyType, i).Some? ==> ClassFrom(propertyType, i).value in CLASS_ORDER[i..]
    decreases 6 - i
  {
    if i < 6 && propertyType !in GroupKeys(i) {
      ClassFromRange(propertyType, i + 1);
      assert CLASS_ORDER[i + 1..] == CLASS_ORDER[i..][1..];
    }
  }

  /** Every value of the table is one of the six classes, and each class is the value of some key. */
  lemma PropertyTypeRange()
    ensures forall k :: PropertyTypeClass(k).Some? ==> PropertyTypeClass(k).value in PROPERTY_CLASSES
    ensures forall c :: c in PROPERTY_CLASSES ==> exists k :: PropertyTypeClass(k) == Some(c)
  {
    forall k ensures PropertyTypeClass(k).Some? ==> PropertyTypeClass(k).value in PROPERTY_CLASSES {
      ClassFromRange(k, 0);
    }
    ClassFromGroup("Entire rental unit", 0, 0);
    ClassFromGroup("Entire home", 0, 1);
    ClassFromGroup("Entire guesthouse", 0, 2);
    ClassFromGroup("Tiny home", 0, 3);
    ClassFromGroup("Entire place", 0, 4);
    ClassFromGroup("Other", 0, 5);
    assert PropertyTypeClass("Entire rental unit") == Some("Apartment/Condo");
    assert PropertyTypeClass("Entire home") == Some("House");
    assert PropertyTypeClass("Entire guesthouse") == Some("Guest/Hotel");
    assert PropertyTypeClass("Tiny home") == Some("Unique");
    assert PropertyTypeClass("Entire place") == Some("Ambiguous");
    assert PropertyTypeClass("Other") == Some("Other");
  }

  /** Both fallback spellings, the empty string and "Other", map to "Other". */
  lemma Fallbacks()
    ensures PropertyTypeClass("") == Some("Other")
    ensures PropertyTypeClass("Other") == Some("Other")
  {
    ClassFromGroup("", 0, 5);
    ClassFromGroup("Other", 0, 5);
  }

  /** The four descriptions without a building type map to "Ambiguous". */
  lemma AmbiguousEntries()
    ensures PropertyTypeClass("Entire home/apt") == Some("Ambiguous")
    ensures PropertyTypeClass("Entire place") == Some("Ambiguous")
    ensures PropertyTypeClass("Private room") == Some("Ambiguous")
    ensures PropertyTypeClass("Shared room") == Some("Ambiguous")
  {
    ClassFromGroup("Entire home/apt", 0, 4);
    ClassFromGroup("Entire place", 0, 4);
    ClassFromGroup("Private room", 0, 4);
    ClassFromGroup("Shared room", 0, 4);
  }

  /** Two entries whose class differs from what their wording or position suggests. */
  lemma NotableEntries()
    ensures PropertyTypeClass("Room in boutique hotel or B&B") == Some("Guest/Hotel")
    ensures PropertyTypeClass("Entire residential home") == Some("Apartment/Condo")
  {
    ClassFromGroup("Room in boutique hotel or B&B", 0, 2);
    ClassFromGroup("Entire residential home", 0, 0);
  }
}
