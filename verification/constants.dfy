/** The option tables of the site wizard (`src/lib/constants.ts`) and the
    grouping of business sectors by category for the sector drop-down. */
module Constants {
  import opened Collections

  /** One business sector: the stored value, its label (`caption`, since
      `label` is a Dafny keyword) and its category. */
  datatype Sector = Sector(value: string, caption: string, category: string)

  // The sector table, written category by category in the table's order.

  const ProfessionalServices: seq<Sector> := [
    Sector("law", "Law Firm / Legal Services", "Professional Services"),
    Sector("accounting", "Accounting / Finance", "Professional Services"),
    Sector("consulting", "Business Consulting", "Professional Services"),
    Sector("marketing-agency", "Marketing Agency", "Professional Services"),
    Sector("design-agency", "Design Agency", "Professional Services")
  ]

  const HealthcareAndWellness: seq<Sector> := [
    Sector("clinic", "Medical Clinic", "Healthcare & Wellness"),
    Sector("dental", "Dental Clinic", "Healthcare & Wellness"),
    Sector("spa", "Spa & Wellness", "Healthcare & Wellness"),
    Sector("yoga", "Yoga Studio", "Healthcare & Wellness"),
    Sector("fitness", "Gym / Fitness Center", "Healthcare & Wellness"),
    Sector("therapy", "Therapy / Counseling", "Healthcare & Wellness")
  ]

  const FoodAndBeverage: seq<Sector> := [
    Sector("restaurant", "Restaurant", "Food & Beverage"),
    Sector("cafe", "Cafe / Coffee Shop", "Food & Beverage"),
    Sector("bakery", "Bakery", "Food & Beverage"),
    Sector("bar", "Bar / Pub", "Food & Beverage"),
    Sector("catering", "Catering Service", "Food & Beverage")
  ]

  const RetailAndEcommerce: seq<Sector> := [
    Sector("fashion", "Fashion / Clothing Store", "Retail & E-commerce"),
    Sector("jewelry", "Jewelry Store", "Retail & E-commerce"),
    Sector("electronics", "Electronics Store", "Retail & E-commerce"),
    Sector("bookstore", "Bookstore", "Retail & E-commerce"),
    Sector("florist", "Florist", "Retail & E-commerce")
  ]

  const BeautyAndPersonalCare: seq<Sector> := [
    Sector("salon", "Hair Salon", "Beauty & Personal Care"),
    Sector("barbershop", "Barbershop", "Beauty & Personal Care"),
    Sector("beauty-salon", "Beauty Salon", "Beauty & Personal Care"),
    Sector("nail-salon", "Nail Salon", "Beauty & Personal Care")
  ]

  const CreativeAndArts: seq<Sector> := [
    Sector("photography", "Photography Studio", "Creative & Arts"),
    Sector("videography", "Videography / Video Production", "Creative & Arts"),
    Sector("music", "Music Studio / School", "Creative & Arts"),
    Sector("gallery", "Art Gallery", "Creative & Arts")
  ]

  const Education: seq<Sector> := [
    Sector("school", "School / Educational Institution", "Education"),
    Sector("tutoring", "Tutoring Services", "Education"),
    Sector("language-school", "Language School", "Education"),
    Sector("online-course", "Online Courses", "Education")
  ]

  const RealEstateAndConstruction: seq<Sector> := [
    Sector("real-estate", "Real Estate Agency", "Real Estate & Construction"),
    Sector("construction", "Construction Company", "Real Estate & Construction"),
    Sector("interior-design", "Interior Design", "Real Estate & Construction"),
    Sector("architecture", "Architecture Firm", "Real Estate & Construction")
  ]

  const TravelAndHospitality: seq<Sector> := [
    Sector("hotel", "Hotel / Resort", "Travel & Hospitality"),
    Sector("travel-agency", "Travel Agency", "Travel & Hospitality"),
    Sector("tour-operator", "Tour Operator", "Travel & Hospitality"),
    Sector("event-venue", "Event Venue", "Travel & Hospitality")
  ]

  const Technology: seq<Sector> := [
    Sector("software", "Software Company / SaaS", "Technology"),
    Sector("it-services", "IT Services", "Technology"),
    Sector("web-development", "Web Development Agency", "Technology"),
    Sector("app-development", "App Development", "Technology")
  ]

  const OtherSectors: seq<Sector> := [
    Sector("general", "General Business", "Other"),
    Sector("non-profit", "Non-Profit Organization", "Other"),
    Sector("personal-blog", "Personal Blog / Portfolio", "Other"),
    Sector("other", "Other", "Other")
  ]

  const BusinessSectors: seq<Sector> :=
    ProfessionalServices + HealthcareAndWellness + FoodAndBeverage + RetailAndEcommerce + BeautyAndPersonalCare + CreativeAndArts + Education + RealEstateAndConstruction + TravelAndHospitality + Technology + OtherSectors

  const WebsiteStyles: seq<string> := ["modern", "minimal", "elegant", "playful", "professional"]

  const TargetAudiences: seq<string> := ["b2b", "b2c", "local", "global", "youth", "families", "seniors", "luxury"]

  const WebsiteFeatures: seq<string> := [
    "booking", "ecommerce", "gallery", "blog", "contact-form", "testimonials",
    "team", "pricing", "faq", "map", "social-feed", "newsletter"
  ]

  const ColorPreferences: seq<string> := ["auto", "blue", "purple", "green", "orange", "red", "pink", "teal", "gray"]

  function Values(s: seq<Sector>): (vs: seq<string>)
    ensures |vs| == |s| && forall i :: 0 <= i < |s| ==> vs[i] == s[i].value
  {
    seq(|s|, i requires 0 <= i < |s| => s[i].value)
  }

  function Categories(s: seq<Sector>): (cs: seq<string>)
    ensures |cs| == |s| && forall i :: 0 <= i < |s| ==> cs[i] == s[i].category
  {
    seq(|s|, i requires 0 <= i < |s| => s[i].category)
  }

  // ---------------------------------------------------------------------------
  // Distinct sector values
  // ---------------------------------------------------------------------------

  lemma ValuesAppend(a: seq<Sector>, b: seq<Sector>)
    ensures Values(a + b) == Values(a) + Values(b)
  {
  }

  lemma NoDupAppend<T>(a: seq<T>, b: seq<T>)
    requires NoDup(a) && NoDup(b) && forall x :: x in b ==> x !in a
    ensures NoDup(a + b)
  {
    forall i, j | 0 <= i < j < |a + b| ensures (a + b)[i] != (a + b)[j] {
      if i < |a| <= j {
        assert (a + b)[j] in b;
      }
    }
  }

  // Each category's values are distinct and new with respect to the
  // categories before it.

  lemma ProfessionalServicesFresh()
    ensures NoDup(Values(ProfessionalServices))
  {
  }

  lemma HealthcareAndWellnessFresh()
    ensures NoDup(Values(HealthcareAndWellness))
    ensures forall v :: v in Values(HealthcareAndWellness) ==> v !in Values(ProfessionalServices)
  {
  }

  lemma FoodAndBeverageFresh()
    ensures NoDup(Values(FoodAndBeverage))
    ensures forall v :: v in Values(FoodAndBeverage) ==> v !in Values(ProfessionalServices + HealthcareAndWellness)
  {
  }

  lemma RetailAndEcommerceFresh()
    ensures NoDup(Values(RetailAndEcommerce))
    ensures forall v :: v in Values(RetailAndEcommerce) ==> v !in Values(ProfessionalServices + HealthcareAndWellness + FoodAndBeverage)
  {
  }

  lemma BeautyAndPersonalCareFresh()
    ensures NoDup(Values(BeautyAndPersonalCare))
    ensures forall v :: v in Values(BeautyAndPersonalCare) ==> v !in Values(ProfessionalServices + HealthcareAndWellness + FoodAndBeverage + RetailAndEcommerce)
  {
  }

  lemma CreativeAndArtsFresh()
    ensures NoDup(Values(CreativeAndArts))
    ensures forall v :: v in Values(CreativeAndArts) ==> v !in Values(ProfessionalServices + HealthcareAndWellness + FoodAndBeverage + RetailAndEcommerce + BeautyAndPersonalCare)
  {
  }

  lemma EducationFresh()
    ensures NoDup(Values(Education))
    ensures forall v :: v in Values(Education) ==> v !in Values(ProfessionalServices + HealthcareAndWellness + FoodAndBeverage + RetailAndEcommerce + BeautyAndPersonalCare + CreativeAndArts)
  {
  }

  lemma RealEstateAndConstructionFresh()
    ensures NoDup(Values(RealEstateAndConstruction))
    ensures forall v :: v in Values(RealEstateAndConstruction) ==> v !in Values(ProfessionalServices + HealthcareAndWellness + FoodAndBeverage + RetailAndEcommerce + BeautyAndPersonalCare + CreativeAndArts + Education)
  {
  }

  lemma TravelAndHospitalityFresh()
    ensures NoDup(Values(TravelAndHospitality))
    ensures forall v :: v in Values(TravelAndHospitality) ==> v !in Values(ProfessionalServices + HealthcareAndWellness + FoodAndBeverage + RetailAndEcommerce + BeautyAndPersonalCare + CreativeAndArts + Education + RealEstateAndConstruction)
  {
  }

  lemma TechnologyFresh()
    ensures NoDup(Values(Technology))
    ensures forall v :: v in Values(Technology) ==> v !in Values(ProfessionalServices + HealthcareAndWellness + FoodAndBeverage + RetailAndEcommerce + BeautyAndPersonalCare + CreativeAndArts + Education + RealEstateAndConstruction + TravelAndHospitality)
  {
  }

  lemma OtherSectorsFresh()
    ensures NoDup(Values(OtherSectors))
    ensures forall v :: v in Values(OtherSectors) ==> v !in Values(ProfessionalServices + HealthcareAndWellness + FoodAndBeverage + RetailAndEcommerce + BeautyAndPersonalCare + CreativeAndArts + Education + RealEstateAndConstruction + TravelAndHospitality + Technology)
  {
  }

  /** The sector values are pairwise distinct (they key the drop-down's options). */
  lemma SectorValuesDistinct()
    ensures NoDup(Values(BusinessSectors))
  {
    ProfessionalServicesFresh();
    HealthcareAndWellnessFresh();
    ValuesAppend(ProfessionalServices, HealthcareAndWellness);
    NoDupAppend(Values(ProfessionalServices), Values(HealthcareAndWellness));
    FoodAndBeverageFresh();
    ValuesAppend(ProfessionalServices + HealthcareAndWellness, FoodAndBeverage);
    NoDupAppend(Values(ProfessionalServices + HealthcareAndWellness), Values(FoodAndBeverage));
    RetailAndEcommerceFresh();
    ValuesAppend(ProfessionalServices + HealthcareAndWellness + FoodAndBeverage, RetailAndEcommerce);
    NoDupAppend(Values(ProfessionalServices + HealthcareAndWellness + FoodAndBeverage), Values(RetailAndEcommerce));
    BeautyAndPersonalCareFresh();
    ValuesAppend(ProfessionalServices + HealthcareAndWellness + FoodAndBeverage + RetailAndEcommerce, BeautyAndPersonalCare);
    NoDupAppend(Values(ProfessionalServices + HealthcareAndWellness + FoodAndBeverage + RetailAndEcommerce), Values(BeautyAndPersonalCare));
    CreativeAndArtsFresh();
    ValuesAppend(ProfessionalServices + HealthcareAndWellness + FoodAndBeverage + RetailAndEcommerce + BeautyAndPersonalCare, CreativeAndArts);
    NoDupAppend(Values(ProfessionalServices + HealthcareAndWellness + FoodAndBeverage + RetailAndEcommerce + BeautyAndPersonalCare), Values(CreativeAndArts));
    EducationFresh();
    ValuesAppend(ProfessionalServices + HealthcareAndWellness + FoodAndBeverage + RetailAndEcommerce + BeautyAndPersonalCare + CreativeAndArts, Education);
    NoDupAppend(Values(ProfessionalServices + HealthcareAndWellness + FoodAndBeverage + RetailAndEcommerce + BeautyAndPersonalCare + CreativeAndArts), Values(Education));
    RealEstateAndConstructionFresh();
    ValuesAppend(ProfessionalServices + HealthcareAndWellness + FoodAndBeverage + RetailAndEcommerce + BeautyAndPersonalCare + CreativeAndArts + Education, RealEstateAndConstruction);
    NoDupAppend(Values(ProfessionalServices + HealthcareAndWellness + FoodAndBeverage + RetailAndEcommerce + BeautyAndPersonalCare + CreativeAndArts + Education), Values(RealEstateAndConstruction));
    TravelAndHospitalityFresh();
    ValuesAppend(ProfessionalServices + HealthcareAndWellness + FoodAndBeverage + RetailAndEcommerce + BeautyAndPersonalCare + CreativeAndArts + Education + RealEstateAndConstruction, TravelAndHospitality);
    NoDupAppend(Values(ProfessionalServices + HealthcareAndWellness + FoodAndBeverage + RetailAndEcommerce + BeautyAndPersonalCare + CreativeAndArts + Education + RealEstateAndConstruction), Values(TravelAndHospitality));
    TechnologyFresh();
    ValuesAppend(ProfessionalServices + HealthcareAndWellness + FoodAndBeverage + RetailAndEcommerce + BeautyAndPersonalCare + CreativeAndArts + Education + RealEstateAndConstruction + TravelAndHospitality, Technology);
    NoDupAppend(Values(ProfessionalServices + HealthcareAndWellness + FoodAndBeverage + RetailAndEcommerce + BeautyAndPersonalCare + CreativeAndArts + Education + RealEstateAndConstruction + TravelAndHospitality), Values(Technology));
    OtherSectorsFresh();
    ValuesAppend(ProfessionalServices + HealthcareAndWellness + FoodAndBeverage + RetailAndEcommerce + BeautyAndPersonalCare + CreativeAndArts + Education + RealEstateAndConstruction + TravelAndHospitality + Technology, OtherSectors);
    NoDupAppend(Values(ProfessionalServices + HealthcareAndWellness + FoodAndBeverage + RetailAndEcommerce + BeautyAndPersonalCare + CreativeAndArts + Education + RealEstateAndConstruction + TravelAndHospitality + Technology), Values(OtherSectors));
  }

  // ---------------------------------------------------------------------------
  // Grouping by category
  // ---------------------------------------------------------------------------

  /** A `Record<string, Sector[]>`: the insertion order of its keys and the groups. */
  datatype Grouping = Grouping(keys: seq<string>, groups: map<string, seq<Sector>>)

  /** `getSectorsByCategory`: one pass over the table, creating a group the
      first time a category is met and appending each sector to its group. */
  function GroupByCategory(s: seq<Sector>): (g: Grouping)
    ensures forall c :: c in g.groups <==> c in g.keys
    decreases |s|
  {
    if s == [] then Grouping([], map[])
    else
      var g := GroupByCategory(s[..|s| - 1]);
      var x := s[|s| - 1];
      if x.category in g.groups then Grouping(g.keys, g.groups[x.category := g.groups[x.category] + [x]])
      else Grouping(g.keys + [x.category], g.groups[x.category := [x]])
  }

  function InCategory(c: string): Sector -> bool {
    (x: Sector) => x.category == c
  }

  /** The group keys are the distinct categories in order of first use, and
      each group is the table's sectors of that category, in table order. */
  lemma {:induction false} GroupBySpec(s: seq<Sector>)
    ensures GroupByCategory(s).keys == Dedup(Categories(s))
    ensures forall c :: c in GroupByCategory(s).groups <==> c in Categories(s)
    ensures forall c :: c in GroupByCategory(s).groups ==> GroupByCategory(s).groups[c] == Filter(InCategory(c), s)
    decreases |s|
  {
    if s != [] {
      var init := s[..|s| - 1];
      var x := s[|s| - 1];
      GroupBySpec(init);
      assert s == init + [x];
      var cs := Categories(s);
      assert cs[..|cs| - 1] == Categories(init);
      DedupMembers(Categories(init));
      var g := GroupByCategory(s);
      forall c | c in g.groups
        ensures g.groups[c] == Filter(InCategory(c), s)
      {
        FilterSnoc(InCategory(c), init, x);
        if c == x.category && c !in Categories(init) {
          NoneInCategory(init, c);
        }
      }
    }
  }

  lemma {:induction false} NoneInCategory(s: seq<Sector>, c: string)
    requires c !in Categories(s)
    ensures Filter(InCategory(c), s) == []
  {
    if s != [] {
      assert Categories(s)[0] == s[0].category;
      assert forall k :: 0 <= k < |s| - 1 ==> Categories(s[1..])[k] == Categories(s)[k + 1];
      NoneInCategory(s[1..], c);
    }
  }

  /** Filtering keeps every kept element as often as it occurs. */
  lemma {:induction false} FilterCount<T(!new)>(p: T -> bool, xs: seq<T>, x: T)
    ensures multiset(Filter(p, xs))[x] == if p(x) then multiset(xs)[x] else 0
  {
    if xs != [] {
      FilterCount(p, xs[1..], x);
      assert xs == [xs[0]] + xs[1..];
    }
  }

  /** Every sector of a table without repeated entries lands exactly once in
      the group of its own category and in no other group; the keys are the
      distinct categories, each once; each group keeps table order. */
  lemma GroupedOnce(s: seq<Sector>)
    requires NoDup(s)
    ensures var g := GroupByCategory(s);
      && NoDup(g.keys)
      && (forall c :: c in g.keys <==> c in Categories(s))
      && (forall i :: 0 <= i < |s| ==>
            s[i].category in g.groups && multiset(g.groups[s[i].category])[s[i]] == 1
            && forall c :: c in g.groups && c != s[i].category ==> s[i] !in g.groups[c])
      && (forall c :: c in g.groups ==> Subsequence(g.groups[c], s))
  {
    GroupBySpec(s);
    DedupNoDup(Categories(s));
    DedupMembers(Categories(s));
    var g := GroupByCategory(s);
    forall i | 0 <= i < |s|
      ensures s[i].category in g.groups && multiset(g.groups[s[i].category])[s[i]] == 1
    {
      assert Categories(s)[i] == s[i].category;
      FilterCount(InCategory(s[i].category), s, s[i]);
      NoDupCount(s, i);
    }
    forall c | c in g.groups ensures Subsequence(g.groups[c], s) {
      FilterSubsequence(InCategory(c), s);
    }
  }

  lemma NoDupCount<T>(s: seq<T>, i: nat)
    requires NoDup(s) && i < |s|
    ensures multiset(s)[s[i]] == 1
  {
    assert s == s[..i] + [s[i]] + s[i + 1..];
    assert s[i] !in s[..i];
    assert s[i] !in s[i + 1..];
  }

  /** Sectors with distinct values are distinct. */
  lemma DistinctValuesDistinctSectors(s: seq<Sector>)
    requires NoDup(Values(s))
    ensures NoDup(s)
  {
    forall i, j | 0 <= i < j < |s| ensures s[i] != s[j] {
      assert Values(s)[i] != Values(s)[j];
    }
  }

  /** The drop-down's grouping of the actual table: every sector once, under
      its own category. */
  lemma SectorTableGrouped()
    ensures var g := GroupByCategory(BusinessSectors);
      && NoDup(g.keys)
      && forall i :: 0 <= i < |BusinessSectors| ==>
           BusinessSectors[i].category in g.groups
           && multiset(g.groups[BusinessSectors[i].category])[BusinessSectors[i]] == 1
  {
    SectorValuesDistinct();
    DistinctValuesDistinctSectors(BusinessSectors);
    GroupedOnce(BusinessSectors);
  }
}
