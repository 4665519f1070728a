/** The site list of the dashboard (`src/pages/dashboard/Dashboard.tsx`):
    loading, the search filter and the confirmed delete. */
module Dashboard {
  import opened Wrappers
  import opened Strings
  import opened Collections

  /** A listed website, as far as the list reads it. */
  datatype Site = Site(id: string, siteName: string, subdomain: string)

  datatype ListState = ListState(loading: bool, sites: seq<Site>)

  /** `loadWebsites`: the list on success; a failure is only logged. */
  function LoadSites(st: ListState, reply: Result<seq<Site>>): (r: ListState)
    ensures !r.loading
    ensures reply.Success? ==> r.sites == reply.value
    ensures reply.Failure? ==> r.sites == st.sites
  {
    match reply
    case Success(sites) => ListState(false, sites)
    case Failure(_) => st.(loading := false)
  }

  /** A loaded list is shown whole while the search box is empty, and a
      failed reload leaves what was shown. */
  lemma LoadThenShowAll(st: ListState, reply: Result<seq<Site>>)
    ensures reply.Success? ==> Search(LoadSites(st, reply).sites, "") == reply.value
    ensures reply.Failure? ==> Search(LoadSites(st, reply).sites, "") == Search(st.sites, "")
  {
    SearchSpec(LoadSites(st, reply).sites, "");
  }

  /** The search test: the lower-cased query occurs in the lower-cased name
      or subdomain. */
  predicate Matches(query: string, site: Site) {
    Contains(Lower(site.siteName), Lower(query)) || Contains(Lower(site.subdomain), Lower(query))
  }

  function MatchesQuery(query: string): Site -> bool {
    (site: Site) => Matches(query, site)
  }

  /** `filteredWebsites`: the matching sites in list order. */
  function Search(sites: seq<Site>, query: string): (r: seq<Site>)
    ensures forall s :: s in r <==> s in sites && Matches(query, s)
  {
    Filter(MatchesQuery(query), sites)
  }

  /** The query occurs somewhere in the text, ignoring case. */
  ghost predicate Found(text: string, query: string) {
    exists i :: OccursAt(Lower(text), Lower(query), i)
  }

  /** The search keeps list order, an empty query keeps everything, and a
      site is kept exactly when the query occurs in its name or subdomain
      (ignoring case). */
  lemma SearchSpec(sites: seq<Site>, query: string)
    ensures Subsequence(Search(sites, query), sites)
    ensures query == "" ==> Search(sites, query) == sites
    ensures forall s :: s in Search(sites, query) <==> s in sites && (Found(s.siteName, query) || Found(s.subdomain, query))
  {
    FilterSubsequence(MatchesQuery(query), sites);
    if query == "" {
      forall i | 0 <= i < |sites| ensures MatchesQuery(query)(sites[i]) {
        assert StartsWith(Lower(sites[i].siteName), Lower(query));
      }
      FilterAll(MatchesQuery(query), sites);
    }
    forall s | s in sites
      ensures Matches(query, s) <==> Found(s.siteName, query) || Found(s.subdomain, query)
    {
      ContainsIffOccurs(Lower(s.siteName), Lower(query));
      ContainsIffOccurs(Lower(s.subdomain), Lower(query));
    }
  }

  /** Lower-casing twice is lower-casing once. */
  lemma LowerIdempotent(s: string)
    ensures Lower(Lower(s)) == Lower(s)
  {
  }

  /** The query's case does not matter. */
  lemma SearchIgnoresQueryCase(sites: seq<Site>, query: string)
    ensures Search(sites, Lower(query)) == Search(sites, query)
  {
    LowerIdempotent(query);
    FilterAgree(MatchesQuery(Lower(query)), MatchesQuery(query), sites);
  }

  function Others(id: string): Site -> bool {
    (site: Site) => site.id != id
  }

  /** The outcome of a delete: the deletion requested (if any) and the list. */
  datatype DeleteEffect = DeleteEffect(call: Option<string>, sites: seq<Site>)

  /** `handleDeleteWebsite`: nothing without confirmation; success drops the
      sites with that id; failure (alerted) keeps the list. */
  function DeleteSite(sites: seq<Site>, id: string, confirmed: bool, delete: string -> Result<()>): (r: DeleteEffect)
    ensures r.call.Some? <==> confirmed
    ensures r.call.Some? ==> r.call.value == id
    ensures !confirmed || delete(id).Failure? ==> r.sites == sites
    ensures confirmed && delete(id).Success? ==> r.sites == Filter(Others(id), sites)
  {
    if !confirmed then DeleteEffect(None, sites)
    else
      match delete(id)
      case Success(_) => DeleteEffect(Some(id), Filter(Others(id), sites))
      case Failure(_) => DeleteEffect(Some(id), sites)
  }

  /** A successful delete removes exactly the sites with that id and keeps
      the others in their order. */
  lemma DeleteRemovesExactly(sites: seq<Site>, id: string, delete: string -> Result<()>)
    requires delete(id).Success?
    ensures var r := DeleteSite(sites, id, true, delete).sites;
      && (forall s :: s in r ==> s.id != id)
      && (forall s :: s in sites && s.id != id ==> s in r)
      && Subsequence(r, sites)
      && |r| == |sites| - |Filter((s: Site) => s.id == id, sites)|
  {
    FilterSubsequence(Others(id), sites);
    FilterSplit(sites, id);
  }

  lemma {:induction false} FilterSplit(sites: seq<Site>, id: string)
    ensures |Filter(Others(id), sites)| + |Filter((s: Site) => s.id == id, sites)| == |sites|
  {
    if sites != [] {
      FilterSplit(sites[1..], id);
    }
  }
}
