/**
  Matching a host's software against the cached CVEs: nested loops over the host's CPEs and the cache,
  in whatever order the cache comes, reporting each CVE once.
*/
module ScanEngine {
  import opened Prelude
  import opened Strings
  import opened Cpe
  import opened CpeMatcher
  import opened FindingRepository

  datatype ScanError = NilSnapshot | NoTenant | NoEndpoint

  /** A snapshot, as far as it is scanned: the host's name and the CPEs built from its software. */
  datatype Snapshot = Snapshot(hostname: string, cpes: seq<CPE>)

  /** What a scan runs under: whom it is for, when, and the ID drawn for each CVE's finding if it is new. */
  datatype Context = Context(tenantID: string, endpointID: string, hostname: string, now: int, newID: string -> string)

  /** A match: the host CPE, and the criterion it satisfies. */
  datatype Hit = Hit(host: CPE, criterion: string)

  type Cache = map<string, CachedCVE>

  /** The first criterion that the host CPE satisfies; an unnamed criterion is reported as the CPE itself. */
  function FirstCriterion(host: CPE, matches: seq<CpeMatch>): (r: Option<string>)
    ensures r.Some? <==> exists m :: m in matches && MatchesCPE(host, m)
  {
    if matches == [] then None
    else if MatchesCPE(host, matches[0]) then
      assert matches[0] in matches;
      Some(if matches[0].criteria == "" then Print(host) else matches[0].criteria)
    else FirstCriterion(host, matches[1..])
  }

  /** The first host CPE that satisfies some criterion of the CVE. */
  function FirstHit(cpes: seq<CPE>, cve: CachedCVE): Option<Hit> {
    if cpes == [] then None
    else
      var before, host := FirstHit(cpes[..|cpes| - 1], cve), cpes[|cpes| - 1];
      if before.Some? then before
      else match FirstCriterion(host, cve.cpeMatches)
           case Some(criterion) => Some(Hit(host, criterion))
           case None => None
  }

  /** What a scan should find: the hits of every cached CVE that has an ID. */
  function HitsOf(cache: Cache, cpes: seq<CPE>): map<string, Hit> {
    map id | id in cache && id != "" && FirstHit(cpes, cache[id]).Some? :: FirstHit(cpes, cache[id]).value
  }

  function Remediation(host: CPE, isKEV: bool): string {
    var advice := "Upgrade " + host.rawApp + " to the latest patched version or install vendor security update.";
    if isKEV then "CRITICAL CISA KEV ACTION REQUIRED: " + advice else advice
  }

  /** The report on a hit. A known exploited vulnerability is critical whatever its score. */
  function Report(ctx: Context, cve: CachedCVE, hit: Hit, kev: Option<KEVItem>): Record {
    Record("", ctx.tenantID, ctx.endpointID, ctx.hostname, Upper(cve.cveID), cve.title,
           Posture(if kev.Some? then "CRITICAL" else cve.severity, cve.cvssScore, kev.Some?,
                   if kev.Some? then kev.value.ransomwareUse else "", Remediation(hit.host, kev.Some?),
                   hit.host.rawApp, hit.criterion),
           "OPEN", 0, 0)
  }

  function Known(kevs: map<string, KEVItem>, id: string): Option<KEVItem> {
    if id in kevs then Some(kevs[id]) else None
  }

  function Prefix(ctx: Context): string {
    ctx.tenantID + ":" + ctx.endpointID + ":"
  }

  function Key(ctx: Context, id: string): (key: string)
    ensures Prefix(ctx) <= key && key[|Prefix(ctx)|..] == id
  {
    DedupKey(ctx.tenantID, ctx.endpointID, id)
  }

  /** The CVE whose finding this scan keeps under the given key, if it is one of those hit. */
  function HitAt(ctx: Context, hits: map<string, Hit>, key: string): (id: Option<string>)
    ensures id.Some? ==> id.value in hits && Key(ctx, id.value) == key
    ensures id.None? ==> forall x | x in hits :: Key(ctx, x) != key
  {
    if Prefix(ctx) <= key && key[|Prefix(ctx)|..] in hits then
      assert Prefix(ctx) + key[|Prefix(ctx)|..] == key;
      Some(key[|Prefix(ctx)|..])
    else None
  }

  /** What a scan works with: the findings before it, the caches, and its context. */
  datatype World = World(before: Store, cache: Cache, kevs: map<string, KEVItem>, ctx: Context)

  /** What becomes of a finding: one that was there keeps its ID and first sighting, a new one starts now. */
  function Outcome(w: World, id: string, hit: Hit): Record
    requires id in w.cache
  {
    var report := Report(w.ctx, w.cache[id], hit, Known(w.kevs, id));
    if Key(w.ctx, id) in w.before then Refreshed(w.before[Key(w.ctx, id)], report, w.ctx.now)
    else Inserted(report, w.ctx.newID(id), w.ctx.now)
  }

  /** The store after the given hits were reported: their findings, and everything else as it was. */
  function Scanned(w: World, hits: map<string, Hit>): Store
    requires hits.Keys <= w.cache.Keys
  {
    map key | key in w.before.Keys + (set id | id in hits :: Key(w.ctx, id)) ::
      match HitAt(w.ctx, hits, key)
      case Some(id) => Outcome(w, id, hits[id])
      case None => w.before[key]
  }

  lemma ScannedAt(w: World, hits: map<string, Hit>, key: string)
    requires hits.Keys <= w.cache.Keys
    ensures key in Scanned(w, hits) <==> key in w.before || HitAt(w.ctx, hits, key).Some?
    ensures HitAt(w.ctx, hits, key).Some? ==>
              Scanned(w, hits)[key] == Outcome(w, HitAt(w.ctx, hits, key).value, hits[HitAt(w.ctx, hits, key).value])
    ensures HitAt(w.ctx, hits, key).None? && key in w.before ==> Scanned(w, hits)[key] == w.before[key]
  {
    hide Outcome, Key;
  }

  lemma HitAtOneMore(ctx: Context, hits: map<string, Hit>, id: string, hit: Hit, key: string)
    requires id !in hits
    ensures HitAt(ctx, hits[id := hit], key) == if key == Key(ctx, id) then Some(id) else HitAt(ctx, hits, key)
    ensures HitAt(ctx, hits, Key(ctx, id)) == None
  {
    hide Key;
    assert id in hits[id := hit];
  }

  /** Reporting one more hit changes the store at its key only. */
  lemma ScannedOneMore(w: World, hits: map<string, Hit>, id: string, hit: Hit)
    requires hits.Keys <= w.cache.Keys && id in w.cache && id !in hits
    ensures Scanned(w, hits[id := hit]) == Scanned(w, hits)[Key(w.ctx, id) := Outcome(w, id, hit)]
    ensures Key(w.ctx, id) in Scanned(w, hits) <==> Key(w.ctx, id) in w.before
    ensures Key(w.ctx, id) in w.before ==> Scanned(w, hits)[Key(w.ctx, id)] == w.before[Key(w.ctx, id)]
  {
    hide Outcome, Key, Scanned, HitAt;
    var more := Scanned(w, hits[id := hit]);
    var set1 := Scanned(w, hits)[Key(w.ctx, id) := Outcome(w, id, hit)];
    HitAtOneMore(w.ctx, hits, id, hit, Key(w.ctx, id));
    ScannedAt(w, hits, Key(w.ctx, id));
    forall key ensures key in more <==> key in set1
               ensures key in more ==> more[key] == set1[key] {
      HitAtOneMore(w.ctx, hits, id, hit, key);
      ScannedAt(w, hits, key);
      ScannedAt(w, hits[id := hit], key);
    }
    assert more.Keys == set1.Keys;
  }

  lemma CanonicalIsUpper(id: string)
    requires CanonicalID(id) == id
    ensures Upper(id) == id
  {
    UpperTwice(TrimSpace(id));
  }

  /** The hits while one host CPE is matched: the CVEs done so far have seen it, the others only the ones before. */
  function HitsSoFar(cache: Cache, before: seq<CPE>, host: CPE, done: set<string>): map<string, Hit> {
    map id | id in cache && id != "" && FirstHit(SeenBy(before, host, done, id), cache[id]).Some? ::
      FirstHit(SeenBy(before, host, done, id), cache[id]).value
  }

  function SeenBy(before: seq<CPE>, host: CPE, done: set<string>, id: string): seq<CPE> {
    if id in done then before + [host] else before
  }

  lemma HitWithOneMore(before: seq<CPE>, host: CPE, cve: CachedCVE)
    ensures FirstHit(before + [host], cve)
         == if FirstHit(before, cve).Some? then FirstHit(before, cve)
            else match FirstCriterion(host, cve.cpeMatches)
                 case Some(criterion) => Some(Hit(host, criterion))
                 case None => None
  {
    assert (before + [host])[..|before|] == before;
  }

  lemma HitsStartAndEnd(cache: Cache, before: seq<CPE>, host: CPE, done: set<string>)
    ensures HitsSoFar(cache, before, host, {}) == HitsOf(cache, before)
    ensures done == cache.Keys ==> HitsSoFar(cache, before, host, done) == HitsOf(cache, before + [host])
  {
    hide FirstHit;
  }

  lemma HitsStep(cache: Cache, before: seq<CPE>, host: CPE, done: set<string>, id: string)
    requires id in cache && id !in done
    ensures HitsSoFar(cache, before, host, done + {id})
         == if id == "" || id in HitsSoFar(cache, before, host, done) || FirstCriterion(host, cache[id].cpeMatches).None?
            then HitsSoFar(cache, before, host, done)
            else HitsSoFar(cache, before, host, done)[id := Hit(host, FirstCriterion(host, cache[id].cpeMatches).value)]
  {
    hide FirstHit, FirstCriterion;
    HitWithOneMore(before, host, cache[id]);
  }

  /** No criterion is reported under an empty name. */
  lemma {:induction false} CriterionIsNamed(host: CPE, matches: seq<CpeMatch>)
    ensures FirstCriterion(host, matches).Some? ==> FirstCriterion(host, matches).value != ""
  {
    hide MatchesCPE, Fields;
    if matches != [] {
      CriterionIsNamed(host, matches[1..]);
      assert Print(host)[0] == 'c';
    }
  }

  // ----- The scan as it runs ------------------------------------------------------------------------

  /** The findings listed are those of the CVEs hit, each once, in the order given. */
  ghost predicate Lists(found: seq<Finding>, findings: map<string, Finding>, ctx: Context, hits: map<string, Hit>, order: seq<string>) {
    && |found| == |order|
    && (forall i | 0 <= i < |found| :: Key(ctx, order[i]) in findings && found[i] == findings[Key(ctx, order[i])])
    && (forall i, j | 0 <= i < j < |order| :: order[i] != order[j])
    && (forall id :: id in order <==> id in hits)
  }

  lemma ListsOneMore(found: seq<Finding>, findings: map<string, Finding>, ctx: Context, hits: map<string, Hit>, order: seq<string>,
                     id: string, hit: Hit, f: Finding)
    requires Lists(found, findings, ctx, hits, order) && id !in hits
    requires Key(ctx, id) in findings ==> findings[Key(ctx, id)] == f
    ensures Lists(found + [f], findings[Key(ctx, id) := f], ctx, hits[id := hit], order + [id])
  {
    hide Key;
  }

  /** The IDs in use are those from before and those drawn for the hits; each draw is unused and for one CVE only. */
  ghost predicate FreshDraws(w: World, ids: set<string>, hits: map<string, Hit>, used: set<string>) {
    && used <= ids + (set id | id in hits :: w.ctx.newID(id))
    && (forall id | id in w.cache :: w.ctx.newID(id) !in ids)
    && (forall a, b | a in w.cache && b in w.cache && w.ctx.newID(a) == w.ctx.newID(b) :: a == b)
  }

  lemma NextDraw(w: World, ids: set<string>, hits: map<string, Hit>, used: set<string>, id: string, hit: Hit)
    requires FreshDraws(w, ids, hits, used) && hits.Keys <= w.cache.Keys && id in w.cache && id !in hits
    ensures w.ctx.newID(id) !in used
    ensures FreshDraws(w, ids, hits[id := hit], used) && FreshDraws(w, ids, hits[id := hit], used + {w.ctx.newID(id)})
  {
    var more := hits[id := hit];
    assert forall x | x in hits :: x in more;
    assert id in more;
    assert (set x | x in hits :: w.ctx.newID(x)) <= (set x | x in more :: w.ctx.newID(x));
  }

  ghost predicate Enumerates(cves: seq<CachedCVE>, cache: Cache) {
    && (forall i | 0 <= i < |cves| :: cves[i].cveID in cache && cache[cves[i].cveID] == cves[i])
    && (forall k | k in cache :: cache[k].cveID == k && cache[k] in cves)
    && (forall i, j | 0 <= i < j < |cves| :: cves[i].cveID != cves[j].cveID)
  }

  /** Without a host name, the snapshot's own is used. */
  function Named(ctx: Context, snapshot: Snapshot): Context {
    if ctx.hostname == "" then ctx.(hostname := snapshot.hostname) else ctx
  }

  lemma ScanStart(w: World, ids: set<string>, ctx: Context)
    requires FreshDraws(w.(ctx := ctx), ids, map[], ids) && w.ctx.newID == ctx.newID
    ensures HitsOf(w.cache, []) == map[] && Scanned(w, map[]) == w.before && FreshDraws(w, ids, map[], ids)
  {
    hide Key;
    forall key ensures key in Scanned(w, map[]) <==> key in w.before
               ensures key in w.before ==> Scanned(w, map[])[key] == w.before[key] {
      ScannedAt(w, map[], key);
    }
  }

  lemma ListsStart(findings: map<string, Finding>, ctx: Context)
    ensures Lists([], findings, ctx, map[], [])
  {
  }

  class ScanEngine {
    const repo: MemoryFindingRepository

    constructor (repo: MemoryFindingRepository)
      ensures this.repo == repo
    {
      this.repo := repo;
    }

    /** The given hits, and no others, have been reported. */
    ghost predicate Underway(w: World, ids: set<string>, hits: map<string, Hit>, found: seq<Finding>, order: seq<string>)
      reads repo, repo.findings.Values
    {
      && repo.Valid() && repo.cveCache == w.cache && repo.kevCache == w.kevs
      && hits.Keys <= w.cache.Keys
      && repo.Contents() == Scanned(w, hits)
      && FreshDraws(w, ids, hits, repo.byID.Keys)
      && Lists(found, repo.findings, w.ctx, hits, order)
    }

    /** Goes through the criteria of a CVE; the empty string stands for no match. */
    method MatchedCriterion(host: CPE, cve: CachedCVE) returns (matched: string)
      ensures FirstCriterion(host, cve.cpeMatches) == if matched == "" then None else Some(matched)
    {
      hide MatchesCPE, Print;
      CriterionIsNamed(host, cve.cpeMatches);
      matched := "";
      assert cve.cpeMatches[0..] == cve.cpeMatches;
      for i := 0 to |cve.cpeMatches|
        invariant FirstCriterion(host, cve.cpeMatches) == FirstCriterion(host, cve.cpeMatches[i..])
      {
        var m := cve.cpeMatches[i];
        if MatchesCPE(host, m) {
          matched := m.criteria;
          if matched == "" {
            matched := Print(host);
          }
          return;
        }
      }
    }

    /** Matches one host CPE against the cached CVEs that no earlier one hit. */
    method ScanHost(ctx: Context, host: CPE, cves: seq<CachedCVE>, seenBefore: set<string>, foundBefore: seq<Finding>,
                    ghost w: World, ghost ids: set<string>, ghost before: seq<CPE>, ghost orderBefore: seq<string>)
      returns (seen: set<string>, found: seq<Finding>, ghost order: seq<string>)
      requires Underway(w, ids, HitsOf(w.cache, before), foundBefore, orderBefore) && seenBefore == HitsOf(w.cache, before).Keys
      requires ctx == w.ctx && ctx.tenantID != "" && ctx.endpointID != ""
      requires Enumerates(cves, w.cache)
      modifies repo`findings, repo`byID, repo.findings.Values
      ensures Underway(w, ids, HitsOf(w.cache, before + [host]), found, order) && seen == HitsOf(w.cache, before + [host]).Keys
      ensures fresh(repo.findings.Values - old(repo.findings.Values))
    {
      hide Key, Scanned, CanonicalID, Bijection, Lists, FreshDraws, HitsOf, HitsSoFar, FirstCriterion;
      seen, found, order := seenBefore, foundBefore, orderBefore;
      ghost var done: set<string> := {};
      HitsStartAndEnd(w.cache, before, host, done);
      for i := 0 to |cves|
        invariant done == set j | 0 <= j < i :: cves[j].cveID
        invariant Underway(w, ids, HitsSoFar(w.cache, before, host, done), found, order)
        invariant seen == HitsSoFar(w.cache, before, host, done).Keys
        invariant fresh(repo.findings.Values - old(repo.findings.Values))
      {
        var cve := cves[i];
        ghost var hits := HitsSoFar(w.cache, before, host, done);
        HitsStep(w.cache, before, host, done, cve.cveID);
        done := done + {cve.cveID};
        if cve.cveID != "" {
          CanonicalIsUpper(cve.cveID);
          if Upper(cve.cveID) !in seen {
            var matched := MatchedCriterion(host, cve);
            if matched != "" {
              seen := seen + {Upper(cve.cveID)};
              found := ReportHit(ctx, cve, Hit(host, matched), w, ids, hits, found, order);
              order := order + [cve.cveID];
            }
          }
        }
      }
      assert done == w.cache.Keys;
      HitsStartAndEnd(w.cache, before, host, done);
    }

    /**
      Scans a host. Whatever order the cache comes in, the findings reported are those of the CVEs that
      some host CPE matches, each once, and the store changes by exactly them.
    */
    method ScanSnapshot(ctx: Context, snapshot: Option<Snapshot>) returns (r: Result<seq<Finding>, ScanError>, ghost order: seq<string>)
      requires repo.Valid()
      requires FreshDraws(World(repo.Contents(), repo.cveCache, repo.kevCache, ctx), repo.byID.Keys, map[], repo.byID.Keys)
      modifies repo`findings, repo`byID, repo.findings.Values
      ensures repo.Valid()
      ensures r.Err? ==> repo.findings == old(repo.findings) && repo.byID == old(repo.byID) && repo.Contents() == old(repo.Contents())
      ensures r.Err? <==> snapshot.None? || ctx.tenantID == "" || ctx.endpointID == ""
      ensures r.Err? ==> r.error == if snapshot.None? then NilSnapshot else if ctx.tenantID == "" then NoTenant else NoEndpoint
      ensures r.Ok? ==>
                var named := ctx.(hostname := if ctx.hostname != "" then ctx.hostname else snapshot.value.hostname);
                var hits := HitsOf(repo.cveCache, snapshot.value.cpes);
                && repo.Contents() == Scanned(World(old(repo.Contents()), repo.cveCache, repo.kevCache, named), hits)
                && Lists(r.value, repo.findings, named, hits, order)
    {
      hide Key, Scanned, CanonicalID, Bijection, Lists, FreshDraws, HitsOf;
      order := [];
      if snapshot.None? {
        return Err(NilSnapshot), [];
      }
      if ctx.tenantID == "" {
        return Err(NoTenant), [];
      }
      if ctx.endpointID == "" {
        return Err(NoEndpoint), [];
      }
      var named := Named(ctx, snapshot.value);
      var hostCPEs := snapshot.value.cpes;
      ghost var w := World(repo.Contents(), repo.cveCache, repo.kevCache, named);
      ghost var ids := repo.byID.Keys;
      ScanStart(w, ids, ctx);
      ListsStart(repo.findings, named);
      if hostCPEs == [] {
        return Ok([]), [];
      }
      var cves := repo.GetCachedCVEs();
      var seen: set<string>, found: seq<Finding> := {}, [];
      for h := 0 to |hostCPEs|
        invariant Underway(w, ids, HitsOf(w.cache, hostCPEs[..h]), found, order)
        invariant seen == HitsOf(w.cache, hostCPEs[..h]).Keys
        invariant fresh(repo.findings.Values - old(repo.findings.Values))
      {
        seen, found, order := ScanHost(named, hostCPEs[h], cves, seen, found, w, ids, hostCPEs[..h], order);
        assert hostCPEs[..h + 1] == hostCPEs[..h] + [hostCPEs[h]];
      }
      assert hostCPEs[..|hostCPEs|] == hostCPEs;
      return Ok(found), order;
    }

    /** Reports one more hit: looks the CVE up in the KEV catalog, and upserts its finding. */
    method ReportHit(ctx: Context, cve: CachedCVE, hit: Hit, ghost w: World, ghost ids: set<string>, ghost hits: map<string, Hit>,
                     found: seq<Finding>, ghost order: seq<string>)
      returns (more: seq<Finding>)
      requires Underway(w, ids, hits, found, order) && ctx == w.ctx && ctx.tenantID != "" && ctx.endpointID != ""
      requires cve.cveID != "" && cve.cveID in w.cache && w.cache[cve.cveID] == cve && cve.cveID !in hits
      modifies repo`findings, repo`byID, repo.findings.Values
      ensures Underway(w, ids, hits[cve.cveID := hit], more, order + [cve.cveID])
      ensures fresh(repo.findings.Values - old(repo.findings.Values))
    {
      hide Key, Outcome, Scanned, CanonicalID, Bijection, Lists, FreshDraws, Upserted, Report, Inserted, KeyOf,
        DedupKey, Upper, HitsOf, HitAt, Remediation, FirstHit;
      ghost var id := cve.cveID;
      NextDraw(w, ids, hits, repo.byID.Keys, id, hit);
      var kev := repo.GetKEVItem(Upper(cve.cveID));
      var report := Report(ctx, cve, hit, kev);
      ReportBecomes(w, hits, id, hit, report);
      ghost var findings, byID := repo.findings, repo.byID;
      var saved := repo.UpsertFinding(Some(report), ctx.newID(cve.cveID), ctx.now);
      assert saved.Ok?;
      ListsOneMore(found, findings, ctx, hits, order, id, hit, saved.value.0);
      more := found + [saved.value.0];
      assert FreshDraws(w, ids, hits[id := hit], repo.byID.Keys) by {
        assert repo.byID.Keys == byID.Keys || repo.byID.Keys == byID.Keys + {ctx.newID(id)};
      }
      assert repo.Contents() == Scanned(w, hits[id := hit]);
    }

    /** Upserting the report on a hit has the outcome the specification gives it. */
    lemma ReportBecomes(w: World, hits: map<string, Hit>, id: string, hit: Hit, report: Record)
      requires id in w.cache && w.cache[id].cveID == id && CanonicalID(id) == id && id != ""
      requires hits.Keys <= w.cache.Keys && id !in hits
      requires report == Report(w.ctx, w.cache[id], hit, Known(w.kevs, CanonicalID(Upper(id))))
      ensures Inserted(report, w.ctx.newID(id), w.ctx.now).id == w.ctx.newID(id)
      ensures KeyOf(Inserted(report, w.ctx.newID(id), w.ctx.now)) == Key(w.ctx, id)
      ensures report.cveID != "" && report.tenantID == w.ctx.tenantID && report.endpointID == w.ctx.endpointID
      ensures Upserted(Scanned(w, hits), report, w.ctx.newID(id), w.ctx.now) == Scanned(w, hits[id := hit])
    {
      hide Scanned, CanonicalID;
      CanonicalIsUpper(id);
      ScannedOneMore(w, hits, id, hit);
    }
  }
}
