/**
  The in-memory store of vulnerability findings: two indexes over the same records, one by the key that
  deduplicates them and one by ID, and the caches of CVEs and known exploited vulnerabilities.
*/
module FindingRepository {
  import opened Prelude
  import opened Strings
  import opened CpeMatcher

  datatype CachedCVE = CachedCVE(cveID: string, title: string, severity: string, cvssScore: real, cpeMatches: seq<CpeMatch>)

  datatype KEVItem = KEVItem(ransomwareUse: string)

  datatype UpsertError = NilFinding | MissingTenant | MissingEndpoint | MissingCVE

  /** The part of a finding that every scan assesses anew. */
  datatype Posture = Posture(severity: string, cvssScore: real, isKEV: bool, ransomwareUse: string, remediation: string,
                             affectedComponent: string, cpeMatched: string)

  /** A finding as a value. */
  datatype Record = Record(id: string, tenantID: string, endpointID: string, hostname: string, cveID: string, title: string,
                           posture: Posture, status: string, firstSeen: int, lastSeen: int)

  /** Every item is cached under its trimmed upper-case ID; of several with the same, any one is. */
  ghost predicate IsCatalog(cache: map<string, KEVItem>, items: map<string, KEVItem>) {
    && (forall k | k in items :: CanonicalID(k) in cache)
    && (forall id | id in cache :: exists k :: k in items && CanonicalID(k) == id && cache[id] == items[k])
  }

  /** A saved catalog knows a CVE exactly when it lists it, however it is written, and finds the one item listed. */
  lemma CatalogFinds(cache: map<string, KEVItem>, items: map<string, KEVItem>, cveID: string)
    requires IsCatalog(cache, items)
    ensures CanonicalID(cveID) in cache <==> exists k :: k in items && CanonicalID(k) == CanonicalID(cveID)
    ensures forall k | k in items && CanonicalID(k) == CanonicalID(cveID)
                       && (forall other | other in items && CanonicalID(other) == CanonicalID(cveID) :: other == k) ::
              cache[CanonicalID(cveID)] == items[k]
  {
    hide CanonicalID;
  }

  /** The findings by deduplication key. */
  type Store = map<string, Record>

  function CanonicalID(cveID: string): string {
    Upper(TrimSpace(cveID))
  }

  lemma CanonicalTwice(cveID: string)
    ensures CanonicalID(CanonicalID(cveID)) == CanonicalID(cveID)
  {
    hide Trim, Upper;
    var t := TrimSpace(cveID);
    var k, l := TrimIs(cveID, IsSpace);
    if t != "" {
      assert Upper(t)[0] == UpperChar(t[0]) && Upper(t)[|t| - 1] == UpperChar(t[|t| - 1]);
    }
    TrimKeeps(Upper(t), IsSpace);
    UpperTwice(t);
  }

  /** The cache after saving: a later CVE replaces an earlier one of the same ID; those without an ID are dropped. */
  function Cached(cache: map<string, CachedCVE>, cves: seq<Option<CachedCVE>>): map<string, CachedCVE> {
    if cves == [] then cache
    else
      var rest := Cached(cache, cves[..|cves| - 1]);
      match cves[|cves| - 1]
      case None => rest
      case Some(cve) =>
        if cve.cveID == "" then rest else rest[CanonicalID(cve.cveID) := cve.(cveID := CanonicalID(cve.cveID))]
  }

  /** This entry of the list names the CVE, however its ID is written. */
  predicate Names(entry: Option<CachedCVE>, id: string) {
    entry.Some? && entry.value.cveID != "" && Upper(TrimSpace(entry.value.cveID)) == id
  }

  /** Entry i of the list names the CVE, and no later one does. */
  predicate LastNamed(cves: seq<Option<CachedCVE>>, id: string, i: nat) {
    i < |cves| && Names(cves[i], id) && forall j | i < j < |cves| :: !Names(cves[j], id)
  }

  lemma {:induction false} CachedLast(cache: map<string, CachedCVE>, cves: seq<Option<CachedCVE>>, id: string, i: nat)
    requires LastNamed(cves, id, i)
    ensures id in Cached(cache, cves) && Cached(cache, cves)[id] == cves[i].value.(cveID := id)
  {
    hide Cached, Names;
    CachedStep(cache, cves, id);
    if i < |cves| - 1 {
      CachedLast(cache, cves[..|cves| - 1], id, i);
    }
  }

  lemma {:induction false} CachedNone(cache: map<string, CachedCVE>, cves: seq<Option<CachedCVE>>, id: string)
    requires forall i | 0 <= i < |cves| :: !Names(cves[i], id)
    ensures (id in Cached(cache, cves) <==> id in cache) && (id in cache ==> Cached(cache, cves)[id] == cache[id])
  {
    hide Names;
    if cves != [] {
      CachedStep(cache, cves, id);
      CachedNone(cache, cves[..|cves| - 1], id);
    }
  }

  /** Of several CVEs with one ID the last is cached, under its trimmed upper-case ID; the others of the cache stay. */
  lemma CachedMeans(cache: map<string, CachedCVE>, cves: seq<Option<CachedCVE>>, id: string)
    ensures forall i: nat | LastNamed(cves, id, i) ::
              id in Cached(cache, cves) && Cached(cache, cves)[id] == cves[i].value.(cveID := id)
    ensures (forall i | 0 <= i < |cves| :: !Names(cves[i], id)) ==>
              (id in Cached(cache, cves) <==> id in cache) && (id in cache ==> Cached(cache, cves)[id] == cache[id])
  {
    hide Cached, Names, LastNamed;
    forall i: nat | LastNamed(cves, id, i)
      ensures id in Cached(cache, cves) && i < |cves| && cves[i].Some? && Cached(cache, cves)[id] == cves[i].value.(cveID := id)
    {
      LastIsNamed(cves, id, i);
      CachedLast(cache, cves, id, i);
    }
    if forall i | 0 <= i < |cves| :: !Names(cves[i], id) {
      CachedNone(cache, cves, id);
    }
  }

  lemma LastIsNamed(cves: seq<Option<CachedCVE>>, id: string, i: nat)
    requires LastNamed(cves, id, i)
    ensures i < |cves| && cves[i].Some?
  {
  }

  lemma CachedStep(cache: map<string, CachedCVE>, cves: seq<Option<CachedCVE>>, id: string)
    requires cves != []
    ensures var last, before, after := cves[|cves| - 1], Cached(cache, cves[..|cves| - 1]), Cached(cache, cves);
            if Names(last, id) then id in after && after[id] == last.value.(cveID := id)
            else (id in after <==> id in before) && (id in before ==> after[id] == before[id])
  {
    hide Upper, Trim;
  }

  function DedupKey(tenantID: string, endpointID: string, cveID: string): string {
    tenantID + ":" + endpointID + ":" + cveID
  }

  function KeyOf(r: Record): string {
    DedupKey(r.tenantID, r.endpointID, r.cveID)
  }

  /** A known finding keeps its identity and first sighting; the new posture replaces the old one. */
  function Refreshed(existing: Record, finding: Record, now: int): Record {
    existing.(posture := finding.posture, status := "OPEN", lastSeen := now)
  }

  function Inserted(finding: Record, newID: string, now: int): Record {
    finding.(id := if finding.id == "" then newID else finding.id, cveID := CanonicalID(finding.cveID),
             status := if finding.status == "" then "OPEN" else finding.status, firstSeen := now, lastSeen := now)
  }

  function Upserted(store: Store, finding: Record, newID: string, now: int): Store {
    var key := DedupKey(finding.tenantID, finding.endpointID, CanonicalID(finding.cveID));
    store[key := if key in store then Refreshed(store[key], finding, now) else Inserted(finding, newID, now)]
  }

  /**
    Upserting files the finding under tenant, endpoint and canonical CVE ID. A known one takes over posture and
    time and is open again; a new one is stored as it came, with ID and status filled in. No other is touched.
    */
  lemma UpsertMeans(store: Store, finding: Record, newID: string, now: int)
    ensures var id := Upper(TrimSpace(finding.cveID));
            var key := finding.tenantID + ":" + finding.endpointID + ":" + id;
            var after := Upserted(store, finding, newID, now);
            && after.Keys == store.Keys + {key} && (forall k | k in store && k != key :: after[k] == store[k])
            && (key in store ==>
                  var known := store[key];
                  after[key] == Record(known.id, known.tenantID, known.endpointID, known.hostname, known.cveID, known.title,
                                       finding.posture, "OPEN", known.firstSeen, now))
            && (key !in store ==>
                  after[key] == Record(if finding.id != "" then finding.id else newID, finding.tenantID, finding.endpointID,
                                       finding.hostname, id, finding.title, finding.posture,
                                       if finding.status != "" then finding.status else "OPEN", now, now))
  {
    hide Upper, Trim;
  }

  /** A stored finding: its identity never changes. */
  class Finding {
    const id: string
    const tenantID: string
    const endpointID: string
    const hostname: string
    const cveID: string
    const title: string
    const firstSeen: int
    var posture: Posture
    var status: string
    var lastSeen: int

    constructor (r: Record)
      ensures View() == r
    {
      id, tenantID, endpointID, hostname, cveID, title := r.id, r.tenantID, r.endpointID, r.hostname, r.cveID, r.title;
      posture, status, firstSeen, lastSeen := r.posture, r.status, r.firstSeen, r.lastSeen;
    }

    function View(): Record
      reads this
    {
      Record(id, tenantID, endpointID, hostname, cveID, title, posture, status, firstSeen, lastSeen)
    }

    function Key(): string {
      DedupKey(tenantID, endpointID, cveID)
    }

    method Refresh(finding: Record, now: int)
      modifies this
      ensures View() == Refreshed(old(View()), finding, now)
    {
      lastSeen := now;
      status := "OPEN";
      posture := finding.posture;
    }
  }

  /** The indexes are in bijection: each finding is under its key and under its ID, and nothing else is. */
  ghost predicate Bijection(findings: map<string, Finding>, byID: map<string, Finding>) {
    && (forall k | k in findings :: findings[k].Key() == k && findings[k].id in byID && byID[findings[k].id] == findings[k])
    && (forall id | id in byID :: byID[id].id == id && byID[id].Key() in findings && findings[byID[id].Key()] == byID[id])
  }

  /** Entering a finding under a new key keeps the bijection exactly when its ID is new too. */
  lemma BijectionGrowsIff(findings: map<string, Finding>, byID: map<string, Finding>, f: Finding)
    requires Bijection(findings, byID) && f.Key() !in findings
    ensures Bijection(findings[f.Key() := f], byID[f.id := f]) <==> f.id !in byID
  {
    hide DedupKey;
    var findings' := findings[f.Key() := f];
    if f.id in byID {
      var g := byID[f.id];
      assert g.Key() in findings && findings'[g.Key()] == g;
    }
  }

  lemma KeysTellFindingsApart(findings: map<string, Finding>, byID: map<string, Finding>)
    requires Bijection(findings, byID)
    ensures forall j, k | j in findings && k in findings && findings[j] == findings[k] :: j == k
  {
  }

  class MemoryFindingRepository {
    var cveCache: map<string, CachedCVE>
    var kevCache: map<string, KEVItem>
    var findings: map<string, Finding>
    var byID: map<string, Finding>

    ghost predicate Valid()
      reads this
    {
      && Bijection(findings, byID)
      && forall k | k in cveCache :: cveCache[k].cveID == k && CanonicalID(k) == k
    }

    ghost function Contents(): Store
      reads this`findings, findings.Values
    {
      map k | k in findings :: findings[k].View()
    }

    constructor ()
      ensures Valid() && Contents() == map[] && cveCache == map[] && kevCache == map[]
    {
      cveCache, kevCache, findings, byID := map[], map[], map[], map[];
    }

    method SaveCachedCVEs(cves: seq<Option<CachedCVE>>)
      requires Valid()
      modifies this`cveCache
      ensures Valid() && cveCache == Cached(old(cveCache), cves)
    {
      hide CanonicalID, Bijection;
      for i := 0 to |cves|
        invariant Valid() && cveCache == Cached(old(cveCache), cves[..i])
      {
        assert cves[..i + 1][..i] == cves[..i];
        if cves[i].Some? && cves[i].value.cveID != "" {
          var cve := cves[i].value;
          CanonicalTwice(cve.cveID);
          cve := cve.(cveID := CanonicalID(cve.cveID));
          cveCache := cveCache[cve.cveID := cve];
        }
      }
      assert cves[..|cves|] == cves;
    }

    /** The cached CVEs, each once, in no particular order. */
    method GetCachedCVEs() returns (result: seq<CachedCVE>)
      requires Valid()
      ensures forall i | 0 <= i < |result| :: result[i].cveID in cveCache && cveCache[result[i].cveID] == result[i]
      ensures forall k | k in cveCache :: cveCache[k] in result
      ensures forall i, j | 0 <= i < j < |result| :: result[i].cveID != result[j].cveID
    {
      hide CanonicalID, Bijection;
      result := [];
      var left := cveCache.Keys;
      while left != {}
        invariant left <= cveCache.Keys
        invariant forall i | 0 <= i < |result| :: result[i].cveID in cveCache.Keys - left && cveCache[result[i].cveID] == result[i]
        invariant forall k | k in cveCache.Keys - left :: cveCache[k] in result
        invariant forall i, j | 0 <= i < j < |result| :: result[i].cveID != result[j].cveID
        decreases |left|
      {
        var k :| k in left;
        left := left - {k};
        result := result + [cveCache[k]];
      }
    }

    /** Replaces the catalog, item by item in no particular order. */
    method SaveKEVCatalog(items: map<string, KEVItem>)
      requires Valid()
      modifies this`kevCache
      ensures Valid() && IsCatalog(kevCache, items)
    {
      hide CanonicalID, Bijection;
      kevCache := map[];
      var left := items.Keys;
      while left != {}
        invariant Valid() && left <= items.Keys
        invariant forall k | k in items.Keys - left :: CanonicalID(k) in kevCache
        invariant forall id | id in kevCache :: exists k :: k in items && CanonicalID(k) == id && kevCache[id] == items[k]
        decreases |left|
      {
        var k :| k in left;
        left := left - {k};
        kevCache := kevCache[CanonicalID(k) := items[k]];
      }
    }

    method GetKEVItem(cveID: string) returns (item: Option<KEVItem>)
      ensures item == if CanonicalID(cveID) in kevCache then Some(kevCache[CanonicalID(cveID)]) else None
    {
      item := if CanonicalID(cveID) in kevCache then Some(kevCache[CanonicalID(cveID)]) else None;
    }

    /**
      A known finding is refreshed in place; a new one is entered in both indexes, which stay in bijection
      exactly when the ID it carries or is given is new.
    */
    method UpsertFinding(finding: Option<Record>, newID: string, now: int) returns (r: Result<(Finding, bool), UpsertError>)
      requires Valid()
      modifies this`findings, this`byID, findings.Values
      ensures r.Err? <==> finding.None? || finding.value.tenantID == "" || finding.value.endpointID == "" || finding.value.cveID == ""
      ensures Valid() <==> (r.Ok? && r.value.1 ==> Inserted(finding.value, newID, now).id !in old(byID))
      ensures r.Err? ==> r.error == if finding.None? then NilFinding
                                    else if finding.value.tenantID == "" then MissingTenant
                                    else if finding.value.endpointID == "" then MissingEndpoint else MissingCVE
      ensures r.Err? ==> findings == old(findings) && byID == old(byID) && Contents() == old(Contents())
      ensures r.Ok? ==>
                var key := KeyOf(Inserted(finding.value, newID, now));
                && Contents() == Upserted(old(Contents()), finding.value, newID, now)
                && r.value.1 == (key !in old(findings))
                && key in findings && r.value.0 == findings[key]
                && findings == old(findings)[key := r.value.0]
                && (if r.value.1 then fresh(r.value.0) && byID == old(byID)[Inserted(finding.value, newID, now).id := r.value.0]
                    else r.value.0 == old(findings)[key] && byID == old(byID))
    {
      hide DedupKey, CanonicalID, Bijection;
      if finding.None? {
        return Err(NilFinding);
      }
      var f := finding.value;
      if f.tenantID == "" {
        return Err(MissingTenant);
      }
      if f.endpointID == "" {
        return Err(MissingEndpoint);
      }
      if f.cveID == "" {
        return Err(MissingCVE);
      }
      KeysTellFindingsApart(findings, byID);
      var dedupKey := DedupKey(f.tenantID, f.endpointID, CanonicalID(f.cveID));
      if dedupKey in findings {
        var existing := findings[dedupKey];
        existing.Refresh(f, now);
        return Ok((existing, false));
      }
      var stored := new Finding(Inserted(f, newID, now));
      assert stored.Key() == dedupKey && stored.id == stored.View().id;
      BijectionGrowsIff(findings, byID, stored);
      findings := findings[dedupKey := stored];
      byID := byID[stored.id := stored];
      return Ok((stored, true));
    }
  }
}
